/** The equivalence sets of a classified vocabulary and the passes that choose
    one representative per set and mark sets as indexed
    (TBoxReasonerImpl.java, lines 284-432). The sets themselves (the strongly
    connected components of an inclusion graph) are given. */
module Representatives {
  import opened Wrappers
  import opened Ordering
  import opened Ontology

  /** Non-empty, pairwise disjoint member sets. */
  predicate IsPartition<T>(sets: seq<set<T>>) {
    && (forall i :: 0 <= i < |sets| ==> sets[i] != {})
    && (forall i, j, x :: 0 <= i < j < |sets| && x in sets[i] ==> x !in sets[j])
  }

  /** `getVertex`: the position of the set that holds `x`, if any. */
  function VertexOf<T>(sets: seq<set<T>>, x: T): (r: Option<nat>)
    ensures r.Some? ==> r.value < |sets| && x in sets[r.value]
    ensures r.Some? ==> forall k :: 0 <= k < r.value ==> x !in sets[k]
    ensures r.None? <==> forall k :: 0 <= k < |sets| ==> x !in sets[k]
  {
    if sets == [] then None
    else if x in sets[0] then Some(0)
    else match VertexOf(sets[1..], x)
      case None => None
      case Some(k) => Some(k + 1)
  }

  /** In a partition, the set that holds `x` is the only one. */
  lemma VertexOfMember<T>(sets: seq<set<T>>, i: nat, x: T)
    requires IsPartition(sets)
    requires i < |sets| && x in sets[i]
    ensures VertexOf(sets, x) == Some(i)
  {
  }

  /** A set of at most one element holding `x` is `{x}`. */
  lemma SingletonSet<T>(s: set<T>, x: T)
    requires x in s && |s| <= 1
    ensures s == {x}
  {
    assert |s - {x}| == |s| - 1;
    assert s - {x} == {};
  }

  /** The equivalence sets of a DAG (`Equivalences`), each with its
      representative (null until chosen) and its indexed flag. */
  class EquivalencesDAG<T(==)> {
    const sets: seq<set<T>>
    var representative: seq<Option<T>>
    var indexed: seq<bool>

    ghost predicate Valid()
      reads this
    {
      |representative| == |sets| && |indexed| == |sets| && IsPartition(sets)
    }

    /** A DAG as the strongly-connected-component computation leaves it: no
        representative is chosen and no set is indexed. */
    constructor (sets: seq<set<T>>)
      requires IsPartition(sets)
      ensures Valid() && this.sets == sets
      ensures representative == seq(|sets|, _ => None) && indexed == seq(|sets|, _ => false)
    {
      this.sets := sets;
      representative := seq(|sets|, _ => None);
      indexed := seq(|sets|, _ => false);
    }

    method SetRepresentative(i: nat, r: T)
      requires Valid() && i < |sets|
      modifies this
      ensures Valid()
      ensures representative == old(representative)[i := Some(r)] && indexed == old(indexed)
    {
      representative := representative[i := Some(r)];
    }

    method SetIndexed(i: nat)
      requires Valid() && i < |sets|
      modifies this
      ensures Valid()
      ensures indexed == old(indexed)[i := true] && representative == old(representative)
    {
      indexed := indexed[i := true];
    }
  }

  // ---------------------------------------------------------------------
  // Object properties

  /** The inverses of the members of `a`. */
  function Inverses(a: set<ObjectPropertyExpression>): set<ObjectPropertyExpression> {
    set y | y in a :: y.Inverse()
  }

  /** The position of the set holding the inverse of some member of set `i`. */
  ghost function MirrorIndex(sets: seq<set<ObjectPropertyExpression>>, i: nat): Option<nat>
    requires i < |sets| && sets[i] != {}
  {
    var x :| x in sets[i];
    VertexOf(sets, x.Inverse())
  }

  /** The equivalence sets of a graph closed under inverse: the inverses of
      the members of any set form a set of the partition. */
  ghost predicate InverseClosed(sets: seq<set<ObjectPropertyExpression>>)
    requires IsPartition(sets)
  {
    forall i {:trigger MirrorIndex(sets, i)} :: 0 <= i < |sets| ==>
      MirrorIndex(sets, i).Some? && sets[MirrorIndex(sets, i).value] == Inverses(sets[i])
  }

  /** Each set either has no representative and is not indexed, or has its
      smallest member as representative and is indexed exactly when that
      member is not an inverse. */
  ghost predicate ObjectPropertyChoice(sets: seq<set<ObjectPropertyExpression>>,
                                       reps: seq<Option<ObjectPropertyExpression>>, indexed: seq<bool>) {
    && |reps| == |sets| && |indexed| == |sets|
    && forall i :: 0 <= i < |sets| ==>
         if reps[i].None? then !indexed[i]
         else IsMinimum(reps[i].value, sets[i], ObjectPropertyCompare) && (indexed[i] <==> !reps[i].value.isInverse)
  }

  /** A set has at most one smallest member under the object-property
      comparator. */
  lemma ObjectPropertyMinimumUnique(m1: ObjectPropertyExpression, m2: ObjectPropertyExpression,
                                    s: set<ObjectPropertyExpression>)
    requires IsMinimum(m1, s, ObjectPropertyCompare) && IsMinimum(m2, s, ObjectPropertyCompare)
    ensures m1 == m2
  {
    assert ObjectPropertyCompare(m1, m2) >= 0 && ObjectPropertyCompare(m2, m1) >= 0;
    JavaStrings.CompareToAntisymmetric(m1.name, m2.name);
    ObjectPropertyCompareZeroIff(m1, m2);
  }

  /** The smallest member of a set and the smallest member of its mirror set
      are inverses of each other. */
  lemma MirrorMinimum(a: set<ObjectPropertyExpression>, b: set<ObjectPropertyExpression>, m: ObjectPropertyExpression)
    requires b == Inverses(a) && a !! b
    requires IsMinimum(m, a, ObjectPropertyCompare)
    ensures IsMinimum(m.Inverse(), b, ObjectPropertyCompare)
  {
    assert m.Inverse() in b;
    assert m.Inverse() !in a;
    forall y | y in b
      ensures ObjectPropertyCompare(y, m.Inverse()) >= 0
    {
      var x :| x in a && y == x.Inverse();
      assert x != m.Inverse();
      assert ObjectPropertyCompare(x, m) >= 0;
      JavaStrings.CompareToZeroIff(x.name, m.name);
    }
  }

  /** A set closed under inverse has a non-inverse smallest member. */
  lemma SymmetricMinimum(a: set<ObjectPropertyExpression>, m: ObjectPropertyExpression)
    requires a == Inverses(a)
    requires IsMinimum(m, a, ObjectPropertyCompare)
    ensures !m.isInverse
  {
    assert m.Inverse() in a && m.Inverse().Inverse() == m;
    assert ObjectPropertyCompare(m.Inverse(), m) >= 0;
    ObjectPropertyOrder(m.Inverse(), m);
  }

  /** The set holding the inverse of the smallest member of set `i` is its
      mirror; it is a different set exactly when that inverse is not in set
      `i`, and then its smallest member is that inverse. */
  lemma MirrorOfMinimum(sets: seq<set<ObjectPropertyExpression>>, i: nat, m: ObjectPropertyExpression)
    requires IsPartition(sets) && InverseClosed(sets)
    requires i < |sets|
    requires IsMinimum(m, sets[i], ObjectPropertyCompare)
    ensures VertexOf(sets, m.Inverse()).Some?
    ensures var j := VertexOf(sets, m.Inverse()).value;
      && sets[j] == Inverses(sets[i])
      && (i == j <==> m.Inverse() in sets[i])
      && (i == j ==> !m.isInverse)
      && (i != j ==> IsMinimum(m.Inverse(), sets[j], ObjectPropertyCompare) && sets[i] !! sets[j])
  {
    var j := MirrorIndex(sets, i).value;
    assert sets[j] == Inverses(sets[i]);
    assert m.Inverse() in sets[j];
    VertexOfMember(sets, j, m.Inverse());
    if i == j {
      SymmetricMinimum(sets[i], m);
    } else {
      forall x | x in sets[i] ensures x !in sets[j] {
        if i < j {} else {}
      }
      MirrorMinimum(sets[i], sets[j], m);
    }
  }

  /** One step of the pass, on values: giving an untouched set its smallest
      member `m`, giving its mirror set `j` the inverse of `m`, and indexing
      whichever of the two has a non-inverse representative keeps the choice
      consistent. */
  lemma ObjectPropertyStep(sets: seq<set<ObjectPropertyExpression>>, reps: seq<Option<ObjectPropertyExpression>>,
                           indexed: seq<bool>, i: nat, m: ObjectPropertyExpression, j: nat)
    requires ObjectPropertyChoice(sets, reps, indexed)
    requires i < |sets| && j < |sets| && reps[i].None?
    requires IsMinimum(m, sets[i], ObjectPropertyCompare)
    requires i == j <==> m.Inverse() in sets[i]
    requires i == j ==> !m.isInverse
    requires i != j ==> IsMinimum(m.Inverse(), sets[j], ObjectPropertyCompare)
    ensures var reps' := if m.Inverse() in sets[i] then reps[i := Some(m)] else reps[i := Some(m)][j := Some(m.Inverse())];
            var indexed' := if m.isInverse then indexed[j := true] else indexed[i := true];
            ObjectPropertyChoice(sets, reps', indexed')
  {
    var reps' := if m.Inverse() in sets[i] then reps[i := Some(m)] else reps[i := Some(m)][j := Some(m.Inverse())];
    var indexed' := if m.isInverse then indexed[j := true] else indexed[i := true];
    forall k | 0 <= k < |sets|
      ensures if reps'[k].None? then !indexed'[k]
              else IsMinimum(reps'[k].value, sets[k], ObjectPropertyCompare) && (indexed'[k] <==> !reps'[k].value.isInverse)
    {
      if k == i {
        assert reps'[k] == Some(m);
      } else if k == j {
        assert reps'[k] == Some(m.Inverse());
        if reps[j].Some? {
          ObjectPropertyMinimumUnique(reps[j].value, m.Inverse(), sets[j]);
        }
      } else {
        assert reps'[k] == reps[k] && indexed'[k] == indexed[k];
      }
    }
  }

  /** The object-property pass: for each set without a representative, take
      its smallest member; when that is an inverse, take instead the inverse of
      the smallest member of the mirror set and index the mirror set,
      otherwise index the set; the mirror set of a non-symmetric set gets the
      inverse of the representative. Every set ends with its smallest member
      as representative, so the outcome does not depend on the order in which
      the sets are visited. */
  method ChooseObjectPropertyRepresentatives(dag: EquivalencesDAG<ObjectPropertyExpression>)
    requires dag.Valid() && InverseClosed(dag.sets)
    requires ObjectPropertyChoice(dag.sets, dag.representative, dag.indexed)
    modifies dag
    ensures dag.Valid()
    ensures ObjectPropertyChoice(dag.sets, dag.representative, dag.indexed)
    ensures forall i :: 0 <= i < |dag.sets| ==> dag.representative[i].Some?
  {
    for i := 0 to |dag.sets|
      invariant dag.Valid()
      invariant ObjectPropertyChoice(dag.sets, dag.representative, dag.indexed)
      invariant forall k :: 0 <= k < i ==> dag.representative[k].Some?
    {
      // skip if it has already been done
      if dag.representative[i].None? {
        ChooseObjectPropertyRepresentative(dag, i);
      }
    }
  }

  /** `Collections.min` with the object-property comparator. */
  method MinObjectProperty(s: set<ObjectPropertyExpression>) returns (m: ObjectPropertyExpression)
    requires s != {}
    ensures IsMinimum(m, s, ObjectPropertyCompare)
  {
    ObjectPropertyComparatorContract();
    m := MinBy(s, ObjectPropertyCompare);
  }

  /** The body of the pass for one set that has no representative yet. */
  method ChooseObjectPropertyRepresentative(dag: EquivalencesDAG<ObjectPropertyExpression>, i: nat)
    requires dag.Valid() && InverseClosed(dag.sets)
    requires ObjectPropertyChoice(dag.sets, dag.representative, dag.indexed)
    requires i < |dag.sets| && dag.representative[i].None?
    modifies dag
    ensures dag.Valid()
    ensures ObjectPropertyChoice(dag.sets, dag.representative, dag.indexed)
    ensures forall k :: 0 <= k < |dag.sets| && old(dag.representative[k]).Some? ==> dag.representative[k].Some?
    ensures dag.representative[i].Some?
  {
    var members := dag.sets[i];
    var rep := MinObjectProperty(members);
    var repInv := rep.Inverse();
    ghost var m, reps, indexed := rep, dag.representative, dag.indexed;
    MirrorOfMinimum(dag.sets, i, m);
    var j := VertexOf(dag.sets, repInv).value;
    ObjectPropertyStep(dag.sets, reps, indexed, i, m, j);
    if rep.isInverse {
      repInv := MinObjectProperty(dag.sets[j]);
      ObjectPropertyMinimumUnique(repInv, m.Inverse(), dag.sets[j]);
      rep := repInv.Inverse();
      dag.SetIndexed(j);
    } else {
      dag.SetIndexed(i);
    }
    assert rep == m && repInv == m.Inverse();
    assert dag.indexed == if m.isInverse then indexed[j := true] else indexed[i := true];
    dag.SetRepresentative(i, rep);
    if repInv !in members {
      // not symmetric
      dag.SetRepresentative(j, repInv);
    }
    assert dag.representative ==
      if m.Inverse() in members then reps[i := Some(m)] else reps[i := Some(m)][j := Some(m.Inverse())];
  }

  /** After the pass, the representative of a non-symmetric set and that of
      its mirror set are inverses of each other and exactly one of the two
      sets is indexed; a symmetric set is indexed. */
  lemma ObjectPropertyMirrorSets(sets: seq<set<ObjectPropertyExpression>>, reps: seq<Option<ObjectPropertyExpression>>,
                                 indexed: seq<bool>, i: nat)
    requires IsPartition(sets) && InverseClosed(sets)
    requires ObjectPropertyChoice(sets, reps, indexed)
    requires forall k :: 0 <= k < |sets| ==> reps[k].Some?
    requires i < |sets|
    ensures VertexOf(sets, reps[i].value.Inverse()).Some?
    ensures var j := VertexOf(sets, reps[i].value.Inverse()).value;
      if j == i then indexed[i]
      else reps[j] == Some(reps[i].value.Inverse()) && (indexed[i] <==> !indexed[j])
  {
    var m := reps[i].value;
    assert m in sets[i];
    MirrorOfMinimum(sets, i, m);
    var j := VertexOf(sets, m.Inverse()).value;
    if j != i {
      ObjectPropertyMinimumUnique(reps[j].value, m.Inverse(), sets[j]);
    }
  }

  // ---------------------------------------------------------------------
  // Data properties

  /** `Collections.min` with the data-property comparator. */
  method MinDataProperty(s: set<DataPropertyExpression>) returns (m: DataPropertyExpression)
    requires s != {}
    ensures IsMinimum(m, s, DataPropertyCompare)
  {
    NameComparatorsContract();
    m := MinBy(s, DataPropertyCompare);
  }

  /** The data-property pass: a set that already has a representative is
      left alone; every other set gets its smallest member and is indexed. */
  method ChooseDataPropertyRepresentatives(dag: EquivalencesDAG<DataPropertyExpression>)
    requires dag.Valid()
    modifies dag
    ensures dag.Valid()
    ensures forall i :: 0 <= i < |dag.sets| ==>
      if old(dag.representative)[i].Some? then
        dag.representative[i] == old(dag.representative)[i] && dag.indexed[i] == old(dag.indexed)[i]
      else
        dag.representative[i].Some? && IsMinimum(dag.representative[i].value, dag.sets[i], DataPropertyCompare)
        && dag.indexed[i]
  {
    for i := 0 to |dag.sets|
      invariant dag.Valid()
      invariant forall k :: 0 <= k < i ==>
        if old(dag.representative)[k].Some? then
          dag.representative[k] == old(dag.representative)[k] && dag.indexed[k] == old(dag.indexed)[k]
        else
          dag.representative[k].Some? && IsMinimum(dag.representative[k].value, dag.sets[k], DataPropertyCompare)
          && dag.indexed[k]
      invariant forall k :: i <= k < |dag.sets| ==>
        dag.representative[k] == old(dag.representative)[k] && dag.indexed[k] == old(dag.indexed)[k]
    {
      // skip if it has already been done
      if dag.representative[i].Some? {
        continue;
      }
      var rep := MinDataProperty(dag.sets[i]);
      dag.SetIndexed(i);
      dag.SetRepresentative(i, rep);
    }
  }

  /** Whatever the iteration order, a data-property set chosen by the pass
      has one possible representative. */
  lemma DataPropertyRepresentativeUnique(m1: DataPropertyExpression, m2: DataPropertyExpression, s: set<DataPropertyExpression>)
    requires IsMinimum(m1, s, DataPropertyCompare) && IsMinimum(m2, s, DataPropertyCompare)
    ensures m1 == m2
  {
    NameComparatorsContract();
    MinimumIsUnique(m1, m2, s, DataPropertyCompare);
  }

  // ---------------------------------------------------------------------
  // Classes

  /** A null-reference exception, thrown on dereferencing null. */
  const NULL_DEREFERENCE := "null dereference"
  const CLASS_CAST := "java.lang.ClassCastException"

  function AsNamedClass(e: ClassExpression): Option<OClass> {
    if e.NamedClass? then Some(e.cls) else None
  }

  /** The representative derived from an existential when a set has no named
      class: the domain of the representative of its property, or the
      rdfs:Literal domain restriction of the representative of its data
      property. An error where the Java code dereferences null (no vertex, or
      a vertex without a representative) or casts a named class. */
  function DerivedClassRepresentative(first: ClassExpression, op: EquivalencesDAG<ObjectPropertyExpression>,
                                      dp: EquivalencesDAG<DataPropertyExpression>): Result<ClassExpression>
    reads op, dp
    requires op.Valid() && dp.Valid()
  {
    match first
    case ObjectSomeValuesFrom(p) =>
      (match VertexOf(op.sets, p)
       case None => Err(NULL_DEREFERENCE)
       case Some(k) =>
         if op.representative[k].None? then Err(NULL_DEREFERENCE) else Ok(op.representative[k].value.Domain()))
    case DataSomeValuesFrom(p, _) =>
      (match VertexOf(dp.sets, p)
       case None => Err(NULL_DEREFERENCE)
       case Some(k) =>
         if dp.representative[k].None? then Err(NULL_DEREFERENCE)
         else Ok(dp.representative[k].value.DomainRestriction(RdfsLiteral)))
    case NamedClass(_) => Err(CLASS_CAST)
  }

  /** What the class pass chooses for set `s`, whose iteration yields `first`
      first: the only member of a singleton, else the smallest named class,
      else the class derived from `first`. */
  ghost predicate IsClassRepresentative(rep: ClassExpression, s: set<ClassExpression>, first: ClassExpression,
                                        op: EquivalencesDAG<ObjectPropertyExpression>,
                                        dp: EquivalencesDAG<DataPropertyExpression>)
    reads op, dp
    requires op.Valid() && dp.Valid()
  {
    if |s| <= 1 then rep == first
    else if Selected(s, AsNamedClass) != {} then
      rep.NamedClass? && IsMinimum(rep.cls, Selected(s, AsNamedClass), ClassCompare)
    else DerivedClassRepresentative(first, op, dp) == Ok(rep)
  }

  /** The class pass fails on `s` exactly when it has to derive a
      representative and the derivation fails. */
  ghost predicate ClassRepresentativeFails(s: set<ClassExpression>, first: ClassExpression,
                                           op: EquivalencesDAG<ObjectPropertyExpression>,
                                           dp: EquivalencesDAG<DataPropertyExpression>)
    reads op, dp
    requires op.Valid() && dp.Valid()
  {
    |s| > 1 && Selected(s, AsNamedClass) == {} && DerivedClassRepresentative(first, op, dp).Err?
  }

  /** The representative the class pass computes for one set. */
  method ClassRepresentative(s: set<ClassExpression>, first: ClassExpression,
                             op: EquivalencesDAG<ObjectPropertyExpression>, dp: EquivalencesDAG<DataPropertyExpression>)
    returns (r: Result<ClassExpression>)
    requires op.Valid() && dp.Valid()
    requires first in s
    ensures r.Err? <==> ClassRepresentativeFails(s, first, op, dp)
    ensures r.Ok? ==> IsClassRepresentative(r.value, s, first, op, dp)
  {
    if |s| <= 1 {
      return Ok(first);
    }
    // find a named class as a representative
    NameComparatorsContract();
    var named := MinSelected(s, AsNamedClass, ClassCompare);
    if named.Some? {
      return Ok(NamedClass(named.value));
    }
    match first
    case ObjectSomeValuesFrom(prop) =>
      var vertex := VertexOf(op.sets, prop);
      if vertex.None? || op.representative[vertex.value].None? {
        return Err(NULL_DEREFERENCE);
      }
      var propRep := op.representative[vertex.value].value;
      r := Ok(propRep.Domain());
    case DataSomeValuesFrom(prop, _) =>
      var vertex := VertexOf(dp.sets, prop);
      if vertex.None? || dp.representative[vertex.value].None? {
        return Err(NULL_DEREFERENCE);
      }
      var propRep := dp.representative[vertex.value].value;
      r := Ok(propRep.DomainRestriction(RdfsLiteral));
    case NamedClass(_) =>
      r := Err(CLASS_CAST);
  }

  /** A class representative is a named class exactly when the set holds a
      named class: the class pass indexes exactly those sets. */
  lemma ClassRepresentativeNamedIff(rep: ClassExpression, s: set<ClassExpression>, first: ClassExpression,
                                    op: EquivalencesDAG<ObjectPropertyExpression>, dp: EquivalencesDAG<DataPropertyExpression>)
    requires op.Valid() && dp.Valid()
    requires first in s
    requires IsClassRepresentative(rep, s, first, op, dp)
    ensures rep.NamedClass? <==> Selected(s, AsNamedClass) != {}
    ensures rep.NamedClass? ==> rep in s
  {
    if |s| <= 1 {
      SingletonSet(s, first);
      if first.NamedClass? {
        assert first.cls in Selected(s, AsNamedClass);
      }
    } else if Selected(s, AsNamedClass) != {} {
      var c := rep.cls;
      assert c in Selected(s, AsNamedClass);
      var e :| e in s && AsNamedClass(e).Some? && AsNamedClass(e).value == c;
      assert e == rep;
    }
  }

  /** When a set holds a named class, its representative does not depend on
      the iteration order. */
  lemma NamedClassRepresentativeUnique(r1: ClassExpression, r2: ClassExpression, s: set<ClassExpression>,
                                       first1: ClassExpression, first2: ClassExpression,
                                       op: EquivalencesDAG<ObjectPropertyExpression>, dp: EquivalencesDAG<DataPropertyExpression>)
    requires op.Valid() && dp.Valid()
    requires first1 in s && first2 in s && Selected(s, AsNamedClass) != {}
    requires IsClassRepresentative(r1, s, first1, op, dp) && IsClassRepresentative(r2, s, first2, op, dp)
    ensures r1 == r2
  {
    if |s| <= 1 {
      SingletonSet(s, first1);
      SingletonSet(s, first2);
    } else {
      NameComparatorsContract();
      MinimumIsUnique(r1.cls, r2.cls, Selected(s, AsNamedClass), ClassCompare);
    }
  }

  /** The class pass: every set gets the representative `ClassRepresentative`
      computes and is indexed when that is a named class; `first(s)` is the
      member the set's iteration yields first. It stops at the first set whose
      representative cannot be derived. */
  method ChooseClassRepresentatives(dag: EquivalencesDAG<ClassExpression>,
                                    op: EquivalencesDAG<ObjectPropertyExpression>,
                                    dp: EquivalencesDAG<DataPropertyExpression>,
                                    first: set<ClassExpression> -> ClassExpression)
    returns (r: Result<()>)
    requires dag.Valid() && op.Valid() && dp.Valid()
    requires forall i :: 0 <= i < |dag.sets| ==> first(dag.sets[i]) in dag.sets[i]
    modifies dag
    ensures dag.Valid()
    ensures r.Ok? <==> forall i :: 0 <= i < |dag.sets| ==> !ClassRepresentativeFails(dag.sets[i], first(dag.sets[i]), op, dp)
    ensures r.Ok? ==> forall i :: 0 <= i < |dag.sets| ==>
      && dag.representative[i].Some?
      && IsClassRepresentative(dag.representative[i].value, dag.sets[i], first(dag.sets[i]), op, dp)
      && dag.indexed[i] == (old(dag.indexed)[i] || dag.representative[i].value.NamedClass?)
  {
    for i := 0 to |dag.sets|
      invariant dag.Valid()
      invariant forall k :: 0 <= k < i ==> !ClassRepresentativeFails(dag.sets[k], first(dag.sets[k]), op, dp)
      invariant forall k :: 0 <= k < i ==>
        && dag.representative[k].Some?
        && IsClassRepresentative(dag.representative[k].value, dag.sets[k], first(dag.sets[k]), op, dp)
        && dag.indexed[k] == (old(dag.indexed)[k] || dag.representative[k].value.NamedClass?)
      invariant forall k :: i <= k < |dag.sets| ==> dag.indexed[k] == old(dag.indexed)[k]
    {
      var rep := ClassRepresentative(dag.sets[i], first(dag.sets[i]), op, dp);
      if rep.Err? {
        return Err(rep.message);
      }
      dag.SetRepresentative(i, rep.value);
      if rep.value.NamedClass? {
        dag.SetIndexed(i);
      }
    }
    return Ok(());
  }

  // ---------------------------------------------------------------------
  // Data ranges

  const UNKNOWN_DATA_PROPERTY := "Unknown data property: "

  function AsNamedDatatype(e: DataRangeExpression): Option<Datatype> {
    if e.NamedDatatype? then Some(e.dt) else None
  }

  /** The range of the representative of the property of `first`. An
      IllegalStateException when the property has no vertex, an error where
      the Java code dereferences null or casts a datatype. */
  function DerivedRangeRepresentative(first: DataRangeExpression, dp: EquivalencesDAG<DataPropertyExpression>)
    : Result<DataRangeExpression>
    reads dp
    requires dp.Valid()
  {
    match first
    case DataPropertyRangeExpression(p) =>
      (match VertexOf(dp.sets, p)
       case None => Err(UNKNOWN_DATA_PROPERTY + p.name)
       case Some(k) =>
         if dp.representative[k].None? then Err(NULL_DEREFERENCE) else Ok(dp.representative[k].value.Range()))
    case NamedDatatype(_) => Err(CLASS_CAST)
  }

  /** What the data-range pass chooses for set `s`: the only member of a
      singleton, else the smallest named datatype, else the range derived from
      `first`. */
  ghost predicate IsDataRangeRepresentative(rep: DataRangeExpression, s: set<DataRangeExpression>,
                                            first: DataRangeExpression, dp: EquivalencesDAG<DataPropertyExpression>)
    reads dp
    requires dp.Valid()
  {
    if |s| <= 1 then rep == first
    else if Selected(s, AsNamedDatatype) != {} then
      rep.NamedDatatype? && IsMinimum(rep.dt, Selected(s, AsNamedDatatype), DatatypeCompare)
    else DerivedRangeRepresentative(first, dp) == Ok(rep)
  }

  ghost predicate DataRangeRepresentativeFails(s: set<DataRangeExpression>, first: DataRangeExpression,
                                               dp: EquivalencesDAG<DataPropertyExpression>)
    reads dp
    requires dp.Valid()
  {
    |s| > 1 && Selected(s, AsNamedDatatype) == {} && DerivedRangeRepresentative(first, dp).Err?
  }

  /** The representative the data-range pass computes for one set. */
  method DataRangeRepresentative(s: set<DataRangeExpression>, first: DataRangeExpression,
                                 dp: EquivalencesDAG<DataPropertyExpression>)
    returns (r: Result<DataRangeExpression>)
    requires dp.Valid()
    requires first in s
    ensures r.Err? <==> DataRangeRepresentativeFails(s, first, dp)
    ensures r.Err? ==> r == DerivedRangeRepresentative(first, dp)
    ensures r.Ok? ==> IsDataRangeRepresentative(r.value, s, first, dp)
  {
    if |s| <= 1 {
      return Ok(first);
    }
    // find a named datatype as a representative
    NameComparatorsContract();
    var named := MinSelected(s, AsNamedDatatype, DatatypeCompare);
    if named.Some? {
      return Ok(NamedDatatype(named.value));
    }
    match first
    case DataPropertyRangeExpression(prop) =>
      var vertex := VertexOf(dp.sets, prop);
      if vertex.None? {
        return Err(UNKNOWN_DATA_PROPERTY + prop.name);
      }
      if dp.representative[vertex.value].None? {
        return Err(NULL_DEREFERENCE);
      }
      var propRep := dp.representative[vertex.value].value;
      r := Ok(propRep.Range());
    case NamedDatatype(_) =>
      r := Err(CLASS_CAST);
  }

  /** A data-range representative is a named datatype exactly when the set
      holds one. */
  lemma DataRangeRepresentativeNamedIff(rep: DataRangeExpression, s: set<DataRangeExpression>, first: DataRangeExpression,
                                        dp: EquivalencesDAG<DataPropertyExpression>)
    requires dp.Valid()
    requires first in s
    requires IsDataRangeRepresentative(rep, s, first, dp)
    ensures rep.NamedDatatype? <==> Selected(s, AsNamedDatatype) != {}
    ensures rep.NamedDatatype? ==> rep in s
  {
    if |s| <= 1 {
      SingletonSet(s, first);
      if first.NamedDatatype? {
        assert first.dt in Selected(s, AsNamedDatatype);
      }
    } else if Selected(s, AsNamedDatatype) != {} {
      var d := rep.dt;
      assert d in Selected(s, AsNamedDatatype);
      var e :| e in s && AsNamedDatatype(e).Some? && AsNamedDatatype(e).value == d;
      assert e == rep;
    }
  }

  /** The indexing the data-range pass as written leaves: none changes. */
  ghost predicate DataRangeIndexingAsWritten(oldIndexed: seq<bool>, indexed: seq<bool>) {
    indexed == oldIndexed
  }

  /** The indexing the class pass applies, stated for data ranges: a set
      becomes indexed when its representative is a named datatype. */
  ghost predicate DataRangeIndexing(oldIndexed: seq<bool>, reps: seq<Option<DataRangeExpression>>, indexed: seq<bool>) {
    && |indexed| == |oldIndexed| == |reps|
    && forall i :: 0 <= i < |reps| ==>
         indexed[i] == (oldIndexed[i] || (reps[i].Some? && reps[i].value.NamedDatatype?))
  }

  /** A single set holding rdfs:Literal: the pass as written leaves it
      unindexed although its representative is a named datatype. */
  lemma DataRangeIndexingDiscrepancy(indexed: seq<bool>)
    requires DataRangeIndexingAsWritten([false], indexed)
    ensures !DataRangeIndexing([false], [Some(NamedDatatype(RdfsLiteral))], indexed)
  {
    assert indexed[0] == false;
  }

  /** The data-range pass as written: it chooses representatives like the
      class pass, but its indexing test asks whether a data range is a class,
      which never holds, so no set becomes indexed. */
  method ChooseDataRangeRepresentativesAsWritten(dag: EquivalencesDAG<DataRangeExpression>,
                                                 dp: EquivalencesDAG<DataPropertyExpression>,
                                                 first: set<DataRangeExpression> -> DataRangeExpression)
    returns (r: Result<()>)
    requires dag.Valid() && dp.Valid()
    requires forall i :: 0 <= i < |dag.sets| ==> first(dag.sets[i]) in dag.sets[i]
    modifies dag
    ensures dag.Valid()
    ensures r.Ok? <==> forall i :: 0 <= i < |dag.sets| ==> !DataRangeRepresentativeFails(dag.sets[i], first(dag.sets[i]), dp)
    ensures r.Ok? ==> forall i :: 0 <= i < |dag.sets| ==>
      dag.representative[i].Some? && IsDataRangeRepresentative(dag.representative[i].value, dag.sets[i], first(dag.sets[i]), dp)
    ensures DataRangeIndexingAsWritten(old(dag.indexed), dag.indexed)
  {
    for i := 0 to |dag.sets|
      invariant dag.Valid()
      invariant forall k :: 0 <= k < i ==> !DataRangeRepresentativeFails(dag.sets[k], first(dag.sets[k]), dp)
      invariant forall k :: 0 <= k < i ==>
        dag.representative[k].Some? && IsDataRangeRepresentative(dag.representative[k].value, dag.sets[k], first(dag.sets[k]), dp)
      invariant dag.indexed == old(dag.indexed)
    {
      var rep := DataRangeRepresentative(dag.sets[i], first(dag.sets[i]), dp);
      if rep.Err? {
        return Err(rep.message);
      }
      dag.SetRepresentative(i, rep.value);
      // the source indexes the set when `representative instanceof OClass`,
      // which no data range expression is: the set is never indexed
    }
    return Ok(());
  }

  /** The data-range pass with the indexing test the class pass uses, stated
      for datatypes: a set is indexed when its representative is a named
      datatype. */
  method ChooseDataRangeRepresentatives(dag: EquivalencesDAG<DataRangeExpression>,
                                        dp: EquivalencesDAG<DataPropertyExpression>,
                                        first: set<DataRangeExpression> -> DataRangeExpression)
    returns (r: Result<()>)
    requires dag.Valid() && dp.Valid()
    requires forall i :: 0 <= i < |dag.sets| ==> first(dag.sets[i]) in dag.sets[i]
    modifies dag
    ensures dag.Valid()
    ensures r.Ok? <==> forall i :: 0 <= i < |dag.sets| ==> !DataRangeRepresentativeFails(dag.sets[i], first(dag.sets[i]), dp)
    ensures r.Ok? ==> forall i :: 0 <= i < |dag.sets| ==>
      && dag.representative[i].Some?
      && IsDataRangeRepresentative(dag.representative[i].value, dag.sets[i], first(dag.sets[i]), dp)
    ensures r.Ok? ==> DataRangeIndexing(old(dag.indexed), dag.representative, dag.indexed)
  {
    for i := 0 to |dag.sets|
      invariant dag.Valid()
      invariant forall k :: 0 <= k < i ==> !DataRangeRepresentativeFails(dag.sets[k], first(dag.sets[k]), dp)
      invariant forall k :: 0 <= k < i ==>
        && dag.representative[k].Some?
        && IsDataRangeRepresentative(dag.representative[k].value, dag.sets[k], first(dag.sets[k]), dp)
        && dag.indexed[k] == (old(dag.indexed)[k] || dag.representative[k].value.NamedDatatype?)
      invariant forall k :: i <= k < |dag.sets| ==> dag.indexed[k] == old(dag.indexed)[k]
    {
      var rep := DataRangeRepresentative(dag.sets[i], first(dag.sets[i]), dp);
      if rep.Err? {
        return Err(rep.message);
      }
      dag.SetRepresentative(i, rep.value);
      if rep.value.NamedDatatype? {
        dag.SetIndexed(i);
      }
    }
    return Ok(());
  }
}
