/** The result set of a CONSTRUCT or DESCRIBE query
    (DefaultSimpleGraphResultSet.java): a FIFO buffer of ABox assertions,
    fed by turning the rows of a tuple result set into triples through the
    query's construct template. */
module GraphResultSet {
  import opened Wrappers
  import opened ABox

  const RDF_TYPE := "http://www.w3.org/1999/02/22-rdf-syntax-ns#type"
  const UNBOUND_VARIABLE := "Invalid query. Found unbound variable: "
  const CLASS_CAST := "java.lang.ClassCastException"
  const INCONSISTENT := "InconsistentOntologyException: "
  const NO_SUCH_ELEMENT := "Please call hasNext() before calling next()"

  /** The RDF value of a constant in the template's extension. */
  datatype RdfValue = IriValue(iri: string) | LiteralValue(lexical: string) | BNodeValue(id: string)

  /** An expression bound to a name by the template's extension: a variable,
      a constant, or anything else. */
  datatype ValueExpr = Var(name: string) | ValueConstantExpr(constant: RdfValue) | OtherExpr

  /** One row of the tuple result set: the bound names and their constants;
      a name that is missing is a null binding. */
  type Row = map<string, Constant>

  /** The construct template: projection lists of source names read three at
      a time, and the optional extension. */
  datatype ConstructTemplate = ConstructTemplate(projections: seq<seq<string>>,
                                                 extension: Option<map<string, ValueExpr>>)

  /** What is asked of the ABox assertion builder. */
  datatype AssertionRequest =
    | ClassRequest(concept: string, individual: ObjectConstant)
    | ObjectPropertyRequest(property: string, subject: ObjectConstant, target: ObjectConstant)
    | DataPropertyRequest(dataProperty: string, owner: ObjectConstant, literal: ValueConstant)

  /** The builder's answer: an assertion, null (the assertion is dropped), or
      an inconsistency. */
  datatype BuildOutcome = Created(assertion: Assertion) | Ignored | Inconsistent

  /** Everything the conversion of a row depends on: the template, the
      assertion builder and the term factory's `getConstantLiteral`. */
  datatype Conversion = Conversion(template: ConstructTemplate, builder: AssertionRequest -> BuildOutcome,
                                   literal: string -> ValueConstant)

  // ---------------------------------------------------------------------
  // Converting one row

  /** `getConstant`: an extension entry bound to a variable is an error, a
      constant entry gives the corresponding constant, and any other name is
      looked up in the row. */
  function GetConstant(name: string, row: Row, conv: Conversion): (r: Result<Option<Constant>>)
    ensures r.Err? <==> (var ext := conv.template.extension;
                         ext.Some? && name in ext.value && ext.value[name].Var?)
  {
    var ext := conv.template.extension;
    if ext.Some? && name in ext.value && ext.value[name].Var? then
      Err(UNBOUND_VARIABLE + ext.value[name].name)
    else if ext.Some? && name in ext.value && ext.value[name].ValueConstantExpr? then
      Ok(Some(match ext.value[name].constant
              case IriValue(iri) => ObjectConst(UriConstant(iri))
              case LiteralValue(lexical) => ValueConst(conv.literal(lexical))
              case BNodeValue(id) => ObjectConst(BNode(id))))
    else if name in row then Ok(Some(row[name]))
    else Ok(None)
  }

  /** The extension's constants become URI constants for IRIs, literals for
      literals and blank nodes otherwise; a name the extension does not bind
      to a variable or a constant reads the row, where a missing name is a
      null binding. */
  lemma GetConstantCases(name: string, row: Row, conv: Conversion)
    ensures var ext := conv.template.extension;
            ext.Some? && name in ext.value && ext.value[name].ValueConstantExpr? ==>
              GetConstant(name, row, conv) ==
                Ok(Some(match ext.value[name].constant
                        case IriValue(iri) => ObjectConst(UriConstant(iri))
                        case LiteralValue(lexical) => ValueConst(conv.literal(lexical))
                        case BNodeValue(id) => ObjectConst(BNode(id))))
    ensures var ext := conv.template.extension;
            (ext.None? || name !in ext.value || ext.value[name].OtherExpr?) ==>
              GetConstant(name, row, conv) == (if name in row then Ok(Some(row[name])) else Ok(None))
  {
  }

  /** The assertion a complete triple asks for: rdf:type makes a class
      assertion, an individual as object an object-property assertion, and a
      literal as object a data-property assertion. */
  function Request(s: ObjectConstant, p: Constant, o: Constant): (r: AssertionRequest)
    ensures r.ClassRequest? <==> p.Value() == RDF_TYPE
    ensures r.ObjectPropertyRequest? <==> p.Value() != RDF_TYPE && o.ObjectConst?
    ensures r.DataPropertyRequest? <==> p.Value() != RDF_TYPE && o.ValueConst?
  {
    if p.Value() == RDF_TYPE then ClassRequest(o.Value(), s)
    else if o.ObjectConst? then ObjectPropertyRequest(p.Value(), s, o.oc)
    else DataPropertyRequest(p.Value(), s, o.vc)
  }

  lemma TripleIndex(size: nat, i: nat)
    requires i < size / 3
    ensures 3 * i + 2 < size
  {
  }

  /** The `i`-th triple of a projection list: `None` when a binding is
      missing or the builder drops it. The subject is cast to an individual
      as soon as it is read. */
  function TripleAssertion(elems: seq<string>, i: nat, row: Row, conv: Conversion): Result<Option<Assertion>>
    requires i < |elems| / 3
  {
    TripleIndex(|elems|, i);
    var s := GetConstant(elems[3 * i], row, conv);
    if s.Err? then Err(s.message)
    else if s.value.Some? && s.value.value.ValueConst? then Err(CLASS_CAST)
    else
      var p := GetConstant(elems[3 * i + 1], row, conv);
      if p.Err? then Err(p.message)
      else
        var o := GetConstant(elems[3 * i + 2], row, conv);
        if o.Err? then Err(o.message)
        else if s.value.None? || p.value.None? || o.value.None? then Ok(None)
        else
          match conv.builder(Request(s.value.value.oc, p.value.value, o.value.value))
          case Created(a) => Ok(Some(a))
          case Ignored => Ok(None)
          case Inconsistent => Err(INCONSISTENT + p.value.value.Value())
  }

  /** The assertions of the first `n` triples of a projection list. */
  function ListAssertions(elems: seq<string>, n: nat, row: Row, conv: Conversion): Result<seq<Assertion>>
    requires n <= |elems| / 3
  {
    if n == 0 then Ok([])
    else
      var prev := ListAssertions(elems, n - 1, row, conv);
      if prev.Err? then prev
      else
        var t := TripleAssertion(elems, n - 1, row, conv);
        if t.Err? then Err(t.message)
        else Ok(prev.value + (if t.value.Some? then [t.value.value] else []))
  }

  /** `processResults` over the given projection lists. */
  function RowAssertions(lists: seq<seq<string>>, row: Row, conv: Conversion): Result<seq<Assertion>>
    decreases |lists|
  {
    if lists == [] then Ok([])
    else
      var prev := RowAssertions(lists[..|lists| - 1], row, conv);
      if prev.Err? then prev
      else
        var elems := lists[|lists| - 1];
        var last := ListAssertions(elems, |elems| / 3, row, conv);
        if last.Err? then last else Ok(prev.value + last.value)
  }

  /** A failing triple fails the whole row with its own message. */
  lemma FailureAt(lists: seq<seq<string>>, l: nat, i: nat, row: Row, conv: Conversion, msg: string)
    requires l < |lists| && i < |lists[l]| / 3
    requires RowAssertions(lists[..l], row, conv).Ok?
    requires ListAssertions(lists[l], i, row, conv).Ok?
    requires TripleAssertion(lists[l], i, row, conv) == Err(msg)
    ensures RowAssertions(lists, row, conv) == Err(msg)
  {
    var elems := lists[l];
    ListFailurePersists(elems, i + 1, |elems| / 3, row, conv);
    assert lists[..l + 1][..l] == lists[..l];
    RowFailurePersists(lists, l + 1, row, conv);
  }

  lemma {:induction false} ListFailurePersists(elems: seq<string>, i: nat, n: nat, row: Row, conv: Conversion)
    requires i <= n <= |elems| / 3
    requires ListAssertions(elems, i, row, conv).Err?
    ensures ListAssertions(elems, n, row, conv) == ListAssertions(elems, i, row, conv)
    decreases n
  {
    if n > i {
      ListFailurePersists(elems, i, n - 1, row, conv);
    }
  }

  lemma {:induction false} RowFailurePersists(lists: seq<seq<string>>, l: nat, row: Row, conv: Conversion)
    requires l <= |lists|
    requires RowAssertions(lists[..l], row, conv).Err?
    ensures RowAssertions(lists, row, conv) == RowAssertions(lists[..l], row, conv)
    decreases |lists|
  {
    if l == |lists| {
      assert lists[..l] == lists;
    } else {
      var init := lists[..|lists| - 1];
      assert init[..l] == lists[..l];
      RowFailurePersists(init, l, row, conv);
    }
  }

  function ProcessedRow(row: Row, conv: Conversion): Result<seq<Assertion>> {
    RowAssertions(conv.template.projections, row, conv)
  }

  /** `processResults`: every projection list contributes the assertions of
      its complete triples, in order. */
  method ProcessResults(row: Row, conv: Conversion) returns (r: Result<seq<Assertion>>)
    ensures r == ProcessedRow(row, conv)
  {
    var lists := conv.template.projections;
    var tripleAssertions: seq<Assertion> := [];
    for l := 0 to |lists|
      invariant RowAssertions(lists[..l], row, conv) == Ok(tripleAssertions)
    {
      var elems := lists[l];
      var size := |elems|;
      ghost var before := tripleAssertions;
      for i := 0 to size / 3
        invariant ListAssertions(elems, i, row, conv).Ok?
        invariant tripleAssertions == before + ListAssertions(elems, i, row, conv).value
      {
        TripleIndex(size, i);
        var s := GetConstant(elems[i * 3], row, conv);
        if s.Err? {
          FailureAt(lists, l, i, row, conv, s.message);
          return Err(s.message);
        }
        if s.value.Some? && s.value.value.ValueConst? {
          FailureAt(lists, l, i, row, conv, CLASS_CAST);
          return Err(CLASS_CAST);
        }
        var p := GetConstant(elems[i * 3 + 1], row, conv);
        if p.Err? {
          FailureAt(lists, l, i, row, conv, p.message);
          return Err(p.message);
        }
        var o := GetConstant(elems[i * 3 + 2], row, conv);
        if o.Err? {
          FailureAt(lists, l, i, row, conv, o.message);
          return Err(o.message);
        }
        if s.value.None? || p.value.None? || o.value.None? {
          continue;
        }
        var outcome := conv.builder(Request(s.value.value.oc, p.value.value, o.value.value));
        if outcome.Inconsistent? {
          FailureAt(lists, l, i, row, conv, INCONSISTENT + p.value.value.Value());
          return Err(INCONSISTENT + p.value.value.Value());
        }
        if outcome.Created? {
          tripleAssertions := tripleAssertions + [outcome.assertion];
        }
      }
      assert lists[..l + 1][..l] == lists[..l];
    }
    assert lists[..|lists|] == lists;
    return Ok(tripleAssertions);
  }

  // ---------------------------------------------------------------------
  // Properties of the row conversion

  /** A triple with a missing binding contributes nothing, whether the
      binding comes from the row or from the extension; the subject is still
      cast first, so a literal subject is not skipped. */
  lemma MissingBindingSkipped(elems: seq<string>, i: nat, row: Row, conv: Conversion)
    requires i < |elems| / 3
    requires var s := GetConstant(elems[3 * i], row, conv);
             s.Ok? && (s.value.None? || s.value.value.ObjectConst?)
    requires GetConstant(elems[3 * i + 1], row, conv).Ok? && GetConstant(elems[3 * i + 2], row, conv).Ok?
    requires || GetConstant(elems[3 * i], row, conv).value.None?
             || GetConstant(elems[3 * i + 1], row, conv).value.None?
             || GetConstant(elems[3 * i + 2], row, conv).value.None?
    ensures TripleAssertion(elems, i, row, conv) == Ok(None)
  {
  }

  /** A complete triple is handed to the builder under its classification:
      the builder's assertion is kept, a null is dropped, and an inconsistency
      fails the conversion. */
  lemma BoundTriple(elems: seq<string>, i: nat, row: Row, conv: Conversion,
                    s: ObjectConstant, p: Constant, o: Constant)
    requires i < |elems| / 3
    requires GetConstant(elems[3 * i], row, conv) == Ok(Some(ObjectConst(s)))
    requires GetConstant(elems[3 * i + 1], row, conv) == Ok(Some(p))
    requires GetConstant(elems[3 * i + 2], row, conv) == Ok(Some(o))
    ensures var req := Request(s, p, o);
            var t := TripleAssertion(elems, i, row, conv);
            && (t.Err? <==> conv.builder(req).Inconsistent?)
            && (t.Err? ==> t.message == INCONSISTENT + p.Value())
            && (t == Ok(None) <==> conv.builder(req).Ignored?)
            && (conv.builder(req).Created? ==> t == Ok(Some(conv.builder(req).assertion)))
  {
  }

  /** A literal in subject position fails the cast to an individual, before
      the predicate and the object are read. */
  lemma LiteralSubjectRejected(elems: seq<string>, i: nat, row: Row, conv: Conversion)
    requires i < |elems| / 3
    requires var s := GetConstant(elems[3 * i], row, conv);
             s.Ok? && s.value.Some? && s.value.value.ValueConst?
    ensures TripleAssertion(elems, i, row, conv) == Err(CLASS_CAST)
  {
  }

  /** An unbound-variable error from `getConstant` fails the triple with its
      message; subject, predicate and object are read in that order. */
  lemma ConstantErrorFails(elems: seq<string>, i: nat, row: Row, conv: Conversion)
    requires i < |elems| / 3
    ensures var s := GetConstant(elems[3 * i], row, conv);
            s.Err? ==> TripleAssertion(elems, i, row, conv) == Err(s.message)
    ensures var s := GetConstant(elems[3 * i], row, conv);
            var p := GetConstant(elems[3 * i + 1], row, conv);
            s.Ok? && (s.value.None? || s.value.value.ObjectConst?) && p.Err? ==>
              TripleAssertion(elems, i, row, conv) == Err(p.message)
    ensures var s := GetConstant(elems[3 * i], row, conv);
            var p := GetConstant(elems[3 * i + 1], row, conv);
            var o := GetConstant(elems[3 * i + 2], row, conv);
            s.Ok? && (s.value.None? || s.value.value.ObjectConst?) && p.Ok? && o.Err? ==>
              TripleAssertion(elems, i, row, conv) == Err(o.message)
  {
  }

  /** Each triple yields at most one assertion, so a list of `size` names
      yields at most `size / 3` assertions. */
  lemma {:induction false} ListAssertionsBound(elems: seq<string>, n: nat, row: Row, conv: Conversion)
    requires n <= |elems| / 3
    ensures ListAssertions(elems, n, row, conv).Ok? ==> |ListAssertions(elems, n, row, conv).value| <= n
  {
    if n > 0 {
      ListAssertionsBound(elems, n - 1, row, conv);
    }
  }

  /** Names after the last complete triple are never read. */
  lemma {:induction false} LeftoversIgnored(elems: seq<string>, extra: seq<string>, n: nat, row: Row, conv: Conversion)
    requires |elems| % 3 == 0 && n <= |elems| / 3
    ensures n <= |elems + extra| / 3
    ensures ListAssertions(elems + extra, n, row, conv) == ListAssertions(elems, n, row, conv)
  {
    if n > 0 {
      LeftoversIgnored(elems, extra, n - 1, row, conv);
      TripleIndex(|elems|, n - 1);
      var k := 3 * (n - 1);
      assert (elems + extra)[k] == elems[k];
      assert (elems + extra)[k + 1] == elems[k + 1];
      assert (elems + extra)[k + 2] == elems[k + 2];
    }
  }

  // ---------------------------------------------------------------------
  // Reading the whole source

  /** The assertions of all rows, in order. */
  function Drained(rows: seq<Row>, conv: Conversion): Result<seq<Assertion>>
    decreases |rows|
  {
    if rows == [] then Ok([])
    else
      var prev := Drained(rows[..|rows| - 1], conv);
      if prev.Err? then prev
      else
        var last := ProcessedRow(rows[|rows| - 1], conv);
        if last.Err? then last else Ok(prev.value + last.value)
  }

  lemma {:induction false} DrainedFailurePersists(rows: seq<Row>, k: nat, conv: Conversion)
    requires k <= |rows|
    requires Drained(rows[..k], conv).Err?
    ensures Drained(rows, conv).Err?
    decreases |rows|
  {
    if k == |rows| {
      assert rows[..k] == rows;
    } else {
      var init := rows[..|rows| - 1];
      assert init[..k] == rows[..k];
      DrainedFailurePersists(init, k, conv);
    }
  }

  /** Where a `hasNext` in construct mode stops: at a row that fails, at
      the first row with a non-empty batch (returning the remaining rows and
      the batch), or at the end of the source. */
  datatype Pulled = PullFailed | Exhausted | Found(rest: seq<Row>, batch: seq<Assertion>)

  function Pull(rows: seq<Row>, conv: Conversion): (r: Pulled)
    ensures r.Found? ==> r.batch != [] && |r.rest| < |rows|
  {
    if rows == [] then Exhausted
    else
      var b := ProcessedRow(rows[0], conv);
      if b.Err? then PullFailed
      else if b.value == [] then Pull(rows[1..], conv)
      else Found(rows[1..], b.value)
  }

  /** The source is exhausted exactly when every row converts to nothing;
      a found batch is that of the first row with any assertion, and the
      rows before it convert to nothing. */
  lemma {:induction false} PullMeaning(rows: seq<Row>, conv: Conversion)
    ensures Pull(rows, conv).Exhausted? <==> forall i :: 0 <= i < |rows| ==> ProcessedRow(rows[i], conv) == Ok([])
    ensures Pull(rows, conv).Found? ==>
              var k := |rows| - |Pull(rows, conv).rest| - 1;
              && rows[k + 1..] == Pull(rows, conv).rest
              && ProcessedRow(rows[k], conv) == Ok(Pull(rows, conv).batch)
              && forall i :: 0 <= i < k ==> ProcessedRow(rows[i], conv) == Ok([])
    decreases |rows|
  {
    if rows != [] {
      PullMeaning(rows[1..], conv);
      assert forall i :: 1 <= i < |rows| ==> rows[i] == rows[1..][i - 1];
    }
  }

  // ---------------------------------------------------------------------
  // The buffer

  class SimpleGraphResultSet {
    /** The buffered assertions, oldest first. */
    var results: seq<Assertion>
    /** The rows of the tuple result set not read yet. */
    var rows: seq<Row>
    /** DESCRIBE queries collect everything at construction time. */
    const storeResults: bool
    const conv: Conversion

    constructor (rows: seq<Row>, conv: Conversion, storeResults: bool)
      ensures this.results == [] && this.rows == rows
      ensures this.conv == conv && this.storeResults == storeResults
    {
      this.results := [];
      this.rows := rows;
      this.conv := conv;
      this.storeResults := storeResults;
    }

    /** `addNewResult`: append at the end. */
    method AddNewResult(a: Assertion)
      modifies this
      ensures results == old(results) + [a]
      ensures rows == old(rows)
    {
      results := results + [a];
    }

    /** The `while (tupleResultSet.hasNext())` loop of the constructor: every
        remaining row is converted and buffered. */
    method DrainSource() returns (r: Result<()>)
      modifies this
      ensures r.Ok? <==> Drained(old(rows), conv).Ok?
      ensures r.Ok? ==> results == old(results) + Drained(old(rows), conv).value && rows == []
    {
      ghost var all := rows;
      ghost var start := results;
      var k := 0;
      while rows != []
        invariant 0 <= k <= |all| && rows == all[k..]
        invariant Drained(all[..k], conv).Ok?
        invariant results == start + Drained(all[..k], conv).value
        decreases |rows|
      {
        var batch := ProcessResults(rows[0], conv);
        assert all[..k + 1][..k] == all[..k];
        assert all[k] == rows[0];
        if batch.Err? {
          DrainedFailurePersists(all, k + 1, conv);
          return Err(batch.message);
        }
        results := results + batch.value;
        rows := rows[1..];
        k := k + 1;
      }
      assert all[..k] == all;
      return Ok(());
    }

    /** `hasNext`: true on a non-empty buffer; otherwise false for DESCRIBE
        queries without reading the source, and for CONSTRUCT queries it
        reads rows until one yields assertions, buffers them and answers
        true, or answers false at the end of the source. */
    method HasNext() returns (r: Result<bool>)
      modifies this
      ensures old(results) != [] ==> r == Ok(true) && results == old(results) && rows == old(rows)
      ensures old(results) == [] && storeResults ==> r == Ok(false) && results == [] && rows == old(rows)
      ensures old(results) == [] && !storeResults ==>
                match Pull(old(rows), conv)
                case PullFailed => r.Err?
                case Exhausted => r == Ok(false) && results == [] && rows == []
                case Found(rest, batch) => r == Ok(true) && results == batch && rows == rest
    {
      if |results| > 0 {
        return Ok(true);
      }
      if storeResults {
        return Ok(false);
      }
      ghost var pulled := Pull(rows, conv);
      while rows != []
        invariant results == []
        invariant Pull(rows, conv) == pulled
        decreases |rows|
      {
        var newTriples := ProcessResults(rows[0], conv);
        if newTriples.Err? {
          return Err(newTriples.message);
        }
        rows := rows[1..];
        if newTriples.value != [] {
          results := results + newTriples.value;
          return Ok(true);
        }
      }
      return Ok(false);
    }

    /** `next`: remove and return the oldest buffered assertion; an empty
        buffer is a `NoSuchElementException`. */
    method Next() returns (r: Result<Assertion>)
      modifies this
      ensures old(results) == [] ==> r == Err(NO_SUCH_ELEMENT) && results == []
      ensures old(results) != [] ==> r == Ok(old(results)[0]) && results == old(results)[1..]
      ensures rows == old(rows)
    {
      if |results| > 0 {
        r := Ok(results[0]);
        results := results[1..];
      } else {
        r := Err(NO_SUCH_ELEMENT);
      }
    }
  }

  /** The constructor: with `storeResults` the whole source is converted into
      the buffer up front; otherwise the buffer starts empty and the source
      untouched. */
  method Create(rows: seq<Row>, conv: Conversion, storeResults: bool) returns (r: Result<SimpleGraphResultSet>)
    ensures !storeResults ==> r.Ok? && fresh(r.value) && r.value.results == [] && r.value.rows == rows
    ensures storeResults ==> (r.Ok? <==> Drained(rows, conv).Ok?)
    ensures storeResults && r.Ok? ==> fresh(r.value) && r.value.results == Drained(rows, conv).value && r.value.rows == []
    ensures r.Ok? ==> r.value.storeResults == storeResults && r.value.conv == conv
  {
    var rs := new SimpleGraphResultSet(rows, conv, storeResults);
    if storeResults {
      var drained := rs.DrainSource();
      if drained.Err? {
        return Err(drained.message);
      }
    }
    return Ok(rs);
  }

  /** The buffer is first-in first-out: after appending `a` to a buffer
      holding `xs`, draining it with `next` yields `xs` and then `a`. */
  method FifoOrder(rs: SimpleGraphResultSet, a: Assertion) returns (first: Result<Assertion>)
    requires rs.results != []
    modifies rs
    ensures first == Ok(old(rs.results)[0])
    ensures rs.results == old(rs.results)[1..] + [a]
  {
    rs.AddNewResult(a);
    first := rs.Next();
  }
}
