/** The ontology vocabulary the TBox reasoner classifies: object and data
    properties, classes and data ranges, the inclusion axioms between them
    (mapping/core/.../spec/ontology/impl/TBoxReasonerImpl.java), and the
    name-based comparators used to choose representatives. */
module Ontology {
  import opened JavaStrings
  import opened Ordering

  const OWL_TOP_OBJECT_PROPERTY := "http://www.w3.org/2002/07/owl#topObjectProperty"
  const OWL_BOTTOM_OBJECT_PROPERTY := "http://www.w3.org/2002/07/owl#bottomObjectProperty"
  const OWL_TOP_DATA_PROPERTY := "http://www.w3.org/2002/07/owl#topDataProperty"
  const OWL_BOTTOM_DATA_PROPERTY := "http://www.w3.org/2002/07/owl#bottomDataProperty"
  const OWL_THING := "http://www.w3.org/2002/07/owl#Thing"
  const OWL_NOTHING := "http://www.w3.org/2002/07/owl#Nothing"
  const RDFS_LITERAL := "http://www.w3.org/2000/01/rdf-schema#Literal"

  /** A named object property or its inverse. */
  datatype ObjectPropertyExpression = ObjectPropertyExpression(name: string, isInverse: bool)
  {
    function Inverse(): (r: ObjectPropertyExpression)
      ensures r.name == name && r.isInverse == !isInverse
    {
      ObjectPropertyExpression(name, !isInverse)
    }
    predicate IsTop() { name == OWL_TOP_OBJECT_PROPERTY }
    predicate IsBottom() { name == OWL_BOTTOM_OBJECT_PROPERTY }
    /** The existential restriction "exists P", the domain of P. */
    function Domain(): ClassExpression { ObjectSomeValuesFrom(this) }
  }

  datatype DataPropertyExpression = DataPropertyExpression(name: string)
  {
    predicate IsTop() { name == OWL_TOP_DATA_PROPERTY }
    predicate IsBottom() { name == OWL_BOTTOM_DATA_PROPERTY }
    function DomainRestriction(filler: Datatype): ClassExpression { DataSomeValuesFrom(this, filler) }
    function Range(): DataRangeExpression { DataPropertyRangeExpression(this) }
  }

  /** A datatype, identified by the name of its predicate. */
  datatype Datatype = Datatype(name: string)

  const RdfsLiteral := Datatype(RDFS_LITERAL)

  datatype OClass = OClass(name: string)
  {
    predicate IsTop() { name == OWL_THING }
    predicate IsBottom() { name == OWL_NOTHING }
  }

  datatype ClassExpression =
    | NamedClass(cls: OClass)
    | ObjectSomeValuesFrom(property: ObjectPropertyExpression)
    | DataSomeValuesFrom(dataProperty: DataPropertyExpression, filler: Datatype)

  datatype DataRangeExpression =
    | NamedDatatype(dt: Datatype)
    | DataPropertyRangeExpression(dataProperty: DataPropertyExpression)

  /** An inclusion axiom `sub` ISA `super`. */
  datatype BinaryAxiom<T> = BinaryAxiom(sub: T, super: T)

  /** The parts of an ontology the graph builders read. */
  datatype Ontology = Ontology(
    classes: seq<OClass>,
    objectProperties: seq<ObjectPropertyExpression>,
    auxiliaryObjectProperties: seq<ObjectPropertyExpression>,
    dataProperties: seq<DataPropertyExpression>,
    subClassAxioms: seq<BinaryAxiom<ClassExpression>>,
    subObjectPropertyAxioms: seq<BinaryAxiom<ObjectPropertyExpression>>,
    subDataPropertyAxioms: seq<BinaryAxiom<DataPropertyExpression>>,
    subDataRangeAxioms: seq<BinaryAxiom<DataRangeExpression>>)

  // ---------------------------------------------------------------------
  // Comparators

  /** Names first; on equal names the property comes before its inverse. */
  function ObjectPropertyCompare(o1: ObjectPropertyExpression, o2: ObjectPropertyExpression): int {
    var compared := CompareTo(o1.name, o2.name);
    if compared == 0 then
      if o1.isInverse == o2.isInverse then 0
      else if o2.isInverse then -1
      else 1
    else compared
  }

  function DataPropertyCompare(o1: DataPropertyExpression, o2: DataPropertyExpression): int {
    CompareTo(o1.name, o2.name)
  }

  function ClassCompare(o1: OClass, o2: OClass): int {
    CompareTo(o1.name, o2.name)
  }

  function DatatypeCompare(o1: Datatype, o2: Datatype): int {
    CompareTo(o1.name, o2.name)
  }

  /** The object-property comparator answers 0 only when both the name and
      the inverse flag agree. */
  lemma ObjectPropertyCompareZeroIff(o1: ObjectPropertyExpression, o2: ObjectPropertyExpression)
    ensures ObjectPropertyCompare(o1, o2) == 0 <==> o1 == o2
  {
    CompareToZeroIff(o1.name, o2.name);
  }

  /** Properties with different names are ordered by name; with equal names,
      a property comes before its inverse. */
  lemma ObjectPropertyOrder(o1: ObjectPropertyExpression, o2: ObjectPropertyExpression)
    ensures o1.name != o2.name ==> ObjectPropertyCompare(o1, o2) == CompareTo(o1.name, o2.name) != 0
    ensures o1.name == o2.name && !o1.isInverse && o2.isInverse ==> ObjectPropertyCompare(o1, o2) < 0
    ensures !o1.isInverse ==> ObjectPropertyCompare(o1, o1.Inverse()) < 0
  {
    CompareToZeroIff(o1.name, o2.name);
    CompareToZeroIff(o1.name, o1.name);
  }

  lemma ObjectPropertyComparatorContract()
    ensures IsComparator(ObjectPropertyCompare)
    ensures forall a, b :: ObjectPropertyCompare(a, b) == 0 ==> a == b
  {
    forall a: ObjectPropertyExpression, b: ObjectPropertyExpression
      ensures ObjectPropertyCompare(a, b) < 0 <==> ObjectPropertyCompare(b, a) > 0
      ensures ObjectPropertyCompare(a, b) == 0 ==> a == b
    {
      CompareToAntisymmetric(a.name, b.name);
      ObjectPropertyCompareZeroIff(a, b);
    }
    forall a: ObjectPropertyExpression, b: ObjectPropertyExpression, c: ObjectPropertyExpression
      | ObjectPropertyCompare(a, b) < 0 && ObjectPropertyCompare(b, c) < 0
      ensures ObjectPropertyCompare(a, c) < 0
    {
      CompareToZeroIff(a.name, b.name);
      CompareToZeroIff(b.name, c.name);
      CompareToZeroIff(a.name, c.name);
      CompareToAntisymmetric(a.name, b.name);
      if CompareTo(a.name, b.name) < 0 && CompareTo(b.name, c.name) < 0 {
        CompareToTransitive(a.name, b.name, c.name);
      }
    }
  }

  /** The three name comparators satisfy the comparator contract and identify
      an entity by its name. */
  lemma NameComparatorsContract()
    ensures IsComparator(DataPropertyCompare) && IsComparator(ClassCompare) && IsComparator(DatatypeCompare)
    ensures forall a, b :: DataPropertyCompare(a, b) == 0 ==> a == b
    ensures forall a, b :: ClassCompare(a, b) == 0 ==> a == b
    ensures forall a, b :: DatatypeCompare(a, b) == 0 ==> a == b
  {
    forall x: string, y: string
      ensures CompareTo(x, y) < 0 <==> CompareTo(y, x) > 0
      ensures CompareTo(x, y) == 0 ==> x == y
    {
      CompareToAntisymmetric(x, y);
      CompareToZeroIff(x, y);
    }
    forall x: string, y: string, z: string | CompareTo(x, y) < 0 && CompareTo(y, z) < 0
      ensures CompareTo(x, z) < 0
    {
      CompareToTransitive(x, y, z);
    }
  }
}
