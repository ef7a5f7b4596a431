/** An ABox assertion as an RDF statement (SesameStatement.java): the
    assertion's parts become a subject resource, a predicate URI and an
    object value, and the statement compares and hashes component-wise. */
module SesameStatement {
  import opened Wrappers
  import opened JavaInt
  import opened ABox

  const RDF_TYPE := "http://www.w3.org/1999/02/22-rdf-syntax-ns#type"

  /** RDF values of the statement API: URIs and blank nodes are resources;
      a literal has a label, an optional language and an optional datatype
      URI. */
  datatype Value =
    | Uri(iri: string)
    | BlankNode(id: string)
    | Literal(lexical: string, language: Option<string>, datatypeUri: Option<string>)
  {
    predicate IsResource() {
      Uri? || BlankNode?
    }
  }

  /** What a `Statement` shows through its getters; `None` is a null
      component. */
  datatype Statement = Statement(subj: Option<Value>, pred: Option<Value>,
                                 obj: Option<Value>, context: Option<Value>)

  /** The argument of `equals`: null, an object that is not a statement, or
      some statement. */
  datatype JavaObject = Null | NonStatement | StatementObject(statement: Statement)

  /** `getResource`: a blank node for a blank-node constant, a URI for a URI
      constant. */
  function GetResource(c: ObjectConstant): (r: Value)
    ensures r.IsResource()
    ensures r.Uri? <==> c.UriConstant?
  {
    match c
    case BNode(name) => BlankNode(name)
    case UriConstant(iri) => Uri(iri)
  }

  /** The constant a resource was made from. */
  function ResourceConstant(v: Value): ObjectConstant
    requires v.IsResource()
  {
    if v.Uri? then UriConstant(v.iri) else BNode(v.id)
  }

  /** No information is lost going from constants to resources. */
  lemma ResourceRoundTrip(c: ObjectConstant)
    ensures ResourceConstant(GetResource(c)) == c
  {
  }

  /** `getLiteral`: the constant's value as label; a language only for
      LITERAL_LANG; no datatype for LITERAL and LITERAL_LANG, the string
      datatype for OBJECT, and the column type's own datatype URI otherwise.
      `datatypeUri` is the datatype factory's `getDataTypeURI`. */
  function GetLiteral(lit: ValueConstant, datatypeUri: ColType -> Option<string>): (r: Value)
    ensures r.Literal? && r.lexical == lit.value
  {
    match lit.colType
    case LiteralType => Literal(lit.value, None, None)
    case LiteralLangType => Literal(lit.value, lit.language, None)
    case ObjectType => Literal(lit.value, None, datatypeUri(StringType))
    case _ => Literal(lit.value, None, datatypeUri(lit.colType))
  }

  /** How the literal's datatype and language follow from the column type. */
  lemma GetLiteralTyping(lit: ValueConstant, datatypeUri: ColType -> Option<string>)
    ensures GetLiteral(lit, datatypeUri).language.Some? ==> lit.colType == LiteralLangType
    ensures lit.colType == LiteralLangType ==> GetLiteral(lit, datatypeUri).language == lit.language
    ensures GetLiteral(lit, datatypeUri).datatypeUri ==
            (if lit.colType == LiteralType || lit.colType == LiteralLangType then None
             else if lit.colType == ObjectType then datatypeUri(StringType)
             else datatypeUri(lit.colType))
  {
  }

  /** The statement the constructor builds for an assertion; the context is
      always null. */
  function FromAssertion(a: Assertion, datatypeUri: ColType -> Option<string>): (r: Statement)
    ensures r.context.None?
    ensures r.subj.Some? && r.subj.value.IsResource()
    ensures r.pred.Some? && r.pred.value.Uri?
    ensures r.obj.Some?
  {
    match a
    case ObjectPropertyAssertion(p, s, o) =>
      Statement(Some(GetResource(s)), Some(Uri(p)), Some(GetResource(o)), None)
    case DataPropertyAssertion(p, s, v) =>
      Statement(Some(GetResource(s)), Some(Uri(p)), Some(GetLiteral(v, datatypeUri)), None)
    case ClassAssertion(c, s) =>
      Statement(Some(GetResource(s)), Some(Uri(RDF_TYPE)), Some(Uri(c)), None)
  }

  /** Each kind of assertion fills the three positions from its own parts:
      rdf:type and the class URI for class assertions, the property URI and
      two resources for object properties, the property URI and a literal for
      data properties; only data-property statements have a literal object. */
  lemma FromAssertionKinds(a: Assertion, datatypeUri: ColType -> Option<string>)
    ensures var st := FromAssertion(a, datatypeUri);
            && (a.DataPropertyAssertion? <==> st.obj.value.Literal?)
            && (a.ClassAssertion? ==> st.pred == Some(Uri(RDF_TYPE)) && st.obj == Some(Uri(a.concept)))
            && (a.ObjectPropertyAssertion? ==> st.subj == Some(GetResource(a.subject)) &&
                                               st.pred == Some(Uri(a.property)) &&
                                               st.obj == Some(GetResource(a.target)))
            && (a.DataPropertyAssertion? ==> st.subj == Some(GetResource(a.owner)) &&
                                             st.pred == Some(Uri(a.dataProperty)) &&
                                             st.obj == Some(GetLiteral(a.literal, datatypeUri)))
  {
  }

  /** The statement object: its fields are set once, branch by branch, by
      the constructor. */
  class SesameStatement {
    var subj: Option<Value>
    var pred: Option<Value>
    var obj: Option<Value>
    var context: Option<Value>

    function View(): Statement
      reads this
    {
      Statement(subj, pred, obj, context)
    }

    constructor (a: Assertion, datatypeUri: ColType -> Option<string>)
      ensures View() == FromAssertion(a, datatypeUri)
    {
      subj, pred, obj, context := None, None, None, None;
      if a.ObjectPropertyAssertion? {
        subj := Some(GetResource(a.subject));
        pred := Some(Uri(a.property));
        obj := Some(GetResource(a.target));
      }
      if a.DataPropertyAssertion? {
        subj := Some(GetResource(a.owner));
        pred := Some(Uri(a.dataProperty));
        obj := Some(GetLiteral(a.literal, datatypeUri));
      } else if a.ClassAssertion? {
        subj := Some(GetResource(a.individual));
        pred := Some(Uri(RDF_TYPE));
        obj := Some(Uri(a.concept));
      }
    }
  }

  /** Null-safe `x.equals(y)` of one component. */
  predicate ComponentEquals(x: Option<Value>, y: Option<Value>) {
    if x.Some? then y.Some? && x.value == y.value else y.None?
  }

  /** `equals`: false for null and for non-statements; otherwise context,
      object, predicate and subject are compared in that order. */
  predicate Equals(s: Statement, o: JavaObject) {
    if o.Null? || o.NonStatement? then false
    else
      var that := o.statement;
      ComponentEquals(s.context, that.context) && ComponentEquals(s.obj, that.obj) &&
      ComponentEquals(s.pred, that.pred) && ComponentEquals(s.subj, that.subj)
  }

  /** `equals` is exactly equality of the four components; in particular it
      is reflexive and symmetric. */
  lemma EqualsIff(s: Statement, o: JavaObject)
    ensures Equals(s, o) <==> o == StatementObject(s)
  {
    if o.StatementObject? && Equals(s, o) {
      var that := o.statement;
      assert s.subj == that.subj && s.pred == that.pred;
      assert s.obj == that.obj && s.context == that.context;
    }
  }

  lemma EqualsSymmetric(s: Statement, t: Statement)
    ensures Equals(s, StatementObject(t)) <==> Equals(t, StatementObject(s))
  {
    EqualsIff(s, StatementObject(t));
    EqualsIff(t, StatementObject(s));
  }

  /** A component's hash code, 0 for null; `hash` is the value's own
      `hashCode`. */
  function ComponentHash(x: Option<Value>, hash: Value -> Int32): Int32 {
    if x.Some? then hash(x.value) else 0
  }

  /** `hashCode`: 1013 * context + 961 * subject + 31 * predicate + object,
      evaluated in `int` arithmetic. */
  function HashCode(s: Statement, hash: Value -> Int32): Int32 {
    var c := ComponentHash(s.context, hash);
    var sub := ComponentHash(s.subj, hash);
    var p := ComponentHash(s.pred, hash);
    var o := ComponentHash(s.obj, hash);
    Add32(Add32(Add32(Mul32(1013, c), Mul32(961, sub)), Mul32(31, p)), o)
  }

  /** The `int` arithmetic gives the exact weighted sum wrapped to 32 bits. */
  lemma HashCodeIsWrappedSum(s: Statement, hash: Value -> Int32)
    ensures HashCode(s, hash) ==
            Wrap32(1013 * ComponentHash(s.context, hash) + 961 * ComponentHash(s.subj, hash) +
                   31 * ComponentHash(s.pred, hash) + ComponentHash(s.obj, hash))
  {
    var c: int := ComponentHash(s.context, hash);
    var sub: int := ComponentHash(s.subj, hash);
    var p: int := ComponentHash(s.pred, hash);
    var o: int := ComponentHash(s.obj, hash);
    WrapSum(1013 * c, Mul32(961, sub));
    WrapSum(961 * sub, 1013 * c);
    assert Add32(Mul32(1013, c), Mul32(961, sub)) == Wrap32(1013 * c + 961 * sub);
    WrapSum(1013 * c + 961 * sub, Mul32(31, p));
    WrapSum(31 * p, 1013 * c + 961 * sub);
    var upTo: int := 1013 * c + 961 * sub + 31 * p;
    assert Add32(Add32(Mul32(1013, c), Mul32(961, sub)), Mul32(31, p)) == Wrap32(upTo);
    WrapSum(upTo, o);
    WrapInRange(o);
  }

  /** Statements that are `equals` have the same hash code. */
  lemma HashCodeConsistent(s: Statement, t: Statement, hash: Value -> Int32)
    requires Equals(s, StatementObject(t))
    ensures HashCode(s, hash) == HashCode(t, hash)
  {
    EqualsIff(s, StatementObject(t));
  }

  /** A statement built from an assertion has a null context, which adds
      nothing to its hash code. */
  lemma AssertionStatementHash(a: Assertion, datatypeUri: ColType -> Option<string>, hash: Value -> Int32)
    ensures var st := FromAssertion(a, datatypeUri);
            HashCode(st, hash) ==
            Wrap32(961 * hash(st.subj.value) + 31 * hash(st.pred.value) + hash(st.obj.value))
  {
    HashCodeIsWrappedSum(FromAssertion(a, datatypeUri), hash);
  }
}
