/** ABox constants and assertions, as SesameStatement.java and
    DefaultSimpleGraphResultSet.java see them. */
module ABox {
  import opened Wrappers

  /** The column types a value constant can carry; `OtherType` stands for
      the remaining XSD types, each under its own name. */
  datatype ColType = LiteralType | LiteralLangType | ObjectType | StringType | OtherType(name: string)

  /** Individuals: IRIs and blank nodes. */
  datatype ObjectConstant = UriConstant(iri: string) | BNode(name: string)

  /** A literal: its lexical value, its language tag when it has one, and its
      column type. */
  datatype ValueConstant = ValueConstant(value: string, language: Option<string>, colType: ColType)

  datatype Constant = ObjectConst(oc: ObjectConstant) | ValueConst(vc: ValueConstant)
  {
    /** `Constant.getValue()`: the IRI, the blank-node name or the lexical
        value. */
    function Value(): string {
      match this
      case ObjectConst(UriConstant(iri)) => iri
      case ObjectConst(BNode(name)) => name
      case ValueConst(vc) => vc.value
    }
  }

  /** A class membership, an object-property edge between two individuals,
      or a data-property value of an individual. Classes and properties are
      named by their IRIs. */
  datatype Assertion =
    | ClassAssertion(concept: string, individual: ObjectConstant)
    | ObjectPropertyAssertion(property: string, subject: ObjectConstant, target: ObjectConstant)
    | DataPropertyAssertion(dataProperty: string, owner: ObjectConstant, literal: ValueConstant)
}
