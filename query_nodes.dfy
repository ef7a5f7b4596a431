/** The query-tree vocabulary shared by UnionNode.java and
    IntermediateQuery.java: variables, terms, substitutions, node kinds and
    immutable trees. */
module QueryNodes {
  type Variable = string

  datatype ImmutableTerm =
    | VariableTerm(name: Variable)
    | ConstantTerm(value: string)
    | FunctionalTerm(symbol: string, args: seq<ImmutableTerm>)

  type Substitution = map<Variable, ImmutableTerm>

  /** The node kinds the model distinguishes. A construction node projects
      some variables and defines some of them by substitution. */
  datatype QueryNode =
    | ConstructionNode(projected: set<Variable>, substitution: Substitution)
    | UnionNode(unionProjected: set<Variable>)
    | InnerJoinNode
    | LeftJoinNode
    | FilterNode(condition: ImmutableTerm)
    | DataNode(relation: string, arguments: seq<Variable>)
    | EmptyNode(emptyProjected: set<Variable>)

  function TermVariables(t: ImmutableTerm): set<Variable>
    decreases t
  {
    match t
    case VariableTerm(name) => {name}
    case ConstantTerm(_) => {}
    case FunctionalTerm(_, args) => set i, v | 0 <= i < |args| && v in TermVariables(args[i]) :: v
  }

  /** The variables a node mentions. */
  function NodeVariables(n: QueryNode): set<Variable> {
    match n
    case ConstructionNode(projected, substitution) =>
      projected + substitution.Keys + set x, v | x in substitution.Keys && v in TermVariables(substitution[x]) :: v
    case UnionNode(vs) => vs
    case InnerJoinNode => {}
    case LeftJoinNode => {}
    case FilterNode(condition) => TermVariables(condition)
    case DataNode(_, arguments) => set i | 0 <= i < |arguments| :: arguments[i]
    case EmptyNode(vs) => vs
  }

  /** An immutable query tree: a node and its ordered children. */
  datatype IQTree = IQTree(root: QueryNode, children: seq<IQTree>)

  /** The variables a tree projects: those a projecting node declares, the
      arguments of a data node, and for joins and filters those of the
      children. */
  function ProjectedVariables(t: IQTree): set<Variable>
    decreases t
  {
    match t.root
    case ConstructionNode(projected, _) => projected
    case UnionNode(vs) => vs
    case EmptyNode(vs) => vs
    case DataNode(_, arguments) => set i | 0 <= i < |arguments| :: arguments[i]
    case _ => set i, v | 0 <= i < |t.children| && v in ProjectedVariables(t.children[i]) :: v
  }
}
