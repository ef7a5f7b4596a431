/** The union node of the query tree (UnionNode.java): an n-ary node whose
    children all project the union's own projected variables. */
module Union {
  import opened QueryNodes

  /** The union's schema invariant: every child projects exactly the
      union's projected variables. */
  predicate ChildrenProjectUnion(projected: set<Variable>, children: seq<IQTree>) {
    forall i :: 0 <= i < |children| ==> ProjectedVariables(children[i]) == projected
  }

  /** A construction node defines only variables it projects. */
  predicate DefinesProjectedOnly(n: QueryNode) {
    n.ConstructionNode? ==> n.substitution.Keys <= n.projected
  }

  /** `hasAChildWithLiftableDefinition`: some child is a construction node
      whose substitution defines `v`. */
  function HasAChildWithLiftableDefinition(v: Variable, children: seq<IQTree>): (r: bool)
    ensures r <==> exists i :: 0 <= i < |children| && children[i].root.ConstructionNode? &&
                               v in children[i].root.substitution
  {
    if children == [] then false
    else
      (children[0].root.ConstructionNode? && v in children[0].root.substitution) ||
      HasAChildWithLiftableDefinition(v, children[1..])
  }

  /** Under the schema invariant, a variable with a liftable definition is
      one of the union's projected variables. */
  lemma LiftableVariableIsProjected(projected: set<Variable>, children: seq<IQTree>, v: Variable)
    requires ChildrenProjectUnion(projected, children)
    requires forall i :: 0 <= i < |children| ==> DefinesProjectedOnly(children[i].root)
    requires HasAChildWithLiftableDefinition(v, children)
    ensures v in projected
  {
    var i :| 0 <= i < |children| && children[i].root.ConstructionNode? && v in children[i].root.substitution;
    assert DefinesProjectedOnly(children[i].root);
  }

  /** A union node over children that all project the same variables,
      declaring the variables of its first child. */
  function BuildUnion(children: seq<IQTree>): (t: IQTree)
    requires |children| > 0
    requires forall i :: 0 <= i < |children| ==>
               ProjectedVariables(children[i]) == ProjectedVariables(children[0])
    ensures t.root.UnionNode? && t.children == children
    ensures ChildrenProjectUnion(t.root.unionProjected, children)
  {
    IQTree(UnionNode(ProjectedVariables(children[0])), children)
  }

  /** The variables the children produce between them. */
  function Produced(children: seq<IQTree>): set<Variable> {
    set i, v | 0 <= i < |children| && v in ProjectedVariables(children[i]) :: v
  }

  /** Under the schema invariant a union projects exactly the variables its
      children produce, so its declared projection loses and adds nothing. */
  lemma UnionProjectsChildren(t: IQTree)
    requires t.root.UnionNode? && |t.children| > 0
    requires ChildrenProjectUnion(t.root.unionProjected, t.children)
    ensures ProjectedVariables(t) == Produced(t.children)
  {
    var produced := Produced(t.children);
    assert ProjectedVariables(t) == t.root.unionProjected;
    forall v | v in t.root.unionProjected
      ensures v in produced
    {
      assert v in ProjectedVariables(t.children[0]);
    }
    forall v | v in produced
      ensures v in t.root.unionProjected
    {
      var i :| 0 <= i < |t.children| && v in ProjectedVariables(t.children[i]);
      assert ProjectedVariables(t.children[i]) == t.root.unionProjected;
    }
    assert t.root.unionProjected == produced;
  }

  /** `clone`: a union node with the same projected variables. */
  function Clone(u: QueryNode): (r: QueryNode)
    requires u.UnionNode?
    ensures r.UnionNode? && r.unionProjected == u.unionProjected
  {
    UnionNode(u.unionProjected)
  }
}
