/** The inclusion graphs the TBox reasoner builds from an ontology before it
    computes their equivalence classes (TBoxReasonerImpl.java, lines 548-687).
    A graph keeps a vertex set and an edge set; adding a vertex or an edge is
    set insertion. */
module InclusionGraphs {
  import opened Ontology

  class Graph<V(==)> {
    var vertices: set<V>
    var edges: set<(V, V)>

    constructor ()
      ensures vertices == {} && edges == {}
    {
      vertices := {};
      edges := {};
    }

    method AddVertex(v: V)
      modifies this
      ensures vertices == old(vertices) + {v} && edges == old(edges)
    {
      vertices := vertices + {v};
    }

    method AddEdge(source: V, target: V)
      modifies this
      ensures edges == old(edges) + {(source, target)} && vertices == old(vertices)
    {
      edges := edges + {(source, target)};
    }
  }

  // ---------------------------------------------------------------------
  // What each graph holds. The sequence-indexed parts follow the order in
  // which the builders read the ontology, so each loop adds one element.

  /** Each non-top, non-bottom property of `ps`, with its inverse. */
  function NamedRoleVertices(ps: seq<ObjectPropertyExpression>): set<ObjectPropertyExpression> {
    if ps == [] then {}
    else
      var r := ps[|ps| - 1];
      NamedRoleVertices(ps[..|ps| - 1]) + (if !r.IsBottom() && !r.IsTop() then {r, r.Inverse()} else {})
  }

  /** Each property of `ps`, with its inverse. */
  function AuxiliaryRoleVertices(ps: seq<ObjectPropertyExpression>): set<ObjectPropertyExpression> {
    if ps == [] then {}
    else
      var r := ps[|ps| - 1];
      AuxiliaryRoleVertices(ps[..|ps| - 1]) + {r, r.Inverse()}
  }

  /** R -> S and R- -> S- for each axiom R ISA S of `axs`. */
  function RoleInclusionEdges(axs: seq<BinaryAxiom<ObjectPropertyExpression>>): set<(ObjectPropertyExpression, ObjectPropertyExpression)> {
    if axs == [] then {}
    else
      var a := axs[|axs| - 1];
      RoleInclusionEdges(axs[..|axs| - 1]) + {(a.sub, a.super), (a.sub.Inverse(), a.super.Inverse())}
  }

  function ObjectPropertyVertices(o: Ontology): set<ObjectPropertyExpression> {
    NamedRoleVertices(o.objectProperties) + AuxiliaryRoleVertices(o.auxiliaryObjectProperties)
  }

  function ObjectPropertyEdges(o: Ontology): set<(ObjectPropertyExpression, ObjectPropertyExpression)> {
    RoleInclusionEdges(o.subObjectPropertyAxioms)
  }

  /** Each non-top, non-bottom data property of `ps`. */
  function DataPropertyVerticesOf(ps: seq<DataPropertyExpression>): set<DataPropertyExpression> {
    if ps == [] then {}
    else
      var r := ps[|ps| - 1];
      DataPropertyVerticesOf(ps[..|ps| - 1]) + (if !r.IsBottom() && !r.IsTop() then {r} else {})
  }

  /** sub -> super for each axiom of `axs`. */
  function AxiomEdges<T(==)>(axs: seq<BinaryAxiom<T>>): set<(T, T)> {
    if axs == [] then {}
    else AxiomEdges(axs[..|axs| - 1]) + {(axs[|axs| - 1].sub, axs[|axs| - 1].super)}
  }

  function DataPropertyVertices(o: Ontology): set<DataPropertyExpression> {
    DataPropertyVerticesOf(o.dataProperties)
  }

  function DataPropertyEdges(o: Ontology): set<(DataPropertyExpression, DataPropertyExpression)> {
    AxiomEdges(o.subDataPropertyAxioms)
  }

  /** Each non-top, non-bottom named class of `cs`. */
  function NamedClassVertices(cs: seq<OClass>): set<ClassExpression> {
    if cs == [] then {}
    else
      var c := cs[|cs| - 1];
      NamedClassVertices(cs[..|cs| - 1]) + (if !c.IsBottom() && !c.IsTop() then {NamedClass(c)} else {})
  }

  /** Non-top, non-bottom named classes, the domains of the object-property
      vertices, and every domain restriction of every data-property vertex.
      `fillers(p)` gives the fillers of the domain restrictions of `p` that
      exist (what `getAllDomainRestrictions` returns). */
  function ClassVertices(o: Ontology, opVertices: set<ObjectPropertyExpression>,
                         dpVertices: set<DataPropertyExpression>,
                         fillers: DataPropertyExpression -> set<Datatype>): set<ClassExpression> {
    NamedClassVertices(o.classes)
    + (set r | r in opVertices :: r.Domain())
    + (set r, d | r in dpVertices && d in fillers(r) :: r.DomainRestriction(d))
  }

  /** domain(R) -> domain(S) for every object-property edge, the rdfs:Literal
      domain restrictions for every data-property edge, and every sub-class
      axiom. */
  function ClassEdges(o: Ontology, opEdges: set<(ObjectPropertyExpression, ObjectPropertyExpression)>,
                      dpEdges: set<(DataPropertyExpression, DataPropertyExpression)>): set<(ClassExpression, ClassExpression)> {
    (set e | e in opEdges :: (e.0.Domain(), e.1.Domain()))
    + (set e | e in dpEdges :: (e.0.DomainRestriction(RdfsLiteral), e.1.DomainRestriction(RdfsLiteral)))
    + AxiomEdges(o.subClassAxioms)
  }

  /** The super range of each sub-data-range axiom of `axs`. */
  function SuperRanges(axs: seq<BinaryAxiom<DataRangeExpression>>): set<DataRangeExpression> {
    if axs == [] then {}
    else SuperRanges(axs[..|axs| - 1]) + {axs[|axs| - 1].super}
  }

  /** The ranges of the data-property vertices and the super range of every
      sub-data-range axiom. */
  function DataRangeVertices(o: Ontology, dpVertices: set<DataPropertyExpression>): set<DataRangeExpression> {
    (set r | r in dpVertices :: r.Range()) + SuperRanges(o.subDataRangeAxioms)
  }

  function DataRangeEdges(o: Ontology, dpEdges: set<(DataPropertyExpression, DataPropertyExpression)>): set<(DataRangeExpression, DataRangeExpression)> {
    (set e | e in dpEdges :: (e.0.Range(), e.1.Range())) + AxiomEdges(o.subDataRangeAxioms)
  }

  // ---------------------------------------------------------------------
  // The builders

  method GetObjectPropertyGraph(o: Ontology) returns (g: Graph<ObjectPropertyExpression>)
    ensures fresh(g)
    ensures g.vertices == ObjectPropertyVertices(o)
    ensures g.edges == ObjectPropertyEdges(o)
  {
    g := new Graph();
    var props := o.objectProperties;
    for i := 0 to |props|
      invariant g.vertices == NamedRoleVertices(props[..i]) && g.edges == {}
    {
      assert props[..i + 1][..i] == props[..i];
      var role := props[i];
      if !role.IsBottom() && !role.IsTop() {
        g.AddVertex(role);
        g.AddVertex(role.Inverse());
      }
    }
    assert props[..|props|] == props;
    var aux := o.auxiliaryObjectProperties;
    for i := 0 to |aux|
      invariant g.vertices == NamedRoleVertices(props) + AuxiliaryRoleVertices(aux[..i]) && g.edges == {}
    {
      assert aux[..i + 1][..i] == aux[..i];
      g.AddVertex(aux[i]);
      g.AddVertex(aux[i].Inverse());
    }
    assert aux[..|aux|] == aux;
    var axioms := o.subObjectPropertyAxioms;
    for i := 0 to |axioms|
      invariant g.vertices == ObjectPropertyVertices(o) && g.edges == RoleInclusionEdges(axioms[..i])
    {
      assert axioms[..i + 1][..i] == axioms[..i];
      // adds the direct edge and the inverse one
      g.AddEdge(axioms[i].sub, axioms[i].super);
      g.AddEdge(axioms[i].sub.Inverse(), axioms[i].super.Inverse());
    }
    assert axioms[..|axioms|] == axioms;
  }

  method GetDataPropertyGraph(o: Ontology) returns (g: Graph<DataPropertyExpression>)
    ensures fresh(g)
    ensures g.vertices == DataPropertyVertices(o)
    ensures g.edges == DataPropertyEdges(o)
  {
    g := new Graph();
    var props := o.dataProperties;
    for i := 0 to |props|
      invariant g.vertices == DataPropertyVerticesOf(props[..i]) && g.edges == {}
    {
      assert props[..i + 1][..i] == props[..i];
      if !props[i].IsBottom() && !props[i].IsTop() {
        g.AddVertex(props[i]);
      }
    }
    assert props[..|props|] == props;
    var axioms := o.subDataPropertyAxioms;
    for i := 0 to |axioms|
      invariant g.vertices == DataPropertyVertices(o) && g.edges == AxiomEdges(axioms[..i])
    {
      assert axioms[..i + 1][..i] == axioms[..i];
      g.AddEdge(axioms[i].sub, axioms[i].super);
    }
    assert axioms[..|axioms|] == axioms;
  }

  /** Adds the image under `f` of every element of `xs` as a vertex (one
      loop over a vertex set of another graph). */
  method AddVertexImages<A(==), B(==)>(g: Graph<B>, xs: set<A>, f: A -> B)
    modifies g
    ensures g.vertices == old(g.vertices) + (set x | x in xs :: f(x))
    ensures g.edges == old(g.edges)
  {
    var rest := xs;
    while rest != {}
      invariant rest <= xs
      invariant g.vertices == old(g.vertices) + (set x | x in xs - rest :: f(x))
      invariant g.edges == old(g.edges)
      decreases rest
    {
      var x :| x in rest;
      g.AddVertex(f(x));
      rest := rest - {x};
    }
  }

  /** Adds the edge f(s) -> f(t) for every edge s -> t of `es` (one loop over
      the edge set of another graph). */
  method AddEdgeImages<A(==), B(==)>(g: Graph<B>, es: set<(A, A)>, f: A -> B)
    modifies g
    ensures g.edges == old(g.edges) + (set e | e in es :: (f(e.0), f(e.1)))
    ensures g.vertices == old(g.vertices)
  {
    var rest := es;
    while rest != {}
      invariant rest <= es
      invariant g.edges == old(g.edges) + (set e | e in es - rest :: (f(e.0), f(e.1)))
      invariant g.vertices == old(g.vertices)
      decreases rest
    {
      var e :| e in rest;
      g.AddEdge(f(e.0), f(e.1));
      rest := rest - {e};
    }
  }

  /** Adds every domain restriction of every data property of `roles`. */
  method AddDomainRestrictions(g: Graph<ClassExpression>, roles: set<DataPropertyExpression>,
                               fillers: DataPropertyExpression -> set<Datatype>)
    modifies g
    ensures g.vertices == old(g.vertices) + (set r, d | r in roles && d in fillers(r) :: r.DomainRestriction(d))
    ensures g.edges == old(g.edges)
  {
    var rest := roles;
    while rest != {}
      invariant rest <= roles
      invariant g.vertices == old(g.vertices) + (set r, d | r in roles - rest && d in fillers(r) :: r.DomainRestriction(d))
      invariant g.edges == old(g.edges)
      decreases rest
    {
      var role :| role in rest;
      AddVertexImages(g, fillers(role), d => role.DomainRestriction(d));
      rest := rest - {role};
    }
  }

  method GetClassGraph(o: Ontology, opGraph: Graph<ObjectPropertyExpression>, dpGraph: Graph<DataPropertyExpression>,
                       fillers: DataPropertyExpression -> set<Datatype>)
    returns (g: Graph<ClassExpression>)
    ensures fresh(g)
    ensures g.vertices == ClassVertices(o, opGraph.vertices, dpGraph.vertices, fillers)
    ensures g.edges == ClassEdges(o, opGraph.edges, dpGraph.edges)
  {
    g := new Graph();
    var classes := o.classes;
    for i := 0 to |classes|
      invariant g.vertices == NamedClassVertices(classes[..i]) && g.edges == {}
    {
      assert classes[..i + 1][..i] == classes[..i];
      if !classes[i].IsBottom() && !classes[i].IsTop() {
        g.AddVertex(NamedClass(classes[i]));
      }
    }
    assert classes[..|classes|] == classes;
    // domains of roles, and the inclusions between them
    AddVertexImages(g, opGraph.vertices, (r: ObjectPropertyExpression) => r.Domain());
    AddEdgeImages(g, opGraph.edges, (r: ObjectPropertyExpression) => r.Domain());
    // domain restrictions of data properties, and the inclusions between them
    AddDomainRestrictions(g, dpGraph.vertices, fillers);
    AddEdgeImages(g, dpGraph.edges, (r: DataPropertyExpression) => r.DomainRestriction(RdfsLiteral));
    ghost var derived := g.edges;
    // class inclusions from the ontology
    var axioms := o.subClassAxioms;
    for i := 0 to |axioms|
      invariant g.vertices == ClassVertices(o, opGraph.vertices, dpGraph.vertices, fillers)
      invariant g.edges == derived + AxiomEdges(axioms[..i])
    {
      assert axioms[..i + 1][..i] == axioms[..i];
      g.AddEdge(axioms[i].sub, axioms[i].super);
    }
    assert axioms[..|axioms|] == axioms;
  }

  method GetDataRangeGraph(o: Ontology, dpGraph: Graph<DataPropertyExpression>) returns (g: Graph<DataRangeExpression>)
    ensures fresh(g)
    ensures g.vertices == DataRangeVertices(o, dpGraph.vertices)
    ensures g.edges == DataRangeEdges(o, dpGraph.edges)
  {
    g := new Graph();
    // ranges of roles, and the inclusions between them
    AddVertexImages(g, dpGraph.vertices, (r: DataPropertyExpression) => r.Range());
    AddEdgeImages(g, dpGraph.edges, (r: DataPropertyExpression) => r.Range());
    ghost var ranges, rangeEdges := g.vertices, g.edges;
    // data range inclusions from the ontology; the super range is not
    // necessarily a vertex yet
    var axioms := o.subDataRangeAxioms;
    for i := 0 to |axioms|
      invariant g.vertices == ranges + SuperRanges(axioms[..i])
      invariant g.edges == rangeEdges + AxiomEdges(axioms[..i])
    {
      assert axioms[..i + 1][..i] == axioms[..i];
      g.AddVertex(axioms[i].super);
      g.AddEdge(axioms[i].sub, axioms[i].super);
    }
    assert axioms[..|axioms|] == axioms;
  }

  // ---------------------------------------------------------------------
  // What the graphs contain

  /** A property is a named-role vertex iff it or its inverse is declared,
      and it is neither top nor bottom. */
  lemma {:induction false} NamedRoleVerticesMembers(ps: seq<ObjectPropertyExpression>, x: ObjectPropertyExpression)
    ensures x in NamedRoleVertices(ps) <==> (x in ps || x.Inverse() in ps) && !x.IsTop() && !x.IsBottom()
    decreases |ps|
  {
    if ps != [] {
      var init := ps[..|ps| - 1];
      NamedRoleVerticesMembers(init, x);
      assert ps == init + [ps[|ps| - 1]];
    }
  }

  /** A property is an auxiliary-role vertex iff it or its inverse is an
      auxiliary property. */
  lemma {:induction false} AuxiliaryRoleVerticesMembers(ps: seq<ObjectPropertyExpression>, x: ObjectPropertyExpression)
    ensures x in AuxiliaryRoleVertices(ps) <==> x in ps || x.Inverse() in ps
    decreases |ps|
  {
    if ps != [] {
      var init := ps[..|ps| - 1];
      AuxiliaryRoleVerticesMembers(init, x);
      assert ps == init + [ps[|ps| - 1]];
    }
  }

  /** The vertices of the object-property graph: every non-top, non-bottom
      property and every auxiliary property, each with its inverse, and
      nothing else. The vertex set is closed under inverse. */
  lemma ObjectPropertyVerticesMembers(o: Ontology, x: ObjectPropertyExpression)
    ensures x in ObjectPropertyVertices(o) <==>
      ((x in o.objectProperties || x.Inverse() in o.objectProperties) && !x.IsTop() && !x.IsBottom())
      || x in o.auxiliaryObjectProperties || x.Inverse() in o.auxiliaryObjectProperties
    ensures x in ObjectPropertyVertices(o) <==> x.Inverse() in ObjectPropertyVertices(o)
  {
    NamedRoleVerticesMembers(o.objectProperties, x);
    AuxiliaryRoleVerticesMembers(o.auxiliaryObjectProperties, x);
    NamedRoleVerticesMembers(o.objectProperties, x.Inverse());
    AuxiliaryRoleVerticesMembers(o.auxiliaryObjectProperties, x.Inverse());
  }

  /** An edge of the object-property graph comes from a sub-property axiom,
      directly or with both ends inverted. */
  lemma {:induction false} RoleInclusionEdgesMembers(axs: seq<BinaryAxiom<ObjectPropertyExpression>>,
                                                     s: ObjectPropertyExpression, t: ObjectPropertyExpression)
    ensures (s, t) in RoleInclusionEdges(axs) <==>
      BinaryAxiom(s, t) in axs || BinaryAxiom(s.Inverse(), t.Inverse()) in axs
    decreases |axs|
  {
    if axs != [] {
      var init := axs[..|axs| - 1];
      RoleInclusionEdgesMembers(init, s, t);
      assert axs == init + [axs[|axs| - 1]];
    }
  }

  /** The object-property edge set is closed under inverting both ends. */
  lemma ObjectPropertyEdgesInverseClosed(o: Ontology, s: ObjectPropertyExpression, t: ObjectPropertyExpression)
    ensures (s, t) in ObjectPropertyEdges(o) <==> (s.Inverse(), t.Inverse()) in ObjectPropertyEdges(o)
  {
    RoleInclusionEdgesMembers(o.subObjectPropertyAxioms, s, t);
    RoleInclusionEdgesMembers(o.subObjectPropertyAxioms, s.Inverse(), t.Inverse());
  }

  /** When every sub-property axiom relates two graph vertices, every edge
      (inverted ones included) joins two vertices. */
  lemma ObjectPropertyEdgesWithinVertices(o: Ontology, s: ObjectPropertyExpression, t: ObjectPropertyExpression)
    requires forall a :: a in o.subObjectPropertyAxioms ==>
      a.sub in ObjectPropertyVertices(o) && a.super in ObjectPropertyVertices(o)
    requires (s, t) in ObjectPropertyEdges(o)
    ensures s in ObjectPropertyVertices(o) && t in ObjectPropertyVertices(o)
  {
    RoleInclusionEdgesMembers(o.subObjectPropertyAxioms, s, t);
    ObjectPropertyVerticesMembers(o, s);
    ObjectPropertyVerticesMembers(o, t);
  }

  /** An edge built from axioms is exactly an axiom. */
  lemma {:induction false} AxiomEdgesMembers<T>(axs: seq<BinaryAxiom<T>>, s: T, t: T)
    ensures (s, t) in AxiomEdges(axs) <==> BinaryAxiom(s, t) in axs
    decreases |axs|
  {
    if axs != [] {
      var init := axs[..|axs| - 1];
      AxiomEdgesMembers(init, s, t);
      assert axs == init + [axs[|axs| - 1]];
    }
  }

  /** A data property is a vertex iff it is declared and is neither top nor
      bottom. */
  lemma {:induction false} DataPropertyVerticesMembers(ps: seq<DataPropertyExpression>, x: DataPropertyExpression)
    ensures x in DataPropertyVerticesOf(ps) <==> x in ps && !x.IsTop() && !x.IsBottom()
    decreases |ps|
  {
    if ps != [] {
      var init := ps[..|ps| - 1];
      DataPropertyVerticesMembers(init, x);
      assert ps == init + [ps[|ps| - 1]];
    }
  }

  /** The named-class vertices are the declared classes other than owl:Thing
      and owl:Nothing. */
  lemma {:induction false} NamedClassVerticesMembers(cs: seq<OClass>, x: ClassExpression)
    ensures x in NamedClassVertices(cs) <==> x.NamedClass? && x.cls in cs && !x.cls.IsTop() && !x.cls.IsBottom()
    decreases |cs|
  {
    if cs != [] {
      var init := cs[..|cs| - 1];
      NamedClassVerticesMembers(init, x);
      assert cs == init + [cs[|cs| - 1]];
    }
  }

  /** The super ranges are exactly the super sides of the axioms. */
  lemma {:induction false} SuperRangesMembers(axs: seq<BinaryAxiom<DataRangeExpression>>, x: DataRangeExpression)
    ensures x in SuperRanges(axs) <==> exists a :: a in axs && a.super == x
    decreases |axs|
  {
    if axs != [] {
      var init := axs[..|axs| - 1];
      SuperRangesMembers(init, x);
      assert axs == init + [axs[|axs| - 1]];
      assert forall a :: a in axs <==> a in init || a == axs[|axs| - 1];
    }
  }

  /** The data-range graph has the super range of every sub-data-range axiom
      as a vertex, and the axiom as an edge. */
  lemma DataRangeAxiomEdges(o: Ontology, dpVertices: set<DataPropertyExpression>,
                            dpEdges: set<(DataPropertyExpression, DataPropertyExpression)>,
                            a: BinaryAxiom<DataRangeExpression>)
    requires a in o.subDataRangeAxioms
    ensures a.super in DataRangeVertices(o, dpVertices)
    ensures (a.sub, a.super) in DataRangeEdges(o, dpEdges)
  {
    SuperRangesMembers(o.subDataRangeAxioms, a.super);
    AxiomEdgesMembers(o.subDataRangeAxioms, a.sub, a.super);
  }

  /** The class graph's edges are exactly the domains of the object-property
      edges, the rdfs:Literal domain restrictions of the data-property edges,
      and the sub-class axioms. */
  lemma ClassEdgesMembers(o: Ontology, opEdges: set<(ObjectPropertyExpression, ObjectPropertyExpression)>,
                          dpEdges: set<(DataPropertyExpression, DataPropertyExpression)>,
                          x: ClassExpression, y: ClassExpression)
    ensures (x, y) in ClassEdges(o, opEdges, dpEdges) <==>
      (exists e :: e in opEdges && x == e.0.Domain() && y == e.1.Domain())
      || (exists e :: e in dpEdges && x == e.0.DomainRestriction(RdfsLiteral) &&
                                      y == e.1.DomainRestriction(RdfsLiteral))
      || BinaryAxiom(x, y) in o.subClassAxioms
  {
    AxiomEdgesMembers(o.subClassAxioms, x, y);
  }

  /** The data-range graph's edges are exactly the ranges of the
      data-property edges and the sub-data-range axioms. */
  lemma DataRangeEdgesMembers(o: Ontology, dpEdges: set<(DataPropertyExpression, DataPropertyExpression)>,
                              x: DataRangeExpression, y: DataRangeExpression)
    ensures (x, y) in DataRangeEdges(o, dpEdges) <==>
      (exists e :: e in dpEdges && x == e.0.Range() && y == e.1.Range())
      || BinaryAxiom(x, y) in o.subDataRangeAxioms
  {
    AxiomEdgesMembers(o.subDataRangeAxioms, x, y);
  }
}
