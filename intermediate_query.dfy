/** The intermediate query: a tree of query nodes rooted at a construction
    node, with the navigation and variable-generation contracts of
    IntermediateQuery.java realised over parent and child maps. */
module IntermediateQueries {
  import opened Wrappers
  import opened QueryNodes

  /** Nodes are addressed by identity; an identifier stands for it. */
  type NodeId = nat

  const UNKNOWN_NODE := "The node is not part of the query"
  const ROOT_MUST_PROJECT := "The root of a query must be a construction node"

  predicate NoDuplicates<T(==)>(s: seq<T>) {
    forall i, j :: 0 <= i < j < |s| ==> s[i] != s[j]
  }

  /** `s` backwards. */
  function Reverse<T>(s: seq<T>): (r: seq<T>)
    ensures |r| == |s|
    ensures forall i :: 0 <= i < |s| ==> r[i] == s[|s| - 1 - i]
  {
    seq(|s|, i requires 0 <= i < |s| => s[|s| - 1 - i])
  }

  /** Putting the root in front of the nodes below it, each of which follows
      its parent or hangs off the root, gives an order where every node but
      the first follows its parent. */
  lemma PrependRoot(rt: NodeId, below: seq<NodeId>, par: map<NodeId, NodeId>)
    requires NoDuplicates(below) && rt !in below
    requires forall i :: 0 <= i < |below| ==>
               below[i] in par && (par[below[i]] == rt || par[below[i]] in below[..i])
    ensures NoDuplicates([rt] + below)
    ensures forall i :: 0 < i < |[rt] + below| ==>
              ([rt] + below)[i] in par && par[([rt] + below)[i]] in ([rt] + below)[..i]
  {
    var r := [rt] + below;
    forall i | 0 < i < |r|
      ensures r[i] in par && par[r[i]] in r[..i]
    {
      assert r[i] == below[i - 1];
      assert r[..i] == [rt] + below[..i - 1];
    }
    forall i, j | 0 <= i < j < |r|
      ensures r[i] != r[j]
    {
      assert r[j] == below[j - 1];
      if i > 0 {
        assert r[i] == below[i - 1];
      }
    }
  }

  /** Reversing keeps the elements and their distinctness. */
  lemma ReverseMembers<T>(s: seq<T>)
    ensures forall x :: x in Reverse(s) <==> x in s
    ensures NoDuplicates(s) ==> NoDuplicates(Reverse(s))
  {
    var r := Reverse(s);
    var n := |s|;
    forall x | x in s
      ensures x in r
    {
      var k :| 0 <= k < n && s[k] == x;
      assert r[n - 1 - k] == x;
    }
    if NoDuplicates(s) {
      forall i, j | 0 <= i < j < n
        ensures r[i] != r[j]
      {
        assert r[i] == s[n - 1 - i] && r[j] == s[n - 1 - j];
      }
    }
  }

  /** Reversing an order where every node but the first follows its parent
      gives one where every node but the last precedes its parent. */
  lemma ReverseOrder(down: seq<NodeId>, par: map<NodeId, NodeId>)
    requires forall i :: 0 < i < |down| ==> down[i] in par && par[down[i]] in down[..i]
    ensures forall i :: 0 <= i < |down| - 1 ==>
              Reverse(down)[i] in par && par[Reverse(down)[i]] in Reverse(down)[i + 1..]
  {
    var r := Reverse(down);
    var n := |down|;
    forall i | 0 <= i < n - 1
      ensures r[i] in par && par[r[i]] in r[i + 1..]
    {
      ReverseStep(down, par, i);
    }
  }

  lemma ReverseStep(down: seq<NodeId>, par: map<NodeId, NodeId>, i: nat)
    requires i < |down| - 1
    requires down[|down| - 1 - i] in par && par[down[|down| - 1 - i]] in down[..|down| - 1 - i]
    ensures Reverse(down)[i] in par && par[Reverse(down)[i]] in Reverse(down)[i + 1..]
  {
    var r := Reverse(down);
    var n := |down|;
    var j := n - 1 - i;
    var k :| 0 <= k < j && down[k] == par[down[j]];
    assert r[n - 1 - k] == par[r[i]];
    assert r[i + 1..][n - 2 - k - i] == r[n - 1 - k];
  }

  /** A proposal to replace the node at `target` by `replacement`. */
  datatype Proposal = ReplaceNodeProposal(target: NodeId, replacement: QueryNode)

  /** What `applyProposal` hands back when it succeeds: the node the
      optimisation touched. */
  datatype ProposalResults = ProposalResults(optimizedNode: NodeId)

  /** `applyProposal`'s three outcomes: an
      `InvalidQueryOptimizationProposalException`, an `EmptyQueryException`,
      or the results. */
  datatype ProposalOutcome = Rejected(reason: string) | EmptyQuery | Applied(results: ProposalResults)

  /** The longest length in `s`, or anything above it. */
  method MaxLength(s: set<string>) returns (m: nat)
    ensures forall x :: x in s ==> |x| <= m
  {
    m := 0;
    var rest := s;
    while rest != {}
      invariant rest <= s
      invariant forall x :: x in s - rest ==> |x| <= m
      decreases rest
    {
      var x :| x in rest;
      if |x| > m {
        m := |x|;
      }
      rest := rest - {x};
    }
  }

  /** Joining two repeat-free sequences with no common element gives a
      repeat-free sequence. */
  lemma NoDuplicatesAppend<T>(a: seq<T>, b: seq<T>)
    requires NoDuplicates(a) && NoDuplicates(b)
    requires forall x :: x in b ==> x !in a
    ensures NoDuplicates(a + b)
  {
    forall i, j | 0 <= i < j < |a + b|
      ensures (a + b)[i] != (a + b)[j]
    {
      if j < |a| {
        assert (a + b)[j] == a[j] && (a + b)[i] == a[i];
      } else if i >= |a| {
        assert (a + b)[j] == b[j - |a|] && (a + b)[i] == b[i - |a|];
      } else {
        assert (a + b)[j] == b[j - |a|] && b[j - |a|] in b && (a + b)[i] == a[i];
      }
    }
  }

  /** The shape of a query tree over node identifiers: `rt` is a
      construction node, child lists and parent links agree, child lists have
      no repeats, identifiers are below `next` and `dep` counts the levels. */
  ghost predicate IsTree(rt: NodeId, ks: map<NodeId, QueryNode>, ch: map<NodeId, seq<NodeId>>,
                         par: map<NodeId, NodeId>, next: NodeId, dep: map<NodeId, nat>)
  {
    && rt in ks && ks[rt].ConstructionNode?
    && ch.Keys == ks.Keys && dep.Keys == ks.Keys
    && par.Keys == ks.Keys - {rt}
    && (forall k :: k in ks ==> k < next)
    && (forall n, i :: n in ch && 0 <= i < |ch[n]| ==> ch[n][i] in par && par[ch[n][i]] == n)
    && (forall c :: c in par ==> par[c] in ks && c in ch[par[c]])
    && (forall n :: n in ch ==> NoDuplicates(ch[n]))
    && dep[rt] == 0
    && (forall c :: c in par ==> dep[c] == dep[par[c]] + 1)
  }

  /** Hanging a fresh node under an existing one keeps the tree shape. */
  lemma AddKeepsTree(rt: NodeId, ks: map<NodeId, QueryNode>, ch: map<NodeId, seq<NodeId>>,
                     par: map<NodeId, NodeId>, next: NodeId, dep: map<NodeId, nat>,
                     p: NodeId, node: QueryNode)
    requires IsTree(rt, ks, ch, par, next, dep) && p in ks
    ensures IsTree(rt, ks[next := node], ch[p := ch[p] + [next]][next := []], par[next := p],
                   next + 1, dep[next := dep[p] + 1])
  {
    var c := next;
    var siblings := ch[p] + [c];
    var ks', ch', par' := ks[c := node], ch[p := siblings][c := []], par[c := p];
    var dep' := dep[c := dep[p] + 1];
    assert c !in ks && c !in par;
    forall i | 0 <= i < |ch[p]|
      ensures ch[p][i] != c
    {
      assert ch[p][i] in par;
    }
    assert NoDuplicates(siblings);
    forall q, i | q in ch' && 0 <= i < |ch'[q]|
      ensures ch'[q][i] in par' && par'[ch'[q][i]] == q
    {
      if q == p && i == |ch[p]| {
        assert ch'[q][i] == c;
      } else if q == p {
        assert ch'[q][i] == ch[p][i];
      } else {
        assert q != c && ch'[q] == ch[q];
      }
    }
    forall q | q in par'
      ensures par'[q] in ks' && q in ch'[par'[q]]
    {
      if q == c {
        assert siblings[|ch[p]|] == c;
      } else if par[q] == p {
        var i :| 0 <= i < |ch[p]| && ch[p][i] == q;
        assert siblings[i] == q;
      }
    }
    forall q | q in ch'
      ensures NoDuplicates(ch'[q])
    {
    }
    forall q | q in par'
      ensures dep'[q] == dep'[par'[q]] + 1
    {
    }
    assert ch'.Keys == ks'.Keys;
    assert par'.Keys == ks'.Keys - {rt};
  }

  class IntermediateQuery {
    var root: NodeId
    var kind: map<NodeId, QueryNode>
    var children: map<NodeId, seq<NodeId>>
    var parent: map<NodeId, NodeId>
    /** Identifiers handed out so far are below `nextId`. */
    var nextId: NodeId
    /** The distance of each node from the root. */
    ghost var depth: map<NodeId, nat>

    /** A tree: the root is a construction node, every other node has the
        parent whose child list holds it exactly once, and depths grow by one
        from parent to child. */
    ghost predicate Valid()
      reads this
    {
      IsTree(root, kind, children, parent, nextId, depth)
    }

    /** A query made of its root construction node alone. */
    constructor (rootNode: QueryNode)
      requires rootNode.ConstructionNode?
      ensures Valid()
      ensures kind == map[root := rootNode] && children == map[root := []] && parent == map[]
    {
      root := 0;
      kind := map[0 := rootNode];
      children := map[0 := []];
      parent := map[];
      nextId := 1;
      depth := map[0 := 0];
    }

    /** Attaches a new last child under `p` (the query builder's
        `addChild`). */
    method AddChild(p: NodeId, node: QueryNode) returns (c: NodeId)
      requires Valid() && p in kind
      modifies this
      ensures Valid()
      ensures c !in old(kind) && kind == old(kind)[c := node] && root == old(root)
      ensures children == old(children)[p := old(children)[p] + [c]][c := []]
      ensures parent == old(parent)[c := p]
    {
      c := nextId;
      AddKeepsTree(root, kind, children, parent, nextId, depth, p, node);
      kind := kind[c := node];
      children := children[p := children[p] + [c]][c := []];
      parent := parent[c := p];
      depth := depth[c := depth[p] + 1];
      nextId := nextId + 1;
    }

    predicate Contains(n: NodeId)
      reads this
    {
      n in kind
    }

    /** `getRootConstructionNode`. */
    function GetRootConstructionNode(): (r: QueryNode)
      reads this
      requires Valid()
      ensures r.ConstructionNode? && r == kind[root]
    {
      kind[root]
    }

    function GetChildren(n: NodeId): (r: seq<NodeId>)
      reads this
      requires Valid() && Contains(n)
      ensures NoDuplicates(r)
      ensures forall i :: 0 <= i < |r| ==> Contains(r[i]) && r[i] != root
    {
      children[n]
    }

    function GetParent(n: NodeId): (r: Option<NodeId>)
      reads this
      requires Valid() && Contains(n)
      ensures r.None? <==> n == root
      ensures r.Some? ==> Contains(r.value) && n in GetChildren(r.value)
    {
      if n == root then None else Some(parent[n])
    }

    /** A node's parent is the one node whose children include it. */
    lemma ParentIff(p: NodeId, c: NodeId)
      requires Valid() && Contains(p) && Contains(c)
      ensures GetParent(c) == Some(p) <==> c in GetChildren(p)
    {
      if c in GetChildren(p) {
        var i :| 0 <= i < |children[p]| && children[p][i] == c;
        assert parent[children[p][i]] == p;
      }
    }

    function GetFirstChild(n: NodeId): (r: Option<NodeId>)
      reads this
      requires Valid() && Contains(n)
      ensures r.None? <==> GetChildren(n) == []
      ensures r.Some? ==> r.value == GetChildren(n)[0] && GetParent(r.value) == Some(n)
    {
      if children[n] == [] then None else Some(children[n][0])
    }

    /** The position of `x` in `s`. */
    static function IndexOf(s: seq<NodeId>, x: NodeId): (k: nat)
      requires x in s
      ensures k < |s| && s[k] == x
      ensures forall j :: 0 <= j < k ==> s[j] != x
    {
      if s[0] == x then 0 else 1 + IndexOf(s[1..], x)
    }

    function GetNextSibling(n: NodeId): (r: Option<NodeId>)
      reads this
      requires Valid() && Contains(n)
      ensures r.Some? ==> n != root && Contains(r.value) && GetParent(r.value) == GetParent(n)
    {
      if n == root then None
      else
        var siblings := children[parent[n]];
        var k := IndexOf(siblings, n);
        if k + 1 < |siblings| then Some(siblings[k + 1]) else None
    }

    /** Following `getFirstChild` and then `getNextSibling` visits the
        children of `p` in the order of `getChildren`. */
    lemma SiblingOrder(p: NodeId, k: nat)
      requires Valid() && Contains(p) && k < |GetChildren(p)|
      ensures GetNextSibling(GetChildren(p)[k]) ==
              (if k + 1 < |GetChildren(p)| then Some(GetChildren(p)[k + 1]) else None)
      ensures k == 0 ==> GetFirstChild(p) == Some(GetChildren(p)[0])
    {
      var c := children[p][k];
      assert parent[c] == p && c != root;
      var j := IndexOf(children[p], c);
    }

    /** The ancestors of `n`, from its parent up to the root. */
    ghost function Ancestors(n: NodeId): (a: seq<NodeId>)
      reads this
      requires Valid() && n in kind
      ensures forall i :: 0 <= i < |a| ==> a[i] in kind
      decreases depth[n]
    {
      if n == root then [] else [parent[n]] + Ancestors(parent[n])
    }

    /** The ancestor list is the parent chain: it starts at the parent, each
        entry is the parent of the one before, it ends at the root, and it
        has one entry per level. */
    lemma {:induction false} AncestorsChain(n: NodeId)
      requires Valid() && n in kind
      ensures var a := Ancestors(n);
              && |a| == depth[n]
              && (n != root ==> a[0] == parent[n])
              && (forall i :: 0 <= i < |a| ==> a[i] in kind && depth[a[i]] < depth[n])
              && (forall i :: 0 <= i < |a| - 1 ==> a[i] != root && parent[a[i]] == a[i + 1])
              && (a != [] ==> a[|a| - 1] == root)
      decreases depth[n]
    {
      if n != root {
        AncestorsChain(parent[n]);
      }
    }

    /** `getAncestors`: the parent chain from the parent to the oldest
        ancestor. */
    method GetAncestors(n: NodeId) returns (r: seq<NodeId>)
      requires Valid() && Contains(n)
      ensures r == Ancestors(n)
      ensures n == root <==> r == []
      ensures n != root ==> r[0] == parent[n] && r[|r| - 1] == root
      ensures forall i :: 0 <= i < |r| ==> Contains(r[i])
      ensures forall i :: 0 <= i < |r| - 1 ==> GetParent(r[i]) == Some(r[i + 1])
    {
      r := [];
      var cur := n;
      while cur != root
        invariant cur in kind
        invariant r + Ancestors(cur) == Ancestors(n)
        decreases depth[cur]
      {
        var p := parent[cur];
        assert Ancestors(cur) == [p] + Ancestors(p);
        assert r + ([p] + Ancestors(p)) == (r + [p]) + Ancestors(p);
        cur := p;
        r := r + [p];
      }
      assert r + [] == r;
      AncestorsChain(n);
    }

    /** `getClosestConstructionNode`: the node itself when it is a
        construction node, otherwise its nearest construction-node
        ancestor. */
    method GetClosestConstructionNode(n: NodeId) returns (r: NodeId)
      requires Valid() && Contains(n)
      ensures Contains(r) && kind[r].ConstructionNode?
      ensures kind[n].ConstructionNode? ==> r == n
      ensures !kind[n].ConstructionNode? ==>
                exists k :: 0 <= k < |Ancestors(n)| && Ancestors(n)[k] == r &&
                            forall j :: 0 <= j < k ==> !kind[Ancestors(n)[j]].ConstructionNode?
    {
      if kind[n].ConstructionNode? {
        return n;
      }
      ghost var a := Ancestors(n);
      AncestorsChain(n);
      var cur := parent[n];
      ghost var i := 0;
      while !kind[cur].ConstructionNode?
        invariant 0 <= i < |a| && cur == a[i] && cur in kind
        invariant forall j :: 0 <= j < i ==> !kind[a[j]].ConstructionNode?
        decreases |a| - i
      {
        assert cur != root;
        cur := parent[cur];
        i := i + 1;
      }
      r := cur;
    }

    /** `x` lies strictly below `n`. */
    ghost predicate IsProperDescendant(x: NodeId, n: NodeId)
      reads this
      requires Valid()
    {
      x in kind && n in Ancestors(x)
    }

    lemma NotOwnDescendant(n: NodeId)
      requires Valid() && n in kind
      ensures !IsProperDescendant(n, n)
    {
      AncestorsChain(n);
    }

    lemma ChildIsDescendant(x: NodeId, c: NodeId, n: NodeId)
      requires Valid() && x in kind && c in children[x]
      requires x == n || IsProperDescendant(x, n)
      ensures c in kind && IsProperDescendant(c, n) && parent[c] == x
    {
      var i :| 0 <= i < |children[x]| && children[x][i] == c;
      assert c in parent && parent[c] == x;
      assert Ancestors(c) == [x] + Ancestors(x);
    }

    /** A set holding the children of `n` and closed under taking children
        holds every node below `n`. */
    lemma {:induction false} ClosedSetHoldsDescendants(n: NodeId, s: set<NodeId>, x: NodeId)
      requires Valid() && n in kind
      requires forall c :: c in children[n] ==> c in s
      requires forall y, c :: y in s && y in children && c in children[y] ==> c in s
      requires IsProperDescendant(x, n)
      ensures x in s
      decreases depth[x]
    {
      var p := parent[x];
      assert Ancestors(x) == [p] + Ancestors(p);
      assert x in children[p];
      if p != n {
        ClosedSetHoldsDescendants(n, s, p);
      }
    }

    /** `getSubTreeNodesInTopDownOrder`: every node strictly below `n`, each
        once, every node after its parent; `n` itself is excluded. */
    method GetSubTreeNodesInTopDownOrder(n: NodeId) returns (r: seq<NodeId>)
      requires Valid() && Contains(n)
      ensures n !in r
      ensures NoDuplicates(r)
      ensures forall x :: x in r <==> IsProperDescendant(x, n)
      ensures forall i :: 0 <= i < |r| ==> r[i] in parent && (parent[r[i]] == n || parent[r[i]] in r[..i])
    {
      r := [];
      var queue := children[n];
      forall c | c in queue
        ensures IsProperDescendant(c, n) && c in parent
      {
        ChildIsDescendant(n, c, n);
      }
      ghost var visited: set<NodeId> := {};
      while queue != []
        invariant WalkState(n, r, queue)
        invariant visited == set y | y in r
        decreases kind.Keys - visited
      {
        var x := queue[0];
        Visit(n, r, queue);
        queue := queue[1..] + children[x];
        r := r + [x];
        visited := visited + {x};
      }
      assert r + [] == r;
      forall x | IsProperDescendant(x, n)
        ensures x in r
      {
        ClosedSetHoldsDescendants(n, visited, x);
      }
      NotOwnDescendant(n);
    }

    /** Every node other than the root lies below the root. */
    lemma BelowRoot(x: NodeId)
      requires Valid() && x in kind && x != root
      ensures IsProperDescendant(x, root)
    {
      AncestorsChain(x);
      assert Ancestors(x)[|Ancestors(x)| - 1] == root;
    }

    /** `getNodesInTopDownOrder`: every node of the query once, the root
        first and every other node after its parent. */
    method GetNodesInTopDownOrder() returns (r: seq<NodeId>)
      requires Valid()
      ensures |r| > 0 && r[0] == root
      ensures NoDuplicates(r)
      ensures forall x :: x in r <==> Contains(x)
      ensures forall i :: 0 < i < |r| ==> r[i] in parent && parent[r[i]] in r[..i]
    {
      var below := GetSubTreeNodesInTopDownOrder(root);
      forall x | Contains(x) && x != root
        ensures x in below
      {
        BelowRoot(x);
      }
      PrependRoot(root, below, parent);
      r := [root] + below;
    }

    /** `getNodesInBottomUpOrder`: the top-down order reversed, so every node
        comes before its parent and the root comes last. */
    method GetNodesInBottomUpOrder() returns (r: seq<NodeId>)
      requires Valid()
      ensures |r| > 0 && r[|r| - 1] == root
      ensures NoDuplicates(r)
      ensures forall x :: x in r <==> Contains(x)
      ensures forall i :: 0 <= i < |r| - 1 ==> r[i] in parent && parent[r[i]] in r[i + 1..]
    {
      var down := GetNodesInTopDownOrder();
      ReverseMembers(down);
      ReverseOrder(down, parent);
      r := Reverse(down);
    }

    /** The state of the top-down walk below `n`: `r` is the output so far and
        `queue` the nodes still to visit. Both are repeat-free proper
        descendants of `n`; the children of `n` and of every visited node are
        already output or queued; every node comes after its parent. */
    ghost predicate WalkState(n: NodeId, r: seq<NodeId>, queue: seq<NodeId>)
      reads this
      requires Valid()
    {
      && n in kind
      && NoDuplicates(r + queue)
      && (forall x :: x in r + queue ==> IsProperDescendant(x, n) && x in parent)
      && (forall c :: c in children[n] ==> c in r + queue)
      && (forall y, c :: y in r && y in children && c in children[y] ==> c in r + queue)
      && (forall i :: 0 <= i < |r| ==> r[i] in parent && (parent[r[i]] == n || parent[r[i]] in r[..i]))
      && (forall x :: x in queue ==> x in parent && (parent[x] == n || parent[x] in r))
    }

    /** The head of the queue is a new node below `n`, and no visited node has
        it as parent. */
    lemma VisitHead(n: NodeId, r: seq<NodeId>, queue: seq<NodeId>)
      requires Valid() && queue != [] && WalkState(n, r, queue)
      ensures queue[0] in kind && queue[0] in parent && queue[0] != n && queue[0] !in r
      ensures forall i :: 0 <= i < |r| ==> parent[r[i]] != queue[0]
      ensures forall y :: y in queue ==> parent[y] != queue[0]
    {
      var x := queue[0];
      assert (r + queue)[|r|] == x;
      assert x in r + queue;
      NotOwnDescendant(n);
      forall i | 0 <= i < |r|
        ensures r[i] != x
      {
        assert (r + queue)[i] == r[i];
      }
      forall i | 0 <= i < |r|
        ensures parent[r[i]] != x
      {
        assert parent[r[i]] == n || parent[r[i]] in r[..i];
      }
    }

    /** The children of the head of the queue are neither output nor queued. */
    lemma VisitChildren(n: NodeId, r: seq<NodeId>, queue: seq<NodeId>)
      requires Valid() && queue != [] && WalkState(n, r, queue)
      ensures queue[0] in children
      ensures forall c :: c in children[queue[0]] ==>
                IsProperDescendant(c, n) && c in parent && parent[c] == queue[0] && c !in r + queue
    {
      var x := queue[0];
      VisitHead(n, r, queue);
      assert x in r + queue;
      forall c | c in children[x]
        ensures IsProperDescendant(c, n) && c in parent && parent[c] == x && c !in r + queue
      {
        ChildIsDescendant(x, c, n);
      }
    }

    /** One step of the top-down walk: moving the head of the queue to the
        output and queueing its children keeps the walk's state. */
    lemma Visit(n: NodeId, r: seq<NodeId>, queue: seq<NodeId>)
      requires Valid() && queue != [] && WalkState(n, r, queue)
      ensures queue[0] in kind && queue[0] !in r
      ensures WalkState(n, r + [queue[0]], queue[1..] + children[queue[0]])
    {
      var x := queue[0];
      VisitHead(n, r, queue);
      VisitChildren(n, r, queue);
      var kids := children[x];
      var r', q' := r + [x], queue[1..] + kids;
      assert r' + q' == (r + queue) + kids;
      NoDuplicatesAppend(r + queue, kids);
      forall i | 0 <= i < |r'|
        ensures r'[i] in parent && (parent[r'[i]] == n || parent[r'[i]] in r'[..i])
      {
        if i < |r| {
          assert r'[..i] == r[..i];
        } else {
          assert r'[..i] == r;
        }
      }
    }

    /** The variables used anywhere in the query. */
    function UsedVariables(): set<Variable>
      reads this
    {
      set n, v | n in kind && v in NodeVariables(kind[n]) :: v
    }

    /** `generateNewVariable()`: a variable used nowhere in the query. */
    method GenerateNewVariable() returns (r: Variable)
      ensures r !in UsedVariables()
    {
      var m := MaxLength(UsedVariables());
      r := seq(m + 1, _ => 'v');
    }

    /** `generateNewVariable(former)`: a variable used nowhere in the query
        and different from `former`. */
    method GenerateNewVariableFrom(former: Variable) returns (r: Variable)
      ensures r !in UsedVariables() && r != former
    {
      var m := MaxLength(UsedVariables() + {former});
      r := former + seq(m + 1 - |former|, _ => '_');
    }

    /** `applyProposal` for a node replacement: an unknown node is rejected,
        emptying the root makes the whole query empty, a root that would no
        longer be a construction node is rejected, and otherwise the node is
        replaced in place and the tree keeps its shape. */
    method ApplyProposal(p: Proposal) returns (r: ProposalOutcome)
      requires Valid()
      modifies this
      ensures Valid()
      ensures r.Rejected? <==> p.target !in old(kind) ||
                               (p.target == old(root) && !p.replacement.ConstructionNode? && !p.replacement.EmptyNode?)
      ensures r.EmptyQuery? <==> p.target in old(kind) && p.target == old(root) && p.replacement.EmptyNode?
      ensures r.Applied? ==> r.results.optimizedNode == p.target && kind == old(kind)[p.target := p.replacement]
      ensures !r.Applied? ==> kind == old(kind)
      ensures root == old(root) && children == old(children) && parent == old(parent)
    {
      if p.target !in kind {
        return Rejected(UNKNOWN_NODE);
      }
      if p.target == root && p.replacement.EmptyNode? {
        return EmptyQuery;
      }
      if p.target == root && !p.replacement.ConstructionNode? {
        return Rejected(ROOT_MUST_PROJECT);
      }
      kind := kind[p.target := p.replacement];
      return Applied(ProposalResults(p.target));
    }
  }
}
