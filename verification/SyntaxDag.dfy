// Syntax trees as DAGs (`_tree_to_dag`): extraction, splitting and merging.
module SyntaxDag {
  import opened Sequences

  datatype Tree = Tree(kind: string, text: string, children: seq<Tree>)

  datatype Node = Node(kind: string, text: string)

  datatype Edge = Edge(src: nat, dst: nat)

  datatype Dag = Dag(nodes: map<nat, Node>, edges: seq<Edge>)

  // ---- numbering a tree in preorder ------------------------------------------------------

  function Size(t: Tree): nat
    decreases t
  {
    1 + SizeAll(t.children)
  }

  function SizeAll(ts: seq<Tree>): nat
    decreases ts
  {
    if ts == [] then 0 else Size(ts[0]) + SizeAll(ts[1..])
  }

  function TreeEdges(t: Tree, n: nat): seq<Edge>
    decreases t
  {
    ForestEdges(t.children, n + 1, n)
  }

  function ForestEdges(ts: seq<Tree>, n: nat, parent: nat): seq<Edge>
    decreases ts
  {
    if ts == [] then []
    else [Edge(parent, n)] + TreeEdges(ts[0], n) + ForestEdges(ts[1..], n + Size(ts[0]), parent)
  }

  /** The nodes of a subtree in the order they are numbered. */
  function TreeNodes(t: Tree): (nodes: seq<Node>)
    ensures |nodes| == Size(t)
    decreases t
  {
    [Node(t.kind, t.text)] + ForestNodes(t.children)
  }

  function ForestNodes(ts: seq<Tree>): (nodes: seq<Node>)
    ensures |nodes| == SizeAll(ts)
    decreases ts
  {
    if ts == [] then [] else TreeNodes(ts[0]) + ForestNodes(ts[1..])
  }

  lemma NodesStep(before: seq<Node>, ts: seq<Tree>, i: nat)
    requires i < |ts|
    ensures before + ForestNodes(ts[i..]) == before + TreeNodes(ts[i]) + ForestNodes(ts[i + 1..])
  {
    assert ts[i..][1..] == ts[i + 1..];
  }

  lemma EdgesStep(before: seq<Edge>, ts: seq<Tree>, i: nat, n: nat, parent: nat)
    requires i < |ts|
    ensures before + ForestEdges(ts[i..], n, parent) ==
            before + [Edge(parent, n)] + TreeEdges(ts[i], n) + ForestEdges(ts[i + 1..], n + Size(ts[i]), parent)
  {
    assert ts[i..][1..] == ts[i + 1..];
    EdgesUnfold(ts[i..], n, parent);
    Regroup(before, [Edge(parent, n)], TreeEdges(ts[i], n), ForestEdges(ts[i + 1..], n + Size(ts[i]), parent));
  }

  lemma EdgesUnfold(ts: seq<Tree>, n: nat, parent: nat)
    requires ts != []
    ensures ForestEdges(ts, n, parent) ==
            [Edge(parent, n)] + TreeEdges(ts[0], n) + ForestEdges(ts[1..], n + Size(ts[0]), parent)
  {
  }

  lemma Regroup<T>(a: seq<T>, b: seq<T>, c: seq<T>, d: seq<T>)
    ensures a + (b + c + d) == a + b + c + d
  {
  }

  /** `_traverse` of `_tree_to_dag`: the next id is the number of nodes so far, so that the
      dictionary of nodes is the list of its values. */
  method Number(t: Tree, parent: seq<nat>, nodes0: seq<Node>, edges0: seq<Edge>)
    returns (nodes: seq<Node>, edges: seq<Edge>)
    requires |parent| <= 1
    ensures nodes == nodes0 + TreeNodes(t)
    ensures edges == edges0 + (if parent == [] then [] else [Edge(parent[0], |nodes0|)]) + TreeEdges(t, |nodes0|)
    decreases t
  {
    var id := |nodes0|;
    edges := edges0;
    if parent != [] {
      edges := edges + [Edge(parent[0], id)];
    }
    nodes := nodes0 + [Node(t.kind, t.text)];
    ghost var edges1 := edges;
    Associates(nodes0, [Node(t.kind, t.text)], ForestNodes(t.children));
    assert t.children[0..] == t.children && edges1 + TreeEdges(t, id) == edges1 + ForestEdges(t.children, |nodes|, id);
    for i := 0 to |t.children|
      invariant nodes0 + TreeNodes(t) == nodes + ForestNodes(t.children[i..])
      invariant edges1 + TreeEdges(t, id) == edges + ForestEdges(t.children[i..], |nodes|, id)
    {
      NodesStep(nodes, t.children, i);
      EdgesStep(edges, t.children, i, |nodes|, id);
      nodes, edges := Number(t.children[i], [id], nodes, edges);
    }
    assert edges1 == edges0 + (if parent == [] then [] else [Edge(parent[0], id)]);
  }

  function DagOf(t: Tree): Dag {
    var nodes := TreeNodes(t);
    Dag(map i: nat | i < |nodes| :: nodes[i], TreeEdges(t, 0))
  }

  method ToDag(t: Tree) returns (d: Dag)
    ensures d == DagOf(t)
  {
    var nodes, edges := Number(t, [], [], []);
    assert nodes == TreeNodes(t) && edges == TreeEdges(t, 0);
    d := Dag(map i: nat | i < |nodes| :: nodes[i], edges);
  }

  // ---- extracting what is reachable --------------------------------------------------------

  /** Edges go down in rank, so the graph has no cycle. */
  ghost predicate Descending(edges: seq<Edge>, rank: map<nat, nat>) {
    forall i :: 0 <= i < |edges| ==>
      edges[i].src in rank && edges[i].dst in rank && rank[edges[i].dst] < rank[edges[i].src]
  }

  /** The edges a depth-first walk from `n` collects, from position `i` of the edge list on. */
  ghost function Walk(edges: seq<Edge>, rank: map<nat, nat>, n: nat, i: nat): seq<Edge>
    requires Descending(edges, rank) && n in rank && i <= |edges|
    decreases rank[n], |edges| - i
  {
    if i == |edges| then []
    else
      (if edges[i].src == n then [edges[i]] + Walk(edges, rank, edges[i].dst, 0) else []) +
      Walk(edges, rank, n, i + 1)
  }

  function Dsts(edges: seq<Edge>): set<nat> {
    set i | 0 <= i < |edges| :: edges[i].dst
  }

  ghost function Visited(edges: seq<Edge>, rank: map<nat, nat>, n: nat): set<nat>
    requires Descending(edges, rank) && n in rank
  {
    {n} + Dsts(Walk(edges, rank, n, 0))
  }

  lemma DstsOne(e: Edge)
    ensures Dsts([e]) == {e.dst}
  {
    assert [e][0].dst in Dsts([e]);
  }

  lemma DstsAppend(a: seq<Edge>, b: seq<Edge>)
    ensures Dsts(a + b) == Dsts(a) + Dsts(b)
  {
    forall v | v in Dsts(a) + Dsts(b)
      ensures v in Dsts(a + b)
    {
      if v in Dsts(a) {
        var i :| 0 <= i < |a| && a[i].dst == v;
        assert (a + b)[i].dst == v;
      } else {
        var i :| 0 <= i < |b| && b[i].dst == v;
        assert (a + b)[|a| + i].dst == v;
      }
    }
  }

  lemma DstsMore(done: seq<Edge>, e: Edge, below: seq<Edge>)
    ensures Dsts(done + ([e] + below)) == Dsts(done) + ({e.dst} + Dsts(below))
  {
    DstsAppend([e], below);
    DstsAppend(done, [e] + below);
    DstsOne(e);
  }

  /** What walking past the i-th edge adds to the part of the walk already done. */
  lemma WalkStep(edges0: seq<Edge>, walk: seq<Edge>, done: seq<Edge>, edges: seq<Edge>, rank: map<nat, nat>, n: nat,
                 i: nat)
    returns (done': seq<Edge>)
    requires Descending(edges, rank) && n in rank && i < |edges| && walk == done + Walk(edges, rank, n, i)
    ensures walk == done' + Walk(edges, rank, n, i + 1)
    ensures edges[i].src != n ==> done' == done
    ensures edges[i].src == n ==>
              var below := Walk(edges, rank, edges[i].dst, 0);
              edges0 + done' == edges0 + done + [edges[i]] + below &&
                Dsts(done') == Dsts(done) + ({edges[i].dst} + Dsts(below))
  {
    done' := done;
    WalkUnfold(edges, rank, n, i);
    if edges[i].src == n {
      var below := Walk(edges, rank, edges[i].dst, 0);
      DstsMore(done, edges[i], below);
      Regroup(done, [edges[i]], below, Walk(edges, rank, n, i + 1));
      Regroup(edges0, done, [edges[i]], below);
      done' := done + ([edges[i]] + below);
    }
  }

  lemma WalkUnfold(edges: seq<Edge>, rank: map<nat, nat>, n: nat, i: nat)
    requires Descending(edges, rank) && n in rank && i < |edges|
    ensures Walk(edges, rank, n, i) ==
            (if edges[i].src == n then [edges[i]] + Walk(edges, rank, edges[i].dst, 0) else []) +
              Walk(edges, rank, n, i + 1)
  {
  }

  /** `_traverse` of `_get_subgraph`. */
  method Traverse(d: Dag, ghost rank: map<nat, nat>, n: nat, nodes0: map<nat, Node>, edges0: seq<Edge>)
    returns (nodes: map<nat, Node>, edges: seq<Edge>)
    requires Descending(d.edges, rank) && rank.Keys == d.nodes.Keys && n in d.nodes
    requires forall k :: k in nodes0 ==> k in d.nodes && nodes0[k] == d.nodes[k]
    ensures edges == edges0 + Walk(d.edges, rank, n, 0)
    ensures nodes.Keys == nodes0.Keys + Visited(d.edges, rank, n)
    ensures forall k :: k in nodes ==> k in d.nodes && nodes[k] == d.nodes[k]
    decreases rank[n]
  {
    nodes := nodes0[n := d.nodes[n]];
    edges := edges0;
    ghost var walk := Walk(d.edges, rank, n, 0);
    ghost var done: seq<Edge> := [];
    for i := 0 to |d.edges|
      invariant walk == done + Walk(d.edges, rank, n, i) && edges == edges0 + done
      invariant nodes.Keys == nodes0.Keys + {n} + Dsts(done)
      invariant forall k :: k in nodes ==> k in d.nodes && nodes[k] == d.nodes[k]
    {
      ghost var done' := WalkStep(edges0, walk, done, d.edges, rank, n, i);
      if d.edges[i].src == n {
        edges := edges + [d.edges[i]];
        nodes, edges := Traverse(d, rank, d.edges[i].dst, nodes, edges);
      }
      done := done';
    }
    assert done == walk;
  }

  /** `_get_subgraph`. */
  method GetSubgraph(d: Dag, ghost rank: map<nat, nat>, root: nat) returns (sub: Dag)
    requires Descending(d.edges, rank) && rank.Keys == d.nodes.Keys && root in d.nodes
    ensures sub == SubgraphOf(d, rank, root)
  {
    var nodes, edges := Traverse(d, rank, root, map[], []);
    sub := Dag(nodes, edges);
    VisitedIn(d.edges, rank, root);
  }

  ghost function SubgraphOf(d: Dag, rank: map<nat, nat>, root: nat): Dag
    requires Descending(d.edges, rank) && rank.Keys == d.nodes.Keys && root in d.nodes
  {
    VisitedIn(d.edges, rank, root);
    Dag(map k | k in Visited(d.edges, rank, root) :: d.nodes[k], Walk(d.edges, rank, root, 0))
  }

  lemma {:induction false} WalkIn(edges: seq<Edge>, rank: map<nat, nat>, n: nat, i: nat, e: Edge)
    requires Descending(edges, rank) && n in rank && i <= |edges| && e in Walk(edges, rank, n, i)
    ensures e in edges && Reachable(edges, n, e.src)
    decreases rank[n], |edges| - i
  {
    if edges[i].src == n && e == edges[i] {
      assert IsPath(edges, [n]);
    } else if edges[i].src == n && e in Walk(edges, rank, edges[i].dst, 0) {
      WalkIn(edges, rank, edges[i].dst, 0, e);
      ReachFirst(edges, edges[i], e.src);
    } else {
      WalkIn(edges, rank, n, i + 1, e);
    }
  }

  lemma VisitedIn(edges: seq<Edge>, rank: map<nat, nat>, n: nat)
    requires Descending(edges, rank) && n in rank
    ensures Visited(edges, rank, n) <= rank.Keys
  {
    var walk := Walk(edges, rank, n, 0);
    forall i | 0 <= i < |walk|
      ensures walk[i].dst in rank
    {
      WalkIn(edges, rank, n, 0, walk[i]);
    }
  }

  ghost predicate IsPath(edges: seq<Edge>, p: seq<nat>) {
    p != [] && forall i :: 0 <= i < |p| - 1 ==> Edge(p[i], p[i + 1]) in edges
  }

  ghost predicate Reachable(edges: seq<Edge>, a: nat, b: nat) {
    exists p :: IsPath(edges, p) && p[0] == a && p[|p| - 1] == b
  }

  lemma ReachFirst(edges: seq<Edge>, e: Edge, b: nat)
    requires e in edges && Reachable(edges, e.dst, b)
    ensures Reachable(edges, e.src, b)
  {
    var p :| IsPath(edges, p) && p[0] == e.dst && p[|p| - 1] == b;
    var q := [e.src] + p;
    assert IsPath(edges, q) by {
      forall i | 0 <= i < |q| - 1
        ensures Edge(q[i], q[i + 1]) in edges
      {
        if i > 0 {
          assert Edge(p[i - 1], p[i]) in edges;
        }
      }
    }
    assert q[|q| - 1] == b;
  }

  lemma ReachLast(edges: seq<Edge>, a: nat, e: Edge)
    requires e in edges && Reachable(edges, a, e.src)
    ensures Reachable(edges, a, e.dst)
  {
    var p :| IsPath(edges, p) && p[0] == a && p[|p| - 1] == e.src;
    var q := p + [e.dst];
    assert IsPath(edges, q) by {
      forall i | 0 <= i < |q| - 1
        ensures Edge(q[i], q[i + 1]) in edges
      {
        if i < |p| - 1 {
          assert Edge(p[i], p[i + 1]) in edges;
        }
      }
    }
    assert q[|q| - 1] == e.dst && q[0] == a;
  }

  /** An edge out of the root is collected, and so is all that its target collects. */
  lemma {:induction false} WalkHas(edges: seq<Edge>, rank: map<nat, nat>, n: nat, i: nat, j: nat)
    requires Descending(edges, rank) && n in rank && i <= j < |edges| && edges[j].src == n
    ensures edges[j] in Walk(edges, rank, n, i)
    ensures forall e :: e in Walk(edges, rank, edges[j].dst, 0) ==> e in Walk(edges, rank, n, i)
    decreases j - i
  {
    if i < j {
      WalkHas(edges, rank, n, i + 1, j);
    }
  }

  lemma {:induction false} PathVisited(edges: seq<Edge>, rank: map<nat, nat>, p: seq<nat>)
    requires Descending(edges, rank) && IsPath(edges, p) && p[0] in rank
    ensures p[|p| - 1] in Visited(edges, rank, p[0])
    decreases |p|
  {
    if |p| > 1 {
      var e := Edge(p[0], p[1]);
      assert e in edges;
      var j :| 0 <= j < |edges| && edges[j] == e;
      WalkHas(edges, rank, p[0], 0, j);
      assert IsPath(edges, p[1..]) by {
        forall i | 0 <= i < |p[1..]| - 1
          ensures Edge(p[1..][i], p[1..][i + 1]) in edges
        {
          assert Edge(p[i + 1], p[i + 2]) in edges;
        }
      }
      PathVisited(edges, rank, p[1..]);
      var v := p[|p| - 1];
      var below, walk := Walk(edges, rank, p[1], 0), Walk(edges, rank, p[0], 0);
      if v == p[1] {
        InDsts(walk, e);
      } else {
        var i :| 0 <= i < |below| && below[i].dst == v;
        InDsts(walk, below[i]);
      }
    }
  }

  lemma InDsts(edges: seq<Edge>, e: Edge)
    requires e in edges
    ensures e.dst in Dsts(edges)
  {
  }

  /** The sub-graph has exactly the reachable nodes, and exactly the edges that leave them. */
  lemma SubgraphIsReachable(d: Dag, rank: map<nat, nat>, root: nat)
    requires Descending(d.edges, rank) && rank.Keys == d.nodes.Keys && root in d.nodes
    ensures forall v :: v in SubgraphOf(d, rank, root).nodes <==> Reachable(d.edges, root, v)
    ensures forall e :: e in SubgraphOf(d, rank, root).edges <==> e in d.edges && Reachable(d.edges, root, e.src)
  {
    var walk := Walk(d.edges, rank, root, 0);
    forall e | e in walk
      ensures e in d.edges && Reachable(d.edges, root, e.src) && Reachable(d.edges, root, e.dst)
    {
      WalkIn(d.edges, rank, root, 0, e);
      ReachLast(d.edges, root, e);
    }
    assert IsPath(d.edges, [root]);
    forall v | Reachable(d.edges, root, v)
      ensures v in Visited(d.edges, rank, root)
    {
      var p :| IsPath(d.edges, p) && p[0] == root && p[|p| - 1] == v;
      PathVisited(d.edges, rank, p);
    }
    forall e | e in d.edges && Reachable(d.edges, root, e.src)
      ensures e in walk
    {
      var p :| IsPath(d.edges, p) && p[0] == root && p[|p| - 1] == e.src;
      EdgeWalked(d.edges, rank, p, e);
    }
  }

  // ---- how often a shared edge comes -----------------------------------------------------------

  /** How many walks along edges lead from n to v, from position i of the edge list on for the first edge. */
  ghost function PathsFrom(edges: seq<Edge>, rank: map<nat, nat>, n: nat, i: nat, v: nat): nat
    requires Descending(edges, rank) && n in rank && i <= |edges|
    decreases rank[n], |edges| - i
  {
    if i == |edges| then 0
    else
      (if edges[i].src == n then Paths(edges, rank, edges[i].dst, v) else 0) + PathsFrom(edges, rank, n, i + 1, v)
  }

  /** How many walks lead from n to v, the empty one included. */
  ghost function Paths(edges: seq<Edge>, rank: map<nat, nat>, n: nat, v: nat): nat
    requires Descending(edges, rank) && n in rank
    decreases rank[n], |edges| + 1
  {
    (if n == v then 1 else 0) + PathsFrom(edges, rank, n, 0, v)
  }

  lemma Distribute(a: nat, b: nat, c: nat)
    ensures (a + b) * c == a * c + b * c
  {
  }

  lemma {:induction false} WalkCounts(edges: seq<Edge>, rank: map<nat, nat>, n: nat, i: nat, e: Edge)
    requires Descending(edges, rank) && n in rank && i <= |edges|
    ensures Occurs(Walk(edges, rank, n, i), e) ==
            PathsFrom(edges, rank, n, i, e.src) * Occurs(edges, e) + if n == e.src then Occurs(edges[i..], e) else 0
    decreases rank[n], |edges| - i
  {
    if i < |edges| {
      var rest, more := Walk(edges, rank, n, i + 1), PathsFrom(edges, rank, n, i + 1, e.src);
      assert edges[i..][1..] == edges[i + 1..];
      WalkUnfold(edges, rank, n, i);
      WalkCounts(edges, rank, n, i + 1, e);
      if edges[i].src == n {
        var below := Walk(edges, rank, edges[i].dst, 0);
        var paths := PathsFrom(edges, rank, edges[i].dst, 0, e.src);
        WalkCounts(edges, rank, edges[i].dst, 0, e);
        assert edges[0..] == edges;
        OccursConcat([edges[i]] + below, rest, e);
        OccursConcat([edges[i]], below, e);
        assert [edges[i]][1..] == [];
        Distribute(paths, if edges[i].dst == e.src then 1 else 0, Occurs(edges, e));
        Distribute(Paths(edges, rank, edges[i].dst, e.src), more, Occurs(edges, e));
      } else {
        assert [] + rest == rest;
      }
    }
  }

  /** An edge is extracted once for each walk from the root to where it starts: as often as a shared node is come to. */
  lemma EdgeRepeats(d: Dag, rank: map<nat, nat>, root: nat, e: Edge)
    requires Descending(d.edges, rank) && rank.Keys == d.nodes.Keys && root in d.nodes
    ensures Occurs(SubgraphOf(d, rank, root).edges, e) == Paths(d.edges, rank, root, e.src) * Occurs(d.edges, e)
  {
    WalkCounts(d.edges, rank, root, 0, e);
    assert d.edges[0..] == d.edges;
    Distribute(PathsFrom(d.edges, rank, root, 0, e.src), if root == e.src then 1 else 0, Occurs(d.edges, e));
  }

  lemma {:induction false} EdgeWalked(edges: seq<Edge>, rank: map<nat, nat>, p: seq<nat>, e: Edge)
    requires Descending(edges, rank) && IsPath(edges, p) && p[0] in rank && e in edges && p[|p| - 1] == e.src
    ensures e in Walk(edges, rank, p[0], 0)
    decreases |p|
  {
    if |p| == 1 {
      var j :| 0 <= j < |edges| && edges[j] == e;
      WalkHas(edges, rank, p[0], 0, j);
    } else {
      assert Edge(p[0], p[1]) in edges;
      var j :| 0 <= j < |edges| && edges[j] == Edge(p[0], p[1]);
      WalkHas(edges, rank, p[0], 0, j);
      forall i | 0 <= i < |p[1..]| - 1
        ensures Edge(p[1..][i], p[1..][i + 1]) in edges
      {
        assert Edge(p[i + 1], p[i + 2]) in edges;
      }
      EdgeWalked(edges, rank, p[1..], e);
    }
  }

  // ---- splitting and merging -----------------------------------------------------------------

  function Insert(x: nat, s: seq<nat>): seq<nat> {
    if s == [] || x <= s[0] then [x] + s else [s[0]] + Insert(x, s[1..])
  }

  /** Python's `sorted`. */
  function Sorted(s: seq<nat>): seq<nat> {
    if s == [] then [] else Insert(s[0], Sorted(s[1..]))
  }

  function TargetsOf(edges: seq<Edge>, n: nat): seq<nat> {
    if edges == [] then [] else (if edges[0].src == n then [edges[0].dst] else []) + TargetsOf(edges[1..], n)
  }

  predicate Ascending(s: seq<nat>) {
    forall i, j :: 0 <= i < j < |s| ==> s[i] <= s[j]
  }

  /** Roots come in ascending order, each as often as it is a target. */
  lemma {:induction false} SortedAscends(s: seq<nat>)
    ensures Ascending(Sorted(s)) && multiset(Sorted(s)) == multiset(s)
  {
    if s != [] {
      SortedAscends(s[1..]);
      InsertAscends(s[0], Sorted(s[1..]));
      InsertAdds(s[0], Sorted(s[1..]));
      assert s == [s[0]] + s[1..];
    }
  }

  lemma {:induction false} InsertAdds(x: nat, s: seq<nat>)
    ensures multiset(Insert(x, s)) == multiset(s) + multiset{x}
  {
    if s != [] && x > s[0] {
      InsertAdds(x, s[1..]);
      assert s == [s[0]] + s[1..];
    }
  }

  lemma {:induction false} InsertAscends(x: nat, s: seq<nat>)
    requires Ascending(s)
    ensures Ascending(Insert(x, s))
  {
    if s == [] {
    } else if x <= s[0] {
      AscendFrom(x, s);
    } else {
      InsertAscends(x, s[1..]);
      InsertIn(x, s[1..]);
      AscendFrom(s[0], Insert(x, s[1..]));
    }
  }

  lemma AscendFrom(x: nat, rest: seq<nat>)
    requires Ascending(rest) && forall v :: v in rest ==> x <= v
    ensures Ascending([x] + rest)
  {
    forall i, j | 0 <= i < j < |[x] + rest| ensures ([x] + rest)[i] <= ([x] + rest)[j] {
      assert ([x] + rest)[j] == rest[j - 1] && rest[j - 1] in rest;
    }
  }

  /** A node is a target as often as there is an edge to it. */
  lemma {:induction false} TargetsAre(edges: seq<Edge>, n: nat, v: nat)
    ensures Occurs(TargetsOf(edges, n), v) == Occurs(edges, Edge(n, v))
  {
    if edges != [] {
      TargetsAre(edges[1..], n, v);
      OccursConcat(if edges[0].src == n then [edges[0].dst] else [], TargetsOf(edges[1..], n), v);
      assert [edges[0].dst][1..] == [];
    }
  }

  ghost predicate Closed(d: Dag, rank: map<nat, nat>) {
    Descending(d.edges, rank) && rank.Keys == d.nodes.Keys
  }

  lemma {:induction false} InsertIn(x: nat, s: seq<nat>)
    ensures forall v :: v in Insert(x, s) <==> v == x || v in s
  {
    if s != [] && x > s[0] {
      InsertIn(x, s[1..]);
    }
  }

  lemma {:induction false} SortedIn(s: seq<nat>)
    ensures forall v :: v in Sorted(s) <==> v in s
  {
    if s != [] {
      SortedIn(s[1..]);
      InsertIn(s[0], Sorted(s[1..]));
    }
  }

  lemma {:induction false} TargetsIn(edges: seq<Edge>, n: nat)
    ensures forall v :: v in TargetsOf(edges, n) ==> Edge(n, v) in edges
  {
    if edges != [] {
      TargetsIn(edges[1..], n);
    }
  }

  lemma RootsIn(d: Dag, rank: map<nat, nat>)
    requires Closed(d, rank)
    ensures forall v :: v in Sorted(TargetsOf(d.edges, 0)) ==> v in d.nodes
  {
    SortedIn(TargetsOf(d.edges, 0));
    TargetsIn(d.edges, 0);
  }

  ghost function Subgraphs(d: Dag, rank: map<nat, nat>, roots: seq<nat>): seq<Dag>
    requires Closed(d, rank) && forall v :: v in roots ==> v in d.nodes
  {
    seq(|roots|, i requires 0 <= i < |roots| => SubgraphOf(d, rank, roots[i]))
  }

  /** `split_line_based`: one sub-DAG per top-level statement. */
  method SplitLineBased(d: Dag, ghost rank: map<nat, nat>) returns (subs: seq<Dag>)
    requires Closed(d, rank)
    ensures var roots := Sorted(TargetsOf(d.edges, 0));
            (forall v :: v in roots ==> v in d.nodes) && subs == Subgraphs(d, rank, roots)
  {
    RootsIn(d, rank);
    var roots := Sorted(TargetsOf(d.edges, 0));
    subs := [];
    for i := 0 to |roots|
      invariant |subs| == i
      invariant forall j :: 0 <= j < i ==> subs[j] == SubgraphOf(d, rank, roots[j])
    {
      var sub := GetSubgraph(d, rank, roots[i]);
      subs := subs + [sub];
    }
  }

  function Merged(subs: seq<Dag>): Dag {
    if subs == [] then Dag(map[], [])
    else
      var rest := Merged(subs[..|subs| - 1]);
      var last := subs[|subs| - 1];
      Dag(rest.nodes + last.nodes, rest.edges + last.edges)
  }

  /** `merge`. */
  method Merge(subs: seq<Dag>) returns (d: Dag)
    ensures d == Merged(subs)
  {
    var nodes: map<nat, Node>, edges: seq<Edge> := map[], [];
    for i := 0 to |subs|
      invariant Dag(nodes, edges) == Merged(subs[..i])
    {
      nodes := nodes + subs[i].nodes;
      edges := edges + subs[i].edges;
      assert subs[..i + 1][..i] == subs[..i];
    }
    assert subs[..|subs|] == subs;
    d := Dag(nodes, edges);
  }

  // ---- split and merge of a tree ----------------------------------------------------------------

  ghost predicate Within(edges: seq<Edge>, parent: nat, lo: nat, hi: nat) {
    forall i :: 0 <= i < |edges| ==>
      && (edges[i].src == parent || lo <= edges[i].src < hi)
      && lo <= edges[i].dst < hi && edges[i].src < edges[i].dst
  }

  /** In preorder a parent's id is smaller than its children's, and a subtree's edges stay
      among the subtree's ids. */
  lemma {:induction false} ForestWithin(ts: seq<Tree>, n: nat, parent: nat)
    requires parent < n
    ensures Within(ForestEdges(ts, n, parent), parent, n, n + SizeAll(ts))
    decreases ts
  {
    if ts != [] {
      var first, rest := TreeEdges(ts[0], n), ForestEdges(ts[1..], n + Size(ts[0]), parent);
      ForestWithin(ts[0].children, n + 1, n);
      ForestWithin(ts[1..], n + Size(ts[0]), parent);
      assert Within(first, n, n + 1, n + Size(ts[0]));
      forall i | 0 <= i < |first|
        ensures ([Edge(parent, n)] + first + rest)[1 + i] == first[i]
      {
      }
    }
  }

  function RankOf(t: Tree): map<nat, nat> {
    map i | i in DagOf(t).nodes :: Size(t) - i
  }

  lemma TreeClosed(t: Tree)
    ensures Closed(DagOf(t), RankOf(t))
  {
    ForestWithin(t.children, 1, 0);
    var edges := DagOf(t).edges;
    assert Within(edges, 0, 1, Size(t));
  }

  /** `sub` stands at position `at` of the edge list, and no other edge leaves the ids in [lo, hi). */
  ghost predicate Window(edges: seq<Edge>, at: nat, sub: seq<Edge>, lo: nat, hi: nat) {
    && at + |sub| <= |edges| && edges[at..at + |sub|] == sub
    && forall j :: 0 <= j < |edges| && !(at <= j < at + |sub|) ==> !(lo <= edges[j].src < hi)
  }

  /** Positions without an edge out of `n` add nothing to the walk. */
  lemma {:induction false} WalkSkip(edges: seq<Edge>, rank: map<nat, nat>, n: nat, i: nat, j: nat)
    requires Descending(edges, rank) && n in rank && i <= j <= |edges|
    requires forall k :: i <= k < j ==> edges[k].src != n
    ensures Walk(edges, rank, n, i) == Walk(edges, rank, n, j)
    decreases j - i
  {
    if i < j {
      WalkSkip(edges, rank, n, i + 1, j);
    }
  }

  /** The walk from the root of a subtree collects the subtree's edges, in their order. */
  lemma {:induction false} TreeWalk(edges: seq<Edge>, rank: map<nat, nat>, t: Tree, n: nat, at: nat)
    requires Descending(edges, rank) && n in rank && Window(edges, at, TreeEdges(t, n), n, n + Size(t))
    ensures Walk(edges, rank, n, 0) == TreeEdges(t, n)
    decreases t, 1
  {
    WalkSkip(edges, rank, n, 0, at);
    ForestWalk(edges, rank, t.children, n + 1, n, at);
  }

  lemma {:induction false} ForestWalk(edges: seq<Edge>, rank: map<nat, nat>, ts: seq<Tree>, n: nat, parent: nat,
                                      at: nat)
    requires Descending(edges, rank) && parent in rank && parent < n
    requires Window(edges, at, ForestEdges(ts, n, parent), n, n + SizeAll(ts))
    requires forall j :: at + |ForestEdges(ts, n, parent)| <= j < |edges| ==> edges[j].src != parent
    ensures Walk(edges, rank, parent, at) == ForestEdges(ts, n, parent)
    decreases ts, 0
  {
    if ts == [] {
      WalkSkip(edges, rank, parent, at, |edges|);
    } else {
      var m, next := n + Size(ts[0]), at + 1 + |TreeEdges(ts[0], n)|;
      NextWindow(edges, ts, n, parent, at);
      TreeWalk(edges, rank, ts[0], n, at + 1);
      WalkSkip(edges, rank, parent, at + 1, next);
      ForestWalk(edges, rank, ts[1..], m, parent, next);
      WalkHere(edges, rank, parent, at);
      EdgesUnfold(ts, n, parent);
    }
  }

  lemma WalkHere(edges: seq<Edge>, rank: map<nat, nat>, n: nat, at: nat)
    requires Descending(edges, rank) && at < |edges| && edges[at].src == n
    ensures Walk(edges, rank, n, at) == [edges[at]] + Walk(edges, rank, edges[at].dst, 0) + Walk(edges, rank, n, at + 1)
  {
  }

  lemma WindowParts(edges: seq<Edge>, at: nat, e: Edge, first: seq<Edge>, rest: seq<Edge>, lo: nat, mid: nat, hi: nat)
    requires Window(edges, at, [e] + first + rest, lo, hi) && e.src < lo <= mid <= hi
    requires forall i :: 0 <= i < |first| ==> lo <= first[i].src < mid
    requires forall i :: 0 <= i < |rest| ==> rest[i].src == e.src || mid <= rest[i].src < hi
    ensures edges[at] == e
    ensures Window(edges, at + 1, first, lo, mid)
    ensures Window(edges, at + 1 + |first|, rest, mid, hi)
    ensures forall j :: at + 1 <= j < at + 1 + |first| ==> lo <= edges[j].src < mid
  {
    var sub := [e] + first + rest;
    forall j | at <= j < at + |sub|
      ensures edges[j] == sub[j - at]
    {
      assert edges[at..at + |sub|][j - at] == edges[j];
    }
    assert edges[at + 1..at + 1 + |first|] == first;
    assert edges[at + 1 + |first|..at + 1 + |first| + |rest|] == rest;
  }

  /** The first of a list of siblings and the rest of them, cut apart. */
  lemma NextWindow(edges: seq<Edge>, ts: seq<Tree>, n: nat, parent: nat, at: nat)
    requires parent < n && ts != [] && Window(edges, at, ForestEdges(ts, n, parent), n, n + SizeAll(ts))
    ensures var first := TreeEdges(ts[0], n);
            var m, next := n + Size(ts[0]), at + 1 + |first|;
            && edges[at] == Edge(parent, n)
            && Window(edges, at + 1, first, n, m)
            && Window(edges, next, ForestEdges(ts[1..], m, parent), m, n + SizeAll(ts))
            && (forall j :: at + 1 <= j < next ==> n <= edges[j].src < m)
            && |ForestEdges(ts, n, parent)| == 1 + |first| + |ForestEdges(ts[1..], m, parent)|
  {
    var m := n + Size(ts[0]);
    ForestWithin(ts[0].children, n + 1, n);
    ForestWithin(ts[1..], m, parent);
    assert Within(TreeEdges(ts[0], n), n, n + 1, m);
    WindowParts(edges, at, Edge(parent, n), TreeEdges(ts[0], n), ForestEdges(ts[1..], m, parent), n, m,
                n + SizeAll(ts));
  }

  /** The ids at which a list of sibling trees starts. */
  function Starts(ts: seq<Tree>, n: nat): seq<nat> {
    if ts == [] then [] else [n] + Starts(ts[1..], n + Size(ts[0]))
  }

  lemma {:induction false} StartsSorted(ts: seq<Tree>, n: nat)
    ensures Sorted(Starts(ts, n)) == Starts(ts, n)
    ensures forall i :: 0 <= i < |Starts(ts, n)| ==> n <= Starts(ts, n)[i]
  {
    if ts != [] {
      StartsSorted(ts[1..], n + Size(ts[0]));
    }
  }

  /** What one edge in front adds to the two lists. */
  lemma EdgeFirst(e: Edge, rest: seq<Edge>, n: nat)
    ensures TargetsOf([e] + rest, n) == (if e.src == n then [e.dst] else []) + TargetsOf(rest, n)
    ensures WithoutSource([e] + rest, n) == (if e.src == n then [] else [e]) + WithoutSource(rest, n)
  {
    assert ([e] + rest)[1..] == rest;
  }

  /** The edges that do not leave `n`. */
  function WithoutSource(edges: seq<Edge>, n: nat): seq<Edge> {
    if edges == [] then [] else (if edges[0].src == n then [] else [edges[0]]) + WithoutSource(edges[1..], n)
  }

  /** Edges that leave other nodes add no target, and all stay. */
  lemma {:induction false} SkipOver(first: seq<Edge>, rest: seq<Edge>, n: nat)
    requires forall i :: 0 <= i < |first| ==> first[i].src != n
    ensures TargetsOf(first + rest, n) == TargetsOf(rest, n)
    ensures WithoutSource(first + rest, n) == first + WithoutSource(rest, n)
  {
    if first == [] {
      assert first + rest == rest;
    } else {
      SkipOver(first[1..], rest, n);
      assert first + rest == [first[0]] + (first[1..] + rest);
      EdgeFirst(first[0], first[1..] + rest, n);
      Associates([first[0]], first[1..], WithoutSource(rest, n));
    }
  }

  /** The top-level statements of the root, and what is left of the edges without the root. */
  function TreesEdges(ts: seq<Tree>, n: nat): seq<Edge> {
    if ts == [] then [] else TreeEdges(ts[0], n) + TreesEdges(ts[1..], n + Size(ts[0]))
  }

  lemma SplitOff(e: Edge, first: seq<Edge>, rest: seq<Edge>)
    requires forall i :: 0 <= i < |first| ==> first[i].src != e.src
    ensures TargetsOf([e] + first + rest, e.src) == [e.dst] + TargetsOf(rest, e.src)
    ensures WithoutSource([e] + first + rest, e.src) == first + WithoutSource(rest, e.src)
  {
    Associates([e], first, rest);
    EdgeFirst(e, first + rest, e.src);
    SkipOver(first, rest, e.src);
  }

  lemma {:induction false} RootEdges(ts: seq<Tree>, n: nat, parent: nat)
    requires parent < n
    ensures TargetsOf(ForestEdges(ts, n, parent), parent) == Starts(ts, n)
    ensures WithoutSource(ForestEdges(ts, n, parent), parent) == TreesEdges(ts, n)
  {
    if ts != [] {
      RootEdges(ts[1..], n + Size(ts[0]), parent);
      ForestWithin(ts[0].children, n + 1, n);
      assert Within(TreeEdges(ts[0], n), n, n + 1, n + Size(ts[0]));
      SplitOff(Edge(parent, n), TreeEdges(ts[0], n), ForestEdges(ts[1..], n + Size(ts[0]), parent));
    }
  }

  /** The nodes of `root` with ids in [lo, hi). */
  ghost predicate Holds(d: Dag, root: Dag, lo: nat, hi: nat) {
    && (forall i :: i in d.nodes <==> i in root.nodes && lo <= i < hi)
    && (forall i :: i in d.nodes ==> d.nodes[i] == root.nodes[i])
  }

  /** The sub-DAG of a top-level statement is the statement's tree, with its ids. */
  lemma StatementSubgraph(d: Dag, rank: map<nat, nat>, t: Tree, n: nat, at: nat)
    requires Closed(d, rank) && forall i :: n <= i < n + Size(t) ==> i in d.nodes
    requires Window(d.edges, at, TreeEdges(t, n), n, n + Size(t))
    ensures n in d.nodes
    ensures SubgraphOf(d, rank, n).edges == TreeEdges(t, n)
    ensures Holds(SubgraphOf(d, rank, n), d, n, n + Size(t))
  {
    assert n in d.nodes;
    TreeWalk(d.edges, rank, t, n, at);
    TreeDsts(t, n);
  }

  lemma {:induction false} TreeDsts(t: Tree, n: nat)
    ensures forall v :: v in {n} + Dsts(TreeEdges(t, n)) <==> n <= v < n + Size(t)
    decreases t, 1
  {
    ForestDsts(t.children, n + 1, n);
  }

  lemma {:induction false} ForestDsts(ts: seq<Tree>, n: nat, parent: nat)
    ensures forall v :: v in Dsts(ForestEdges(ts, n, parent)) <==> n <= v < n + SizeAll(ts)
    decreases ts, 0
  {
    if ts != [] {
      var e, first, rest := Edge(parent, n), TreeEdges(ts[0], n), ForestEdges(ts[1..], n + Size(ts[0]), parent);
      TreeDsts(ts[0], n);
      ForestDsts(ts[1..], n + Size(ts[0]), parent);
      DstsAppend([e] + first, rest);
      DstsAppend([e], first);
      DstsOne(e);
    }
  }

  function Plus(a: Dag, b: Dag): Dag {
    Dag(a.nodes + b.nodes, a.edges + b.edges)
  }

  lemma PlusAssoc(a: Dag, b: Dag, c: Dag)
    ensures Plus(Plus(a, b), c) == Plus(a, Plus(b, c))
  {
    assert (a.nodes + b.nodes) + c.nodes == a.nodes + (b.nodes + c.nodes);
    assert (a.edges + b.edges) + c.edges == a.edges + (b.edges + c.edges);
  }

  lemma PlusNothing(a: Dag)
    ensures Plus(a, Dag(map[], [])) == a == Plus(Dag(map[], []), a)
  {
    assert a.nodes + map[] == a.nodes == map[] + a.nodes;
    assert a.edges + [] == a.edges == [] + a.edges;
  }

  lemma {:induction false} MergedCons(s: Dag, subs: seq<Dag>)
    ensures Merged([s] + subs) == Plus(s, Merged(subs))
  {
    var all := [s] + subs;
    PlusNothing(s);
    if subs == [] {
      assert all == [s] && all[..0] == [];
      assert Merged(all) == Plus(Merged(all[..0]), s);
    } else {
      var last, rest := subs[|subs| - 1], subs[..|subs| - 1];
      MergedCons(s, rest);
      assert all[..|all| - 1] == [s] + rest;
      assert Merged(all) == Plus(Merged([s] + rest), last);
      PlusAssoc(s, Merged(rest), last);
    }
  }

  lemma MergeHolds(a: Dag, b: Dag, root: Dag, lo: nat, mid: nat, hi: nat)
    requires Holds(a, root, lo, mid) && Holds(b, root, mid, hi) && lo <= mid <= hi
    ensures Holds(Plus(a, b), root, lo, hi)
  {
  }

  lemma SplitCons(d: Dag, rank: map<nat, nat>, n: nat, roots: seq<nat>)
    requires Closed(d, rank) && n in d.nodes && forall v :: v in roots ==> v in d.nodes
    ensures forall v :: v in [n] + roots ==> v in d.nodes
    ensures Merged(Subgraphs(d, rank, [n] + roots)) == Plus(SubgraphOf(d, rank, n), Merged(Subgraphs(d, rank, roots)))
  {
    MergedCons(SubgraphOf(d, rank, n), Subgraphs(d, rank, roots));
    assert Subgraphs(d, rank, [n] + roots) == [SubgraphOf(d, rank, n)] + Subgraphs(d, rank, roots);
  }

  ghost predicate MergesTo(d: Dag, rank: map<nat, nat>, roots: seq<nat>, edges: seq<Edge>, lo: nat, hi: nat)
    requires Closed(d, rank)
  {
    && (forall v :: v in roots ==> v in d.nodes)
    && Merged(Subgraphs(d, rank, roots)).edges == edges
    && Holds(Merged(Subgraphs(d, rank, roots)), d, lo, hi)
  }

  lemma MergesCons(d: Dag, rank: map<nat, nat>, n: nat, roots: seq<nat>, edges: seq<Edge>, mid: nat, hi: nat)
    requires Closed(d, rank) && n in d.nodes && n <= mid <= hi
    requires Holds(SubgraphOf(d, rank, n), d, n, mid) && MergesTo(d, rank, roots, edges, mid, hi)
    ensures MergesTo(d, rank, [n] + roots, SubgraphOf(d, rank, n).edges + edges, n, hi)
  {
    SplitCons(d, rank, n, roots);
    MergeHolds(SubgraphOf(d, rank, n), Merged(Subgraphs(d, rank, roots)), d, n, mid, hi);
  }

  lemma MergesNone(d: Dag, rank: map<nat, nat>, n: nat)
    requires Closed(d, rank)
    ensures MergesTo(d, rank, [], [], n, n)
  {
  }

  lemma FirstStatement(d: Dag, rank: map<nat, nat>, ts: seq<Tree>, n: nat, at: nat)
    requires Closed(d, rank) && n > 0 && ts != [] && forall i :: n <= i < n + SizeAll(ts) ==> i in d.nodes
    requires Window(d.edges, at, ForestEdges(ts, n, 0), n, n + SizeAll(ts))
    ensures n in d.nodes && SubgraphOf(d, rank, n).edges == TreeEdges(ts[0], n)
    ensures Holds(SubgraphOf(d, rank, n), d, n, n + Size(ts[0]))
    ensures Window(d.edges, at + 1 + |TreeEdges(ts[0], n)|, ForestEdges(ts[1..], n + Size(ts[0]), 0),
                   n + Size(ts[0]), n + SizeAll(ts))
  {
    NextWindow(d.edges, ts, n, 0, at);
    StatementSubgraph(d, rank, ts[0], n, at + 1);
  }

  lemma {:induction false} MergeStatements(d: Dag, rank: map<nat, nat>, ts: seq<Tree>, n: nat, at: nat)
    returns (roots: seq<nat>, edges: seq<Edge>, end: nat)
    requires Closed(d, rank) && n > 0 && forall i :: n <= i < n + SizeAll(ts) ==> i in d.nodes
    requires Window(d.edges, at, ForestEdges(ts, n, 0), n, n + SizeAll(ts))
    ensures roots == Starts(ts, n) && edges == TreesEdges(ts, n) && end == n + SizeAll(ts)
    ensures MergesTo(d, rank, roots, edges, n, end)
    decreases |ts|
  {
    if ts == [] {
      roots, edges, end := [], [], n;
      MergesNone(d, rank, n);
    } else {
      var m := n + Size(ts[0]);
      FirstStatement(d, rank, ts, n, at);
      var roots', edges';
      roots', edges', end := MergeStatements(d, rank, ts[1..], m, at + 1 + |TreeEdges(ts[0], n)|);
      MergesCons(d, rank, n, roots', edges', m, end);
      roots, edges := [n] + roots', SubgraphOf(d, rank, n).edges + edges';
    }
  }

  /** Splitting the DAG of a tree into its top-level statements and merging them again gives
      the DAG back without the root and the edges that leave it, in the same order. */
  lemma SplitMergeIdentity(t: Tree)
    ensures Closed(DagOf(t), RankOf(t))
    ensures var d := DagOf(t);
            var roots := Sorted(TargetsOf(d.edges, 0));
            && (forall v :: v in roots ==> v in d.nodes)
            && Merged(Subgraphs(d, RankOf(t), roots)) == Dag(d.nodes - {0}, WithoutSource(d.edges, 0))
  {
    var d := DagOf(t);
    TreeClosed(t);
    RootEdges(t.children, 1, 0);
    StartsSorted(t.children, 1);
    ForestWithin(t.children, 1, 0);
    var roots, edges, end := MergeStatements(d, RankOf(t), t.children, 1, 0);
    HoldsAll(Merged(Subgraphs(d, RankOf(t), Starts(t.children, 1))), d, Size(t));
  }

  lemma HoldsAll(m: Dag, d: Dag, size: nat)
    requires Holds(m, d, 1, size) && forall i :: i in d.nodes ==> i < size
    ensures m.nodes == d.nodes - {0}
  {
  }
}
