// Which syntax node stands at which id, nodes addressed by paths of child indices.
module TreeAddress {
  import opened SyntaxDag

  type Path = seq<nat>

  /** The path leads to a node. */
  predicate IsPath(t: Tree, p: Path)
    decreases |p|
  {
    p == [] || (p[0] < |t.children| && IsPath(t.children[p[0]], p[1..]))
  }

  /** The node it leads to. */
  function Subtree(t: Tree, p: Path): Tree
    requires IsPath(t, p)
    decreases |p|
  {
    if p == [] then t else Subtree(t.children[p[0]], p[1..])
  }

  /** Preorder: parents before children, and siblings' subtrees from left to right. */
  predicate Precedes(p: Path, q: Path)
    decreases |p|
  {
    q != [] && (p == [] || p[0] < q[0] || (p[0] == q[0] && Precedes(p[1..], q[1..])))
  }

  /** The id of the node at a path: one for each node on the way, and the sizes of what is left of it. */
  function IdOf(t: Tree, p: Path): nat
    requires IsPath(t, p)
    decreases |p|
  {
    if p == [] then 0 else 1 + SizeAll(t.children[..p[0]]) + IdOf(t.children[p[0]], p[1..])
  }

  lemma {:induction false} SizesUpTo(ts: seq<Tree>, i: nat)
    requires i < |ts|
    ensures SizeAll(ts[..i + 1]) == SizeAll(ts[..i]) + Size(ts[i])
  {
    if i == 0 {
      assert ts[..1][1..] == [];
    } else {
      SizesUpTo(ts[1..], i - 1);
      assert ts[..i + 1][1..] == ts[1..][..i] && ts[..i][1..] == ts[1..][..i - 1];
    }
  }

  lemma {:induction false} SizesGrow(ts: seq<Tree>, i: nat, j: nat)
    requires i <= j <= |ts|
    ensures SizeAll(ts[..i]) <= SizeAll(ts[..j]) <= SizeAll(ts)
    decreases |ts| - i
  {
    if i < j {
      SizesUpTo(ts, i);
      SizesGrow(ts, i + 1, j);
    } else if j < |ts| {
      SizesUpTo(ts, j);
      SizesGrow(ts, j + 1, |ts|);
    } else {
      assert ts[..i] == ts;
    }
  }

  /** Ids stay below the size of the tree. */
  lemma {:induction false} IdInRange(t: Tree, p: Path)
    requires IsPath(t, p)
    ensures IdOf(t, p) + Size(Subtree(t, p)) <= Size(t)
    decreases |p|
  {
    if p != [] {
      IdInRange(t.children[p[0]], p[1..]);
      SizesUpTo(t.children, p[0]);
      SizesGrow(t.children, p[0] + 1, |t.children|);
    }
  }

  /** Ids are in preorder. */
  lemma {:induction false} PreorderLess(t: Tree, p: Path, q: Path)
    requires IsPath(t, p) && IsPath(t, q) && Precedes(p, q)
    ensures IdOf(t, p) < IdOf(t, q)
    decreases |p|
  {
    if p != [] {
      if p[0] == q[0] {
        PreorderLess(t.children[p[0]], p[1..], q[1..]);
      } else {
        IdInRange(t.children[p[0]], p[1..]);
        SizesUpTo(t.children, p[0]);
        SizesGrow(t.children, p[0] + 1, q[0]);
      }
    }
  }

  lemma {:induction false} PreorderTotal(p: Path, q: Path)
    ensures p == q || Precedes(p, q) || Precedes(q, p)
    decreases |p|
  {
    if p != [] && q != [] && p[0] == q[0] {
      PreorderTotal(p[1..], q[1..]);
      assert p == [p[0]] + p[1..] && q == [q[0]] + q[1..];
    }
  }

  /** The path of an id. */
  lemma {:induction false} PathOf(t: Tree, i: nat) returns (p: Path)
    requires i < Size(t)
    ensures IsPath(t, p) && IdOf(t, p) == i
    decreases t
  {
    if i == 0 {
      p := [];
    } else {
      var k := ChildOf(t.children, i - 1);
      var rest := PathOf(t.children[k], i - 1 - SizeAll(t.children[..k]));
      p := [k] + rest;
      assert p[1..] == rest;
    }
  }

  lemma {:induction false} ChildOf(ts: seq<Tree>, i: nat) returns (k: nat)
    requires i < SizeAll(ts)
    ensures k < |ts| && SizeAll(ts[..k]) <= i < SizeAll(ts[..k]) + Size(ts[k])
  {
    k := 0;
    assert ts[..0] == [] && ts[..|ts|] == ts;
    while i >= SizeAll(ts[..k + 1])
      invariant k < |ts| && SizeAll(ts[..k]) <= i
      decreases |ts| - k
    {
      k := k + 1;
    }
    SizesUpTo(ts, k);
  }

  // ---- nodes ----------------------------------------------------------------------------------

  lemma {:induction false} ForestNodesAt(ts: seq<Tree>, k: nat, j: nat)
    requires k < |ts| && j < Size(ts[k])
    ensures SizeAll(ts[..k]) + j < SizeAll(ts)
    ensures ForestNodes(ts)[SizeAll(ts[..k]) + j] == TreeNodes(ts[k])[j]
  {
    if k == 0 {
      assert ts[..0] == [];
    } else {
      ForestNodesAt(ts[1..], k - 1, j);
      assert ts[..k][1..] == ts[1..][..k - 1];
    }
  }

  /** At the id of a path stands the node at that path, its kind under kind and its text under text. */
  lemma {:induction false} NodeAt(t: Tree, p: Path)
    requires IsPath(t, p)
    ensures IdOf(t, p) < Size(t)
    ensures TreeNodes(t)[IdOf(t, p)].kind == Subtree(t, p).kind
    ensures TreeNodes(t)[IdOf(t, p)].text == Subtree(t, p).text
    decreases |p|
  {
    if p != [] {
      NodeAt(t.children[p[0]], p[1..]);
      ForestNodesAt(t.children, p[0], IdOf(t.children[p[0]], p[1..]));
    }
  }

  // ---- edges ----------------------------------------------------------------------------------

  lemma {:induction false} EdgeCount(t: Tree, n: nat)
    ensures |TreeEdges(t, n)| == Size(t) - 1
    decreases t, 1
  {
    EdgeCounts(t.children, n + 1, n);
  }

  lemma {:induction false} EdgeCounts(ts: seq<Tree>, n: nat, parent: nat)
    ensures |ForestEdges(ts, n, parent)| == SizeAll(ts)
    decreases ts, 0
  {
    if ts != [] {
      EdgeCount(ts[0], n);
      EdgeCounts(ts[1..], n + Size(ts[0]), parent);
    }
  }

  lemma Shifted<T>(first: seq<T>, rest: seq<T>, i: nat)
    requires i < |rest|
    ensures |first| + i < |first + rest| && (first + rest)[|first| + i] == rest[i]
  {
  }

  /** The edge into the k-th sibling. */
  lemma {:induction false} EdgeToSibling(ts: seq<Tree>, k: nat, n: nat, parent: nat)
    requires k < |ts|
    ensures var at := SizeAll(ts[..k]);
            at < |ForestEdges(ts, n, parent)| && ForestEdges(ts, n, parent)[at] == Edge(parent, n + at)
  {
    EdgesUnfold(ts, n, parent);
    if k == 0 {
      assert ts[..0] == [];
    } else {
      EdgeCount(ts[0], n);
      EdgeToSibling(ts[1..], k - 1, n + Size(ts[0]), parent);
      assert ts[..k][1..] == ts[1..][..k - 1];
      Shifted([Edge(parent, n)] + TreeEdges(ts[0], n), ForestEdges(ts[1..], n + Size(ts[0]), parent),
              SizeAll(ts[1..][..k - 1]));
    }
  }

  /** The edges below it. */
  lemma {:induction false} EdgeBelowSibling(ts: seq<Tree>, k: nat, n: nat, parent: nat, j: nat)
    requires k < |ts| && j < |TreeEdges(ts[k], n + SizeAll(ts[..k]))|
    ensures var at := SizeAll(ts[..k]);
            && at + 1 + j < |ForestEdges(ts, n, parent)|
            && ForestEdges(ts, n, parent)[at + 1 + j] == TreeEdges(ts[k], n + at)[j]
  {
    EdgesUnfold(ts, n, parent);
    if k == 0 {
      assert ts[..0] == [];
    } else {
      EdgeCount(ts[0], n);
      assert ts[..k][1..] == ts[1..][..k - 1];
      EdgeBelowSibling(ts[1..], k - 1, n + Size(ts[0]), parent, j);
      Shifted([Edge(parent, n)] + TreeEdges(ts[0], n), ForestEdges(ts[1..], n + Size(ts[0]), parent),
              SizeAll(ts[1..][..k - 1]) + 1 + j);
    }
  }

  /** The edge before a child's id goes from its parent's id to its own. */
  lemma {:induction false} EdgeInto(t: Tree, p: Path, k: nat, n: nat)
    requires IsPath(t, p) && IsPath(t, p + [k])
    ensures 0 < IdOf(t, p + [k]) <= |TreeEdges(t, n)|
    ensures TreeEdges(t, n)[IdOf(t, p + [k]) - 1] == Edge(n + IdOf(t, p), n + IdOf(t, p + [k]))
    decreases |p|
  {
    if p == [] {
      assert (p + [k])[1..] == [];
      EdgeToSibling(t.children, k, n + 1, n);
    } else {
      var c, rest := p[0], p[1..];
      assert (p + [k])[0] == c && (p + [k])[1..] == rest + [k];
      var at := SizeAll(t.children[..c]);
      EdgeInto(t.children[c], rest, k, n + 1 + at);
      EdgeBelowSibling(t.children, c, n + 1, n, IdOf(t.children[c], rest + [k]) - 1);
    }
  }

  /** The node at the path is in the DAG under its id, its kind under kind and its text under text. */
  predicate StandsAt(t: Tree, p: Path)
    requires IsPath(t, p)
  {
    && IdOf(t, p) in DagOf(t).nodes
    && DagOf(t).nodes[IdOf(t, p)].kind == Subtree(t, p).kind
    && DagOf(t).nodes[IdOf(t, p)].text == Subtree(t, p).text
  }

  ghost predicate HasPath(t: Tree, i: nat) {
    exists p :: IsPath(t, p) && IdOf(t, p) == i
  }

  /** Ids are paths' ids, in preorder. */
  lemma PathsOrdered(t: Tree, p: Path, q: Path)
    requires IsPath(t, p) && IsPath(t, q)
    ensures (IdOf(t, p) < IdOf(t, q) <==> Precedes(p, q)) && (IdOf(t, p) == IdOf(t, q) <==> p == q)
  {
    PreorderTotal(p, q);
    if Precedes(p, q) {
      PreorderLess(t, p, q);
    } else if p != q {
      PreorderLess(t, q, p);
    }
  }

  /** Every node is numbered once, in preorder, with its own kind and text. */
  lemma NodesAreTheTrees(t: Tree)
    ensures forall i: nat :: i in DagOf(t).nodes <==> i < Size(t)
    ensures forall i: nat :: i < Size(t) <==> HasPath(t, i)
    ensures forall p :: IsPath(t, p) ==> StandsAt(t, p)
    ensures forall p, q :: IsPath(t, p) && IsPath(t, q) ==>
              (IdOf(t, p) < IdOf(t, q) <==> Precedes(p, q)) && (IdOf(t, p) == IdOf(t, q) <==> p == q)
  {
    forall i: nat ensures i < Size(t) <==> HasPath(t, i) {
      if i < Size(t) {
        var p := PathOf(t, i);
      }
      if HasPath(t, i) {
        var p :| IsPath(t, p) && IdOf(t, p) == i;
        IdInRange(t, p);
      }
    }
    forall p | IsPath(t, p) ensures StandsAt(t, p) {
      NodeAt(t, p);
    }
    forall p, q | IsPath(t, p) && IsPath(t, q)
      ensures (IdOf(t, p) < IdOf(t, q) <==> Precedes(p, q)) && (IdOf(t, p) == IdOf(t, q) <==> p == q)
    {
      PathsOrdered(t, p, q);
    }
  }

  ghost predicate IsParentEdge(t: Tree, e: Edge) {
    exists p, k :: IsPath(t, p) && IsPath(t, p + [k]) && e == Edge(IdOf(t, p), IdOf(t, p + [k]))
  }

  /** The edges are those from parents to children, each once, in the order of the children's ids. */
  lemma EdgesAreTheTrees(t: Tree)
    ensures |DagOf(t).edges| == Size(t) - 1
    ensures forall i :: 0 <= i < |DagOf(t).edges| ==> DagOf(t).edges[i].dst == i + 1
    ensures forall e :: e in DagOf(t).edges <==> IsParentEdge(t, e)
  {
    EdgeCount(t, 0);
    forall i: nat | i < |DagOf(t).edges|
      ensures DagOf(t).edges[i].dst == i + 1 && IsParentEdge(t, DagOf(t).edges[i])
    {
      ParentOf(t, i);
    }
    forall e | IsParentEdge(t, e) ensures e in DagOf(t).edges {
      var p, k :| IsPath(t, p) && IsPath(t, p + [k]) && e == Edge(IdOf(t, p), IdOf(t, p + [k]));
      EdgeInto(t, p, k, 0);
    }
  }

  lemma ParentOf(t: Tree, i: nat)
    requires i < |DagOf(t).edges|
    ensures DagOf(t).edges[i].dst == i + 1 && IsParentEdge(t, DagOf(t).edges[i])
  {
    EdgeCount(t, 0);
    var path := PathOf(t, i + 1);
    var p, k := path[..|path| - 1], path[|path| - 1];
    assert path == p + [k];
    PrefixIsPath(t, p, [k]);
    EdgeInto(t, p, k, 0);
  }

  lemma {:induction false} PrefixIsPath(t: Tree, p: Path, q: Path)
    requires IsPath(t, p + q)
    ensures IsPath(t, p)
    decreases |p|
  {
    if p != [] {
      assert (p + q)[1..] == p[1..] + q;
      PrefixIsPath(t.children[p[0]], p[1..], q);
    }
  }
}
