// Exhaustive sub-graph matching of a rule pattern (`match`), and its use to enumerate.
module SubgraphMatch {
  import opened Wrappers
  import opened Sequences

  type Id = string

  datatype Edge = Edge(source: Id, destination: Id)

  // A DAG with the order in which its nodes were inserted.
  datatype Dag<N> = Dag(ids: seq<Id>, node: map<Id, N>, edges: seq<Edge>)

  type Mapping = map<Id, Id>

  ghost predicate Valid<N>(d: Dag<N>) {
    Distinct(d.ids) && forall id :: id in d.ids <==> id in d.node
  }

  /** Every edge of a pattern joins nodes of the pattern. */
  ghost predicate Closed<P>(p: Dag<P>) {
    Valid(p) && forall i :: 0 <= i < |p.edges| ==> p.edges[i].source in p.ids && p.edges[i].destination in p.ids
  }

  // ---- candidates ------------------------------------------------------------------------

  /** The DAG nodes that may stand for a pattern node, in DAG order. */
  function Pool<N, P>(d: Dag<N>, node: P, comp: (N, P) -> bool, n: nat): seq<Id>
    requires n <= |d.ids| && forall id :: id in d.ids ==> id in d.node
  {
    if n == 0 then []
    else Pool(d, node, comp, n - 1) + if comp(d.node[d.ids[n - 1]], node) then [d.ids[n - 1]] else []
  }

  function Pools<N, P>(p: Dag<P>, d: Dag<N>, comp: (N, P) -> bool): seq<seq<Id>>
    requires (forall id :: id in d.ids ==> id in d.node) && forall id :: id in p.ids ==> id in p.node
  {
    seq(|p.ids|, i requires 0 <= i < |p.ids| => Pool(d, p.node[p.ids[i]], comp, |d.ids|))
  }

  function Prepend(x: Id, ts: seq<seq<Id>>): seq<seq<Id>> {
    seq(|ts|, i requires 0 <= i < |ts| => [x] + ts[i])
  }

  function PrependAll(xs: seq<Id>, ts: seq<seq<Id>>): seq<seq<Id>> {
    if xs == [] then [] else Prepend(xs[0], ts) + PrependAll(xs[1..], ts)
  }

  /** `itertools.product`: the last pool varies fastest. */
  function Product(pools: seq<seq<Id>>): seq<seq<Id>> {
    if pools == [] then [[]] else PrependAll(pools[0], Product(pools[1..]))
  }

  lemma {:induction false} PoolHas<N, P>(d: Dag<N>, node: P, comp: (N, P) -> bool, n: nat)
    requires Valid(d) && n <= |d.ids|
    ensures forall id :: id in Pool(d, node, comp, n) <==> id in d.ids[..n] && comp(d.node[id], node)
    ensures Distinct(Pool(d, node, comp, n))
  {
    if n > 0 {
      PoolHas(d, node, comp, n - 1);
      assert d.ids[..n] == d.ids[..n - 1] + [d.ids[n - 1]];
      assert d.ids[n - 1] !in d.ids[..n - 1];
    }
  }

  lemma {:induction false} PrependAllHas(xs: seq<Id>, ts: seq<seq<Id>>, t: seq<Id>)
    ensures t in PrependAll(xs, ts) <==> t != [] && t[0] in xs && t[1..] in ts
  {
    if xs != [] {
      PrependAllHas(xs[1..], ts, t);
      if t != [] && t[0] == xs[0] && t[1..] in ts {
        var i :| 0 <= i < |ts| && ts[i] == t[1..];
        assert Prepend(xs[0], ts)[i] == t;
      }
      if t in Prepend(xs[0], ts) {
        var i :| 0 <= i < |ts| && Prepend(xs[0], ts)[i] == t;
        assert t[1..] == ts[i];
      }
    }
  }

  lemma {:induction false} ProductHas(pools: seq<seq<Id>>, t: seq<Id>)
    ensures t in Product(pools) <==> |t| == |pools| && forall i :: 0 <= i < |t| ==> t[i] in pools[i]
  {
    if pools != [] {
      PrependAllHas(pools[0], Product(pools[1..]), t);
      if t != [] {
        ProductHas(pools[1..], t[1..]);
        assert |t| == |pools| ==> forall i :: 1 <= i < |t| ==> t[i] == t[1..][i - 1] && pools[i] == pools[1..][i - 1];
        if |t| == |pools| && t[0] in pools[0] && forall i :: 0 <= i < |t[1..]| ==> t[1..][i] in pools[1..][i] {
          forall i | 0 <= i < |t|
            ensures t[i] in pools[i]
          {
            assert i > 0 ==> t[1..][i - 1] in pools[1..][i - 1];
          }
        }
      }
    }
  }

  lemma DistinctAppend<T>(a: seq<T>, b: seq<T>)
    requires Distinct(a) && Distinct(b) && forall x :: x in a ==> x !in b
    ensures Distinct(a + b)
  {
    var c := a + b;
    forall i, j | 0 <= i < j < |c|
      ensures c[i] != c[j]
    {
      if i < |a| && j >= |a| {
        assert c[i] in a && c[j] == b[j - |a|];
      }
    }
  }

  lemma {:induction false} PrependAllDistinct(xs: seq<Id>, ts: seq<seq<Id>>)
    requires Distinct(xs) && Distinct(ts)
    ensures Distinct(PrependAll(xs, ts))
  {
    if xs != [] {
      var first, rest := Prepend(xs[0], ts), PrependAll(xs[1..], ts);
      PrependAllDistinct(xs[1..], ts);
      forall i, j | 0 <= i < j < |first|
        ensures first[i] != first[j]
      {
        assert first[i][1..] == ts[i] && first[j][1..] == ts[j];
      }
      forall t | t in first
        ensures t !in rest
      {
        PrependAllHas(xs[1..], ts, t);
        assert t[0] == xs[0];
      }
      DistinctAppend(first, rest);
    }
  }

  /** The product of duplicate-free pools has no duplicates. */
  lemma {:induction false} ProductDistinct(pools: seq<seq<Id>>)
    requires forall i :: 0 <= i < |pools| ==> Distinct(pools[i])
    ensures Distinct(Product(pools))
  {
    if pools != [] {
      ProductDistinct(pools[1..]);
      PrependAllDistinct(pools[0], Product(pools[1..]));
    }
  }

  // ---- one match --------------------------------------------------------------------------

  /** `dict(zip(ids, values))`. */
  function Zip(ids: seq<Id>, values: seq<Id>): (m: Mapping)
    requires |ids| == |values|
    ensures m.Keys == set i | 0 <= i < |ids| :: ids[i]
  {
    if ids == [] then map[] else Zip(ids[..|ids| - 1], values[..|ids| - 1])[ids[|ids| - 1] := values[|ids| - 1]]
  }

  /** The candidates for a pattern node are those the comparator accepts, in the order of the DAG's nodes. */
  lemma {:induction false} PoolInOrder<N, P>(d: Dag<N>, node: P, comp: (N, P) -> bool, n: nat) returns (at: seq<nat>)
    requires n <= |d.ids| && forall id :: id in d.ids ==> id in d.node
    ensures |at| == |Pool(d, node, comp, n)|
    ensures forall i :: 0 <= i < |at| ==> at[i] < n && Pool(d, node, comp, n)[i] == d.ids[at[i]]
    ensures forall i, j :: 0 <= i < j < |at| ==> at[i] < at[j]
    ensures forall k: nat :: k < n ==> (k in at <==> comp(d.node[d.ids[k]], node))
  {
    if n == 0 {
      at := [];
    } else {
      at := PoolInOrder(d, node, comp, n - 1);
      if comp(d.node[d.ids[n - 1]], node) {
        at := at + [n - 1];
      }
    }
  }

  lemma {:induction false} PrependAllAt(xs: seq<Id>, ts: seq<seq<Id>>, k: nat, j: nat)
    requires k < |xs| && j < |ts|
    ensures |PrependAll(xs, ts)| == |xs| * |ts| && k * |ts| + j < |xs| * |ts|
    ensures PrependAll(xs, ts)[k * |ts| + j] == [xs[k]] + ts[j]
  {
    PrependAllSize(xs, ts);
    PrependAllSize(xs[1..], ts);
    if k > 0 {
      PrependAllAt(xs[1..], ts, k - 1, j);
      assert k * |ts| + j == |ts| + ((k - 1) * |ts| + j);
    } else {
      assert |xs| * |ts| >= |ts| by {
        assert |xs| * |ts| == |ts| + (|xs| - 1) * |ts|;
      }
    }
  }

  lemma {:induction false} PrependAllSize(xs: seq<Id>, ts: seq<seq<Id>>)
    ensures |PrependAll(xs, ts)| == |xs| * |ts|
  {
    if xs != [] {
      PrependAllSize(xs[1..], ts);
      assert |xs| * |ts| == |ts| + (|xs| - 1) * |ts|;
    }
  }

  /** The order of the product: the first pool varies slowest, each later one faster. */
  lemma ProductAt(pools: seq<seq<Id>>, k: nat, j: nat)
    requires pools != [] && k < |pools[0]| && j < |Product(pools[1..])|
    ensures var n := |Product(pools[1..])|;
            && |Product(pools)| == |pools[0]| * n && k * n + j < |Product(pools)|
            && Product(pools)[k * n + j] == [pools[0][k]] + Product(pools[1..])[j]
  {
    PrependAllAt(pools[0], Product(pools[1..]), k, j);
  }

  lemma {:induction false} ZipAt(ids: seq<Id>, values: seq<Id>, i: nat)
    requires |ids| == |values| && Distinct(ids) && i < |ids|
    ensures Zip(ids, values)[ids[i]] == values[i]
  {
    if i < |ids| - 1 {
      ZipAt(ids[..|ids| - 1], values[..|ids| - 1], i);
    }
  }

  lemma ZipInjective(ids: seq<Id>, a: seq<Id>, b: seq<Id>)
    requires |ids| == |a| == |b| && Distinct(ids) && Zip(ids, a) == Zip(ids, b)
    ensures a == b
  {
    forall i | 0 <= i < |ids|
      ensures a[i] == b[i]
    {
      ZipAt(ids, a, i);
      ZipAt(ids, b, i);
    }
  }

  predicate Preserves(edges: seq<Edge>, target: seq<Edge>, m: Mapping) {
    forall i :: 0 <= i < |edges| ==>
      edges[i].source in m && edges[i].destination in m && Edge(m[edges[i].source], m[edges[i].destination]) in target
  }

  predicate Good<N, P>(p: Dag<P>, d: Dag<N>, values: seq<Id>) {
    |values| == |p.ids| && Distinct(values) && Preserves(p.edges, d.edges, Zip(p.ids, values))
  }

  /** The first acceptable candidate that has not been processed. */
  function First<N, P>(p: Dag<P>, d: Dag<N>, tuples: seq<seq<Id>>, processed: seq<Mapping>): Option<Mapping> {
    if tuples == [] then None
    else if Good(p, d, tuples[0]) && Zip(p.ids, tuples[0]) !in processed then Some(Zip(p.ids, tuples[0]))
    else First(p, d, tuples[1..], processed)
  }

  method PoolFor<N, P>(d: Dag<N>, node: P, comp: (N, P) -> bool) returns (pool: seq<Id>)
    requires forall id :: id in d.ids ==> id in d.node
    ensures pool == Pool(d, node, comp, |d.ids|)
  {
    pool := [];
    for i := 0 to |d.ids|
      invariant pool == Pool(d, node, comp, i)
    {
      if comp(d.node[d.ids[i]], node) {
        pool := pool + [d.ids[i]];
      }
    }
  }

  /** The counting loop over the edges of the pattern. */
  method CountEdges(edges: seq<Edge>, target: seq<Edge>, m: Mapping) returns (matched: nat)
    requires forall i :: 0 <= i < |edges| ==> edges[i].source in m && edges[i].destination in m
    ensures matched <= |edges|
    ensures matched == |edges| <==> Preserves(edges, target, m)
  {
    matched := 0;
    for i := 0 to |edges|
      invariant matched <= i
      invariant matched == i <==> Preserves(edges[..i], target, m)
    {
      var s, t := m[edges[i].source], m[edges[i].destination];
      var found := false;
      for j := 0 to |target|
        invariant !found && Edge(s, t) !in target[..j]
      {
        if target[j].source == s && target[j].destination == t {
          found := true;
          break;
        }
      }
      if found {
        matched := matched + 1;
      }
      assert edges[..i + 1] == edges[..i] + [edges[i]];
      assert found <==> Edge(s, t) in target;
      PreservesSnoc(edges[..i], edges[i], target, m);
    }
    assert edges[..|edges|] == edges;
  }

  lemma PreservesSnoc(edges: seq<Edge>, e: Edge, target: seq<Edge>, m: Mapping)
    requires e.source in m && e.destination in m
    ensures Preserves(edges + [e], target, m) <==>
            Preserves(edges, target, m) && Edge(m[e.source], m[e.destination]) in target
  {
    var all := edges + [e];
    if Preserves(all, target, m) {
      forall i | 0 <= i < |edges|
        ensures edges[i].source in m && edges[i].destination in m &&
                Edge(m[edges[i].source], m[edges[i].destination]) in target
      {
        assert all[i] == edges[i];
      }
      assert all[|edges|] == e;
    }
  }

  predicate HasDuplicate(values: seq<Id>) {
    exists i, j :: 0 <= i < j < |values| && values[i] == values[j]
  }

  /** `match`: the first acceptable candidate in product order. */
  method Match<N, P>(p: Dag<P>, d: Dag<N>, comp: (N, P) -> bool, processed: seq<Mapping>)
    returns (found: bool, candidate: Mapping)
    requires Closed(p) && Valid(d)
    ensures First(p, d, Product(Pools(p, d, comp)), processed) == if found then Some(candidate) else None
  {
    var pools: seq<seq<Id>> := [];
    for i := 0 to |p.ids|
      invariant |pools| == i
      invariant forall j :: 0 <= j < i ==> pools[j] == Pool(d, p.node[p.ids[j]], comp, |d.ids|)
    {
      var pool := PoolFor(d, p.node[p.ids[i]], comp);
      pools := pools + [pool];
    }
    assert pools == Pools(p, d, comp);
    var tuples := Product(pools);
    candidate := map[];
    for i := 0 to |tuples|
      invariant First(p, d, tuples, processed) == First(p, d, tuples[i..], processed)
    {
      var values := tuples[i];
      ProductHas(pools, values);
      assert values in tuples;
      assert tuples[i..][1..] == tuples[i + 1..];
      if !HasDuplicate(values) {
        candidate := Zip(p.ids, values);
        if candidate !in processed {
          var matched := CountEdges(p.edges, d.edges, candidate);
          if matched == |p.edges| {
            return true, candidate;
          }
        }
      }
    }
    return false, map[];
  }

  // ---- what a match is -------------------------------------------------------------------------

  /** An injective, comparator-respecting, edge-preserving assignment of the pattern's nodes. */
  ghost predicate Embedding<N, P>(p: Dag<P>, d: Dag<N>, comp: (N, P) -> bool, m: Mapping)
    requires Valid(p) && Valid(d)
  {
    && m.Keys == p.node.Keys
    && (forall id :: id in m ==> m[id] in d.node && comp(d.node[m[id]], p.node[id]))
    && (forall a, b :: a in m && b in m && a != b ==> m[a] != m[b])
    && Preserves(p.edges, d.edges, m)
  }

  function ValuesOf(ids: seq<Id>, m: Mapping): seq<Id>
    requires forall id :: id in ids ==> id in m
  {
    seq(|ids|, i requires 0 <= i < |ids| => m[ids[i]])
  }

  lemma ZipValues(ids: seq<Id>, m: Mapping)
    requires Distinct(ids) && forall id :: id in ids <==> id in m
    ensures Zip(ids, ValuesOf(ids, m)) == m
  {
    var z := Zip(ids, ValuesOf(ids, m));
    forall id | id in m
      ensures id in z && z[id] == m[id]
    {
      var i :| 0 <= i < |ids| && ids[i] == id;
      ZipAt(ids, ValuesOf(ids, m), i);
    }
    assert z.Keys == m.Keys;
  }

  lemma PoolsHave<N, P>(p: Dag<P>, d: Dag<N>, comp: (N, P) -> bool, i: nat, id: Id)
    requires Valid(p) && Valid(d) && i < |p.ids|
    ensures id in Pools(p, d, comp)[i] <==> id in d.node && comp(d.node[id], p.node[p.ids[i]])
  {
    PoolHas(d, p.node[p.ids[i]], comp, |d.ids|);
    assert d.ids[..|d.ids|] == d.ids;
  }

  /** A candidate, pattern node by pattern node. */
  lemma CandidateAt<N, P>(p: Dag<P>, d: Dag<N>, comp: (N, P) -> bool, t: seq<Id>, id: Id) returns (i: nat)
    requires Closed(p) && Valid(d) && t in Product(Pools(p, d, comp)) && |t| == |p.ids| && id in p.node
    ensures i < |p.ids| && p.ids[i] == id && Zip(p.ids, t)[id] == t[i]
    ensures t[i] in d.node && comp(d.node[t[i]], p.node[id])
  {
    i :| 0 <= i < |p.ids| && p.ids[i] == id;
    ZipAt(p.ids, t, i);
    ProductHas(Pools(p, d, comp), t);
    PoolsHave(p, d, comp, i, t[i]);
  }

  lemma CandidateEmbeds<N, P>(p: Dag<P>, d: Dag<N>, comp: (N, P) -> bool, t: seq<Id>)
    requires Closed(p) && Valid(d) && t in Product(Pools(p, d, comp)) && Good(p, d, t)
    ensures Embedding(p, d, comp, Zip(p.ids, t))
  {
    var m := Zip(p.ids, t);
    forall id | id in m
      ensures m[id] in d.node && comp(d.node[m[id]], p.node[id])
    {
      var _ := CandidateAt(p, d, comp, t, id);
    }
    forall a, b | a in m && b in m && a != b
      ensures m[a] != m[b]
    {
      var i := CandidateAt(p, d, comp, t, a);
      var j := CandidateAt(p, d, comp, t, b);
    }
  }

  lemma EmbeddingIsCandidate<N, P>(p: Dag<P>, d: Dag<N>, comp: (N, P) -> bool, m: Mapping)
    requires Closed(p) && Valid(d) && Embedding(p, d, comp, m)
    ensures ValuesOf(p.ids, m) in Product(Pools(p, d, comp)) && Good(p, d, ValuesOf(p.ids, m))
    ensures Zip(p.ids, ValuesOf(p.ids, m)) == m
  {
    var t, pools := ValuesOf(p.ids, m), Pools(p, d, comp);
    ZipValues(p.ids, m);
    forall i | 0 <= i < |t|
      ensures t[i] in pools[i]
    {
      assert p.ids[i] in m;
      PoolsHave(p, d, comp, i, t[i]);
    }
    ProductHas(pools, t);
    forall i, j | 0 <= i < j < |t|
      ensures t[i] != t[j]
    {
      assert p.ids[i] != p.ids[j] && p.ids[i] in m && p.ids[j] in m;
    }
  }

  lemma {:induction false} FirstIff<N, P>(p: Dag<P>, d: Dag<N>, tuples: seq<seq<Id>>, processed: seq<Mapping>)
    ensures var r := First(p, d, tuples, processed);
            if r.Some? then
              exists i ::
                0 <= i < |tuples| && Good(p, d, tuples[i]) &&
                Zip(p.ids, tuples[i]) == r.value && r.value !in processed &&
                forall j :: 0 <= j < i ==> !(Good(p, d, tuples[j]) && Zip(p.ids, tuples[j]) !in processed)
            else forall i :: 0 <= i < |tuples| && Good(p, d, tuples[i]) ==> Zip(p.ids, tuples[i]) in processed
  {
    if tuples != [] && !(Good(p, d, tuples[0]) && Zip(p.ids, tuples[0]) !in processed) {
      FirstIff(p, d, tuples[1..], processed);
      var r := First(p, d, tuples[1..], processed);
      if r.Some? {
        var i :| 0 <= i < |tuples[1..]| && Good(p, d, tuples[1..][i]) &&
                 Zip(p.ids, tuples[1..][i]) == r.value && r.value !in processed &&
                 forall j :: 0 <= j < i ==> !(Good(p, d, tuples[1..][j]) && Zip(p.ids, tuples[1..][j]) !in processed);
        assert tuples[i + 1] == tuples[1..][i];
        forall j | 0 <= j < i + 1
          ensures !(Good(p, d, tuples[j]) && Zip(p.ids, tuples[j]) !in processed)
        {
          assert j > 0 ==> tuples[j] == tuples[1..][j - 1];
        }
      } else {
        forall i | 0 <= i < |tuples| && Good(p, d, tuples[i])
          ensures Zip(p.ids, tuples[i]) in processed
        {
          assert i > 0 ==> tuples[i] == tuples[1..][i - 1];
        }
      }
    }
  }

  /** A match is found exactly when an embedding outside `processed` exists, and is one. */
  lemma MatchIff<N, P>(p: Dag<P>, d: Dag<N>, comp: (N, P) -> bool, processed: seq<Mapping>)
    requires Closed(p) && Valid(d)
    ensures var r := First(p, d, Product(Pools(p, d, comp)), processed);
            && (r.Some? <==> exists m :: Embedding(p, d, comp, m) && m !in processed)
            && (r.Some? ==> Embedding(p, d, comp, r.value) && r.value !in processed)
  {
    var tuples := Product(Pools(p, d, comp));
    var r := First(p, d, tuples, processed);
    FirstIff(p, d, tuples, processed);
    if r.Some? {
      var i :| 0 <= i < |tuples| && Good(p, d, tuples[i]) && Zip(p.ids, tuples[i]) == r.value;
      CandidateEmbeds(p, d, comp, tuples[i]);
    } else {
      forall m | Embedding(p, d, comp, m)
        ensures m in processed
      {
        EmbeddingIsCandidate(p, d, comp, m);
        var i :| 0 <= i < |tuples| && tuples[i] == ValuesOf(p.ids, m);
      }
    }
  }

  // ---- enumerating --------------------------------------------------------------------------------

  /** All embeddings, in product order. */
  function All<N, P>(p: Dag<P>, d: Dag<N>, tuples: seq<seq<Id>>): seq<Mapping> {
    if tuples == [] then []
    else (if Good(p, d, tuples[0]) then [Zip(p.ids, tuples[0])] else []) + All(p, d, tuples[1..])
  }

  lemma {:induction false} AllHas<N, P>(p: Dag<P>, d: Dag<N>, tuples: seq<seq<Id>>, m: Mapping)
    ensures m in All(p, d, tuples) <==>
            exists i :: 0 <= i < |tuples| && Good(p, d, tuples[i]) && Zip(p.ids, tuples[i]) == m
  {
    if tuples != [] {
      AllHas(p, d, tuples[1..], m);
      if m in All(p, d, tuples[1..]) {
        var i :| 0 <= i < |tuples[1..]| && Good(p, d, tuples[1..][i]) && Zip(p.ids, tuples[1..][i]) == m;
        assert tuples[i + 1] == tuples[1..][i];
      }
      if i :| 0 <= i < |tuples| && Good(p, d, tuples[i]) && Zip(p.ids, tuples[i]) == m {
        assert i > 0 ==> tuples[1..][i - 1] == tuples[i];
      }
    }
  }

  lemma {:induction false} AllDistinct<N, P>(p: Dag<P>, d: Dag<N>, tuples: seq<seq<Id>>)
    requires Distinct(tuples) && Distinct(p.ids)
    ensures Distinct(All(p, d, tuples))
  {
    if tuples != [] {
      AllDistinct(p, d, tuples[1..]);
      assert tuples[0] !in tuples[1..];
      if Good(p, d, tuples[0]) {
        var m := Zip(p.ids, tuples[0]);
        AllHas(p, d, tuples[1..], m);
        if m in All(p, d, tuples[1..]) {
          var i :| 0 <= i < |tuples[1..]| && Good(p, d, tuples[1..][i]) && Zip(p.ids, tuples[1..][i]) == m;
          ZipInjective(p.ids, tuples[0], tuples[1..][i]);
          assert false;
        }
        DistinctAppend([m], All(p, d, tuples[1..]));
      }
    }
  }

  /** With the first `k` embeddings processed, the next match is the next embedding. */
  lemma {:induction false} NextIs<N, P>(p: Dag<P>, d: Dag<N>, tuples: seq<seq<Id>>, before: seq<Mapping>, k: nat)
    requires Distinct(All(p, d, tuples)) && k <= |All(p, d, tuples)|
    requires forall m :: m in before ==> m !in All(p, d, tuples)
    ensures First(p, d, tuples, before + All(p, d, tuples)[..k]) ==
            if k < |All(p, d, tuples)| then Some(All(p, d, tuples)[k]) else None
  {
    if tuples != [] {
      var all, rest := All(p, d, tuples), All(p, d, tuples[1..]);
      if !Good(p, d, tuples[0]) {
        assert all == [] + rest == rest;
        NextIs(p, d, tuples[1..], before, k);
      } else {
        var m := Zip(p.ids, tuples[0]);
        UnCons(m, rest, before, k);
        if k > 0 {
          NextIs(p, d, tuples[1..], before + [m], k - 1);
        }
      }
    }
  }

  lemma UnCons(m: Mapping, rest: seq<Mapping>, before: seq<Mapping>, k: nat)
    requires Distinct([m] + rest) && k <= |rest| + 1
    ensures Distinct(rest) && m !in rest && ([m] + rest)[0] == m
    ensures k == 0 ==> before + ([m] + rest)[..k] == before
    ensures k > 0 ==> before + ([m] + rest)[..k] == (before + [m]) + rest[..k - 1] && m in before + ([m] + rest)[..k]
    ensures 0 < k <= |rest| ==> ([m] + rest)[k] == rest[k - 1]
  {
    var all := [m] + rest;
    forall i, j | 0 <= i < j < |rest|
      ensures rest[i] != rest[j]
    {
      assert all[i + 1] == rest[i] && all[j + 1] == rest[j];
    }
    forall i | 0 <= i < |rest|
      ensures rest[i] != m
    {
      assert all[i + 1] == rest[i] && all[0] == m;
    }
    if k > 0 {
      assert all[..k] == [m] + rest[..k - 1];
      assert ((before + [m]) + rest[..k - 1])[|before|] == m;
    }
  }

  /** The enumeration has every embedding, and each only once. */
  lemma AllAreEmbeddings<N, P>(p: Dag<P>, d: Dag<N>, comp: (N, P) -> bool)
    requires Closed(p) && Valid(d)
    ensures Distinct(All(p, d, Product(Pools(p, d, comp))))
    ensures forall m :: m in All(p, d, Product(Pools(p, d, comp))) <==> Embedding(p, d, comp, m)
  {
    var tuples := Product(Pools(p, d, comp));
    forall i | 0 <= i < |p.ids|
      ensures Distinct(Pools(p, d, comp)[i])
    {
      PoolHas(d, p.node[p.ids[i]], comp, |d.ids|);
    }
    ProductDistinct(Pools(p, d, comp));
    AllDistinct(p, d, tuples);
    forall m
      ensures m in All(p, d, tuples) <==> Embedding(p, d, comp, m)
    {
      AllHas(p, d, tuples, m);
      if m in All(p, d, tuples) {
        var i :| 0 <= i < |tuples| && Good(p, d, tuples[i]) && Zip(p.ids, tuples[i]) == m;
        CandidateEmbeds(p, d, comp, tuples[i]);
      }
      if Embedding(p, d, comp, m) {
        EmbeddingIsCandidate(p, d, comp, m);
      }
    }
  }

  /** Matching again and again while remembering what was matched: every embedding is
      returned exactly once, in product order, and then the search stops. */
  method Enumerate<N, P>(p: Dag<P>, d: Dag<N>, comp: (N, P) -> bool) returns (processed: seq<Mapping>)
    requires Closed(p) && Valid(d)
    ensures processed == All(p, d, Product(Pools(p, d, comp)))
    ensures Distinct(processed)
    ensures forall m :: m in processed <==> Embedding(p, d, comp, m)
  {
    ghost var all := All(p, d, Product(Pools(p, d, comp)));
    processed := [];
    NextAfter(p, d, comp, 0);
    var found, candidate := Match(p, d, comp, processed);
    while found
      invariant |processed| <= |all| && processed == all[..|processed|]
      invariant found <==> |processed| < |all|
      invariant found ==> candidate == all[|processed|]
      decreases |all| - |processed|
    {
      TakeOne(all, |processed|);
      processed := processed + [candidate];
      NextAfter(p, d, comp, |processed|);
      found, candidate := Match(p, d, comp, processed);
    }
    AllAreEmbeddings(p, d, comp);
  }

  lemma TakeOne<T>(s: seq<T>, k: nat)
    requires k < |s|
    ensures s[..k] + [s[k]] == s[..k + 1]
  {
  }

  lemma NextAfter<N, P>(p: Dag<P>, d: Dag<N>, comp: (N, P) -> bool, k: nat)
    requires Closed(p) && Valid(d) && k <= |All(p, d, Product(Pools(p, d, comp)))|
    ensures var all := All(p, d, Product(Pools(p, d, comp)));
            First(p, d, Product(Pools(p, d, comp)), all[..k]) == if k < |all| then Some(all[k]) else None
  {
    var tuples := Product(Pools(p, d, comp));
    AllAreEmbeddings(p, d, comp);
    NextIs(p, d, tuples, [], k);
    assert [] + All(p, d, tuples)[..k] == All(p, d, tuples)[..k];
  }
}
