// The pipeline BK-tree of dorian/experiment/bktree.py: a search pruned by an operator bound.
module PipelineBKTree {
  import opened BKNodes
  import opened Sequences
  import FastDistance

  datatype Entry<D> = Entry(pid: string, ops: set<string>, dag: D)

  // The target of a search.
  datatype Target<D> = Target(ops: set<string>, dag: D, max: int)

  function Between<D>(dist: (D, D) -> nat): (Entry<D>, Entry<D>) -> nat {
    (a: Entry<D>, b: Entry<D>) => dist(a.dag, b.dag)
  }

  function Bound<D>(e: Entry<D>, q: Target<D>): nat {
    FastDistance.OpBound(e.ops, q.ops)
  }

  /** What a search makes of a node: past the bound its result and true distance, else the bound in place of the
      distance. */
  function Probing<D>(q: Target<D>, dist: (D, D) -> nat): Entry<D> -> Probe<(string, nat)> {
    (e: Entry<D>) =>
      if Bound(e, q) <= q.max then Probe(dist(e.dag, q.dag), Matching(e, q, dist))
      else Probe(Bound(e, q), [])
  }

  function Matching<D>(e: Entry<D>, q: Target<D>, dist: (D, D) -> nat): seq<(string, nat)> {
    if dist(e.dag, q.dag) <= q.max then [(e.pid, dist(e.dag, q.dag))] else []
  }

  /** What a linear scan with the true distance returns. */
  function TrueScan<D>(es: seq<Entry<D>>, q: Target<D>, dist: (D, D) -> nat): seq<(string, nat)> {
    if es == [] then [] else TrueScan(es[..|es| - 1], q, dist) + Matching(es[|es| - 1], q, dist)
  }

  // ---- exactly which matches are lost --------------------------------------------------------

  /** No ancestor that the bound rules out carries the entry at a label beyond bound + max. */
  predicate ClearPath<D>(t: Tree<Entry<D>>, e: Entry<D>, q: Target<D>, dist: (D, D) -> nat) {
    var c := dist(t.word.dag, e.dag);
    && (Bound(t.word, q) <= q.max || c <= Bound(t.word, q) + q.max)
    && (c in t.children ==> ClearPath(t.children[c], e, q, dist))
  }

  predicate Everywhere<D>(t: Tree<Entry<D>>, holds: Entry<D> -> bool) {
    holds(t.word) && forall c :: c in t.children ==> Everywhere(t.children[c], holds)
  }

  lemma {:induction false} InsertEverywhere<D>(t: Tree<Entry<D>>, e: Entry<D>, dist: (D, D) -> nat,
                                               holds: Entry<D> -> bool)
    requires Everywhere(t, holds) && holds(e)
    ensures Everywhere(Insert(t, e, Between(dist)), holds)
    decreases t
  {
    var c := Between(dist)(t.word, e);
    if c in t.children {
      InsertEverywhere(t.children[c], e, dist, holds);
    }
  }

  lemma {:induction false} BuildEverywhere<D>(es: seq<Entry<D>>, dist: (D, D) -> nat, holds: Entry<D> -> bool)
    requires es != [] && forall e :: e in es ==> holds(e)
    ensures Everywhere(Build(es, Between(dist)), holds)
  {
    if |es| > 1 {
      BuildEverywhere(es[..|es| - 1], dist, holds);
      InsertEverywhere(Build(es[..|es| - 1], Between(dist)), es[|es| - 1], dist, holds);
    }
  }

  /** The bound is at or below the distance from the query. */
  function Below<D>(q: Target<D>, dist: (D, D) -> nat): Entry<D> -> bool {
    (e: Entry<D>) => Bound(e, q) <= dist(e.dag, q.dag)
  }

  /** The bound passes, or is the distance from the query. */
  function Tight<D>(q: Target<D>, dist: (D, D) -> nat): Entry<D> -> bool {
    (e: Entry<D>) => Bound(e, q) <= q.max || Bound(e, q) == dist(e.dag, q.dag)
  }

  /** Under a sound bound a matching entry is reached exactly when its path is clear. */
  lemma {:induction false} ReachedIffClear<D(!new)>(t: Tree<Entry<D>>, e: Entry<D>, q: Target<D>, dist: (D, D) -> nat)
    requires Pseudometric(dist) && Everywhere(t, Below(q, dist)) && dist(e.dag, q.dag) <= q.max
    ensures Reached(t, e, Between(dist), Probing(q, dist), q.max) <==> ClearPath(t, e, q, dist)
    decreases t
  {
    var c, d := dist(t.word.dag, e.dag), dist(t.word.dag, q.dag);
    assert c == Between(dist)(t.word, e);
    assert dist(e.dag, q.dag) == dist(q.dag, e.dag);
    assert c <= d + dist(q.dag, e.dag) && d <= c + dist(e.dag, q.dag);
    if c in t.children {
      ReachedIffClear(t.children[c], e, q, dist);
    }
  }

  /** The i-th entry is found: it is within the bound, and the search gets to where it was added. */
  predicate Found<D>(es: seq<Entry<D>>, i: nat, q: Target<D>, dist: (D, D) -> nat)
    requires i < |es|
  {
    && Bound(es[i], q) <= q.max
    && (i == 0 || Reached(Build(es[..i], Between(dist)), es[i], Between(dist), Probing(q, dist), q.max))
  }

  ghost predicate AllFound<D>(es: seq<Entry<D>>, q: Target<D>, dist: (D, D) -> nat) {
    forall i :: 0 <= i < |es| && dist(es[i].dag, q.dag) <= q.max ==> Found(es, i, q, dist)
  }

  lemma AllFoundSnoc<D>(es: seq<Entry<D>>, q: Target<D>, dist: (D, D) -> nat)
    requires es != []
    ensures AllFound(es, q, dist) <==>
            AllFound(es[..|es| - 1], q, dist) &&
            (dist(es[|es| - 1].dag, q.dag) <= q.max ==> Found(es, |es| - 1, q, dist))
  {
    var rest := es[..|es| - 1];
    forall i | 0 <= i < |rest| ensures Found(rest, i, q, dist) == Found(es, i, q, dist) {
      assert rest[..i] == es[..i];
    }
  }

  /** The search finds nothing a scan does not, and as much as a scan exactly when no match is lost. */
  lemma {:induction false} HitsAgainstScan<D>(es: seq<Entry<D>>, q: Target<D>, dist: (D, D) -> nat)
    ensures |Hits(es, Between(dist), Probing(q, dist), q.max)| <= |TrueScan(es, q, dist)|
    ensures |Hits(es, Between(dist), Probing(q, dist), q.max)| == |TrueScan(es, q, dist)| <==> AllFound(es, q, dist)
    ensures AllFound(es, q, dist) ==> Hits(es, Between(dist), Probing(q, dist), q.max) == TrueScan(es, q, dist)
  {
    if es != [] {
      var rest, e := es[..|es| - 1], es[|es| - 1];
      HitsAgainstScan(rest, q, dist);
      AllFoundSnoc(es, q, dist);
      assert rest == [] <==> |es| == 1;
      var mine := if rest == [] || Reached(Build(rest, Between(dist)), e, Between(dist), Probing(q, dist), q.max)
                  then Probing(q, dist)(e).found else [];
      assert Hits(es, Between(dist), Probing(q, dist), q.max) ==
             Hits(rest, Between(dist), Probing(q, dist), q.max) + mine;
      assert mine == if Matching(e, q, dist) != [] && Found(es, |es| - 1, q, dist) then Matching(e, q, dist) else [];
    }
  }

  /** A search returns what the scan returns exactly when it finds every match. */
  lemma SearchIsScanIff<D>(es: seq<Entry<D>>, q: Target<D>, dist: (D, D) -> nat)
    requires es != []
    ensures multiset(Search(Build(es, Between(dist)), Probing(q, dist), q.max)) == multiset(TrueScan(es, q, dist)) <==>
            AllFound(es, q, dist)
  {
    SearchIsHits(es, Between(dist), Probing(q, dist), q.max);
    HitsAgainstScan(es, q, dist);
    var hits, scan := Hits(es, Between(dist), Probing(q, dist), q.max), TrueScan(es, q, dist);
    assert |multiset(hits)| == |hits| && |multiset(scan)| == |scan|;
  }

  /** For a pseudometric and a bound below it, the search is complete exactly when every match has a clear path. */
  lemma CompleteIffClear<D(!new)>(es: seq<Entry<D>>, q: Target<D>, dist: (D, D) -> nat)
    requires es != [] && Pseudometric(dist)
    requires forall e :: e in es ==> Bound(e, q) <= dist(e.dag, q.dag)
    ensures multiset(Search(Build(es, Between(dist)), Probing(q, dist), q.max)) == multiset(TrueScan(es, q, dist)) <==>
            forall i :: 0 < i < |es| && dist(es[i].dag, q.dag) <= q.max ==>
              ClearPath(Build(es[..i], Between(dist)), es[i], q, dist)
  {
    SearchIsScanIff(es, q, dist);
    forall i | 0 <= i < |es| && dist(es[i].dag, q.dag) <= q.max
      ensures Found(es, i, q, dist) <==> (i == 0 || ClearPath(Build(es[..i], Between(dist)), es[i], q, dist))
    {
      assert es[i] in es;
      if i > 0 {
        BuildEverywhere(es[..i], dist, Below(q, dist));
        ReachedIffClear(Build(es[..i], Between(dist)), es[i], q, dist);
      }
    }
  }

  /** The bound passes, or is the distance, at every node the search visits. */
  predicate VisitedTight<D>(t: Tree<Entry<D>>, q: Target<D>, dist: (D, D) -> nat) {
    var center := Probing(q, dist)(t.word).center;
    && Tight(q, dist)(t.word)
    && forall c :: c in t.children && center - q.max <= c <= center + q.max ==> VisitedTight(t.children[c], q, dist)
  }

  /** If the visited nodes are tight after an insertion they were before, and the entry, if it matches, is reached. */
  lemma {:induction false} InsertTight<D(!new)>(t: Tree<Entry<D>>, e: Entry<D>, q: Target<D>, dist: (D, D) -> nat)
    requires Pseudometric(dist) && VisitedTight(Insert(t, e, Between(dist)), q, dist)
    ensures VisitedTight(t, q, dist)
    ensures dist(e.dag, q.dag) <= q.max ==>
              Reached(t, e, Between(dist), Probing(q, dist), q.max) && Bound(e, q) <= q.max
    decreases t
  {
    var t' := Insert(t, e, Between(dist));
    var c, d := dist(t.word.dag, e.dag), dist(t.word.dag, q.dag);
    assert c == Between(dist)(t.word, e);
    assert dist(e.dag, q.dag) == dist(q.dag, e.dag);
    assert c <= d + dist(q.dag, e.dag) && d <= c + dist(e.dag, q.dag);
    assert Tight(q, dist)(t'.word) && Probing(q, dist)(t.word).center == d;
    if d - q.max <= c <= d + q.max {
      assert VisitedTight(t'.children[c], q, dist);
      if c in t.children {
        InsertTight(t.children[c], e, q, dist);
      }
    }
    forall k | k in t.children && d - q.max <= k <= d + q.max ensures VisitedTight(t.children[k], q, dist) {
      assert k in t'.children && VisitedTight(t'.children[k], q, dist);
    }
  }

  lemma {:induction false} TightFindsAll<D(!new)>(es: seq<Entry<D>>, q: Target<D>, dist: (D, D) -> nat)
    requires es != [] && Pseudometric(dist) && VisitedTight(Build(es, Between(dist)), q, dist)
    ensures AllFound(es, q, dist)
  {
    var rest := es[..|es| - 1];
    if |es| > 1 {
      InsertTight(Build(rest, Between(dist)), es[|es| - 1], q, dist);
      TightFindsAll(rest, q, dist);
    }
    AllFoundSnoc(es, q, dist);
  }

  /** For any pseudometric the search is complete when the bound passes or is exact at every node it visits. */
  lemma CompleteWhenTight<D(!new)>(es: seq<Entry<D>>, q: Target<D>, dist: (D, D) -> nat)
    requires es != [] && Pseudometric(dist) && VisitedTight(Build(es, Between(dist)), q, dist)
    ensures multiset(Search(Build(es, Between(dist)), Probing(q, dist), q.max)) == multiset(TrueScan(es, q, dist))
  {
    TightFindsAll(es, q, dist);
    SearchIsScanIff(es, q, dist);
  }

  /** In approximate mode, with operators named, exactly the unclear paths lose matches. */
  lemma ApproximateMode(es: seq<Entry<FastDistance.Dag>>, q: Target<FastDistance.Dag>)
    requires es != [] && FastDistance.Faithful(q.dag) && q.ops == FastDistance.OpNames(q.dag.nodes)
    requires forall e :: e in es ==> FastDistance.Faithful(e.dag) && e.ops == FastDistance.OpNames(e.dag.nodes)
    ensures multiset(Search(Build(es, Between(FastDistance.Distance)), Probing(q, FastDistance.Distance), q.max)) ==
            multiset(TrueScan(es, q, FastDistance.Distance)) <==>
            forall i :: 0 < i < |es| && FastDistance.Distance(es[i].dag, q.dag) <= q.max ==>
              ClearPath(Build(es[..i], Between(FastDistance.Distance)), es[i], q, FastDistance.Distance)
  {
    FastDistance.DistanceIsPseudometric();
    forall e | e in es ensures Bound(e, q) <= FastDistance.Distance(e.dag, q.dag) {
      FastDistance.BoundIffFaithful(e.dag);
    }
    CompleteIffClear(es, q, FastDistance.Distance);
  }

  /** Two empty pipelines at distance 0: the second, added under one operator with a Parameter, is never found. */
  lemma LostMatch() returns (es: seq<Entry<FastDistance.Dag>>, q: Target<FastDistance.Dag>)
    ensures |es| == 2 && FastDistance.Distance(es[1].dag, q.dag) == 0
    ensures forall e :: e in es ==> FastDistance.Faithful(e.dag) && e.ops == FastDistance.OpNames(e.dag.nodes)
    ensures FastDistance.Faithful(q.dag) && q.ops == FastDistance.OpNames(q.dag.nodes)
    ensures Search(Build(es, Between(FastDistance.Distance)), Probing(q, FastDistance.Distance), q.max) == []
  {
    var empty, one := FastDistance.OneOperator();
    es, q := [Entry("a", {"PCA"}, one), Entry("b", {}, empty)], Target({}, empty, 0);
    assert FastDistance.SymDiff({"PCA"}, {}) == {"PCA"};
    TooFarBelow(es, q, FastDistance.Distance);
  }

  /** The only child lies at label 3, outside the window around the bound 1. */
  lemma TooFarBelow<D>(es: seq<Entry<D>>, q: Target<D>, dist: (D, D) -> nat)
    requires |es| == 2 && dist(es[0].dag, es[1].dag) == 3 && Bound(es[0], q) == 1 && q.max == 0
    ensures Search(Build(es, Between(dist)), Probing(q, dist), q.max) == []
  {
    assert es[..1] == [es[0]];
    BuildSnoc([], es[0], Between(dist));
    BuildSnoc([es[0]], es[1], Between(dist));
    assert [] + [es[0]] == [es[0]] && [es[0]] + [es[1]] == es;
    var t := Build(es, Between(dist));
    assert t == Tree(es[0], map[3 := Tree(es[1], map[])]);
    var p := Probing(q, dist);
    assert p(es[0]) == Probe(1, []);
    assert SearchRange(t, 2, 2, p, 0) == [] && SearchRange(t, 1, 2, p, 0) == [];
  }

  // ---- sorting by distance -------------------------------------------------------------------

  predicate Sorted(s: seq<(string, nat)>) {
    forall i, j :: 0 <= i < j < |s| ==> s[i].1 <= s[j].1
  }

  /** The results at one distance, in order. */
  function At(s: seq<(string, nat)>, d: nat): seq<(string, nat)> {
    if s == [] then []
    else At(s[..|s| - 1], d) + if s[|s| - 1].1 == d then [s[|s| - 1]] else []
  }

  function Last(s: seq<(string, nat)>): nat
    requires s != []
  {
    s[|s| - 1].1
  }

  /** A stable sort by distance. */
  function ByDistance(s: seq<(string, nat)>): (r: seq<(string, nat)>)
    ensures Sorted(r)
  {
    if s == [] then [] else Place(ByDistance(s[..|s| - 1]), s[|s| - 1])
  }

  function Place(s: seq<(string, nat)>, x: (string, nat)): (r: seq<(string, nat)>)
    requires Sorted(s)
    ensures Sorted(r) && r != [] && Last(r) == if s == [] || Last(s) <= x.1 then x.1 else Last(s)
  {
    if s == [] || Last(s) <= x.1 then s + [x] else Place(s[..|s| - 1], x) + [s[|s| - 1]]
  }

  lemma {:induction false} PlaceAt(s: seq<(string, nat)>, x: (string, nat), d: nat)
    requires Sorted(s)
    ensures At(Place(s, x), d) == At(s, d) + if x.1 == d then [x] else []
  {
    if s == [] || Last(s) <= x.1 {
      AtSnoc(s, x, d);
    } else {
      var rest, last := s[..|s| - 1], s[|s| - 1];
      PlaceAt(rest, x, d);
      AtSnoc(Place(rest, x), last, d);
      AtSnoc(rest, last, d);
      assert s == rest + [last];
      Swap(At(rest, d), if x.1 == d then [x] else [], if last.1 == d then [last] else []);
    }
  }

  lemma Swap<T>(a: seq<T>, b: seq<T>, c: seq<T>)
    requires b == [] || c == []
    ensures a + b + c == a + c + b
  {
  }

  lemma AtSnoc(s: seq<(string, nat)>, x: (string, nat), d: nat)
    ensures At(s + [x], d) == At(s, d) + if x.1 == d then [x] else []
  {
    assert (s + [x])[..|s|] == s;
  }

  /** Results at the same distance keep their order. */
  lemma {:induction false} SortIsStable(s: seq<(string, nat)>, d: nat)
    ensures At(ByDistance(s), d) == At(s, d)
  {
    if s != [] {
      SortIsStable(s[..|s| - 1], d);
      PlaceAt(ByDistance(s[..|s| - 1]), s[|s| - 1], d);
    }
  }

  lemma {:induction false} OccursAt(s: seq<(string, nat)>, x: (string, nat))
    ensures Occurs(s, x) == Occurs(At(s, x.1), x)
  {
    if s != [] {
      var rest, last := s[..|s| - 1], s[|s| - 1];
      OccursAt(rest, x);
      assert s == rest + [last];
      OccursConcat(rest, [last], x);
      OccursConcat(At(rest, x.1), if last.1 == x.1 then [last] else [], x);
      AtSnoc(rest, last, x.1);
    }
  }

  /** Sorting neither loses nor invents results. */
  lemma SortPermutes(s: seq<(string, nat)>)
    ensures multiset(ByDistance(s)) == multiset(s)
  {
    forall x ensures multiset(ByDistance(s))[x] == multiset(s)[x] {
      SortIsStable(s, x.1);
      OccursAt(s, x);
      OccursAt(ByDistance(s), x);
      OccursIsMultiplicity(s, x);
      OccursIsMultiplicity(ByDistance(s), x);
    }
  }

  // ---- on the heap ---------------------------------------------------------------------------

  /** The query of one node, appending to the results it is given. */
  method QueryNode<D>(node: BKNode<Entry<D>>, q: Target<D>, dist: (D, D) -> nat, results0: seq<(string, nat)>)
    returns (results: seq<(string, nat)>)
    requires node.Valid()
    ensures results == results0 + Search(node.view, Probing(q, dist), q.max)
    decreases node.repr
  {
    var lowerBound := FastDistance.OpBound(node.word.ops, q.ops);
    var d := lowerBound;
    results := results0;
    if lowerBound <= q.max {
      d := dist(node.word.dag, q.dag);
      if d <= q.max {
        results := results + [(node.word.pid, d)];
      }
    }
    ghost var p := Probing(q, dist);
    var c, stop := d - q.max, d + q.max + 1;
    ghost var all := results + SearchRange(node.view, c, stop, p, q.max);
    assert all == results0 + Search(node.view, p, q.max) by {
      assert p(node.word).center == d && results == results0 + p(node.word).found;
      Associates(results0, p(node.word).found, SearchRange(node.view, c, stop, p, q.max));
    }
    while c < stop
      invariant all == results + SearchRange(node.view, c, stop, p, q.max)
    {
      RangeStep(results, node.view, c, stop, p, q.max);
      if c in node.children {
        results := QueryNode(node.children[c], q, dist, results);
      }
      c := c + 1;
    }
  }

  lemma SortedSearch<D>(es: seq<Entry<D>>, q: Target<D>, dist: (D, D) -> nat, found: seq<(string, nat)>)
    requires es != [] && found == Search(Build(es, Between(dist)), Probing(q, dist), q.max)
    ensures forall d :: At(ByDistance(found), d) == At(found, d)
    ensures multiset(ByDistance(found)) == multiset(Hits(es, Between(dist), Probing(q, dist), q.max))
    ensures multiset(ByDistance(found)) == multiset(TrueScan(es, q, dist)) <==> AllFound(es, q, dist)
  {
    SortPermutes(found);
    forall d ensures At(ByDistance(found), d) == At(found, d) {
      SortIsStable(found, d);
    }
    SearchIsHits(es, Between(dist), Probing(q, dist), q.max);
    SearchIsScanIff(es, q, dist);
  }

  /** What is reported is an added id with the true distance of its DAG, within the bound asked for. */
  predicate Reports<D>(es: seq<Entry<D>>, q: Target<D>, dist: (D, D) -> nat, r: (string, nat)) {
    exists i :: 0 <= i < |es| && r.0 == es[i].pid && r.1 == dist(es[i].dag, q.dag) && r.1 <= q.max
  }

  lemma ReportsMore<D>(es: seq<Entry<D>>, q: Target<D>, dist: (D, D) -> nat, r: (string, nat))
    requires es != [] && Reports(es[..|es| - 1], q, dist, r)
    ensures Reports(es, q, dist, r)
  {
    var i :| 0 <= i < |es| - 1 && r.0 == es[..|es| - 1][i].pid && r.1 == dist(es[..|es| - 1][i].dag, q.dag) &&
      r.1 <= q.max;
    assert es[i] == es[..|es| - 1][i];
  }

  lemma {:induction false} HitsAreReports<D>(es: seq<Entry<D>>, q: Target<D>, dist: (D, D) -> nat, r: (string, nat))
    requires r in Hits(es, Between(dist), Probing(q, dist), q.max)
    ensures Reports(es, q, dist, r)
  {
    var rest, e := es[..|es| - 1], es[|es| - 1];
    if r in Hits(rest, Between(dist), Probing(q, dist), q.max) {
      HitsAreReports(rest, q, dist, r);
      ReportsMore(es, q, dist, r);
    } else {
      assert r in Matching(e, q, dist) && r == (e.pid, dist(e.dag, q.dag));
    }
  }

  lemma {:induction false} ScanHasAll<D>(es: seq<Entry<D>>, q: Target<D>, dist: (D, D) -> nat, i: nat)
    requires i < |es| && dist(es[i].dag, q.dag) <= q.max
    ensures (es[i].pid, dist(es[i].dag, q.dag)) in TrueScan(es, q, dist)
  {
    if i < |es| - 1 {
      ScanHasAll(es[..|es| - 1], q, dist, i);
    }
  }

  /** Nothing is reported but added ids at their true distance; and every one within the bound when every match is
      found. */
  lemma ResultsAre<D>(results: seq<(string, nat)>, es: seq<Entry<D>>, q: Target<D>, dist: (D, D) -> nat)
    requires multiset(results) == multiset(Hits(es, Between(dist), Probing(q, dist), q.max))
    requires AllFound(es, q, dist) ==> multiset(results) == multiset(TrueScan(es, q, dist))
    ensures forall r :: r in results ==> Reports(es, q, dist, r)
    ensures AllFound(es, q, dist) ==>
              forall i :: 0 <= i < |es| && dist(es[i].dag, q.dag) <= q.max ==>
                (es[i].pid, dist(es[i].dag, q.dag)) in results
  {
    forall r | r in results ensures Reports(es, q, dist, r) {
      assert r in multiset(results);
      HitsAreReports(es, q, dist, r);
    }
    if AllFound(es, q, dist) {
      forall i | 0 <= i < |es| && dist(es[i].dag, q.dag) <= q.max
        ensures (es[i].pid, dist(es[i].dag, q.dag)) in results
      {
        ScanHasAll(es, q, dist, i);
        assert (es[i].pid, dist(es[i].dag, q.dag)) in multiset(results);
      }
    }
  }

  /** The entries after adding more, where an id that is there already is skipped. */
  function Merge<D>(es: seq<Entry<D>>, more: seq<Entry<D>>): seq<Entry<D>> {
    if more == [] then es
    else
      var before, e := Merge(es, more[..|more| - 1]), more[|more| - 1];
      if e.pid in Pids(before) then before else before + [e]
  }

  function Pids<D>(es: seq<Entry<D>>): set<string> {
    set i | 0 <= i < |es| :: es[i].pid
  }

  /** Each id has the first entry that came with it: an old one stays, and of new ones the first is taken. */
  lemma {:induction false} FirstEntryStays<D>(es: seq<Entry<D>>, more: seq<Entry<D>>)
    ensures es <= Merge(es, more)
    ensures Pids(Merge(es, more)) == Pids(es) + Pids(more)
    ensures forall k :: |es| <= k < |Merge(es, more)| ==>
              Merge(es, more)[k].pid !in Pids(es) && IsFirst(more, Merge(es, more)[k])
  {
    if more != [] {
      var rest, e := more[..|more| - 1], more[|more| - 1];
      FirstEntryStays(es, rest);
      PidsSnoc(Merge(es, rest), e);
      PidsSnoc(rest, e);
      assert more == rest + [e];
      forall k | |es| <= k < |Merge(es, more)|
        ensures Merge(es, more)[k].pid !in Pids(es) && IsFirst(more, Merge(es, more)[k])
      {
        if k < |Merge(es, rest)| {
          assert Merge(es, more)[k] == Merge(es, rest)[k];
          FirstOfMore(rest, e, Merge(es, rest)[k]);
        } else {
          assert more[|rest|] == e && e.pid !in Pids(rest);
        }
      }
    } else {
      assert Pids(more) == {};
    }
  }

  /** The entry is the first in the list with its id. */
  ghost predicate IsFirst<D>(es: seq<Entry<D>>, e: Entry<D>) {
    exists i :: 0 <= i < |es| && es[i] == e && forall j :: 0 <= j < i ==> es[j].pid != e.pid
  }

  lemma FirstOfMore<D>(rest: seq<Entry<D>>, last: Entry<D>, e: Entry<D>)
    requires IsFirst(rest, e)
    ensures IsFirst(rest + [last], e)
  {
    var i :| 0 <= i < |rest| && rest[i] == e && forall j :: 0 <= j < i ==> rest[j].pid != e.pid;
    assert (rest + [last])[i] == e;
  }

  lemma PidsSnoc<D>(es: seq<Entry<D>>, e: Entry<D>)
    ensures Pids(es + [e]) == Pids(es) + {e.pid}
  {
    assert (es + [e])[|es|] == e;
    assert forall i :: 0 <= i < |es| ==> (es + [e])[i] == es[i];
  }

  /** The ids are those of the entries, no two alike, and the size is their number. */
  predicate Tallied<D>(es: seq<Entry<D>>, pids: set<string>, size: nat) {
    pids == Pids(es) && size == |es| == |pids|
  }

  lemma TallySnoc<D>(es: seq<Entry<D>>, pids: set<string>, size: nat, e: Entry<D>)
    requires Tallied(es, pids, size) && e.pid !in pids
    ensures Tallied(es + [e], pids + {e.pid}, size + 1)
  {
    PidsSnoc(es, e);
  }

  class PipelineBKTree<D(!new)> {
    const dist: (D, D) -> nat
    const operators: D -> set<string>
    var root: BKNode?<Entry<D>>
    var size: nat
    var pids: set<string>
    ghost var added: seq<Entry<D>>

    ghost predicate Valid()
      reads this, if root == null then {} else {root} + root.repr
    {
      && (root == null <==> added == [])
      && (root != null ==> root.Valid() && root.view == Build(added, Between(dist)))
      && Tallied(added, pids, size)
    }

    constructor (dist: (D, D) -> nat, operators: D -> set<string>)
      ensures Valid() && added == [] && root == null
      ensures this.dist == dist && this.operators == operators
    {
      this.dist, this.operators, root, added := dist, operators, null, [];
      size, pids := 0, {};
    }

    /** The entry goes into the nodes. */
    method Plant(e: Entry<D>)
      requires Valid()
      modifies this`root, if root == null then {} else root.repr
      ensures root != null && root.Valid() && root.view == Build(added + [e], Between(dist))
      ensures fresh(root.repr - if old(root) == null then {} else old(root.repr))
    {
      BuildSnoc(added, e, Between(dist));
      if root == null {
        root := new BKNode(e);
      } else {
        root.Add(e, Between(dist));
      }
    }

    /** The bookkeeping follows. */
    method Tally(e: Entry<D>)
      requires root != null && root.Valid() && root.view == Build(added + [e], Between(dist))
      requires Tallied(added, pids, size) && e.pid !in pids
      modifies this`pids, this`size, this`added
      ensures Valid() && added == old(added) + [e]
    {
      TallySnoc(added, pids, size, e);
      label before:
      pids, size, added := pids + {e.pid}, size + 1, added + [e];
      StillValid@before(root);
    }

    /** One mutation under the lock: an id that is in the tree already changes nothing. */
    method Insert(e: Entry<D>)
      requires Valid()
      modifies this, if root == null then {} else root.repr
      ensures Valid() && added == if e.pid in old(pids) then old(added) else old(added) + [e]
      ensures root != null && fresh(root.repr - if old(root) == null then {} else old(root.repr))
    {
      if e.pid !in pids {
        Plant(e);
        Tally(e);
      }
    }

    method Add(pid: string, dag: D)
      requires Valid()
      modifies this, if root == null then {} else root.repr
      ensures Valid() && added == Merge(old(added), [Entry(pid, operators(dag), dag)])
    {
      var e := Entry(pid, operators(dag), dag);
      assert [e][..0] == [];
      Insert(e);
    }

    /** Building from the fetched rows. */
    method Load(rows: seq<Entry<D>>)
      requires Valid()
      modifies this, if root == null then {} else root.repr
      ensures Valid() && added == Merge(old(added), rows)
    {
      var i := 0;
      while i < |rows|
        invariant 0 <= i <= |rows| && Valid() && added == Merge(old(added), rows[..i])
        invariant root != null ==> fresh(root.repr - if old(root) == null then {} else old(root.repr))
      {
        assert rows[..i + 1][..i] == rows[..i];
        Insert(rows[i]);
        i := i + 1;
      }
      assert rows[..i] == rows;
    }

    /** What a query answers: the search's results by distance. */
    ghost function Answer(dag: D, max: int): seq<(string, nat)>
      reads this, if root == null then {} else {root}
    {
      if root == null then [] else ByDistance(Search(root.view, Probing(Target(operators(dag), dag, max), dist), max))
    }

    /** Sorted by distance, equal distances in the order of the search, and the true scan whenever every match is
        found. */
    method Query(dag: D, max: int) returns (results: seq<(string, nat)>)
      requires Valid()
      ensures results == Answer(dag, max) && Sorted(results)
      ensures root != null ==>
                forall d :: At(results, d) ==
                  At(Search(root.view, Probing(Target(operators(dag), dag, max), dist), max), d)
      ensures multiset(results) ==
              multiset(Hits(added, Between(dist), Probing(Target(operators(dag), dag, max), dist), max))
      ensures multiset(results) == multiset(TrueScan(added, Target(operators(dag), dag, max), dist)) <==>
              AllFound(added, Target(operators(dag), dag, max), dist)
      ensures forall r :: r in results ==> Reports(added, Target(operators(dag), dag, max), dist, r)
      ensures AllFound(added, Target(operators(dag), dag, max), dist) ==>
                forall i :: 0 <= i < |added| && dist(added[i].dag, dag) <= max ==>
                  (added[i].pid, dist(added[i].dag, dag)) in results
    {
      results := [];
      if root != null {
        var q := Target(operators(dag), dag, max);
        var found := QueryNode(root, q, dist, []);
        results := ByDistance(found);
        SortedSearch(added, q, dist, found);
      }
      ResultsAre(results, added, Target(operators(dag), dag, max), dist);
    }

    /** The first k answers, as a slice takes them: a negative k drops from the end. No answer left out is nearer than
        one kept. */
    method FindNearest(dag: D, k: int, max: int) returns (nearest: seq<(string, nat)>)
      requires Valid()
      ensures nearest <= Answer(dag, max)
      ensures 0 <= k ==> |nearest| == if k <= |Answer(dag, max)| then k else |Answer(dag, max)|
      ensures k < 0 ==> |nearest| == if |Answer(dag, max)| + k >= 0 then |Answer(dag, max)| + k else 0
      ensures forall i, j :: 0 <= i < |nearest| <= j < |Answer(dag, max)| ==> nearest[i].1 <= Answer(dag, max)[j].1
    {
      var all := this.Query(dag, max);
      var stop := if k >= 0 then k else |all| + k;
      nearest := all[..if stop < 0 then 0 else if stop > |all| then |all| else stop];
    }
  }
}
