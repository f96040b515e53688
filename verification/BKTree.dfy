// The plain BK-tree of helpers/bktree.py against a linear scan.
module BKTree {
  import opened BKNodes
  import opened Sequences

  /** What a query makes of a node: its own match, and the window around its distance. */
  function Probing<W>(q: W, max: int, dist: (W, W) -> nat): W -> Probe<(W, nat)> {
    (w: W) => Probe(dist(w, q), Matching(w, q, max, dist))
  }

  function Matching<W>(w: W, q: W, max: int, dist: (W, W) -> nat): seq<(W, nat)> {
    if dist(w, q) <= max then [(w, dist(w, q))] else []
  }

  /** A word that matches is reached, whatever the tree: its label lies in every window it passes. */
  lemma {:induction false} MatchesAreReached<W(!new)>(t: Tree<W>, w: W, q: W, max: int, dist: (W, W) -> nat)
    requires Pseudometric(dist) && dist(w, q) <= max
    ensures Reached(t, w, dist, Probing(q, max, dist), max)
    decreases t
  {
    assert dist(w, q) == dist(q, w);
    assert dist(t.word, w) <= dist(t.word, q) + dist(q, w) && dist(t.word, q) <= dist(t.word, w) + dist(w, q);
    if dist(t.word, w) in t.children {
      MatchesAreReached(t.children[dist(t.word, w)], w, q, max, dist);
    }
  }

  lemma {:induction false} HitsAreAll<W(!new)>(ws: seq<W>, q: W, max: int, dist: (W, W) -> nat)
    requires Pseudometric(dist)
    ensures Hits(ws, dist, Probing(q, max, dist), max) == Scan(ws, Probing(q, max, dist))
  {
    if ws != [] {
      var rest, w := ws[..|ws| - 1], ws[|ws| - 1];
      HitsAreAll(rest, q, max, dist);
      if rest != [] && dist(w, q) <= max {
        MatchesAreReached(Build(rest, dist), w, q, max, dist);
      }
    }
  }

  /** What is reported is from an earlier word, or the last word with its distance, which is within reach. */
  lemma HitIsLast<W>(ws: seq<W>, q: W, max: int, dist: (W, W) -> nat, m: (W, nat))
    requires ws != [] && m in Hits(ws, dist, Probing(q, max, dist), max)
    requires m !in Hits(ws[..|ws| - 1], dist, Probing(q, max, dist), max)
    ensures m == (ws[|ws| - 1], dist(ws[|ws| - 1], q)) && m.1 <= max
  {
    var w := ws[|ws| - 1];
    assert Probing(q, max, dist)(w).found == Matching(w, q, max, dist);
    assert m in Matching(w, q, max, dist);
  }

  /** What is reported of a word is the word and its distance, and only within reach. */
  lemma {:induction false} HitsAreHonest<W>(ws: seq<W>, q: W, max: int, dist: (W, W) -> nat, m: (W, nat))
    requires m in Hits(ws, dist, Probing(q, max, dist), max)
    ensures m.0 in ws && m.1 == dist(m.0, q) && m.1 <= max
  {
    assert ws != [];
    if m in Hits(ws[..|ws| - 1], dist, Probing(q, max, dist), max) {
      HitsAreHonest(ws[..|ws| - 1], q, max, dist, m);
    } else {
      HitIsLast(ws, q, max, dist, m);
    }
  }

  /** A scan reports each word within reach as often as it was added, with its distance, and nothing else. */
  lemma {:induction false} ScanCounts<W>(ws: seq<W>, q: W, max: int, dist: (W, W) -> nat, w: W, n: nat)
    ensures multiset(Scan(ws, Probing(q, max, dist)))[(w, n)] ==
            if n == dist(w, q) && n <= max then multiset(ws)[w] else 0
  {
    if ws != [] {
      var rest, last := ws[..|ws| - 1], ws[|ws| - 1];
      ScanCounts(rest, q, max, dist, w, n);
      assert ws == rest + [last];
      assert Probing(q, max, dist)(last).found == Matching(last, q, max, dist);
    }
  }

  lemma MatchesAre<W(!new)>(matches: seq<(W, nat)>, ws: seq<W>, q: W, max: int, dist: (W, W) -> nat)
    requires multiset(matches) == multiset(Hits(ws, dist, Probing(q, max, dist), max))
    ensures forall m :: m in matches ==> m.0 in ws && m.1 == dist(m.0, q) && m.1 <= max
    ensures Pseudometric(dist) ==>
              forall w, n: nat ::
                multiset(matches)[(w, n)] == if n == dist(w, q) && n <= max then multiset(ws)[w] else 0
  {
    forall m | m in matches ensures m.0 in ws && m.1 == dist(m.0, q) && m.1 <= max {
      assert m in multiset(matches);
      HitsAreHonest(ws, q, max, dist, m);
    }
    if Pseudometric(dist) {
      HitsAreAll(ws, q, max, dist);
      forall w, n: nat
        ensures multiset(matches)[(w, n)] == if n == dist(w, q) && n <= max then multiset(ws)[w] else 0
      {
        ScanCounts(ws, q, max, dist, w, n);
      }
    }
  }

  /** The query of one node, appending to the matches it is given. */
  method QueryNode<W>(node: BKNode<W>, q: W, max: int, dist: (W, W) -> nat, matches0: seq<(W, nat)>)
    returns (matches: seq<(W, nat)>)
    requires node.Valid()
    ensures matches == matches0 + Search(node.view, Probing(q, max, dist), max)
    decreases node.repr
  {
    var distance := dist(node.word, q);
    matches := matches0;
    if distance <= max {
      matches := matches + [(node.word, distance)];
    }
    ghost var p := Probing(q, max, dist);
    var d, stop := distance - max, distance + max + 1;
    ghost var all := matches + SearchRange(node.view, d, stop, p, max);
    assert all == matches0 + Search(node.view, p, max) by {
      assert p(node.word) == Probe(distance, Matching(node.word, q, max, dist));
      Associates(matches0, p(node.word).found, SearchRange(node.view, d, stop, p, max));
    }
    while d < stop
      invariant all == matches + SearchRange(node.view, d, stop, p, max)
    {
      RangeStep(matches, node.view, d, stop, p, max);
      if d in node.children {
        matches := QueryNode(node.children[d], q, max, dist, matches);
      }
      d := d + 1;
    }
  }

  class BKTree<W(!new)> {
    const dist: (W, W) -> nat
    var root: BKNode?<W>
    ghost var added: seq<W>

    ghost predicate Valid()
      reads this, if root == null then {} else {root} + root.repr
    {
      && (root == null <==> added == [])
      && (root != null ==> root.Valid() && root.view == Build(added, dist))
    }

    constructor (dist: (W, W) -> nat)
      ensures Valid() && added == [] && this.dist == dist && root == null
    {
      this.dist, root, added := dist, null, [];
    }

    method Add(w: W)
      requires Valid()
      modifies this, if root == null then {} else root.repr
      ensures Valid() && added == old(added) + [w]
      ensures root != null && fresh(root.repr - if old(root) == null then {} else old(root.repr))
    {
      if root == null {
        root := new BKNode(w);
      } else {
        root.Add(w, dist);
      }
      BuildSnoc(added, w, dist);
      added := added + [w];
    }

    /** For any pseudometric the matches are exactly the added words within reach, repeats and all. */
    method Query(q: W, max: int) returns (matches: seq<(W, nat)>)
      requires Valid()
      ensures multiset(matches) == multiset(Hits(added, dist, Probing(q, max, dist), max))
      ensures Pseudometric(dist) ==> multiset(matches) == multiset(Scan(added, Probing(q, max, dist)))
      ensures forall m :: m in matches ==> m.0 in added && m.1 == dist(m.0, q) && m.1 <= max
      ensures Pseudometric(dist) ==>
                forall w, n: nat ::
                  multiset(matches)[(w, n)] == if n == dist(w, q) && n <= max then multiset(added)[w] else 0
    {
      matches := [];
      if root != null {
        matches := QueryNode(root, q, max, dist, matches);
        SearchIsHits(added, dist, Probing(q, max, dist), max);
        if Pseudometric(dist) {
          HitsAreAll(added, q, max, dist);
        }
      }
      MatchesAre(matches, added, q, max, dist);
    }
  }
}
