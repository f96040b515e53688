// Burkhard-Keller nodes on the heap and windowed search, shared by both BK-trees.
module BKNodes {
  import opened Sequences

  // The value a node stands for: what it stores, and its children by their distance from it.
  datatype Tree<W> = Tree(word: W, children: map<int, Tree<W>>)

  // What a search makes of one node: the centre of the window of child labels, and the results it appends.
  datatype Probe<R> = Probe(center: int, found: seq<R>)

  ghost predicate Pseudometric<W(!new)>(dist: (W, W) -> nat) {
    && (forall a :: dist(a, a) == 0)
    && (forall a, b :: dist(a, b) == dist(b, a))
    && (forall a, b, c :: dist(a, c) <= dist(a, b) + dist(b, c))
  }

  function Insert<W>(t: Tree<W>, w: W, dist: (W, W) -> nat): Tree<W> {
    var d := dist(t.word, w);
    Tree(t.word, t.children[d := if d in t.children then Insert(t.children[d], w, dist) else Tree(w, map[])])
  }

  /** The tree after adding words to an empty one. */
  function Build<W>(ws: seq<W>, dist: (W, W) -> nat): Tree<W>
    requires ws != []
  {
    if |ws| == 1 then Tree(ws[0], map[]) else Insert(Build(ws[..|ws| - 1], dist), ws[|ws| - 1], dist)
  }

  lemma BuildSnoc<W>(ws: seq<W>, w: W, dist: (W, W) -> nat)
    ensures Build(ws + [w], dist) == if ws == [] then Tree(w, map[]) else Insert(Build(ws, dist), w, dist)
  {
    assert (ws + [w])[..|ws|] == ws;
  }

  /** The results in the order a search appends them. */
  function Search<W, R>(t: Tree<W>, probe: W -> Probe<R>, max: int): seq<R>
    decreases t, 1, 0
  {
    var p := probe(t.word);
    p.found + SearchRange(t, p.center - max, p.center + max + 1, probe, max)
  }

  /** The results below the children at labels in [lo, hi). */
  function SearchRange<W, R>(t: Tree<W>, lo: int, hi: int, probe: W -> Probe<R>, max: int): seq<R>
    decreases t, 0, hi - lo
  {
    if lo >= hi then []
    else (if lo in t.children then Search(t.children[lo], probe, max) else []) + SearchRange(t, lo + 1, hi, probe, max)
  }

  function Below<W, R>(t: Tree<W>, c: int, probe: W -> Probe<R>, max: int): seq<R> {
    if c in t.children then Search(t.children[c], probe, max) else []
  }

  /** At every node the word passes on its way in, its label lies in the window of the search. */
  predicate Reached<W, R>(t: Tree<W>, w: W, dist: (W, W) -> nat, probe: W -> Probe<R>, max: int) {
    var c := dist(t.word, w);
    && probe(t.word).center - max <= c <= probe(t.word).center + max
    && (c in t.children ==> Reached(t.children[c], w, dist, probe, max))
  }

  /** What the words yield that the search reaches, in the order they were added. */
  function Hits<W, R>(ws: seq<W>, dist: (W, W) -> nat, probe: W -> Probe<R>, max: int): seq<R> {
    if ws == [] then []
    else
      var rest, w := ws[..|ws| - 1], ws[|ws| - 1];
      Hits(rest, dist, probe, max) +
      if rest == [] || Reached(Build(rest, dist), w, dist, probe, max) then probe(w).found else []
  }

  /** What all the words yield: the linear scan. */
  function Scan<W, R>(ws: seq<W>, probe: W -> Probe<R>): seq<R> {
    if ws == [] then [] else Scan(ws[..|ws| - 1], probe) + probe(ws[|ws| - 1]).found
  }

  lemma RangeStep<W, R>(before: seq<R>, t: Tree<W>, lo: int, hi: int, probe: W -> Probe<R>, max: int)
    requires lo < hi
    ensures before + SearchRange(t, lo, hi, probe, max) ==
            before + Below(t, lo, probe, max) + SearchRange(t, lo + 1, hi, probe, max)
  {
  }

  lemma {:induction false} RangeSplit<W, R>(t: Tree<W>, lo: int, mid: int, hi: int, probe: W -> Probe<R>, max: int)
    requires lo <= mid <= hi
    ensures SearchRange(t, lo, hi, probe, max) ==
            SearchRange(t, lo, mid, probe, max) + SearchRange(t, mid, hi, probe, max)
    decreases mid - lo
  {
    if lo < mid {
      RangeSplit(t, lo + 1, mid, hi, probe, max);
      RangeStep([], t, lo, hi, probe, max);
      RangeStep([], t, lo, mid, probe, max);
    }
  }

  ghost predicate SameBut<W>(t: Tree<W>, t': Tree<W>, c: int) {
    && t'.word == t.word
    && forall k: int :: k != c ==>
         (k in t'.children <==> k in t.children) && (k in t.children ==> t'.children[k] == t.children[k])
  }

  lemma {:induction false} SameRange<W, R>(t: Tree<W>, t': Tree<W>, c: int, lo: int, hi: int, probe: W -> Probe<R>,
                                           max: int)
    requires SameBut(t, t', c) && !(lo <= c < hi)
    ensures SearchRange(t', lo, hi, probe, max) == SearchRange(t, lo, hi, probe, max)
    decreases hi - lo
  {
    if lo < hi {
      SameRange(t, t', c, lo + 1, hi, probe, max);
      RangeStep([], t, lo, hi, probe, max);
      RangeStep([], t', lo, hi, probe, max);
    }
  }

  lemma RangeParts<W, R>(t: Tree<W>, c: int, lo: int, hi: int, probe: W -> Probe<R>, max: int)
    requires lo <= c < hi
    ensures SearchRange(t, lo, hi, probe, max) ==
            SearchRange(t, lo, c, probe, max) + Below(t, c, probe, max) + SearchRange(t, c + 1, hi, probe, max)
  {
    RangeSplit(t, lo, c, hi, probe, max);
    RangeStep(SearchRange(t, lo, c, probe, max), t, c, hi, probe, max);
  }

  /** Replacing one child changes its part of the results, and nothing else. */
  lemma RangeChange<W, R>(t: Tree<W>, t': Tree<W>, c: int, lo: int, hi: int, probe: W -> Probe<R>, max: int, x: R)
    requires SameBut(t, t', c)
    ensures Occurs(SearchRange(t', lo, hi, probe, max), x) == Occurs(SearchRange(t, lo, hi, probe, max), x) +
            if lo <= c < hi then Occurs(Below(t', c, probe, max), x) - Occurs(Below(t, c, probe, max), x) else 0
  {
    if lo <= c < hi {
      var pre, post := SearchRange(t, lo, c, probe, max), SearchRange(t, c + 1, hi, probe, max);
      RangeParts(t, c, lo, hi, probe, max);
      RangeParts(t', c, lo, hi, probe, max);
      SameRange(t, t', c, lo, c, probe, max);
      SameRange(t, t', c, c + 1, hi, probe, max);
      Occurs3(pre, Below(t, c, probe, max), post, x);
      Occurs3(pre, Below(t', c, probe, max), post, x);
    } else {
      SameRange(t, t', c, lo, hi, probe, max);
    }
  }

  lemma Occurs3<T>(a: seq<T>, b: seq<T>, c: seq<T>, x: T)
    ensures Occurs(a + b + c, x) == Occurs(a, x) + Occurs(b, x) + Occurs(c, x)
  {
    OccursConcat(a + b, c, x);
    OccursConcat(a, b, x);
  }

  lemma SearchParts<W, R>(t: Tree<W>, probe: W -> Probe<R>, max: int, x: R)
    ensures Occurs(Search(t, probe, max), x) == Occurs(probe(t.word).found, x) +
            Occurs(SearchRange(t, probe(t.word).center - max, probe(t.word).center + max + 1, probe, max), x)
  {
    OccursConcat(probe(t.word).found,
                 SearchRange(t, probe(t.word).center - max, probe(t.word).center + max + 1, probe, max), x);
  }

  lemma LeafSearch<W, R>(w: W, probe: W -> Probe<R>, max: int)
    ensures Search(Tree(w, map[]), probe, max) == probe(w).found
  {
    EmptyRange(w, probe(w).center - max, probe(w).center + max + 1, probe, max);
  }

  lemma {:induction false} EmptyRange<W, R>(w: W, lo: int, hi: int, probe: W -> Probe<R>, max: int)
    ensures SearchRange(Tree(w, map[]), lo, hi, probe, max) == []
    decreases hi - lo
  {
    if lo < hi {
      EmptyRange(w, lo + 1, hi, probe, max);
    }
  }

  /** Adding a word adds exactly what it yields to every search that reaches it, and nothing to any other. */
  lemma {:induction false} InsertSearch<W, R>(t: Tree<W>, w: W, dist: (W, W) -> nat, probe: W -> Probe<R>, max: int,
                                              x: R)
    ensures Occurs(Search(Insert(t, w, dist), probe, max), x) == Occurs(Search(t, probe, max), x) +
            if Reached(t, w, dist, probe, max) then Occurs(probe(w).found, x) else 0
    decreases t
  {
    var c, d, t' := dist(t.word, w), probe(t.word).center, Insert(t, w, dist);
    if c in t.children {
      InsertSearch(t.children[c], w, dist, probe, max, x);
    } else {
      LeafSearch(w, probe, max);
    }
    assert Occurs(Below(t', c, probe, max), x) == Occurs(Below(t, c, probe, max), x) +
      if c in t.children && !Reached(t.children[c], w, dist, probe, max) then 0 else Occurs(probe(w).found, x);
    InsertHere(t, t', c, w, dist, probe, max, x);
  }

  lemma InsertHere<W, R>(t: Tree<W>, t': Tree<W>, c: int, w: W, dist: (W, W) -> nat, probe: W -> Probe<R>, max: int,
                         x: R)
    requires SameBut(t, t', c) && c == dist(t.word, w)
    requires Occurs(Below(t', c, probe, max), x) == Occurs(Below(t, c, probe, max), x) +
             if c in t.children && !Reached(t.children[c], w, dist, probe, max) then 0 else Occurs(probe(w).found, x)
    ensures Occurs(Search(t', probe, max), x) == Occurs(Search(t, probe, max), x) +
            if Reached(t, w, dist, probe, max) then Occurs(probe(w).found, x) else 0
  {
    var d := probe(t.word).center;
    RangeChange(t, t', c, d - max, d + max + 1, probe, max, x);
    SearchParts(t, probe, max, x);
    SearchParts(t', probe, max, x);
  }

  lemma {:induction false} SearchHas<W, R>(ws: seq<W>, dist: (W, W) -> nat, probe: W -> Probe<R>, max: int, x: R)
    requires ws != []
    ensures Occurs(Search(Build(ws, dist), probe, max), x) == Occurs(Hits(ws, dist, probe, max), x)
  {
    var rest, w := ws[..|ws| - 1], ws[|ws| - 1];
    if |ws| == 1 {
      LeafSearch(w, probe, max);
      assert rest == [] && Build(ws, dist) == Tree(w, map[]);
      OccursConcat(Hits(rest, dist, probe, max), probe(w).found, x);
    } else {
      SearchHas(rest, dist, probe, max, x);
      InsertSearch(Build(rest, dist), w, dist, probe, max, x);
      OccursConcat(Hits(rest, dist, probe, max), probe(w).found, x);
      OccursConcat(Hits(rest, dist, probe, max), [], x);
    }
  }

  /** A search returns exactly what the words it reaches yield, repeats and all. */
  lemma SearchIsHits<W, R(!new)>(ws: seq<W>, dist: (W, W) -> nat, probe: W -> Probe<R>, max: int)
    requires ws != []
    ensures multiset(Search(Build(ws, dist), probe, max)) == multiset(Hits(ws, dist, probe, max))
  {
    var a, b := Search(Build(ws, dist), probe, max), Hits(ws, dist, probe, max);
    forall x: R ensures multiset(a)[x] == multiset(b)[x] {
      SearchHas(ws, dist, probe, max, x);
      OccursIsMultiplicity(a, x);
      OccursIsMultiplicity(b, x);
    }
  }

  /** What does not touch a node's footprint leaves the node as it was. */
  twostate lemma StillValid<W>(node: BKNode<W>)
    requires old(node.Valid()) && forall n :: n in old(node.repr) ==> unchanged(n)
    ensures node.Valid() && node.view == old(node.view) && node.repr == old(node.repr)
  {
  }

  class BKNode<W> {
    const word: W
    var children: map<int, BKNode<W>>
    ghost var view: Tree<W>
    ghost var repr: set<BKNode<W>>

    ghost predicate Valid()
      reads this, repr
      decreases repr
    {
      && this in repr && view.word == word && children.Keys == view.children.Keys
      && (forall c :: c in children ==> children[c] in repr && children[c].repr < repr && this !in children[c].repr)
      && (forall c :: c in children ==> children[c].Valid() && children[c].view == view.children[c])
      && (forall c, c' :: c in children && c' in children && c != c' ==> children[c].repr !! children[c'].repr)
    }

    constructor (word: W)
      ensures Valid() && fresh(repr) && view == Tree(word, map[])
    {
      this.word, children, view := word, map[], Tree(word, map[]);
      repr := {this};
    }

    /** Everything Valid asks for, except that repr and view may not know child d yet. */
    ghost predicate AllBut(d: int)
      reads this, set c | c in children :: children[c], set c, o | c in children && o in children[c].repr :: o
    {
      && this in repr && view.word == word && d in children && children.Keys == view.children.Keys + {d}
      && (forall c :: c in children ==>
          children[c] in children[c].repr && this !in children[c].repr && children[c].Valid())
      && (forall c :: c in children && c != d ==> children[c].repr <= repr && children[c].view == view.children[c])
      && (forall c, c' :: c in children && c' in children && c != c' ==> children[c].repr !! children[c'].repr)
    }

    ghost method Adopt(d: int)
      requires AllBut(d)
      modifies this`repr, this`view
      ensures Valid() && repr == old(repr) + children[d].repr
      ensures view == Tree(word, old(view).children[d := children[d].view])
    {
      label before:
      repr, view := repr + children[d].repr, Tree(word, view.children[d := children[d].view]);
      forall c | c in children
        ensures children[c] in repr && children[c].repr < repr
        ensures children[c].Valid() && children[c].view == view.children[c]
      {
        StillValid@before(children[c]);
        assert this in repr;
      }
    }

    method Add(w: W, dist: (W, W) -> nat)
      requires Valid()
      modifies repr
      ensures Valid() && fresh(repr - old(repr)) && old(repr) <= repr
      ensures view == Insert(old(view), w, dist)
      decreases repr
    {
      var d := dist(word, w);
      label before:
      if d in children {
        children[d].Add(w, dist);
      } else {
        var leaf := new BKNode(w);
        children := children[d := leaf];
      }
      forall c | c in children && c != d
        ensures children[c].Valid() && children[c].view == view.children[c] && children[c].repr <= repr
        ensures children[c].repr !! children[d].repr
      {
        StillValid@before(children[c]);
      }
      Adopt(d);
    }
  }
}
