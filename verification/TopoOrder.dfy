// Kahn's algorithm over a task graph (`_topo_order`).
module TopoOrder {
  import opened Values
  import opened Sequences
  import opened TaskGraph

  function ToSet<T>(s: seq<T>): set<T> {
    set x | x in s
  }

  /** The in-graph dependencies of a list of arguments, repeats included. */
  function Refs(g: Graph, deps: seq<Arg>): seq<string> {
    if deps == [] then []
    else (if deps[0].Ref? && deps[0].key in g.entry then [deps[0].key] else []) + Refs(g, deps[1..])
  }

  function RefsOf(g: Graph, k: string): seq<string>
    requires k in g.entry
  {
    match g.entry[k]
    case Const(_) => []
    case Task(_, deps) => Refs(g, deps)
  }

  /** How many of the dependencies are not done yet, repeats included. */
  function Pending(refs: seq<string>, done: set<string>): nat {
    if refs == [] then 0 else (if refs[0] in done then 0 else 1) + Pending(refs[1..], done)
  }

  /** Every dependency stands before its user. */
  ghost predicate DepsFirst(g: Graph, order: seq<string>) {
    forall i {:trigger order[..i]} :: 0 <= i < |order| && order[i] in g.entry ==>
      forall d :: d in RefsOf(g, order[i]) ==> d in order[..i]
  }

  lemma RefsIn(g: Graph, deps: seq<Arg>)
    ensures forall d :: d in Refs(g, deps) <==>
              d in g.entry && exists i :: 0 <= i < |deps| && deps[i].Ref? && deps[i].key == d
  {
    if deps != [] {
      RefsIn(g, deps[1..]);
      forall d | d in g.entry && exists i :: 0 <= i < |deps| && deps[i].Ref? && deps[i].key == d
        ensures d in Refs(g, deps)
      {
        var i :| 0 <= i < |deps| && deps[i].Ref? && deps[i].key == d;
        assert i > 0 ==> deps[1..][i - 1] == deps[i];
      }
    }
  }

  lemma RefsSnoc(g: Graph, deps: seq<Arg>, i: nat)
    requires i < |deps|
    ensures Refs(g, deps[..i + 1]) ==
            Refs(g, deps[..i]) + (if deps[i].Ref? && deps[i].key in g.entry then [deps[i].key] else [])
  {
    if i > 0 {
      RefsSnoc(g, deps[1..], i - 1);
      assert deps[..i + 1][1..] == deps[1..][..i] && deps[..i][1..] == deps[1..][..i - 1];
    } else {
      assert deps[..1][1..] == [];
    }
  }

  lemma PendingNone(refs: seq<string>, done: set<string>)
    ensures Pending(refs, done) == 0 <==> forall d :: d in refs ==> d in done
  {
    if refs != [] {
      PendingNone(refs[1..], done);
      assert forall d :: d in refs <==> d == refs[0] || d in refs[1..];
    }
  }

  lemma PendingEmpty(refs: seq<string>)
    ensures Pending(refs, {}) == |refs|
  {
  }

  lemma PendingPop(refs: seq<string>, done: set<string>, k: string)
    requires k !in done
    ensures Pending(refs, done) == Pending(refs, done + {k}) + Occurs(refs, k)
  {
    if refs != [] {
      PendingPop(refs[1..], done, k);
      assert refs == [refs[0]] + refs[1..];
    }
  }

  /** Counting the in-degrees. */
  method InDegrees(g: Graph) returns (indeg: map<string, int>)
    requires Valid(g)
    ensures indeg.Keys == g.entry.Keys
    ensures forall k :: k in indeg ==> indeg[k] == |RefsOf(g, k)|
  {
    indeg := map k | k in g.entry :: 0;
    for i := 0 to |g.keys|
      invariant indeg.Keys == g.entry.Keys
      invariant forall j :: 0 <= j < i ==> indeg[g.keys[j]] == |RefsOf(g, g.keys[j])|
      invariant forall j :: i <= j < |g.keys| ==> indeg[g.keys[j]] == 0
    {
      var k := g.keys[i];
      if g.entry[k].Task? {
        var deps := g.entry[k].deps;
        for j := 0 to |deps|
          invariant indeg.Keys == g.entry.Keys
          invariant indeg[k] == |Refs(g, deps[..j])|
          invariant forall l :: 0 <= l < i ==> indeg[g.keys[l]] == |RefsOf(g, g.keys[l])|
          invariant forall l :: i < l < |g.keys| ==> indeg[g.keys[l]] == 0
        {
          RefsSnoc(g, deps, j);
          if deps[j].Ref? && deps[j].key in g.entry {
            indeg := indeg[k := indeg[k] + 1];
          }
        }
        assert deps[..|deps|] == deps;
      }
    }
  }

  /** How often `c` uses `d`, when the keys of `done` have been counted and `k` up to `partial`. */
  ghost function Uses(g: Graph, done: set<string>, k: string, partial: seq<string>, c: string, d: string): nat
    requires c in g.entry
  {
    if c == k then Occurs(partial, d)
    else if c in done then Occurs(RefsOf(g, c), d)
    else 0
  }

  ghost predicate Counted(g: Graph, children: map<string, seq<string>>, done: set<string>, k: string,
                          partial: seq<string>) {
    && children.Keys == g.entry.Keys
    && forall d, c :: d in children && c in g.entry ==> Occurs(children[d], c) == Uses(g, done, k, partial, c, d)
  }

  lemma CountOne(g: Graph, children: map<string, seq<string>>, done: set<string>, k: string,
                 partial: seq<string>, d: string)
    requires Counted(g, children, done, k, partial)
    requires k in g.entry && d in g.entry
    ensures Counted(g, children[d := children[d] + [k]], done, k, partial + [d])
  {
    forall c, e | e in children && c in g.entry
      ensures Occurs(children[d := children[d] + [k]][e], c) == Uses(g, done, k, partial + [d], c, e)
    {
      OccursSnoc(children[d], k, c);
      OccursSnoc(partial, d, e);
    }
  }

  ghost predicate AllCounted(g: Graph, children: map<string, seq<string>>, done: set<string>) {
    && children.Keys == g.entry.Keys
    && forall d, c :: d in children && c in g.entry ==>
         Occurs(children[d], c) == if c in done then Occurs(RefsOf(g, c), d) else 0
  }

  lemma CountedAll(g: Graph, children: map<string, seq<string>>, done: set<string>, k: string)
    requires k in g.entry && Counted(g, children, done, k, RefsOf(g, k))
    ensures AllCounted(g, children, done + {k})
  {
  }

  predicate UsersAreKeys(g: Graph, children: map<string, seq<string>>) {
    forall d, c :: d in children && c in children[d] ==> c in g.entry
  }

  lemma KeyIsUser(g: Graph, children: map<string, seq<string>>, k: string, d: string)
    requires UsersAreKeys(g, children) && k in g.entry && d in children
    ensures UsersAreKeys(g, children[d := children[d] + [k]])
  {
  }

  lemma NextKey(keys: seq<string>, i: nat)
    requires Distinct(keys) && i < |keys|
    ensures keys[i] !in ToSet(keys[..i])
    ensures ToSet(keys[..i + 1]) == ToSet(keys[..i]) + {keys[i]}
  {
    assert keys[..i + 1] == keys[..i] + [keys[i]];
  }

  /** Record `k` as a user of each of its dependencies. */
  method AddUses(g: Graph, children0: map<string, seq<string>>, k: string, ghost done: set<string>)
    returns (children: map<string, seq<string>>)
    requires AllCounted(g, children0, done) && k in g.entry && k !in done
    requires UsersAreKeys(g, children0)
    ensures AllCounted(g, children, done + {k}) && UsersAreKeys(g, children)
  {
    children := children0;
    if g.entry[k].Task? {
      var deps := g.entry[k].deps;
      for j := 0 to |deps|
        invariant Counted(g, children, done, k, Refs(g, deps[..j]))
        invariant UsersAreKeys(g, children)
      {
        RefsSnoc(g, deps, j);
        if deps[j].Ref? && deps[j].key in g.entry {
          var d := deps[j].key;
          CountOne(g, children, done, k, Refs(g, deps[..j]), d);
          KeyIsUser(g, children, k, d);
          children := children[d := children[d] + [k]];
        } else {
          assert Refs(g, deps[..j + 1]) == Refs(g, deps[..j]);
        }
      }
      assert deps[..|deps|] == deps;
      CountedAll(g, children, done, k);
    } else {
      CountedAll(g, children, done, k);
    }
  }

  /** The users of every key, one entry per use. */
  method Children(g: Graph) returns (children: map<string, seq<string>>)
    requires Valid(g)
    ensures children.Keys == g.entry.Keys
    ensures forall d, k :: d in children && k in g.entry ==> Occurs(children[d], k) == Occurs(RefsOf(g, k), d)
    ensures UsersAreKeys(g, children)
  {
    children := map k | k in g.entry :: [];
    for i := 0 to |g.keys|
      invariant AllCounted(g, children, ToSet(g.keys[..i]))
      invariant UsersAreKeys(g, children)
    {
      NextKey(g.keys, i);
      children := AddUses(g, children, g.keys[i], ToSet(g.keys[..i]));
    }
    assert g.keys[..|g.keys|] == g.keys;
    assert forall k :: k in g.entry ==> k in ToSet(g.keys);
  }

  /** On an acyclic graph nothing is left over once no key is ready. */
  lemma NothingLeft(g: Graph, out: seq<string>, rank: map<string, nat>, k: string)
    requires Ranked(g, rank) && k in g.entry
    requires forall k :: k in g.entry && (forall d :: d in RefsOf(g, k) ==> d in out) ==> k in out
    ensures k in out
    decreases rank[k]
  {
    forall d | d in RefsOf(g, k)
      ensures d in out
    {
      RefsIn(g, g.entry[k].deps);
      NothingLeft(g, out, rank, d);
    }
  }

  lemma DistinctSize(s: seq<string>, all: set<string>)
    requires Distinct(s)
    requires forall x :: x in s ==> x in all
    ensures |s| <= |all|
    ensures (forall x :: x in all ==> x in s) ==> |s| == |all|
  {
    if s == [] {
      assert (forall x :: x in all ==> x in s) ==> all == {};
    } else {
      assert forall x :: x in s <==> x == s[0] || x in s[1..];
      DistinctSize(s[1..], all - {s[0]});
    }
  }

  lemma {:induction false} DistinctCount(s: seq<string>, x: string)
    requires Distinct(s)
    ensures multiset(s)[x] == if x in s then 1 else 0
  {
    if s != [] {
      DistinctCount(s[1..], x);
      assert s == [s[0]] + s[1..];
    }
  }

  lemma SamePermutation(s: seq<string>, t: seq<string>)
    requires Distinct(s) && Distinct(t)
    requires forall x :: x in s <==> x in t
    ensures multiset(s) == multiset(t)
  {
    forall x: string
      ensures multiset(s)[x] == multiset(t)[x]
    {
      DistinctCount(s, x);
      DistinctCount(t, x);
    }
  }

  /** The state of the main loop: `owed` counts the users still to be told about the key just taken. */
  ghost predicate Kahn(g: Graph, out: seq<string>, ready: seq<string>, indeg: map<string, int>, owed: seq<string>) {
    && indeg.Keys == g.entry.Keys
    && Distinct(out + ready)
    && (forall k :: k in out + ready <==> k in g.entry && indeg[k] == 0)
    && (forall k :: k in g.entry ==> indeg[k] == Pending(RefsOf(g, k), ToSet(out)) + Occurs(owed, k))
  }

  lemma Tell(g: Graph, out: seq<string>, ready: seq<string>, indeg: map<string, int>, c: string, owed: seq<string>)
    requires c in g.entry
    requires Kahn(g, out, ready, indeg, [c] + owed)
    ensures indeg[c] > 0
    ensures Kahn(g, out, if indeg[c] == 1 then ready + [c] else ready, indeg[c := indeg[c] - 1], owed)
  {
    assert c !in out + ready;
    if indeg[c] == 1 {
      assert out + (ready + [c]) == (out + ready) + [c];
      assert forall k :: k in (out + ready) + [c] <==> k in out + ready || k == c;
    }
  }

  lemma Take(g: Graph, out: seq<string>, ready: seq<string>, indeg: map<string, int>, users: seq<string>)
    requires ready != [] && Kahn(g, out, ready, indeg, []) && DepsFirst(g, out)
    requires forall k :: k in g.entry ==> Occurs(users, k) == Occurs(RefsOf(g, k), ready[0])
    ensures Kahn(g, out + [ready[0]], ready[1..], indeg, users)
    ensures DepsFirst(g, out + [ready[0]])
  {
    var k, out', ready' := ready[0], out + [ready[0]], ready[1..];
    assert out' + ready' == out + ready;
    assert k !in out by {
      assert (out + ready)[|out|] == k;
      assert forall i :: 0 <= i < |out| ==> (out + ready)[i] == out[i];
    }
    assert ToSet(out') == ToSet(out) + {k};
    forall c | c in g.entry
      ensures indeg[c] == Pending(RefsOf(g, c), ToSet(out')) + Occurs(users, c)
    {
      PendingPop(RefsOf(g, c), ToSet(out), k);
    }
    PendingNone(RefsOf(g, k), ToSet(out));
    DepsFirstSnoc(g, out, k);
  }

  lemma DepsFirstSnoc(g: Graph, out: seq<string>, k: string)
    requires DepsFirst(g, out) && k in g.entry
    requires forall d :: d in RefsOf(g, k) ==> d in out
    ensures DepsFirst(g, out + [k])
  {
    var out' := out + [k];
    forall i | 0 <= i < |out'| && out'[i] in g.entry
      ensures forall d :: d in RefsOf(g, out'[i]) ==> d in out'[..i]
    {
      if i < |out| {
        assert out'[..i] == out[..i] && out'[i] == out[i];
      } else {
        assert out'[..i] == out;
      }
    }
  }

  lemma Begin(g: Graph, ready: seq<string>, indeg: map<string, int>)
    requires indeg.Keys == g.entry.Keys && Distinct(ready)
    requires forall k :: k in indeg ==> indeg[k] == |RefsOf(g, k)|
    requires forall k :: k in ready <==> k in g.entry && indeg[k] == 0
    ensures Kahn(g, [], ready, indeg, [])
  {
    assert [] + ready == ready;
    assert ToSet<string>([]) == {};
    forall k | k in g.entry
      ensures indeg[k] == Pending(RefsOf(g, k), ToSet([]))
    {
      PendingEmpty(RefsOf(g, k));
    }
  }

  lemma Finished(g: Graph, out: seq<string>, indeg: map<string, int>)
    requires Kahn(g, out, [], indeg, [])
    ensures Distinct(out)
    ensures forall k :: k in out ==> k in g.entry
    ensures Acyclic(g) ==> forall k :: k in g.entry ==> k in out
  {
    assert out + [] == out;
    forall k | k in g.entry
      ensures (forall d :: d in RefsOf(g, k) ==> d in out) ==> k in out
    {
      PendingNone(RefsOf(g, k), ToSet(out));
    }
    if Acyclic(g) {
      var rank: map<string, nat> :| Ranked(g, rank);
      forall k | k in g.entry
        ensures k in out
      {
        NothingLeft(g, out, rank, k);
      }
    }
  }

  method InitiallyReady(g: Graph, indeg: map<string, int>) returns (ready: seq<string>)
    requires Valid(g) && indeg.Keys == g.entry.Keys
    ensures Distinct(ready)
    ensures forall k :: k in ready <==> k in g.entry && indeg[k] == 0
  {
    ready := [];
    for i := 0 to |g.keys|
      invariant Distinct(ready)
      invariant forall k :: k in ready <==> k in g.keys[..i] && indeg[k] == 0
    {
      if indeg[g.keys[i]] == 0 {
        ready := ready + [g.keys[i]];
      }
      assert g.keys[..i + 1] == g.keys[..i] + [g.keys[i]];
    }
    assert g.keys[..|g.keys|] == g.keys;
  }

  /** Every user has one dependency less; those with none left become ready. */
  method TellUsers(g: Graph, ghost out: seq<string>, ready0: seq<string>, indeg0: map<string, int>, users: seq<string>)
    returns (ready: seq<string>, indeg: map<string, int>)
    requires Kahn(g, out, ready0, indeg0, users)
    requires forall c :: c in users ==> c in g.entry
    ensures Kahn(g, out, ready, indeg, [])
  {
    ready, indeg := ready0, indeg0;
    assert users[0..] == users;
    for j := 0 to |users|
      invariant Kahn(g, out, ready, indeg, users[j..])
    {
      var c := users[j];
      assert users[j..] == [c] + users[j + 1..];
      Tell(g, out, ready, indeg, c, users[j + 1..]);
      indeg := indeg[c := indeg[c] - 1];
      if indeg[c] == 0 {
        ready := ready + [c];
      }
    }
    assert users[|users|..] == [];
  }

  /** Keys on a cycle never become ready; they go to the back in graph order. */
  method AppendLeftover(g: Graph, out0: seq<string>) returns (out: seq<string>)
    requires Valid(g) && Distinct(out0)
    requires forall k :: k in out0 ==> k in g.entry
    ensures Distinct(out) && multiset(out) == multiset(g.keys) && out0 <= out
    ensures (forall k :: k in g.entry ==> k in out0) ==> out == out0
  {
    out := out0;
    for i := 0 to |g.keys|
      invariant Distinct(out) && out0 <= out
      invariant forall k :: k in out ==> k in g.keys
      invariant forall j :: 0 <= j < i ==> g.keys[j] in out
      invariant (forall k :: k in g.entry ==> k in out0) ==> out == out0
    {
      if g.keys[i] !in out {
        out := out + [g.keys[i]];
      }
    }
    SamePermutation(out, g.keys);
  }

  /** The order is a permutation of the keys, cycles or not; when the graph is acyclic
      every dependency comes before its users. */
  method TopoOrder(g: Graph) returns (out: seq<string>)
    requires Valid(g)
    ensures Distinct(out) && multiset(out) == multiset(g.keys)
    ensures Acyclic(g) ==> DepsFirst(g, out)
  {
    var indeg := InDegrees(g);
    var ready := InitiallyReady(g, indeg);
    out := [];
    var children := Children(g);
    Begin(g, ready, indeg);
    while ready != []
      invariant Kahn(g, out, ready, indeg, []) && DepsFirst(g, out)
      decreases |g.keys| - |out|
    {
      var k := ready[0];
      Take(g, out, ready, indeg, children[k]);
      ready := ready[1..];
      out := out + [k];
      ready, indeg := TellUsers(g, out, ready, indeg, children[k]);
      DistinctSize(out + ready, g.entry.Keys);
      DistinctSize(g.keys, g.entry.Keys);
    }
    Finished(g, out, indeg);
    out := AppendLeftover(g, out);
  }
}
