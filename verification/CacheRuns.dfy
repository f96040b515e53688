// `store_node_outputs`, and what repeated runs over one cache keep.
module CacheRuns {
  import opened Wrappers
  import opened Values
  import opened TaskGraph
  import opened CacheKeys
  import opened Elision

  type Items = seq<(string, Hash)>

  /** Storing one table; a put that fails is logged and forgotten. */
  function Put(store: Store, h: Hash, v: Value, failing: set<Hash>): Store {
    match NativeToArrow(v)
    case Some(t) => if h in failing then store else store[h := t]
    case None => store
  }

  predicate Puts(h: Hash, v: Value, failing: set<Hash>) {
    NativeToArrow(v).Some? && h !in failing
  }

  function PutSlots(store: Store, h: Hash, items: seq<Value>, failing: set<Hash>): Store {
    if items == [] then store
    else Put(PutSlots(store, h, items[..|items| - 1], failing), SlotHash(h, |items| - 1), items[|items| - 1], failing)
  }

  function PutOutput(store: Store, h: Hash, v: Value, failing: set<Hash>): Store {
    if v.Tuple? then PutSlots(store, h, v.items, failing) else Put(store, h, v, failing)
  }

  predicate OutputStored(h: Hash, v: Value, failing: set<Hash>) {
    if v.Tuple? then exists i :: 0 <= i < |v.items| && Puts(SlotHash(h, i), v.items[i], failing)
    else Puts(h, v, failing)
  }

  function StoreAll(store: Store, items: Items, results: map<string, Value>, failing: set<Hash>): Store {
    if items == [] then store
    else
      var rest := StoreAll(store, items[..|items| - 1], results, failing);
      var (k, h) := items[|items| - 1];
      if k in results then PutOutput(rest, h, results[k], failing) else rest
  }

  function StoredCount(items: Items, results: map<string, Value>, failing: set<Hash>): nat {
    if items == [] then 0
    else
      var (k, h) := items[|items| - 1];
      StoredCount(items[..|items| - 1], results, failing) +
      if k in results && OutputStored(h, results[k], failing) then 1 else 0
  }

  /** `store_node_outputs`. */
  method StoreNodeOutputs(store0: Store, items: Items, results: map<string, Value>, failing: set<Hash>, enabled: bool)
    returns (store: Store, stored: nat)
    ensures enabled ==> store == StoreAll(store0, items, results, failing)
    ensures enabled ==> stored == StoredCount(items, results, failing)
    ensures !enabled ==> store == store0 && stored == 0
  {
    store, stored := store0, 0;
    if !enabled {
      return;
    }
    for i := 0 to |items|
      invariant store == StoreAll(store0, items[..i], results, failing)
      invariant stored == StoredCount(items[..i], results, failing)
    {
      var (k, h) := items[i];
      assert items[..i + 1][..i] == items[..i];
      if k in results {
        var v := results[k];
        if v.Tuple? {
          var slotStored := false;
          ghost var before := store;
          for slot := 0 to |v.items|
            invariant store == PutSlots(before, h, v.items[..slot], failing)
            invariant slotStored <==> exists j :: 0 <= j < slot && Puts(SlotHash(h, j), v.items[j], failing)
          {
            assert v.items[..slot + 1][..slot] == v.items[..slot];
            var table := NativeToArrow(v.items[slot]);
            if table.Some? && SlotHash(h, slot) !in failing {
              store := store[SlotHash(h, slot) := table.value];
              slotStored := true;
            }
          }
          assert v.items[..|v.items|] == v.items;
          if slotStored {
            stored := stored + 1;
          }
        } else {
          var table := NativeToArrow(v);
          if table.Some? && h !in failing {
            store := store[h := table.value];
            stored := stored + 1;
          }
        }
      }
    }
    assert items[..|items|] == items;
  }

  // ---- soundness -------------------------------------------------------------------

  /** Each stored table is the value its key denotes. */
  ghost predicate CacheSound(sem: Semantics, store: Store) {
    forall h :: h in store ==> ArrowToNative(store[h]) == Denote(sem, h)
  }

  /** The Arrow round trip, on everything an output would be stored as. */
  ghost predicate Storable(v: Value) {
    if v.Tuple? then forall i :: 0 <= i < |v.items| ==> RoundTrips(v.items[i]) else RoundTrips(v)
  }

  lemma PutKeepsSound(sem: Semantics, store: Store, h: Hash, v: Value, failing: set<Hash>)
    requires CacheSound(sem, store) && Denote(sem, h) == v && RoundTrips(v)
    ensures CacheSound(sem, Put(store, h, v, failing))
  {
  }

  lemma {:induction false} SlotsKeepSound(sem: Semantics, store: Store, h: Hash, items: seq<Value>, n: nat,
                                          failing: set<Hash>)
    requires CacheSound(sem, store) && Denote(sem, h) == Tuple(items) && Storable(Tuple(items)) && n <= |items|
    ensures CacheSound(sem, PutSlots(store, h, items[..n], failing))
  {
    if n > 0 {
      SlotsKeepSound(sem, store, h, items, n - 1, failing);
      assert items[..n][..n - 1] == items[..n - 1];
      PutKeepsSound(sem, PutSlots(store, h, items[..n - 1], failing), SlotHash(h, n - 1), items[n - 1], failing);
    }
  }

  ghost predicate Truthful(sem: Semantics, items: Items, results: map<string, Value>) {
    forall i :: 0 <= i < |items| && items[i].0 in results ==>
      results[items[i].0] == Denote(sem, items[i].1) && Storable(results[items[i].0])
  }

  lemma {:induction false} StoreKeepsSound(sem: Semantics, store: Store, items: Items,
                                           results: map<string, Value>, failing: set<Hash>)
    requires CacheSound(sem, store) && Truthful(sem, items, results)
    ensures CacheSound(sem, StoreAll(store, items, results, failing))
  {
    if items != [] {
      var rest := items[..|items| - 1];
      StoreKeepsSound(sem, store, rest, results, failing);
      var (k, h) := items[|items| - 1];
      if k in results {
        var v := results[k];
        if v.Tuple? {
          assert v.items[..|v.items|] == v.items;
          SlotsKeepSound(sem, StoreAll(store, rest, results, failing), h, v.items, |v.items|, failing);
        }
      }
    }
  }

  /** Replacing the hits by constants changes the value of no key. */
  lemma {:induction false} ElisionPreserves(sem: Semantics, c: Ctx, rank: map<string, nat>, store: Store, k: string)
    requires WellFormed(c, rank) && PortsKnown(c) && AsRunner(sem) && CacheSound(sem, store) && k in c.g.entry
    ensures Ranked(ElidedGraph(c, rank, store), rank)
    ensures Eval(sem, c.root, ElidedGraph(c, rank, store), rank, k) == Eval(sem, c.root, c.g, rank, k)
    decreases rank[k]
  {
    var e := ElidedGraph(c, rank, store);
    assert Ranked(e, rank);
    if e.entry[k] != c.g.entry[k] {
      DepDenotes(sem, c, rank, k);
    } else if c.g.entry[k].Task? {
      var deps := c.g.entry[k].deps;
      forall i | 0 <= i < |deps| && deps[i].Ref? && deps[i].key in c.g.entry
        ensures Eval(sem, c.root, e, rank, deps[i].key) == Eval(sem, c.root, c.g, rank, deps[i].key)
      {
        ElisionPreserves(sem, c, rank, store, deps[i].key);
      }
      EvalTask(sem, c.root, c.g, rank, k);
      EvalTask(sem, c.root, e, rank, k);
      assert EvalArgs(sem, c.root, e, rank, deps) == EvalArgs(sem, c.root, c.g, rank, deps);
    }
  }

  // ---- runs ------------------------------------------------------------------------

  // One run: the graph, which entries had been evicted since, which keys got a result
  // before the run ended, the items in the order they were stored, and the puts that failed.
  datatype Run = Run(c: Ctx, rank: map<string, nat>, evicted: set<Hash>, finished: set<string>, items: Items,
                     failing: set<Hash>)

  ghost function Results(sem: Semantics, r: Run, store: Store): map<string, Value>
    requires WellFormed(r.c, r.rank) && Ranked(ElidedGraph(r.c, r.rank, store), r.rank)
  {
    map k | k in r.c.g.entry && k in r.finished :: Eval(sem, r.c.root, ElidedGraph(r.c, r.rank, store), r.rank, k)
  }

  ghost predicate Possible(sem: Semantics, r: Run, store: Store) {
    && WellFormed(r.c, r.rank) && PortsKnown(r.c) && Ranked(ElidedGraph(r.c, r.rank, store), r.rank)
    && (forall i :: 0 <= i < |r.items| ==>
          r.items[i].0 in NodeKeys(r.c, r.rank, store) && r.items[i].1 == NodeKeys(r.c, r.rank, store)[r.items[i].0])
    && (forall k :: k in r.c.g.entry ==> Storable(Eval(sem, r.c.root, r.c.g, r.rank, k)))
  }

  ghost predicate AllPossible(sem: Semantics, runs: seq<Run>, store: Store) {
    runs == [] ||
    (Possible(sem, runs[0], store - runs[0].evicted) && AllPossible(sem, runs[1..], After(sem, runs[0], store)))
  }

  ghost function After(sem: Semantics, r: Run, store: Store): Store
    requires Possible(sem, r, store - r.evicted)
  {
    StoreAll(store - r.evicted, r.items, Results(sem, r, store - r.evicted), r.failing)
  }

  /** Over any sequence of runs the cache stays sound, and each run gives each key the
      value its un-elided graph gives it. */
  lemma {:induction false} RunsPreserve(sem: Semantics, runs: seq<Run>, store: Store)
    requires AsRunner(sem) && CacheSound(sem, store) && AllPossible(sem, runs, store)
    ensures forall i :: 0 <= i < |runs| ==> RunFaithful(sem, runs, store, i)
    ensures CacheSound(sem, AfterAll(sem, runs, store, |runs|))
  {
    var end := AfterAll(sem, runs, store, |runs|);
    forall h | h in end
      ensures ArrowToNative(end[h]) == Denote(sem, h)
    {
      StaysSound(sem, runs, store, h);
    }
    forall i | 0 <= i < |runs|
      ensures RunFaithful(sem, runs, store, i)
    {
      StaysFaithful(sem, runs, store, i);
    }
  }

  lemma {:induction false} StaysSound(sem: Semantics, runs: seq<Run>, store: Store, h: Hash)
    requires AsRunner(sem) && CacheSound(sem, store) && AllPossible(sem, runs, store)
    requires h in AfterAll(sem, runs, store, |runs|)
    ensures ArrowToNative(AfterAll(sem, runs, store, |runs|)[h]) == Denote(sem, h)
  {
    if runs != [] {
      FirstRun(sem, runs, store);
      StaysSound(sem, runs[1..], After(sem, runs[0], store), h);
    }
  }

  lemma {:induction false} StaysFaithful(sem: Semantics, runs: seq<Run>, store: Store, i: nat)
    requires AsRunner(sem) && CacheSound(sem, store) && AllPossible(sem, runs, store) && i < |runs|
    ensures RunFaithful(sem, runs, store, i)
  {
    FirstRun(sem, runs, store);
    if i > 0 {
      StaysFaithful(sem, runs[1..], After(sem, runs[0], store), i - 1);
    }
  }

  lemma FirstRun(sem: Semantics, runs: seq<Run>, store: Store)
    requires AsRunner(sem) && CacheSound(sem, store) && runs != [] && AllPossible(sem, runs, store)
    ensures RunFaithful(sem, runs, store, 0) && CacheSound(sem, After(sem, runs[0], store))
  {
    var r, kept := runs[0], store - runs[0].evicted;
    forall k | k in r.c.g.entry
      ensures Eval(sem, r.c.root, ElidedGraph(r.c, r.rank, kept), r.rank, k) == Eval(sem, r.c.root, r.c.g, r.rank, k)
    {
      ElisionPreserves(sem, r.c, r.rank, kept, k);
    }
    RunKeepsSound(sem, r, kept);
  }

  lemma RunKeepsSound(sem: Semantics, r: Run, store: Store)
    requires AsRunner(sem) && CacheSound(sem, store) && Possible(sem, r, store)
    requires forall k :: k in r.c.g.entry ==>
               Eval(sem, r.c.root, ElidedGraph(r.c, r.rank, store), r.rank, k) == Eval(sem, r.c.root, r.c.g, r.rank, k)
    ensures CacheSound(sem, StoreAll(store, r.items, Results(sem, r, store), r.failing))
  {
    var results := Results(sem, r, store);
    forall i | 0 <= i < |r.items| && r.items[i].0 in results
      ensures results[r.items[i].0] == Denote(sem, r.items[i].1) && Storable(results[r.items[i].0])
    {
      DepDenotes(sem, r.c, r.rank, r.items[i].0);
    }
    StoreKeepsSound(sem, store, r.items, results, r.failing);
  }

  /** The cache after the first `n` runs. */
  ghost function AfterAll(sem: Semantics, runs: seq<Run>, store: Store, n: nat): Store
    requires AllPossible(sem, runs, store) && n <= |runs|
  {
    if n == 0 then store else AfterAll(sem, runs[1..], After(sem, runs[0], store), n - 1)
  }

  ghost predicate RunFaithful(sem: Semantics, runs: seq<Run>, store: Store, i: nat)
    requires AllPossible(sem, runs, store) && i < |runs|
  {
    if i > 0 then RunFaithful(sem, runs[1..], After(sem, runs[0], store), i - 1)
    else
      var r := runs[0];
      var elided := ElidedGraph(r.c, r.rank, store - r.evicted);
      && elided.entry.Keys == r.c.g.entry.Keys
      && forall k :: k in r.c.g.entry ==>
           Eval(sem, r.c.root, elided, r.rank, k) == Eval(sem, r.c.root, r.c.g, r.rank, k)
  }

  // ---- reuse -----------------------------------------------------------------------

  lemma {:induction false} SlotsStay(store: Store, h: Hash, items: seq<Value>, failing: set<Hash>)
    ensures store.Keys <= PutSlots(store, h, items, failing).Keys
  {
    if items != [] {
      SlotsStay(store, h, items[..|items| - 1], failing);
    }
  }

  lemma {:induction false} OutputIsStored(store: Store, items: Items,
                                          results: map<string, Value>, failing: set<Hash>, i: nat)
    requires i < |items| && items[i].0 in results && !results[items[i].0].Tuple?
    requires Puts(items[i].1, results[items[i].0], failing)
    ensures items[i].1 in StoreAll(store, items, results, failing)
  {
    var rest := items[..|items| - 1];
    var (k, h) := items[|items| - 1];
    if i < |items| - 1 {
      OutputIsStored(store, rest, results, failing, i);
      if k in results && results[k].Tuple? {
        SlotsStay(StoreAll(store, rest, results, failing), h, results[k].items, failing);
      }
    }
  }

  /** A later operator with the same key, in whatever pipeline, is a hit, and gets the value
      it would have computed. */
  lemma SameKeyHits(sem: Semantics, r: Run, store: Store, i: nat, c: Ctx, rank: map<string, nat>, k: string)
    requires AsRunner(sem) && CacheSound(sem, store) && Possible(sem, r, store)
    requires i < |r.items| && r.items[i].0 in r.finished && !Results(sem, r, store)[r.items[i].0].Tuple?
    requires Puts(r.items[i].1, Results(sem, r, store)[r.items[i].0], r.failing)
    requires WellFormed(c, rank) && PortsKnown(c) && k in c.g.entry && Keyed(c, k) && KeyOf(c, rank, k) == r.items[i].1
    ensures ElidedEntry(c, rank, StoreAll(store, r.items, Results(sem, r, store), r.failing), k) ==
            Const(Eval(sem, c.root, c.g, rank, k))
  {
    OutputIsStored(store, r.items, Results(sem, r, store), r.failing, i);
    forall k | k in r.c.g.entry
      ensures Eval(sem, r.c.root, ElidedGraph(r.c, r.rank, store), r.rank, k) == Eval(sem, r.c.root, r.c.g, r.rank, k)
    {
      ElisionPreserves(sem, r.c, r.rank, store, k);
    }
    RunKeepsSound(sem, r, store);
    KeyDenotes(sem, c, rank, k);
  }

  lemma {:induction false} SlotIsPut(store: Store, h: Hash, items: seq<Value>, failing: set<Hash>, slot: nat)
    requires slot < |items| && Puts(SlotHash(h, slot), items[slot], failing)
    ensures SlotHash(h, slot) in PutSlots(store, h, items, failing)
  {
    if slot < |items| - 1 {
      SlotIsPut(store, h, items[..|items| - 1], failing, slot);
    }
  }

  /** Each storable element of a multi-output is under the key of its slot. */
  lemma {:induction false} SlotIsStored(store: Store, items: Items, results: map<string, Value>, failing: set<Hash>,
                                        i: nat, slot: nat)
    requires i < |items| && items[i].0 in results && results[items[i].0].Tuple?
    requires slot < |results[items[i].0].items|
    requires Puts(SlotHash(items[i].1, slot), results[items[i].0].items[slot], failing)
    ensures SlotHash(items[i].1, slot) in StoreAll(store, items, results, failing)
  {
    var rest := items[..|items| - 1];
    var (k, h) := items[|items| - 1];
    if i < |items| - 1 {
      SlotIsStored(store, rest, results, failing, i, slot);
      if k in results && results[k].Tuple? {
        SlotsStay(StoreAll(store, rest, results, failing), h, results[k].items, failing);
      }
    } else {
      SlotIsPut(StoreAll(store, rest, results, failing), h, results[k].items, failing, slot);
    }
  }

  /** A later slice of slot n of an operator with the same key is a hit, and gets the value it would have computed. */
  lemma SameSlotHits(sem: Semantics, r: Run, store: Store, i: nat, n: nat, c: Ctx, rank: map<string, nat>, base: string)
    requires AsRunner(sem) && CacheSound(sem, store) && Possible(sem, r, store)
    requires i < |r.items| && r.items[i].0 in r.finished && Results(sem, r, store)[r.items[i].0].Tuple?
    requires n < |Results(sem, r, store)[r.items[i].0].items|
    requires Puts(SlotHash(r.items[i].1, n), Results(sem, r, store)[r.items[i].0].items[n], r.failing)
    requires WellFormed(c, rank) && PortsKnown(c) && IsSlot(c, base, n)
    requires Keyed(c, base) && KeyOf(c, rank, base) == r.items[i].1
    ensures ElidedEntry(c, rank, StoreAll(store, r.items, Results(sem, r, store), r.failing), SliceName(base, n)) ==
            Const(Eval(sem, c.root, c.g, rank, SliceName(base, n)))
  {
    var k := SliceName(base, n);
    SliceNameParses(base, n);
    SlotIsStored(store, r.items, Results(sem, r, store), r.failing, i, n);
    forall x | x in r.c.g.entry
      ensures Eval(sem, r.c.root, ElidedGraph(r.c, r.rank, store), r.rank, x) == Eval(sem, r.c.root, r.c.g, r.rank, x)
    {
      ElisionPreserves(sem, r.c, r.rank, store, x);
    }
    RunKeepsSound(sem, r, store);
    DepDenotes(sem, c, rank, k);
  }

  /** The count is that of the keyed nodes with a result of which something could be stored and was. */
  lemma {:induction false} StoredCountIs(items: Items, results: map<string, Value>, failing: set<Hash>)
    ensures StoredCount(items, results, failing) == |StoredAt(items, results, failing)|
  {
    if items != [] {
      var rest, last := items[..|items| - 1], |items| - 1;
      StoredCountIs(rest, results, failing);
      var before := StoredAt(rest, results, failing);
      assert StoredAt(items, results, failing) ==
             if SomethingStored(items[last], results, failing) then before + {last} else before;
    }
  }

  function StoredAt(items: Items, results: map<string, Value>, failing: set<Hash>): set<nat> {
    set i: nat | i < |items| && SomethingStored(items[i], results, failing)
  }

  predicate SomethingStored(item: (string, Hash), results: map<string, Value>, failing: set<Hash>) {
    var (k, h) := item;
    k in results &&
    if results[k].Tuple? then
      exists n: nat :: n < |results[k].items| && NativeToArrow(results[k].items[n]).Some? && SlotHash(h, n) !in failing
    else NativeToArrow(results[k]).Some? && h !in failing
  }
}
