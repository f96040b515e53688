// The two evaluators: memoised recursion, and firing along a topological order.
module MemoResolve {
  import opened Wrappers
  import opened Sequences
  import opened Values
  import opened TaskGraph
  import opened TopoOrder

  class Memo {
    const sem: Semantics
    const root: Option<string>
    const g: Graph
    ghost const rank: map<string, nat>
    var resolved: map<string, Value>
    ghost var fired: seq<string>

    ghost predicate Sound()
      reads this
    {
      && Ranked(g, rank)
      && (forall k :: k in resolved && k in g.entry ==> resolved[k] == Eval(sem, root, g, rank, k))
      && (forall k :: k in resolved && k !in g.entry ==> resolved[k] == sem.missing(k))
      && Distinct(fired)
      && (forall k :: k in fired <==> k in resolved && k in g.entry && g.entry[k].Task?)
    }

    constructor (sem: Semantics, root: Option<string>, g: Graph, ghost rank: map<string, nat>)
      requires Ranked(g, rank)
      ensures Sound() && resolved == map[] && fired == []
      ensures this.sem == sem && this.root == root && this.g == g && this.rank == rank
    {
      this.sem, this.root, this.g, this.rank := sem, root, g, rank;
      resolved, fired := map[], [];
    }

    ghost function Height(key: string): nat {
      if key in rank then rank[key] + 1 else 0
    }

    ghost predicate Below(keys: set<string>, height: nat) {
      forall k :: k in keys ==> Height(k) <= height
    }

    /** The key's value; no entry that was resolved before changes, none is fired twice, and
        only the key and what lies below it is resolved. */
    method Resolve(key: string) returns (v: Value)
      requires Sound()
      modifies this
      ensures Sound() && key in resolved && v == resolved[key]
      ensures old(resolved.Keys) <= resolved.Keys && old(fired) <= fired
      ensures forall k :: k in old(resolved) ==> resolved[k] == old(resolved)[k]
      ensures Below(resolved.Keys - old(resolved.Keys), Height(key))
      decreases Height(key), 1
    {
      if key in resolved {
        return resolved[key];
      }
      if key !in g.entry {
        resolved := resolved[key := sem.missing(key)];
        return resolved[key];
      }
      match g.entry[key]
      case Const(value) =>
        resolved := resolved[key := value];
        return value;
      case Task(fn, deps) =>
        var args := ResolveAll(key, deps);
        EvalTask(sem, root, g, rank, key);
        assert args == EvalArgs(sem, root, g, rank, deps);
        v := Fire(sem, root, fn, args);
        assert key !in resolved;
        fired := fired + [key];
        resolved := resolved[key := v];
    }

    method ResolveAll(key: string, deps: seq<Arg>) returns (args: seq<Value>)
      requires Sound() && key in g.entry && g.entry[key].Task? && g.entry[key].deps == deps
      modifies this
      ensures Sound() && args == EvalArgs(sem, root, g, rank, deps)
      ensures old(resolved.Keys) <= resolved.Keys && old(fired) <= fired
      ensures forall k :: k in old(resolved) ==> resolved[k] == old(resolved)[k]
      ensures Below(resolved.Keys - old(resolved.Keys), Height(key) - 1)
      decreases Height(key), 0
    {
      args := [];
      for i := 0 to |deps|
        invariant Sound() && |args| == i
        invariant forall j :: 0 <= j < i ==> args[j] == EvalArgs(sem, root, g, rank, deps)[j]
        invariant old(resolved.Keys) <= resolved.Keys && old(fired) <= fired
        invariant forall k :: k in old(resolved) ==> resolved[k] == old(resolved)[k]
        invariant Below(resolved.Keys - old(resolved.Keys), Height(key) - 1)
      {
        match deps[i]
        case Lit(n) =>
          args := args + [sem.literal(n)];
        case Ref(d) =>
          var v := Resolve(d);
          args := args + [v];
      }
    }
  }

  /** The wanted keys, in order, through one shared memo. */
  method RunGraph(sem: Semantics, root: Option<string>, g: Graph, ghost rank: map<string, nat>, wanted: seq<string>)
    returns (out: seq<Value>)
    requires Ranked(g, rank)
    ensures |out| == |wanted|
    ensures forall i :: 0 <= i < |wanted| && wanted[i] in g.entry ==> out[i] == Eval(sem, root, g, rank, wanted[i])
  {
    var memo := new Memo(sem, root, g, rank);
    out := [];
    for i := 0 to |wanted|
      invariant memo.Sound() && |out| == i
      invariant memo.sem == sem && memo.root == root && memo.g == g && memo.rank == rank
      invariant forall j :: 0 <= j < i && wanted[j] in g.entry ==> out[j] == Eval(sem, root, g, rank, wanted[j])
    {
      var v := memo.Resolve(wanted[i]);
      out := out + [v];
    }
  }

  /** The runner's view of an entry's arguments. */
  function Args(sem: Semantics, g: Graph, results: map<string, Value>, deps: seq<Arg>): seq<Value>
    requires forall i :: 0 <= i < |deps| && deps[i].Ref? && deps[i].key in g.entry ==> deps[i].key in results
  {
    seq(|deps|, i requires 0 <= i < |deps| =>
      match deps[i]
      case Lit(n) => sem.literal(n)
      case Ref(d) => if d in g.entry then results[d] else sem.missing(d))
  }

  lemma ArgsAre(sem: Semantics, root: Option<string>, g: Graph,
                rank: map<string, nat>, results: map<string, Value>, deps: seq<Arg>)
    requires Ranked(g, rank)
    requires forall k :: k in results ==> k in g.entry && results[k] == Eval(sem, root, g, rank, k)
    requires forall i :: 0 <= i < |deps| && deps[i].Ref? && deps[i].key in g.entry ==> deps[i].key in results
    ensures Args(sem, g, results, deps) == EvalArgs(sem, root, g, rank, deps)
  {
  }

  /** Firing one entry whose dependencies have their results. */
  method FireOne(sem: Semantics, root: Option<string>, g: Graph, ghost rank: map<string, nat>, k: string,
                 results: map<string, Value>)
    returns (v: Value)
    requires Ranked(g, rank) && k in g.entry
    requires forall x :: x in results ==> x in g.entry && results[x] == Eval(sem, root, g, rank, x)
    requires forall d :: d in RefsOf(g, k) ==> d in results
    ensures v == Eval(sem, root, g, rank, k)
  {
    match g.entry[k]
    case Const(value) => v := value;
    case Task(fn, deps) =>
      RefsIn(g, deps);
      ArgsAre(sem, root, g, rank, results, deps);
      EvalTask(sem, root, g, rank, k);
      v := Fire(sem, root, fn, Args(sem, g, results, deps));
  }

  /** Firing along an order that puts dependencies first gives every key the value the
      recursion gives it. */
  method FireAlong(sem: Semantics, root: Option<string>, g: Graph, ghost rank: map<string, nat>, order: seq<string>)
    returns (results: map<string, Value>)
    requires Valid(g) && Ranked(g, rank)
    requires multiset(order) == multiset(g.keys) && DepsFirst(g, order)
    ensures results.Keys == g.entry.Keys
    ensures forall k :: k in results ==> results[k] == Eval(sem, root, g, rank, k)
  {
    results := map[];
    for i := 0 to |order|
      invariant results.Keys == ToSet(order[..i])
      invariant forall k :: k in results ==> k in g.entry && results[k] == Eval(sem, root, g, rank, k)
    {
      NextFires(g, order, i);
      var v := FireOne(sem, root, g, rank, order[i], results);
      results := results[order[i] := v];
    }
    AllFire(g, order);
  }

  /** The entry whose turn it is has its dependencies before it. */
  lemma NextFires(g: Graph, order: seq<string>, i: nat)
    requires Valid(g) && multiset(order) == multiset(g.keys) && DepsFirst(g, order) && i < |order|
    ensures order[i] in g.entry && forall d :: d in RefsOf(g, order[i]) ==> d in ToSet(order[..i])
    ensures ToSet(order[..i + 1]) == ToSet(order[..i]) + {order[i]}
  {
    assert order[i] in multiset(order);
    assert order[..i + 1] == order[..i] + [order[i]];
  }

  lemma AllFire(g: Graph, order: seq<string>)
    requires Valid(g) && multiset(order) == multiset(g.keys)
    ensures ToSet(order[..|order|]) == g.entry.Keys
  {
    assert order[..|order|] == order;
    forall k
      ensures k in order <==> k in g.entry
    {
      assert k in multiset(g.keys) <==> k in multiset(order);
    }
  }
}
