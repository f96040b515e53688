// Dask-style task graphs and what they mean.
module TaskGraph {
  import opened Wrappers
  import opened Sequences
  import opened Values

  datatype Arg = Ref(key: string) | Lit(n: int)

  // The callables `build_dag_graph` puts at the head of an entry.
  datatype Fn =
    | OpFn(fqn: string, kwNames: seq<string>)
    | ParamFn(dtype: string, value: string)
    | CodeFn(id: int)
    | SliceFn

  datatype Entry = Const(value: Value) | Task(fn: Fn, deps: seq<Arg>)

  // A Python dict: `keys` is the insertion order.
  datatype Graph = Graph(keys: seq<string>, entry: map<string, Entry>)

  // What the foreign code behind the callables computes, given the data set of the run,
  // and what a runner passes on for an argument that is not a key of the graph.
  datatype Semantics = Semantics(
    op: (string, Option<string>, seq<string>, seq<Value>) -> Value,
    param: (string, string) -> Value,
    code: (int, seq<Value>) -> Value,
    missing: string -> Value,
    literal: int -> Value)

  ghost predicate Valid(g: Graph) {
    && Distinct(g.keys)
    && forall k :: k in g.keys <==> k in g.entry
  }

  /** `rank` witnesses that the graph is acyclic. */
  ghost predicate Ranked(g: Graph, rank: map<string, nat>) {
    && rank.Keys == g.entry.Keys
    && forall k, i :: k in g.entry && g.entry[k].Task? && 0 <= i < |g.entry[k].deps| &&
                      g.entry[k].deps[i].Ref? && g.entry[k].deps[i].key in g.entry ==>
         rank[g.entry[k].deps[i].key] < rank[k]
  }

  ghost predicate Acyclic(g: Graph) {
    exists rank: map<string, nat> :: Ranked(g, rank)
  }

  function Index(v: Value, i: int): Value {
    if !v.Tuple? then Raised
    else if 0 <= i < |v.items| then v.items[i]
    else if 0 <= i + |v.items| < |v.items| then v.items[i + |v.items|]
    else Raised
  }

  function Fire(sem: Semantics, root: Option<string>, fn: Fn, args: seq<Value>): Value {
    match fn
    case OpFn(fqn, kwNames) => sem.op(fqn, root, kwNames, args)
    case ParamFn(dtype, value) => sem.param(dtype, value)
    case CodeFn(id) => sem.code(id, args)
    case SliceFn => if |args| == 2 && args[1].Num? then Index(args[0], args[1].n) else Raised
  }

  /** The value a key has when nothing is cached. */
  ghost function Eval(sem: Semantics, root: Option<string>, g: Graph, rank: map<string, nat>, k: string): Value
    requires Ranked(g, rank) && k in g.entry
    decreases rank[k]
  {
    match g.entry[k]
    case Const(v) => v
    case Task(fn, deps) =>
      Fire(sem, root, fn, seq(|deps|, i requires 0 <= i < |deps| =>
        match deps[i]
        case Lit(n) => sem.literal(n)
        case Ref(key) => if key in g.entry then Eval(sem, root, g, rank, key) else sem.missing(key)))
  }

  /** The values an entry's callable is applied to. */
  ghost function EvalArgs(sem: Semantics, root: Option<string>, g: Graph,
                          rank: map<string, nat>, deps: seq<Arg>): seq<Value>
    requires Ranked(g, rank)
  {
    seq(|deps|, i requires 0 <= i < |deps| =>
      match deps[i]
      case Lit(n) => sem.literal(n)
      case Ref(key) => if key in g.entry then Eval(sem, root, g, rank, key) else sem.missing(key))
  }

  lemma EvalTask(sem: Semantics, root: Option<string>, g: Graph, rank: map<string, nat>, k: string)
    requires Ranked(g, rank) && k in g.entry && g.entry[k].Task?
    ensures Eval(sem, root, g, rank, k) == Fire(sem, root, g.entry[k].fn, EvalArgs(sem, root, g, rank, g.entry[k].deps))
  {
    var deps := g.entry[k].deps;
    assert EvalArgs(sem, root, g, rank, deps) ==
      seq(|deps|, i requires 0 <= i < |deps| =>
        match deps[i]
        case Lit(n) => sem.literal(n)
        case Ref(key) => if key in g.entry then Eval(sem, root, g, rank, key) else sem.missing(key));
  }

  /** The value does not depend on how acyclicity is witnessed. */
  lemma {:induction false} EvalUnique(sem: Semantics, root: Option<string>, g: Graph,
                                      rank: map<string, nat>, rank': map<string, nat>, k: string)
    requires Ranked(g, rank) && Ranked(g, rank') && k in g.entry
    ensures Eval(sem, root, g, rank, k) == Eval(sem, root, g, rank', k)
    decreases rank[k]
  {
    if g.entry[k].Task? {
      var deps := g.entry[k].deps;
      forall i | 0 <= i < |deps| && deps[i].Ref? && deps[i].key in g.entry
        ensures Eval(sem, root, g, rank, deps[i].key) == Eval(sem, root, g, rank', deps[i].key)
      {
        EvalUnique(sem, root, g, rank, rank', deps[i].key);
      }
      EvalTask(sem, root, g, rank, k);
      EvalTask(sem, root, g, rank', k);
      assert EvalArgs(sem, root, g, rank, deps) == EvalArgs(sem, root, g, rank', deps);
    }
  }

  /** Indexing is Python's: slots count from the front, negative ones from the back, and anything else raises. */
  lemma SlotsOf(items: seq<Value>, i: int)
    ensures 0 <= i < |items| ==> Index(Tuple(items), i) == items[i] == Index(Tuple(items), i - |items|)
    ensures (i >= |items| || i < -|items|) ==> Index(Tuple(items), i) == Raised
    ensures forall v: Value :: !v.Tuple? ==> Index(v, i) == Raised
  {
  }

  /** A slice entry has the slot of what it slices; a snippet, an operator and a Parameter have what their code computes
      from the values of their dependencies, in order. */
  lemma EvalByKind(sem: Semantics, root: Option<string>, g: Graph, rank: map<string, nat>, k: string)
    requires Ranked(g, rank) && k in g.entry && g.entry[k].Task?
    ensures var (v, args) := (Eval(sem, root, g, rank, k), EvalArgs(sem, root, g, rank, g.entry[k].deps));
            && |args| == |g.entry[k].deps|
            && match g.entry[k].fn
               case OpFn(fqn, kwNames) => v == sem.op(fqn, root, kwNames, args)
               case ParamFn(dtype, value) => v == sem.param(dtype, value)
               case CodeFn(id) => v == sem.code(id, args)
               case SliceFn => |args| == 2 && args[1].Num? ==> v == Index(args[0], args[1].n)
    ensures forall i :: 0 <= i < |g.entry[k].deps| ==>
              var dep := g.entry[k].deps[i];
              EvalArgs(sem, root, g, rank, g.entry[k].deps)[i] ==
              if dep.Lit? then sem.literal(dep.n)
              else if dep.key in g.entry then Eval(sem, root, g, rank, dep.key)
              else sem.missing(dep.key)
  {
    EvalTask(sem, root, g, rank, k);
  }
}
