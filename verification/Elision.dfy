// `elide_cached_nodes`: replacing the operators whose outputs are cached by constants.
module Elision {
  import opened Wrappers
  import opened Sequences
  import opened Values
  import opened TaskGraph
  import opened TopoOrder
  import opened CacheKeys

  datatype Ctx = Ctx(g: Graph, p: Pipeline, inv: map<string, string>, kb: map<string, string>, root: Option<string>)

  type Store = map<Hash, Table>

  datatype Stats = Stats(hits: nat, misses: nat, skipped: nat, uncacheable: nat) {
    function Total(): nat { hits + misses + skipped + uncacheable }
  }

  method NoStats() returns (stats: Stats)
    ensures stats.Total() == 0
  {
    stats := Stats(0, 0, 0, 0);
  }

  // ---- which keys are addressed --------------------------------------------------

  function IdOf(c: Ctx, k: string): string {
    if k in c.inv then c.inv[k] else k
  }

  function SeedParam(c: Ctx, fqn: string): string {
    if fqn in c.kb then c.kb[fqn] else ""
  }

  /** An operator whose seed, if it takes one, is wired. */
  predicate Eligible(c: Ctx, k: string) {
    && k in c.g.entry && c.g.entry[k].Task?
    && NodeOf(c.p, c.inv, k).Some? && NodeOf(c.p, c.inv, k).value.Operator?
    && var seed := SeedParam(c, NodeOf(c.p, c.inv, k).value.name);
       seed == "" || HasSeed(c.p, IdOf(c, k), seed)
  }

  /** Said without helpers: the task's node, found through the key map, is an operator, and if the knowledge base names
      a seed for it, some Parameter is wired to that node under that seed. */
  lemma EligibleIff(c: Ctx, k: string, id: string)
    requires id == if k in c.inv then c.inv[k] else k
    requires id in c.p.nodes
    ensures Eligible(c, k) <==>
            && k in c.g.entry && c.g.entry[k].Task? && c.p.nodes[id].Operator?
            && (c.p.nodes[id].name in c.kb && c.kb[c.p.nodes[id].name] != "" ==>
                  exists i :: 0 <= i < |c.p.edges| && c.p.edges[i].destination == id &&
                    c.p.edges[i].position == c.kb[c.p.nodes[id].name] &&
                    c.p.edges[i].source in c.p.nodes && c.p.nodes[c.p.edges[i].source].Parameter?)
  {
  }

  /** An operator's key holds the operator's name, its tasks, the data set it runs on, and one key for each
      dependency. */
  lemma KeyHas(c: Ctx, rank: map<string, nat>, k: string, id: string)
    requires WellFormed(c, rank) && Keyed(c, k)
    requires id == (if k in c.inv then c.inv[k] else k) && id in c.p.nodes
    ensures c.p.nodes[id].Operator?
    ensures var (key, node) := (KeyOf(c, rank, k), c.p.nodes[id]);
            && key.OpHash? && key.fqn == node.name && key.tasks == node.tasks && key.root == c.root
            && |key.upstream| == |c.g.entry[k].deps|
            && forall i :: 0 <= i < |key.upstream| ==> key.upstream[i] == DepKey(c, rank, c.g.entry[k].deps[i].key)
  {
  }

  /** The parameters of an operator's key are those wired to its node: under each handle, the last one wired to it. */
  lemma KeyParams(c: Ctx, rank: map<string, nat>, k: string, id: string, i: nat)
    requires WellFormed(c, rank) && Keyed(c, k) && id == if k in c.inv then c.inv[k] else k
    requires i < |c.p.edges| && c.p.edges[i].destination == id
    requires c.p.edges[i].source in c.p.nodes && c.p.nodes[c.p.edges[i].source].Parameter?
    requires forall j :: i < j < |c.p.edges| && c.p.edges[j].destination == id && c.p.edges[j].source in c.p.nodes &&
                         c.p.nodes[c.p.edges[j].source].Parameter? ==>
               c.p.edges[j].position != c.p.edges[i].position
    ensures var node := c.p.nodes[c.p.edges[i].source];
            Lookup(KeyOf(c, rank, k).params, c.p.edges[i].position) == Some(ParamVal(node.dtype, node.value))
  {
    LastBindingWins(c.p, id, |c.p.edges|, i);
  }

  /** The graph key and slot that the name of `k` says it slices. */
  function SliceOf(c: Ctx, k: string): Option<(string, int)> {
    TryParseSliceKey(k, c.g.entry.Keys)
  }

  predicate Keyed(c: Ctx, k: string) {
    Eligible(c, k) && SliceOf(c, k).None?
  }

  predicate KeyedSlice(c: Ctx, k: string) {
    k in c.g.entry && SliceOf(c, k).Some? && Keyed(c, SliceOf(c, k).value.0)
  }

  // ---- well-formed upstreams -----------------------------------------------------

  /** A dependency that the key of its user accounts for. */
  ghost predicate Accounted(c: Ctx, r: string) {
    if r !in c.g.entry then
      SliceOf(c, r).None? && !(NodeOf(c.p, c.inv, r).Some? && NodeOf(c.p, c.inv, r).value.Parameter?)
    else
      || Keyed(c, r)
      || KeyedSlice(c, r)
      || (SliceOf(c, r).None? &&
          match NodeOf(c.p, c.inv, r)
          case Some(Parameter(_, dtype, value)) => c.g.entry[r] == Task(ParamFn(dtype, value), [])
          case _ => c.g.entry[r].Const? && Canonicalisable(c.g.entry[r].value))
  }

  /** Names that look like slices are slices, of something that is not one itself, and a
      slice of an operator that is not addressed is not taken for an operator. */
  ghost predicate SlicesNamed(c: Ctx) {
    forall k {:trigger c.g.entry[k]} :: k in c.g.entry && SliceOf(c, k).Some? ==>
      var (base, slot) := SliceOf(c, k).value;
      && c.g.entry[k] == Task(SliceFn, [Ref(base), Lit(slot)])
      && SliceOf(c, base).None?
      && (Keyed(c, base) || !Eligible(c, k))
  }

  ghost predicate UpstreamsAccounted(c: Ctx) {
    forall k {:trigger c.g.entry[k]} :: k in c.g.entry && Keyed(c, k) ==>
      && c.g.entry[k].fn.OpFn? && c.g.entry[k].fn.fqn == NodeOf(c.p, c.inv, k).value.name
      && forall i :: 0 <= i < |c.g.entry[k].deps| ==>
           c.g.entry[k].deps[i].Ref? && Accounted(c, c.g.entry[k].deps[i].key)
  }

  ghost predicate WellFormed(c: Ctx, rank: map<string, nat>) {
    Valid(c.g) && Ranked(c.g, rank) && SlicesNamed(c) && UpstreamsAccounted(c)
  }

  /** The keyword arguments of an addressed operator are the handles of its Parameters: no
      other node is wired to a keyword port. */
  ghost predicate PortsKnown(c: Ctx) {
    forall k {:trigger c.g.entry[k]} :: k in c.g.entry && Keyed(c, k) && c.g.entry[k].fn.OpFn? ==>
      c.g.entry[k].fn.kwNames == KeywordsOf(ParamsOf(c.p, IdOf(c, k), |c.p.edges|))
  }

  // ---- the key of an operator, without any cache -----------------------------------

  ghost function Height(rank: map<string, nat>, k: string): nat {
    if k in rank then rank[k] + 1 else 0
  }

  lemma SliceIsAbove(c: Ctx, rank: map<string, nat>, k: string)
    requires WellFormed(c, rank) && k in c.g.entry && SliceOf(c, k).Some?
    ensures rank[SliceOf(c, k).value.0] < rank[k]
    ensures SliceOf(c, k).value.0 in RefsOf(c.g, k)
  {
    var (base, slot) := SliceOf(c, k).value;
    assert c.g.entry[k].deps[0] == Ref(base);
    RefsIn(c.g, c.g.entry[k].deps);
  }

  ghost function KeyOf(c: Ctx, rank: map<string, nat>, k: string): Hash
    requires WellFormed(c, rank) && Keyed(c, k)
    decreases Height(rank, k), 1
  {
    var node := NodeOf(c.p, c.inv, k).value;
    var deps := c.g.entry[k].deps;
    OpHash(node.name, node.tasks, ParamsOf(c.p, IdOf(c, k), |c.p.edges|),
           seq(|deps|, i requires 0 <= i < |deps| => DepKey(c, rank, deps[i].key)), c.root)
  }

  ghost function DepKey(c: Ctx, rank: map<string, nat>, r: string): Hash
    requires WellFormed(c, rank) && Accounted(c, r)
    decreases Height(rank, r), 2
  {
    if Keyed(c, r) then KeyOf(c, rank, r)
    else if KeyedSlice(c, r) then
      SliceIsAbove(c, rank, r);
      SlotHash(KeyOf(c, rank, SliceOf(c, r).value.0), SliceOf(c, r).value.1)
    else UpstreamKeyForDep(r, c.p, c.inv, c.g)
  }

  ghost predicate AsRunner(sem: Semantics) {
    && (forall k :: sem.missing(k) == Str(k))
    && (forall n :: sem.literal(n) == Num(n))
  }

  ghost function ValueOf(sem: Semantics, c: Ctx, rank: map<string, nat>, r: string): Value
    requires Ranked(c.g, rank)
  {
    if r in c.g.entry then Eval(sem, c.root, c.g, rank, r) else sem.missing(r)
  }

  /** The keys say what the operators compute, whatever the operators compute, exactly when
      every keyword port of an addressed operator is fed by a Parameter: the key leaves out
      which keyword any other upstream is passed under. */
  lemma KeysFaithfulIff(c: Ctx, rank: map<string, nat>)
    requires WellFormed(c, rank)
    ensures PortsKnown(c) <==>
            (forall sem, k :: AsRunner(sem) && k in c.g.entry && Keyed(c, k) ==>
               Denote(sem, KeyOf(c, rank, k)) == Eval(sem, c.root, c.g, rank, k))
  {
    if PortsKnown(c) {
      forall sem, k | AsRunner(sem) && k in c.g.entry && Keyed(c, k)
        ensures Denote(sem, KeyOf(c, rank, k)) == Eval(sem, c.root, c.g, rank, k)
      {
        KeyDenotes(sem, c, rank, k);
      }
    } else {
      var k :| k in c.g.entry && Keyed(c, k) &&
               c.g.entry[k].fn.kwNames != KeywordsOf(ParamsOf(c.p, IdOf(c, k), |c.p.edges|));
      var expected := KeywordsOf(ParamsOf(c.p, IdOf(c, k), |c.p.edges|));
      var sem := TellsKeywordsApart(expected);
      EvalTask(sem, c.root, c.g, rank, k);
      assert Denote(sem, KeyOf(c, rank, k)) == Opaque(1);
    }
  }

  /** Operators that notice the keywords they are called with. */
  function TellsKeywordsApart(expected: seq<string>): Semantics {
    Semantics((_, _, kwNames, _) => if kwNames == expected then Opaque(1) else Opaque(2),
              (_, _) => Raised, (_, _) => Raised, k => Str(k), n => Num(n))
  }

  /** A key denotes the value the un-elided graph gives its operator. */
  lemma {:induction false} KeyDenotes(sem: Semantics, c: Ctx, rank: map<string, nat>, k: string)
    requires WellFormed(c, rank) && PortsKnown(c) && AsRunner(sem) && Keyed(c, k)
    ensures Denote(sem, KeyOf(c, rank, k)) == Eval(sem, c.root, c.g, rank, k)
    decreases Height(rank, k), 1
  {
    var deps := c.g.entry[k].deps;
    var upstream := KeyOf(c, rank, k).upstream;
    forall i | 0 <= i < |deps|
      ensures Denote(sem, upstream[i]) == ValueOf(sem, c, rank, deps[i].key)
    {
      DepDenotes(sem, c, rank, deps[i].key);
    }
    EvalTask(sem, c.root, c.g, rank, k);
    assert EvalArgs(sem, c.root, c.g, rank, deps) ==
           seq(|upstream|, i requires 0 <= i < |upstream| => Denote(sem, upstream[i]));
  }

  lemma {:induction false} DepDenotes(sem: Semantics, c: Ctx, rank: map<string, nat>, r: string)
    requires WellFormed(c, rank) && PortsKnown(c) && AsRunner(sem) && Accounted(c, r)
    ensures Denote(sem, DepKey(c, rank, r)) == ValueOf(sem, c, rank, r)
    decreases Height(rank, r), 2
  {
    if Keyed(c, r) {
      KeyDenotes(sem, c, rank, r);
    } else if KeyedSlice(c, r) {
      SliceIsAbove(c, rank, r);
      KeyDenotes(sem, c, rank, SliceOf(c, r).value.0);
      SliceDenotes(sem, c, rank, r);
    } else {
      LeafDenotes(sem, c, rank, r);
    }
  }

  lemma SliceDenotes(sem: Semantics, c: Ctx, rank: map<string, nat>, r: string)
    requires WellFormed(c, rank) && AsRunner(sem) && KeyedSlice(c, r)
    ensures Eval(sem, c.root, c.g, rank, r) ==
            Index(Eval(sem, c.root, c.g, rank, SliceOf(c, r).value.0), SliceOf(c, r).value.1)
  {
    var (base, slot) := SliceOf(c, r).value;
    assert c.g.entry[r] == Task(SliceFn, [Ref(base), Lit(slot)]);
    EvalTask(sem, c.root, c.g, rank, r);
    var args := EvalArgs(sem, c.root, c.g, rank, [Ref(base), Lit(slot)]);
    assert args[0] == Eval(sem, c.root, c.g, rank, base);
    assert args[1] == sem.literal(slot);
  }

  lemma LeafDenotes(sem: Semantics, c: Ctx, rank: map<string, nat>, r: string)
    requires WellFormed(c, rank) && AsRunner(sem) && Accounted(c, r) && !Keyed(c, r) && !KeyedSlice(c, r)
    ensures Denote(sem, UpstreamKeyForDep(r, c.p, c.inv, c.g)) == ValueOf(sem, c, rank, r)
  {
    if r in c.g.entry && c.g.entry[r].Task? {
      EvalTask(sem, c.root, c.g, rank, r);
    }
  }

  // ---- the walk --------------------------------------------------------------------

  /** The key a user derives for a dependency, from the keys derived so far. */
  function DepHash(c: Ctx, nodeKeys: map<string, Hash>, d: string): Hash {
    if d in nodeKeys then nodeKeys[d]
    else
      match TryParseSliceKey(d, nodeKeys.Keys)
      case Some((base, slot)) => SlotHash(nodeKeys[base], slot)
      case None => UpstreamKeyForDep(d, c.p, c.inv, c.g)
  }

  /** Arguments that are not strings do not enter the upstream vector. */
  function Upstream(c: Ctx, nodeKeys: map<string, Hash>, deps: seq<Arg>): seq<Hash> {
    if deps == [] then []
    else (if deps[0].Ref? then [DepHash(c, nodeKeys, deps[0].key)] else []) + Upstream(c, nodeKeys, deps[1..])
  }

  lemma UpstreamSnoc(c: Ctx, nodeKeys: map<string, Hash>, deps: seq<Arg>, i: nat)
    requires i < |deps|
    ensures Upstream(c, nodeKeys, deps[..i + 1]) ==
            Upstream(c, nodeKeys, deps[..i]) + if deps[i].Ref? then [DepHash(c, nodeKeys, deps[i].key)] else []
  {
    if i > 0 {
      UpstreamSnoc(c, nodeKeys, deps[1..], i - 1);
      assert deps[..i + 1][1..] == deps[1..][..i] && deps[..i][1..] == deps[1..][..i - 1];
    } else {
      assert deps[..1][1..] == [];
    }
  }

  method UpstreamKeys(c: Ctx, nodeKeys: map<string, Hash>, deps: seq<Arg>) returns (upstream: seq<Hash>)
    ensures upstream == Upstream(c, nodeKeys, deps)
  {
    upstream := [];
    for i := 0 to |deps|
      invariant upstream == Upstream(c, nodeKeys, deps[..i])
    {
      UpstreamSnoc(c, nodeKeys, deps, i);
      match deps[i]
      case Lit(_) =>
      case Ref(d) =>
        if d in nodeKeys {
          upstream := upstream + [nodeKeys[d]];
        } else {
          match TryParseSliceKey(d, nodeKeys.Keys)
          case Some((base, slot)) => upstream := upstream + [SlotHash(nodeKeys[base], slot)];
          case None => upstream := upstream + [UpstreamKeyForDep(d, c.p, c.inv, c.g)];
        }
    }
    assert deps[..|deps|] == deps;
  }

  /** A keyed operator, or a slice of one whose slot is cached. */
  ghost predicate Addressed(c: Ctx, rank: map<string, nat>, store: Store, k: string)
    requires WellFormed(c, rank)
  {
    k in c.g.entry && (Keyed(c, k) || (KeyedSlice(c, k) && DepKey(c, rank, k) in store))
  }

  ghost function ElidedEntry(c: Ctx, rank: map<string, nat>, store: Store, k: string): Entry
    requires WellFormed(c, rank) && k in c.g.entry
  {
    if (Keyed(c, k) || KeyedSlice(c, k)) && DepKey(c, rank, k) in store
    then Const(ArrowToNative(store[DepKey(c, rank, k)]))
    else c.g.entry[k]
  }

  /** What the walk has established once it has been through `done`. */
  ghost predicate Walked(c: Ctx, rank: map<string, nat>, store: Store, done: set<string>,
                         nodeKeys: map<string, Hash>, entry: map<string, Entry>)
    requires WellFormed(c, rank)
  {
    && (forall k, d :: k in done && k in c.g.entry && d in RefsOf(c.g, k) ==> d in done)
    && (forall k :: k in nodeKeys <==> k in done && Addressed(c, rank, store, k))
    && (forall k :: k in nodeKeys ==> nodeKeys[k] == DepKey(c, rank, k))
    && entry.Keys == c.g.entry.Keys
    && (forall k :: k in entry ==> entry[k] == if k in done then ElidedEntry(c, rank, store, k) else c.g.entry[k])
  }

  /** While the walk goes on, the key of a dependency does not depend on what is cached. */
  lemma DepHashIs(c: Ctx, rank: map<string, nat>, store: Store, done: set<string>,
                  nodeKeys: map<string, Hash>, entry: map<string, Entry>, d: string)
    requires WellFormed(c, rank) && Walked(c, rank, store, done, nodeKeys, entry)
    requires Accounted(c, d) && (d in c.g.entry ==> d in done)
    ensures DepHash(c, nodeKeys, d) == DepKey(c, rank, d)
  {
    if d !in nodeKeys && KeyedSlice(c, d) {
      SliceIsAbove(c, rank, d);
    }
  }

  lemma UpstreamIs(c: Ctx, rank: map<string, nat>, store: Store, done: set<string>,
                   nodeKeys: map<string, Hash>, entry: map<string, Entry>, deps: seq<Arg>)
    requires WellFormed(c, rank) && Walked(c, rank, store, done, nodeKeys, entry)
    requires forall i :: 0 <= i < |deps| ==>
               deps[i].Ref? && Accounted(c, deps[i].key) && (deps[i].key in c.g.entry ==> deps[i].key in done)
    ensures Upstream(c, nodeKeys, deps) ==
            seq(|deps|, i requires 0 <= i < |deps| => DepKey(c, rank, deps[i].key))
  {
    UpstreamOfRefs(c, nodeKeys, deps);
    forall i | 0 <= i < |deps|
      ensures DepHash(c, nodeKeys, deps[i].key) == DepKey(c, rank, deps[i].key)
    {
      DepHashIs(c, rank, store, done, nodeKeys, entry, deps[i].key);
    }
  }

  lemma {:induction false} UpstreamOfRefs(c: Ctx, nodeKeys: map<string, Hash>, deps: seq<Arg>)
    requires forall i :: 0 <= i < |deps| ==> deps[i].Ref?
    ensures |Upstream(c, nodeKeys, deps)| == |deps|
    ensures forall i :: 0 <= i < |deps| ==> Upstream(c, nodeKeys, deps)[i] == DepHash(c, nodeKeys, deps[i].key)
  {
    if deps != [] {
      UpstreamOfRefs(c, nodeKeys, deps[1..]);
    }
  }

  /** Whether the slice branch is taken does not depend on what is cached either. */
  lemma SliceBranch(c: Ctx, rank: map<string, nat>, store: Store, done: set<string>,
                    nodeKeys: map<string, Hash>, entry: map<string, Entry>, k: string)
    requires WellFormed(c, rank) && Walked(c, rank, store, done, nodeKeys, entry)
    requires k in c.g.entry && forall d :: d in RefsOf(c.g, k) ==> d in done
    ensures TryParseSliceKey(k, nodeKeys.Keys) == if KeyedSlice(c, k) then SliceOf(c, k) else None
    ensures KeyedSlice(c, k) ==>
              SliceOf(c, k).value.0 in nodeKeys &&
              DepKey(c, rank, k) == SlotHash(nodeKeys[SliceOf(c, k).value.0], SliceOf(c, k).value.1)
  {
    if SliceOf(c, k).Some? {
      SliceIsAbove(c, rank, k);
    }
  }

  datatype Outcome = Hit | Miss | Skipped | Uncacheable

  lemma KeyIs(c: Ctx, rank: map<string, nat>, store: Store, done: set<string>,
              nodeKeys: map<string, Hash>, entry: map<string, Entry>, k: string)
    requires WellFormed(c, rank) && Walked(c, rank, store, done, nodeKeys, entry)
    requires Keyed(c, k) && forall d :: d in RefsOf(c.g, k) ==> d in done
    ensures KeyOf(c, rank, k).upstream == Upstream(c, nodeKeys, c.g.entry[k].deps)
    ensures DepKey(c, rank, k) == KeyOf(c, rank, k)
  {
    RefsIn(c.g, c.g.entry[k].deps);
    UpstreamIs(c, rank, store, done, nodeKeys, entry, c.g.entry[k].deps);
  }

  lemma Advance(c: Ctx, rank: map<string, nat>, store: Store, done: set<string>, k: string,
                nodeKeys: map<string, Hash>, entry: map<string, Entry>,
                nodeKeys': map<string, Hash>, entry': map<string, Entry>)
    requires WellFormed(c, rank) && Walked(c, rank, store, done, nodeKeys, entry)
    requires k in c.g.entry && k !in done && forall d :: d in RefsOf(c.g, k) ==> d in done
    requires if Addressed(c, rank, store, k) then nodeKeys' == nodeKeys[k := DepKey(c, rank, k)]
             else nodeKeys' == nodeKeys
    requires if ElidedEntry(c, rank, store, k) == c.g.entry[k]
             then entry' == entry || entry' == entry[k := c.g.entry[k]]
             else entry' == entry[k := ElidedEntry(c, rank, store, k)]
    ensures Walked(c, rank, store, done + {k}, nodeKeys', entry')
  {
  }

  /** The key that visiting `k` registers, from the keys registered so far. */
  function VisitKey(c: Ctx, store: Store, nodeKeys: map<string, Hash>, k: string): Option<Hash>
    requires k in c.g.entry
  {
    match c.g.entry[k]
    case Const(_) => None
    case Task(_, deps) =>
      match TryParseSliceKey(k, nodeKeys.Keys)
      case Some((base, slot)) =>
        if SlotHash(nodeKeys[base], slot) in store then Some(SlotHash(nodeKeys[base], slot)) else None
      case None => if Eligible(c, k) then Some(OperatorKey(c, nodeKeys, k, deps)) else None
  }

  function OperatorKey(c: Ctx, nodeKeys: map<string, Hash>, k: string, deps: seq<Arg>): Hash
    requires Eligible(c, k)
  {
    var node := NodeOf(c.p, c.inv, k).value;
    OpHash(node.name, node.tasks, ParamsOf(c.p, IdOf(c, k), |c.p.edges|), Upstream(c, nodeKeys, deps), c.root)
  }

  function Register(nodeKeys: map<string, Hash>, k: string, key: Option<Hash>): map<string, Hash> {
    if key.Some? then nodeKeys[k := key.value] else nodeKeys
  }

  function Replace(entry: map<string, Entry>, store: Store, k: string, key: Option<Hash>): map<string, Entry> {
    if key.Some? && key.value in store then entry[k := Const(ArrowToNative(store[key.value]))] else entry
  }

  /** An operator, whatever its seed. */
  predicate IsOperator(c: Ctx, k: string) {
    k in c.g.entry && c.g.entry[k].Task? && NodeOf(c.p, c.inv, k).Some? && NodeOf(c.p, c.inv, k).value.Operator?
  }

  /** How a visit is counted: by the key it registers and whether that is cached, or as an operator without its seed. */
  function OutcomeOf(c: Ctx, store: Store, k: string, keyed: set<string>, key: Option<Hash>): Outcome {
    if key.Some? then if key.value in store then Hit else Miss
    else if IsOperator(c, k) && TryParseSliceKey(k, keyed).None? then Uncacheable
    else Skipped
  }

  /** The keys registered by a walk along `order`, whatever the graph looks like. */
  function WalkKeys(c: Ctx, store: Store, order: seq<string>): map<string, Hash>
    requires forall k :: k in order ==> k in c.g.entry
  {
    if order == [] then map[]
    else
      var before, k := WalkKeys(c, store, order[..|order| - 1]), order[|order| - 1];
      Register(before, k, VisitKey(c, store, before, k))
  }

  /** One graph key of the walk. */
  method Visit(c: Ctx, store: Store, k: string, nodeKeys0: map<string, Hash>, entry0: map<string, Entry>,
               ghost rank: map<string, nat>, ghost done: set<string>)
    returns (nodeKeys: map<string, Hash>, entry: map<string, Entry>, outcome: Outcome)
    requires k in c.g.entry && k !in done && entry0.Keys == c.g.entry.Keys && nodeKeys0.Keys <= done
    requires WellFormed(c, rank) ==>
             Walked(c, rank, store, done, nodeKeys0, entry0) && (forall d :: d in RefsOf(c.g, k) ==> d in done)
    ensures entry.Keys == c.g.entry.Keys
    ensures outcome == OutcomeOf(c, store, k, nodeKeys0.Keys, VisitKey(c, store, nodeKeys0, k))
    ensures nodeKeys == Register(nodeKeys0, k, VisitKey(c, store, nodeKeys0, k))
    ensures entry == Replace(entry0, store, k, VisitKey(c, store, nodeKeys0, k))
    ensures WellFormed(c, rank) ==> Walked(c, rank, store, done + {k}, nodeKeys, entry)
  {
    nodeKeys, entry, outcome := nodeKeys0, entry0, Skipped;
    if c.g.entry[k].Task? {
      if WellFormed(c, rank) {
        SliceBranch(c, rank, store, done, nodeKeys0, entry0, k);
      }
      var slice := TryParseSliceKey(k, nodeKeys.Keys);
      if slice.Some? {
        var slot := SlotHash(nodeKeys[slice.value.0], slice.value.1);
        if slot in store {
          entry := entry[k := Const(ArrowToNative(store[slot]))];
          nodeKeys := nodeKeys[k := slot];
          outcome := Hit;
        }
      } else {
        nodeKeys, entry, outcome := VisitOperator(c, store, k, nodeKeys, entry, rank, done);
      }
    }
    if WellFormed(c, rank) {
      Advance(c, rank, store, done, k, nodeKeys0, entry0, nodeKeys, entry);
    }
  }

  /** The part of the walk that is not about slices. */
  method VisitOperator(c: Ctx, store: Store, k: string, nodeKeys0: map<string, Hash>, entry0: map<string, Entry>,
                       ghost rank: map<string, nat>, ghost done: set<string>)
    returns (nodeKeys: map<string, Hash>, entry: map<string, Entry>, outcome: Outcome)
    requires k in c.g.entry && c.g.entry[k].Task?
    requires WellFormed(c, rank) ==>
             Walked(c, rank, store, done, nodeKeys0, entry0) && !KeyedSlice(c, k) &&
               (forall d :: d in RefsOf(c.g, k) ==> d in done)
    ensures !Eligible(c, k) ==>
              nodeKeys == nodeKeys0 && entry == entry0 && outcome == if IsOperator(c, k) then Uncacheable else Skipped
    ensures Eligible(c, k) ==> k in nodeKeys && nodeKeys == nodeKeys0[k := nodeKeys[k]]
    ensures Eligible(c, k) ==> outcome == if nodeKeys[k] in store then Hit else Miss
    ensures Eligible(c, k) ==> nodeKeys[k] == OperatorKey(c, nodeKeys0, k, c.g.entry[k].deps)
    ensures Eligible(c, k) ==>
              entry == if nodeKeys[k] in store then entry0[k := Const(ArrowToNative(store[nodeKeys[k]]))] else entry0
    ensures WellFormed(c, rank) && Eligible(c, k) ==> Keyed(c, k) && nodeKeys[k] == DepKey(c, rank, k)
  {
    nodeKeys, entry := nodeKeys0, entry0;
    var node := NodeOf(c.p, c.inv, k);
    if node.None? || !node.value.Operator? {
      return nodeKeys, entry, Skipped;
    }
    var seed := SeedParam(c, node.value.name);
    var params, hasSeed := ParamsAndSeedCheck(c.p, IdOf(c, k), seed);
    if seed != "" && !hasSeed {
      return nodeKeys, entry, Uncacheable;
    }
    var upstream := UpstreamKeys(c, nodeKeys, c.g.entry[k].deps);
    var key := OpHash(node.value.name, node.value.tasks, params, upstream, c.root);
    if WellFormed(c, rank) {
      KeyIs(c, rank, store, done, nodeKeys, entry, k);
    }
    nodeKeys := nodeKeys[k := key];
    if key in store {
      entry := entry[k := Const(ArrowToNative(store[key]))];
      return nodeKeys, entry, Hit;
    }
    return nodeKeys, entry, Miss;
  }

  ghost function ElidedGraph(c: Ctx, rank: map<string, nat>, store: Store): Graph
    requires WellFormed(c, rank)
  {
    Graph(c.g.keys, map k | k in c.g.entry :: ElidedEntry(c, rank, store, k))
  }

  ghost function NodeKeys(c: Ctx, rank: map<string, nat>, store: Store): map<string, Hash>
    requires WellFormed(c, rank)
  {
    map k | k in c.g.entry && Addressed(c, rank, store, k) :: DepKey(c, rank, k)
  }

  ghost predicate WalkedUpTo(c: Ctx, rank: map<string, nat>, store: Store, order: seq<string>, i: nat,
                             nodeKeys: map<string, Hash>, entry: map<string, Entry>)
    requires i <= |order|
  {
    WellFormed(c, rank) ==> Walked(c, rank, store, ToSet(order[..i]), nodeKeys, entry)
  }

  /** The registered keys whose tables are cached. */
  ghost function Found(nodeKeys: map<string, Hash>, store: Store): set<string> {
    set k | k in nodeKeys && nodeKeys[k] in store
  }

  /** Every entry is what was stored under its key, where it has one and something was, and the graph's own
      otherwise. */
  ghost predicate Elided(c: Ctx, store: Store, nodeKeys: map<string, Hash>, entry: map<string, Entry>) {
    && entry.Keys == c.g.entry.Keys
    && forall k :: k in entry ==>
         entry[k] == if k in nodeKeys && nodeKeys[k] in store then Const(ArrowToNative(store[nodeKeys[k]]))
                     else c.g.entry[k]
  }

  /** Hits are the keys found, misses the others. */
  ghost predicate Counted(stats: Stats, nodeKeys: map<string, Hash>, store: Store) {
    stats.hits == |Found(nodeKeys, store)| && stats.hits + stats.misses == |nodeKeys|
  }

  /** The operators among `keys` that are not addressed for want of a seed. */
  ghost function Seedless(c: Ctx, keys: set<string>): set<string> {
    set k | k in keys && IsOperator(c, k) && !Eligible(c, k) && !KeyedSlice(c, k)
  }

  lemma RegisterElides(c: Ctx, store: Store, nodeKeys: map<string, Hash>, entry: map<string, Entry>, k: string,
                       key: Option<Hash>)
    requires k in c.g.entry && k !in nodeKeys && Elided(c, store, nodeKeys, entry)
    ensures Elided(c, store, Register(nodeKeys, k, key), Replace(entry, store, k, key))
  {
  }

  lemma RegisterCounts(store: Store, nodeKeys: map<string, Hash>, k: string, key: Option<Hash>)
    requires k !in nodeKeys
    ensures |Register(nodeKeys, k, key)| == |nodeKeys| + if key.Some? then 1 else 0
    ensures |Found(Register(nodeKeys, k, key), store)| ==
            |Found(nodeKeys, store)| + if key.Some? && key.value in store then 1 else 0
  {
    if key.Some? {
      OneMore(nodeKeys, k, key.value);
      assert Found(nodeKeys[k := key.value], store) ==
             if key.value in store then Found(nodeKeys, store) + {k} else Found(nodeKeys, store);
    }
  }

  lemma OneMore<K, V>(m: map<K, V>, k: K, v: V)
    requires k !in m
    ensures |m[k := v]| == |m| + 1
  {
    assert m[k := v].Keys == m.Keys + {k};
    assert |m[k := v]| == |m[k := v].Keys| && |m| == |m.Keys|;
  }

  lemma UncacheableIff(c: Ctx, rank: map<string, nat>, store: Store, done: set<string>,
                       nodeKeys: map<string, Hash>, entry: map<string, Entry>, k: string)
    requires WellFormed(c, rank) && Walked(c, rank, store, done, nodeKeys, entry)
    requires k in c.g.entry && forall d :: d in RefsOf(c.g, k) ==> d in done
    ensures |Seedless(c, {k})| ==
            if OutcomeOf(c, store, k, nodeKeys.Keys, VisitKey(c, store, nodeKeys, k)) == Uncacheable then 1 else 0
  {
    SliceBranch(c, rank, store, done, nodeKeys, entry, k);
    SeedlessNext(c, {}, k);
  }

  lemma SeedlessNext(c: Ctx, keys: set<string>, k: string)
    requires k !in keys
    ensures |Seedless(c, keys + {k})| == |Seedless(c, keys)| + |Seedless(c, {k})|
    ensures |Seedless(c, {k})| == if k in Seedless(c, {k}) then 1 else 0
  {
    assert Seedless(c, keys + {k}) == Seedless(c, keys) + Seedless(c, {k});
    assert Seedless(c, {k}) == if k in Seedless(c, {k}) then {k} else {};
  }

  /** What the walk has established before its i-th key. */
  ghost predicate Between(c: Ctx, rank: map<string, nat>, store: Store, order: seq<string>, i: nat,
                          nodeKeys: map<string, Hash>, entry: map<string, Entry>, stats: Stats)
    requires i <= |order| && forall k :: k in order ==> k in c.g.entry
  {
    && Elided(c, store, nodeKeys, entry) && nodeKeys.Keys <= ToSet(order[..i])
    && Counted(stats, nodeKeys, store) && stats.Total() == i
    && (WellFormed(c, rank) ==> stats.uncacheable == |Seedless(c, ToSet(order[..i]))|)
    && nodeKeys == WalkKeys(c, store, order[..i])
    && WalkedUpTo(c, rank, store, order, i, nodeKeys, entry)
  }

  lemma BetweenNext(c: Ctx, rank: map<string, nat>, store: Store, order: seq<string>, i: nat,
                    nodeKeys: map<string, Hash>, entry: map<string, Entry>, stats: Stats)
    requires i < |order| && Distinct(order) && forall k :: k in order ==> k in c.g.entry
    requires Acyclic(c.g) ==> DepsFirst(c.g, order)
    requires Between(c, rank, store, order, i, nodeKeys, entry, stats)
    requires var key := VisitKey(c, store, nodeKeys, order[i]);
             WalkedUpTo(c, rank, store, order, i + 1, Register(nodeKeys, order[i], key),
                        Replace(entry, store, order[i], key))
    ensures var key := VisitKey(c, store, nodeKeys, order[i]);
            Between(c, rank, store, order, i + 1, Register(nodeKeys, order[i], key),
                    Replace(entry, store, order[i], key),
                    Count(stats, OutcomeOf(c, store, order[i], nodeKeys.Keys, key)))
  {
    NextKey(order, i);
    CountStep(c, store, nodeKeys, entry, stats, order[i]);
    WalkKeysNext(c, store, order, i);
    SeedlessStep(c, order, i);
    if WellFormed(c, rank) {
      DepsDone(c.g, rank, order, i);
      UncacheableIff(c, rank, store, ToSet(order[..i]), nodeKeys, entry, order[i]);
    }
  }

  method VisitNext(c: Ctx, store: Store, order: seq<string>, i: nat,
                   nodeKeys0: map<string, Hash>, entry0: map<string, Entry>, stats0: Stats,
                   ghost rank: map<string, nat>)
    returns (nodeKeys: map<string, Hash>, entry: map<string, Entry>, stats: Stats)
    requires i < |order| && Distinct(order) && forall k :: k in order ==> k in c.g.entry
    requires Acyclic(c.g) ==> DepsFirst(c.g, order)
    requires Between(c, rank, store, order, i, nodeKeys0, entry0, stats0)
    ensures Between(c, rank, store, order, i + 1, nodeKeys, entry, stats)
  {
    NextKey(order, i);
    if WellFormed(c, rank) {
      DepsDone(c.g, rank, order, i);
    }
    var outcome;
    nodeKeys, entry, outcome := Visit(c, store, order[i], nodeKeys0, entry0, rank, ToSet(order[..i]));
    stats := Count(stats0, outcome);
    BetweenNext(c, rank, store, order, i, nodeKeys0, entry0, stats0);
  }

  function Count(stats: Stats, outcome: Outcome): Stats {
    match outcome
    case Hit => stats.(hits := stats.hits + 1)
    case Miss => stats.(misses := stats.misses + 1)
    case Skipped => stats.(skipped := stats.skipped + 1)
    case Uncacheable => stats.(uncacheable := stats.uncacheable + 1)
  }

  lemma CountStep(c: Ctx, store: Store, nodeKeys: map<string, Hash>, entry: map<string, Entry>, stats: Stats, k: string)
    requires k in c.g.entry && k !in nodeKeys && Elided(c, store, nodeKeys, entry) && Counted(stats, nodeKeys, store)
    ensures var key := VisitKey(c, store, nodeKeys, k);
            var after := Count(stats, OutcomeOf(c, store, k, nodeKeys.Keys, key));
            && Elided(c, store, Register(nodeKeys, k, key), Replace(entry, store, k, key))
            && Counted(after, Register(nodeKeys, k, key), store) && after.Total() == stats.Total() + 1
            && Register(nodeKeys, k, key).Keys <= nodeKeys.Keys + {k}
            && after.uncacheable ==
               stats.uncacheable + if OutcomeOf(c, store, k, nodeKeys.Keys, key) == Uncacheable then 1 else 0
  {
    var key := VisitKey(c, store, nodeKeys, k);
    RegisterElides(c, store, nodeKeys, entry, k, key);
    RegisterCounts(store, nodeKeys, k, key);
  }

  method Walk(c: Ctx, store: Store, order: seq<string>, stats0: Stats, ghost rank: map<string, nat>)
    returns (nodeKeys: map<string, Hash>, entry: map<string, Entry>, stats: Stats)
    requires stats0.Total() == 0
    requires Distinct(order) && forall k :: k in order ==> k in c.g.entry
    requires Acyclic(c.g) ==> DepsFirst(c.g, order)
    ensures Between(c, rank, store, order, |order|, nodeKeys, entry, stats)
  {
    nodeKeys, entry, stats := map[], c.g.entry, stats0;
    StartOfWalk(c, rank, store, order, stats0);
    for i := 0 to |order|
      invariant Between(c, rank, store, order, i, nodeKeys, entry, stats)
    {
      nodeKeys, entry, stats := VisitNext(c, store, order, i, nodeKeys, entry, stats, rank);
    }
  }

  lemma StartOfWalk(c: Ctx, rank: map<string, nat>, store: Store, order: seq<string>, stats: Stats)
    requires stats.Total() == 0 && forall k :: k in order ==> k in c.g.entry
    ensures Between(c, rank, store, order, 0, map[], c.g.entry, stats)
  {
    assert Found(map[], store) == {} && order[..0] == [] && Seedless(c, {}) == {};
  }

  lemma SeedlessStep(c: Ctx, order: seq<string>, i: nat)
    requires i < |order| && Distinct(order)
    ensures |Seedless(c, ToSet(order[..i + 1]))| == |Seedless(c, ToSet(order[..i]))| + |Seedless(c, {order[i]})|
  {
    NextKey(order, i);
    SeedlessNext(c, ToSet(order[..i]), order[i]);
  }

  lemma WalkKeysNext(c: Ctx, store: Store, order: seq<string>, i: nat)
    requires i < |order| && forall k :: k in order ==> k in c.g.entry
    ensures WalkKeys(c, store, order[..i + 1]) ==
            Register(WalkKeys(c, store, order[..i]), order[i],
                     VisitKey(c, store, WalkKeys(c, store, order[..i]), order[i]))
  {
    assert order[..i + 1][..i] == order[..i];
  }

  /** Every graph key is counted once, and the keys handed on are the hits and the misses: those of a walk along an
      order of the graph. When the upstreams are well formed, each key is a function of the graph alone: the cache
      decides only which of them are there. */
  method ElideCachedNodes(c: Ctx, store: Store, enabled: bool, ghost rank: map<string, nat>)
    returns (elided: Graph, nodeKeys: map<string, Hash>, stats: Stats, ghost order: seq<string>)
    requires Valid(c.g)
    ensures elided.keys == c.g.keys && elided.entry.Keys == c.g.entry.Keys
    ensures enabled ==> stats.Total() == |c.g.keys| && Counted(stats, nodeKeys, store)
    ensures enabled ==> Elided(c, store, nodeKeys, elided.entry)
    ensures !enabled ==> elided == c.g && nodeKeys == map[] && stats.Total() == 0
    ensures Distinct(order) && (forall k :: k in order <==> k in c.g.entry)
    ensures enabled && Acyclic(c.g) ==> DepsFirst(c.g, order)
    ensures enabled ==> nodeKeys == WalkKeys(c, store, order)
    ensures enabled && WellFormed(c, rank) ==>
              && elided == ElidedGraph(c, rank, store) && nodeKeys == NodeKeys(c, rank, store)
              && stats.uncacheable == |Seedless(c, c.g.entry.Keys)|
  {
    stats := NoStats();
    if !enabled {
      return c.g, map[], stats, c.g.keys;
    }
    var walked := TopoOrder.TopoOrder(c.g);
    order := walked;
    SameKeys(c.g, order);
    var entry;
    nodeKeys, entry, stats := Walk(c, store, walked, stats, rank);
    elided := Graph(c.g.keys, entry);
    WalkedAll(c, rank, store, order, nodeKeys, entry, stats);
  }

  lemma WalkedAll(c: Ctx, rank: map<string, nat>, store: Store, order: seq<string>,
                  nodeKeys: map<string, Hash>, entry: map<string, Entry>, stats: Stats)
    requires forall k :: k in order <==> k in c.g.entry
    requires Between(c, rank, store, order, |order|, nodeKeys, entry, stats)
    ensures Elided(c, store, nodeKeys, entry) && Counted(stats, nodeKeys, store) && stats.Total() == |order|
    ensures nodeKeys == WalkKeys(c, store, order)
    ensures WellFormed(c, rank) ==> Graph(c.g.keys, entry) == ElidedGraph(c, rank, store)
    ensures WellFormed(c, rank) ==> nodeKeys == NodeKeys(c, rank, store)
    ensures WellFormed(c, rank) ==> stats.uncacheable == |Seedless(c, c.g.entry.Keys)|
  {
    assert order[..|order|] == order && ToSet(order) == c.g.entry.Keys;
    if WellFormed(c, rank) {
      AllWalked(c, rank, store, ToSet(order), nodeKeys, entry);
    }
  }

  lemma DepsDone(g: Graph, rank: map<string, nat>, order: seq<string>, i: nat)
    requires Ranked(g, rank) && (Acyclic(g) ==> DepsFirst(g, order))
    requires i < |order| && order[i] in g.entry
    ensures forall d :: d in RefsOf(g, order[i]) ==> d in ToSet(order[..i])
  {
    assert Acyclic(g);
  }

  lemma AllWalked(c: Ctx, rank: map<string, nat>, store: Store,
                  done: set<string>, nodeKeys: map<string, Hash>, entry: map<string, Entry>)
    requires WellFormed(c, rank) && Walked(c, rank, store, done, nodeKeys, entry)
    requires forall k :: k in done <==> k in c.g.entry
    ensures Graph(c.g.keys, entry) == ElidedGraph(c, rank, store) && nodeKeys == NodeKeys(c, rank, store)
  {
  }

  lemma SameKeys(g: Graph, order: seq<string>)
    requires Valid(g) && multiset(order) == multiset(g.keys)
    ensures forall k :: k in order <==> k in g.entry
    ensures |order| == |g.keys|
  {
    assert forall k :: k in order <==> k in multiset(order);
    assert forall k :: k in g.keys <==> k in multiset(g.keys);
    assert |multiset(order)| == |order| && |multiset(g.keys)| == |g.keys|;
  }

  // ---- slots, by their names -------------------------------------------------------------

  /** The entry for slot n of a node, as the graph is built: `base_n` slices `base` at n. */
  predicate IsSlot(c: Ctx, base: string, n: nat) {
    base in c.g.entry && SliceName(base, n) in c.g.entry &&
    c.g.entry[SliceName(base, n)] == Task(SliceFn, [Ref(base), Lit(n)])
  }

  /** A user of slot n of a keyed node derives slot n of that node's key. */
  lemma SlotUpstream(c: Ctx, nodeKeys: map<string, Hash>, base: string, n: nat)
    requires base in nodeKeys && SliceName(base, n) !in nodeKeys
    ensures Upstream(c, nodeKeys, [Ref(SliceName(base, n))]) == [SlotHash(nodeKeys[base], n)]
  {
    SlotDep(c, nodeKeys, base, n);
    UpstreamOfOne(c, nodeKeys, SliceName(base, n));
  }

  lemma SlotDep(c: Ctx, nodeKeys: map<string, Hash>, base: string, n: nat)
    requires base in nodeKeys && SliceName(base, n) !in nodeKeys
    ensures DepHash(c, nodeKeys, SliceName(base, n)) == SlotHash(nodeKeys[base], n)
  {
    SliceNameParses(base, n);
  }

  lemma UpstreamOfOne(c: Ctx, nodeKeys: map<string, Hash>, d: string)
    ensures Upstream(c, nodeKeys, [Ref(d)]) == [DepHash(c, nodeKeys, d)]
  {
    assert [Ref(d)][1..] == [];
  }

  /** What a walk registers for a key stays as it goes on. */
  lemma {:induction false} KeysStay(c: Ctx, store: Store, order: seq<string>, i: nat, x: string)
    requires i <= |order| && Distinct(order) && forall k :: k in order ==> k in c.g.entry
    requires x in order[..i]
    ensures SameAt(WalkKeys(c, store, order[..i]), WalkKeys(c, store, order), x)
    decreases |order|
  {
    if i == |order| {
      assert order[..i] == order;
    } else {
      var last := |order| - 1;
      var j :| 0 <= j < i && order[..i][j] == x;
      assert x == order[j] && order[..last][..i] == order[..i];
      KeysStay(c, store, order[..last], i, x);
    }
  }

  lemma KeyOnVisit(c: Ctx, store: Store, order: seq<string>, i: nat)
    requires i < |order| && Distinct(order) && forall k :: k in order ==> k in c.g.entry
    ensures var key := VisitKey(c, store, WalkKeys(c, store, order[..i]), order[i]);
            if key.Some? then order[i] in WalkKeys(c, store, order) && WalkKeys(c, store, order)[order[i]] == key.value
            else order[i] !in WalkKeys(c, store, order)
  {
    WalkKeysNext(c, store, order, i);
    KeysWalked(c, store, order[..i]);
    assert order[..i + 1][i] == order[i];
    KeysStay(c, store, order, i + 1, order[i]);
  }

  lemma {:induction false} KeysWalked(c: Ctx, store: Store, order: seq<string>)
    requires forall k :: k in order ==> k in c.g.entry
    ensures forall k :: k in WalkKeys(c, store, order) ==> k in order
  {
    if order != [] {
      KeysWalked(c, store, order[..|order| - 1]);
    }
  }

  /** On any graph: after a walk with dependencies first, the entry for slot n of a keyed node is the table stored under
      slot n of that node's key, and its key is that slot's, exactly when such a table is stored. */
  lemma SlotHit(c: Ctx, store: Store, order: seq<string>, entry: map<string, Entry>, base: string, n: nat)
    requires Distinct(order) && DepsFirst(c.g, order) && forall k :: k in order <==> k in c.g.entry
    requires IsSlot(c, base, n) && base in WalkKeys(c, store, order)
    requires Elided(c, store, WalkKeys(c, store, order), entry)
    ensures var keys, slot := WalkKeys(c, store, order), SlotHash(WalkKeys(c, store, order)[base], n);
            if slot in store then
              SliceName(base, n) in keys && keys[SliceName(base, n)] == slot &&
              entry[SliceName(base, n)] == Const(ArrowToNative(store[slot]))
            else SliceName(base, n) !in keys && entry[SliceName(base, n)] == c.g.entry[SliceName(base, n)]
  {
    var i: nat :| i < |order| && order[i] == SliceName(base, n);
    SlotAfterBase(c, order, i, base, n);
    KeysStay(c, store, order, i, base);
    KeyOnVisit(c, store, order, i);
    SlotOnVisit(c, store, WalkKeys(c, store, order[..i]), base, n);
  }

  lemma SlotAfterBase(c: Ctx, order: seq<string>, i: nat, base: string, n: nat)
    requires DepsFirst(c.g, order) && i < |order| && order[i] == SliceName(base, n) && IsSlot(c, base, n)
    ensures base in order[..i]
  {
    assert c.g.entry[SliceName(base, n)].deps[0] == Ref(base);
    RefsIn(c.g, c.g.entry[SliceName(base, n)].deps);
  }

  /** Visiting slot n of a keyed node registers slot n of that node's key, when it is cached. */
  lemma SlotOnVisit(c: Ctx, store: Store, nodeKeys: map<string, Hash>, base: string, n: nat)
    requires IsSlot(c, base, n) && base in nodeKeys
    ensures VisitKey(c, store, nodeKeys, SliceName(base, n)) ==
            if SlotHash(nodeKeys[base], n) in store then Some(SlotHash(nodeKeys[base], n)) else None
  {
    SliceNameParses(base, n);
  }

  // ---- the keys do not depend on the cache -----------------------------------------------

  /** What a slice name slices is not itself a slice, for graph keys and for dependencies. */
  ghost predicate NoSliceOfSlice(c: Ctx) {
    && (forall k :: k in c.g.entry && SliceOf(c, k).Some? ==> SliceOf(c, SliceOf(c, k).value.0).None?)
    && (forall k {:trigger c.g.entry[k]} :: k in c.g.entry && c.g.entry[k].Task? ==>
        DepsSliceOnce(c, c.g.entry[k].deps))
  }

  ghost predicate DepsSliceOnce(c: Ctx, deps: seq<Arg>) {
    forall i :: 0 <= i < |deps| && deps[i].Ref? && SliceOf(c, deps[i].key).Some? ==>
      SliceOf(c, SliceOf(c, deps[i].key).value.0).None?
  }

  /** Both have the same key for `k`, or neither has one. */
  predicate SameAt(a: map<string, Hash>, b: map<string, Hash>, k: string) {
    (k in a <==> k in b) && (k in a ==> a[k] == b[k])
  }

  /** A slot of a base that has its key: where there is a key it is the slot's, which users derive where there is
      none. */
  predicate SlotAt(a: map<string, Hash>, b: map<string, Hash>, k: string, base: string, slot: int) {
    && base in a && base in b
    && (k in a ==> a[k] == SlotHash(a[base], slot)) && (k in b ==> b[k] == SlotHash(b[base], slot))
  }

  ghost predicate AgreeAt(c: Ctx, a: map<string, Hash>, b: map<string, Hash>, k: string) {
    match SliceOf(c, k)
    case None => SameAt(a, b, k)
    case Some((base, slot)) => SameAt(a, b, base) && (SameAt(a, b, k) || SlotAt(a, b, k, base, slot))
  }

  /** Equal keys for every graph key that is no slice; for a slice equal keys, or a key that users derive from its
      base. */
  ghost predicate Agree(c: Ctx, a: map<string, Hash>, b: map<string, Hash>) {
    && a.Keys <= c.g.entry.Keys && b.Keys <= c.g.entry.Keys
    && forall k :: k in c.g.entry ==> AgreeAt(c, a, b, k)
  }

  /** A user derives the same key for a dependency. */
  lemma DepAgrees(c: Ctx, a: map<string, Hash>, b: map<string, Hash>, d: string)
    requires Agree(c, a, b) && (SliceOf(c, d).Some? ==> SliceOf(c, SliceOf(c, d).value.0).None?)
    ensures DepHash(c, a, d) == DepHash(c, b, d)
  {
    if d in c.g.entry {
      assert AgreeAt(c, a, b, d);
    }
    if SliceOf(c, d).Some? {
      assert AgreeAt(c, a, b, SliceOf(c, d).value.0);
    }
  }

  lemma {:induction false} UpstreamAgrees(c: Ctx, a: map<string, Hash>, b: map<string, Hash>, deps: seq<Arg>)
    requires Agree(c, a, b) && DepsSliceOnce(c, deps)
    ensures Upstream(c, a, deps) == Upstream(c, b, deps)
  {
    if deps != [] {
      if deps[0].Ref? {
        DepAgrees(c, a, b, deps[0].key);
      }
      assert forall i :: 0 <= i < |deps[1..]| ==> deps[1..][i] == deps[i + 1];
      UpstreamAgrees(c, a, b, deps[1..]);
    }
  }

  /** Where a visit takes the operator branch it registers the same key, whatever the store. */
  lemma OperatorAgrees(c: Ctx, s: Store, s': Store, a: map<string, Hash>, b: map<string, Hash>, k: string)
    requires NoSliceOfSlice(c) && Agree(c, a, b) && k in c.g.entry
    requires SliceOf(c, k).Some? ==> SliceOf(c, k).value.0 !in a && SliceOf(c, k).value.0 !in b
    ensures VisitKey(c, s, a, k) == VisitKey(c, s', b, k)
  {
    if c.g.entry[k].Task? {
      UpstreamAgrees(c, a, b, c.g.entry[k].deps);
    }
  }

  lemma VisitAgreesHere(c: Ctx, s: Store, s': Store, a: map<string, Hash>, b: map<string, Hash>, k: string)
    requires NoSliceOfSlice(c) && Agree(c, a, b) && k in c.g.entry && k !in a && k !in b
    ensures AgreeAt(c, Register(a, k, VisitKey(c, s, a, k)), Register(b, k, VisitKey(c, s', b, k)), k)
    ensures SliceOf(c, k).None? ==> VisitKey(c, s, a, k) == VisitKey(c, s', b, k)
  {
    match SliceOf(c, k)
    case None => OperatorAgrees(c, s, s', a, b, k);
    case Some((base, slot)) =>
      assert AgreeAt(c, a, b, base) && SameAt(a, b, base);
      if base !in a {
        OperatorAgrees(c, s, s', a, b, k);
      }
  }

  /** Registering the same key for `k`, or any for a slice, leaves the agreement on other keys. */
  lemma RegisterElsewhere(c: Ctx, a: map<string, Hash>, b: map<string, Hash>, k: string, key: Option<Hash>,
                          key': Option<Hash>, x: string)
    requires NoSliceOfSlice(c) && Agree(c, a, b) && k in c.g.entry && x in c.g.entry && x != k && k !in a && k !in b
    requires SliceOf(c, k).None? ==> key == key'
    ensures AgreeAt(c, Register(a, k, key), Register(b, k, key'), x)
  {
    assert AgreeAt(c, a, b, x);
  }

  /** Along one order, with whatever is in the two caches, the registered keys agree. */
  lemma {:induction false} KeysIgnoreTheCache(c: Ctx, s: Store, s': Store, order: seq<string>)
    requires NoSliceOfSlice(c) && Distinct(order) && forall k :: k in order ==> k in c.g.entry
    ensures Agree(c, WalkKeys(c, s, order), WalkKeys(c, s', order))
    ensures WalkKeys(c, s, order).Keys <= ToSet(order) && WalkKeys(c, s', order).Keys <= ToSet(order)
  {
    if order != [] {
      var rest, k := order[..|order| - 1], order[|order| - 1];
      KeysIgnoreTheCache(c, s, s', rest);
      assert order == rest + [k];
      assert k !in ToSet(rest);
      var a, b := WalkKeys(c, s, rest), WalkKeys(c, s', rest);
      VisitAgreesHere(c, s, s', a, b, k);
      forall x | x in c.g.entry && x != k ensures AgreeAt(c, WalkKeys(c, s, order), WalkKeys(c, s', order), x) {
        RegisterElsewhere(c, a, b, k, VisitKey(c, s, a, k), VisitKey(c, s', b, k), x);
      }
    }
  }

  /** So every operator that is no slice has the same key under both caches, or none under both. */
  lemma OperatorKeyIgnoresTheCache(c: Ctx, s: Store, s': Store, order: seq<string>, k: string)
    requires NoSliceOfSlice(c) && Distinct(order) && (forall x :: x in order ==> x in c.g.entry)
    requires k in c.g.entry && SliceOf(c, k).None?
    ensures SameAt(WalkKeys(c, s, order), WalkKeys(c, s', order), k)
  {
    KeysIgnoreTheCache(c, s, s', order);
    assert AgreeAt(c, WalkKeys(c, s, order), WalkKeys(c, s', order), k);
  }
}
