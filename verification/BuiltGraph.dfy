// The task graph that `build_dag_graph` makes of a pipeline, prefixed for a run.
module BuiltGraph {
  import opened Wrappers
  import opened Sequences
  import opened PyText
  import opened Values
  import opened TaskGraph
  import opened TopoOrder
  import opened CacheKeys
  import opened Elision

  // An edge of the pipeline with the output port it leaves from.
  datatype Wire = Wire(source: string, destination: string, position: string, output: nat)

  // A pipeline, the operators that are method shortcuts and so always have several outputs, and for each node the wires
  // into it in the order of the arguments.
  datatype Design = Design(nodes: map<string, Node>, wires: seq<Wire>, shortcuts: set<string>,
                           args: map<string, seq<nat>>)

  function EdgesOf(wires: seq<Wire>): seq<Edge> {
    seq(|wires|, i requires 0 <= i < |wires| => Edge(wires[i].source, wires[i].destination, wires[i].position))
  }

  predicate HasSlots(x: Design, id: string) {
    || (exists i :: 0 <= i < |x.wires| && x.wires[i].source == id && x.wires[i].output > 0)
    || (id in x.nodes && x.nodes[id].Operator? && x.nodes[id].name in x.shortcuts)
  }

  /** What a wire brings: its source, or the slot of it when the source has several. */
  function Brings(x: Design, w: Wire): string {
    if HasSlots(x, w.source) then SliceName(w.source, w.output) else w.source
  }

  predicate IsKeywordPort(w: Wire) {
    ParseInt(w.position).None?
  }

  /** Positional arguments come before keyword ones, those by number and these by name; of equal numbers the earlier
      wire comes first. */
  predicate ArgBefore(x: Design, a: nat, b: nat)
    requires a < |x.wires| && b < |x.wires|
  {
    match (ParseInt(x.wires[a].position), ParseInt(x.wires[b].position))
    case (Some(m), Some(n)) => m < n || (m == n && a < b)
    case (Some(_), None) => true
    case (None, None) => Before(x.wires[a].position, x.wires[b].position)
    case (None, Some(_)) => false
  }

  /** The arguments are the wires into the node, of those to one keyword only the last, in that order. */
  predicate ArgsOf(x: Design, id: string, args: seq<nat>) {
    && (forall i :: 0 <= i < |args| ==> args[i] < |x.wires| && x.wires[args[i]].destination == id)
    && (forall i, k :: 0 <= i < k < |args| ==> ArgBefore(x, args[i], args[k]))
    && (forall j: nat :: j < |x.wires| && x.wires[j].destination == id ==>
          (j in args <==> !IsKeywordPort(x.wires[j]) || IsLastTo(x, j)))
  }

  /** Positional arguments come first, by number; then the keyword ones. */
  lemma PositionalFirst(x: Design, id: string, args: seq<nat>, i: nat, k: nat, n: int)
    requires ArgsOf(x, id, args) && i < k < |args| && ParseInt(x.wires[args[k]].position) == Some(n)
    ensures exists m :: ParseInt(x.wires[args[i]].position) == Some(m) && m <= n
    ensures ParseInt(x.wires[args[i]].position) == Some(n) ==> args[i] < args[k]
  {
    assert ArgBefore(x, args[i], args[k]);
  }

  /** Of the wires to one keyword the last is an argument and no other; of those to a position every one is. */
  lemma LastKeywordWins(x: Design, id: string, args: seq<nat>, j: nat)
    requires ArgsOf(x, id, args) && j < |x.wires| && x.wires[j].destination == id
    ensures j in args <==>
            ParseInt(x.wires[j].position).Some? ||
            forall k :: j < k < |x.wires| && x.wires[k].destination == id ==>
              x.wires[k].position != x.wires[j].position
  {
    if !IsLastTo(x, j) {
      var k :| j < k < |x.wires| && x.wires[k].destination == id && x.wires[k].position == x.wires[j].position;
    }
  }

  predicate InArgOrder(x: Design, args: seq<nat>) {
    && (forall i :: 0 <= i < |args| ==> args[i] < |x.wires|)
    && (forall i, k :: 0 <= i < k < |args| ==> ArgBefore(x, args[i], args[k]))
  }

  lemma ArgBeforeIsStrict(x: Design, a: nat, b: nat)
    requires a < |x.wires| && b < |x.wires| && ArgBefore(x, a, b)
    ensures a != b && !ArgBefore(x, b, a)
  {
    BeforeIrreflexive(x.wires[a].position);
    if IsKeywordPort(x.wires[a]) && Before(x.wires[b].position, x.wires[a].position) {
      BeforeTransitive(x.wires[a].position, x.wires[b].position, x.wires[a].position);
    }
  }

  lemma InLaterArgs(x: Design, a: seq<nat>, j: nat)
    requires InArgOrder(x, a) && a != []
    ensures j in a[1..] <==> j in a && j != a[0]
  {
    assert a == [a[0]] + a[1..];
    if j in a[1..] {
      ArgBeforeIsStrict(x, a[0], j);
    }
  }

  lemma FirstArg(x: Design, a: seq<nat>, b: seq<nat>)
    requires InArgOrder(x, a) && InArgOrder(x, b) && a != [] && b != [] && a[0] in b && b[0] in a
    ensures a[0] == b[0]
  {
    if a[0] != b[0] {
      ArgBeforeIsStrict(x, a[0], b[0]);
    }
  }

  lemma {:induction false} SameArgs(x: Design, a: seq<nat>, b: seq<nat>)
    requires InArgOrder(x, a) && InArgOrder(x, b) && forall j :: j in a <==> j in b
    ensures a == b
  {
    if a != [] {
      assert a[0] in a;
    }
    if b != [] {
      assert b[0] in b;
      assert a[0] in a && b[0] in a;
      FirstArg(x, a, b);
      forall j ensures j in a[1..] <==> j in b[1..] {
        if j >= 0 {
          InLaterArgs(x, a, j);
          InLaterArgs(x, b, j);
        }
      }
      SameArgs(x, a[1..], b[1..]);
    }
  }

  /** So the wires fix the arguments of a node and their order. */
  lemma ArgsUnique(x: Design, id: string, a: seq<nat>, b: seq<nat>)
    requires ArgsOf(x, id, a) && ArgsOf(x, id, b)
    ensures a == b
  {
    forall j ensures j in a <==> j in b {
      if j >= 0 && j < |x.wires| && x.wires[j].destination == id {
        assert j in a <==> j in b;
      }
    }
    SameArgs(x, a, b);
  }

  predicate IsLastTo(x: Design, j: nat)
    requires j < |x.wires|
  {
    forall k :: j < k < |x.wires| && x.wires[k].destination == x.wires[j].destination ==>
      x.wires[k].position != x.wires[j].position
  }

  /** The entry of a node: its callable, with what the wires into it bring, each under the run's prefix, and the names
      of its keyword ports. */
  ghost predicate IsNodeEntry(x: Design, pre: string, id: string, e: Entry)
    requires id in x.nodes && id in x.args && ArgsOf(x, id, x.args[id])
  {
    && e.Task? && |e.deps| == |x.args[id]|
    && (forall i :: 0 <= i < |e.deps| ==> e.deps[i] == Ref(pre + Brings(x, x.wires[x.args[id][i]])))
    && match x.nodes[id]
       case Operator(name, _) => e.fn.OpFn? && e.fn.fqn == name && AreKeywords(x, id, e.fn.kwNames)
       case Parameter(_, dtype, value) => e.fn == ParamFn(dtype, value)
       case Snippet(_) => e.fn.CodeFn?
  }

  /** The keyword ports, sorted, each once. */
  ghost predicate AreKeywords(x: Design, id: string, names: seq<string>) {
    && (forall i, j :: 0 <= i < j < |names| ==> Before(names[i], names[j]))
    && (forall k :: k in names <==> HasKeyword(x, id, k))
  }

  predicate HasKeyword(x: Design, id: string, k: string) {
    ParseInt(k).None? && exists j :: 0 <= j < |x.wires| && x.wires[j].destination == id && x.wires[j].position == k
  }

  /** A Parameter is wired to the port. */
  predicate ParameterWired(x: Design, id: string, port: string) {
    exists j :: 0 <= j < |x.wires| && x.wires[j].destination == id && x.wires[j].position == port &&
      x.wires[j].source in x.nodes && x.nodes[x.wires[j].source].Parameter?
  }

  /** The keys of the graph before prefixing: the nodes, and a slot for each wire that leaves one of several outputs. */
  ghost predicate IsSlotOf(x: Design, base: string, n: nat) {
    HasSlots(x, base) && exists j :: 0 <= j < |x.wires| && x.wires[j].source == base && x.wires[j].output == n
  }

  ghost predicate IsRaw(x: Design, k: string) {
    k in x.nodes || exists base, n: nat :: IsSlotOf(x, base, n) && k == SliceName(base, n)
  }

  /** The context of a run: the built graph under the prefix, with the map from its keys back to the raw ones. */
  ghost predicate IsBuilt(x: Design, pre: string, c: Ctx) {
    && Valid(c.g) && c.p == Pipeline(x.nodes, EdgesOf(x.wires))
    && (forall id :: id in x.nodes ==> id in x.args && ArgsOf(x, id, x.args[id]))
    && (forall k :: k in c.g.entry <==> exists raw :: IsRaw(x, raw) && k == pre + raw)
    && (forall raw :: IsRaw(x, raw) ==> pre + raw in c.inv && c.inv[pre + raw] == raw)
    && (forall id :: id in x.nodes ==> IsNodeEntry(x, pre, id, c.g.entry[pre + id]))
    && (forall base, n: nat :: IsSlotOf(x, base, n) ==>
          c.g.entry[pre + SliceName(base, n)] == Task(SliceFn, [Ref(pre + base), Lit(n)]))
  }

  // ---- what is asked of the pipeline -------------------------------------------------------------

  /** Wires join nodes and go up in rank. */
  ghost predicate GoesUp(x: Design, rank: map<string, nat>) {
    rank.Keys == x.nodes.Keys &&
    forall j :: 0 <= j < |x.wires| ==>
      x.wires[j].source in x.nodes && x.wires[j].destination in x.nodes &&
      rank[x.wires[j].source] < rank[x.wires[j].destination]
  }

  /** No node's id reads, under the prefix, as a slot of something in the graph. */
  ghost predicate PlainIds(x: Design, pre: string) {
    forall id :: id in x.nodes ==>
      match ParseSlice(pre + id)
      case None => true
      case Some((base, _)) => forall raw :: IsRaw(x, raw) ==> base != pre + raw
  }

  /** A seed that the knowledge base asks for is wired. */
  predicate SeedWired(x: Design, kb: map<string, string>, id: string)
    requires id in x.nodes && x.nodes[id].Operator?
  {
    x.nodes[id].name in kb && kb[x.nodes[id].name] != "" ==> ParameterWired(x, id, kb[x.nodes[id].name])
  }

  /** What feeds an operator is an operator with its seed, or a Parameter with one output and nothing wired to it. */
  predicate Feeds(x: Design, kb: map<string, string>, id: string)
    requires id in x.nodes
  {
    if x.nodes[id].Operator? then SeedWired(x, kb, id)
    else x.nodes[id].Parameter? && !HasSlots(x, id) && forall j :: 0 <= j < |x.wires| ==> x.wires[j].destination != id
  }

  predicate WellFed(x: Design, kb: map<string, string>) {
    forall j :: 0 <= j < |x.wires| ==>
      && x.wires[j].source in x.nodes && x.wires[j].destination in x.nodes
      && (x.nodes[x.wires[j].destination].Operator? && SeedWired(x, kb, x.wires[j].destination) ==>
            Feeds(x, kb, x.wires[j].source))
  }

  // ---- names --------------------------------------------------------------------------------------

  lemma PrefixedSlot(pre: string, base: string, n: nat)
    ensures pre + SliceName(base, n) == SliceName(pre + base, n)
  {
    assert pre + (base + "_" + Digits(n)) == pre + base + "_" + Digits(n);
  }

  lemma SamePrefix(pre: string, a: string, b: string)
    requires pre + a == pre + b
    ensures a == b
  {
    assert (pre + a)[|pre|..] == a && (pre + b)[|pre|..] == b;
  }

  /** A slot's name reads as that slot, and a node's as none. */
  lemma ReadAsBuilt(x: Design, pre: string, c: Ctx, id: string)
    requires IsBuilt(x, pre, c) && PlainIds(x, pre) && id in x.nodes
    ensures pre + id in c.g.entry && SliceOf(c, pre + id) == None
    ensures NodeOf(c.p, c.inv, pre + id) == Some(x.nodes[id]) && IdOf(c, pre + id) == id
  {
    assert IsRaw(x, id);
  }

  lemma SlotIsNoNode(x: Design, pre: string, base: string, n: nat)
    requires PlainIds(x, pre) && base in x.nodes
    ensures SliceName(base, n) !in x.nodes
  {
    PrefixedSlot(pre, base, n);
    SliceNameParses(pre + base, n);
    assert IsRaw(x, base);
  }

  lemma SlotReadAsBuilt(x: Design, pre: string, c: Ctx, base: string, n: nat)
    requires IsBuilt(x, pre, c) && PlainIds(x, pre) && base in x.nodes && IsSlotOf(x, base, n)
    ensures pre + SliceName(base, n) in c.g.entry && SliceOf(c, pre + SliceName(base, n)) == Some((pre + base, n))
    ensures IdOf(c, pre + SliceName(base, n)) == SliceName(base, n)
    ensures NodeOf(c.p, c.inv, pre + SliceName(base, n)) == Some(x.nodes[base])
  {
    var raw := SliceName(base, n);
    SlotIsNoNode(x, pre, base, n);
    assert IsRaw(x, raw) && IsRaw(x, base);
    PrefixedSlot(pre, base, n);
    SliceNameParses(pre + base, n);
    DecimalOf(n);
    NodeOfSliced(c.p, c.inv, pre + raw, base, Digits(n));
  }

  // ---- built graphs are well formed ---------------------------------------------------------------

  predicate IsKeyedNode(x: Design, kb: map<string, string>, id: string) {
    id in x.nodes && x.nodes[id].Operator? && SeedWired(x, kb, id)
  }

  /** Some Parameter is wired to the port, said of the edges. */
  lemma ParameterEdge(x: Design, id: string, port: string)
    ensures ParameterWired(x, id, port) <==>
            exists i :: 0 <= i < |EdgesOf(x.wires)| && EdgesOf(x.wires)[i].destination == id &&
              EdgesOf(x.wires)[i].position == port &&
              EdgesOf(x.wires)[i].source in x.nodes && x.nodes[EdgesOf(x.wires)[i].source].Parameter?
  {
    var edges := EdgesOf(x.wires);
    assert forall j :: 0 <= j < |x.wires| ==>
             edges[j] == Edge(x.wires[j].source, x.wires[j].destination, x.wires[j].position);
  }

  /** The operators that get a key are those whose seed is wired. */
  lemma KeyedAsBuilt(x: Design, pre: string, c: Ctx, id: string)
    requires IsBuilt(x, pre, c) && PlainIds(x, pre) && id in x.nodes
    ensures Keyed(c, pre + id) <==> IsKeyedNode(x, c.kb, id)
  {
    ReadAsBuilt(x, pre, c, id);
    EligibleIff(c, pre + id, id);
    if x.nodes[id].Operator? {
      NodeFn(x, pre, c, id);
      ParameterEdge(x, id, SeedParam(c, x.nodes[id].name));
    }
  }

  /** A slot is keyed with its operator, and never taken for an operator itself in place of one that is not keyed. */
  lemma SlotKeyedAsBuilt(x: Design, pre: string, c: Ctx, base: string, n: nat, rank: map<string, nat>)
    requires IsBuilt(x, pre, c) && PlainIds(x, pre) && base in x.nodes && IsSlotOf(x, base, n)
    requires GoesUp(x, rank)
    ensures !Keyed(c, pre + SliceName(base, n))
    ensures KeyedSlice(c, pre + SliceName(base, n)) <==> IsKeyedNode(x, c.kb, base)
    ensures IsKeyedNode(x, c.kb, base) || !Eligible(c, pre + SliceName(base, n))
  {
    SlotReadAsBuilt(x, pre, c, base, n);
    SlotIsNoNode(x, pre, base, n);
    KeyedAsBuilt(x, pre, c, base);
    if !IsKeyedNode(x, c.kb, base) && x.nodes[base].Operator? {
      assert forall j :: 0 <= j < |c.p.edges| ==> c.p.edges[j].destination == x.wires[j].destination;
      assert !HasSeed(c.p, SliceName(base, n), SeedParam(c, x.nodes[base].name));
    }
  }

  function RankOf(rank: map<string, nat>, raw: string): nat {
    if raw in rank then 2 * rank[raw]
    else
      match ParseSlice(raw)
      case Some((base, _)) => if base in rank then 2 * rank[base] + 1 else 0
      case None => 0
  }

  ghost function GraphRank(c: Ctx, rank: map<string, nat>): map<string, nat> {
    map k | k in c.g.entry && k in c.inv :: RankOf(rank, c.inv[k])
  }

  /** What a wire brings is in the graph, below what it is wired to. */
  lemma BroughtBelow(x: Design, pre: string, c: Ctx, rank: map<string, nat>, j: nat)
    requires IsBuilt(x, pre, c) && PlainIds(x, pre) && GoesUp(x, rank) && j < |x.wires|
    ensures IsRaw(x, Brings(x, x.wires[j])) && pre + Brings(x, x.wires[j]) in c.g.entry
    ensures RankOf(rank, Brings(x, x.wires[j])) < RankOf(rank, x.wires[j].destination)
  {
    var w := x.wires[j];
    if HasSlots(x, w.source) {
      assert IsSlotOf(x, w.source, w.output);
      SlotIsNoNode(x, pre, w.source, w.output);
      SliceNameParses(w.source, w.output);
    }
  }

  /** The dependency is of lower rank. */
  ghost predicate IsAbove(c: Ctx, rank: map<string, nat>, d: Arg, raw: string) {
    d.Ref? && d.key in c.inv && RankOf(rank, c.inv[d.key]) < RankOf(rank, raw)
  }

  lemma NodeEntryRanked(x: Design, pre: string, c: Ctx, rank: map<string, nat>, id: string, i: nat)
    requires IsBuilt(x, pre, c) && PlainIds(x, pre) && GoesUp(x, rank) && id in x.nodes
    requires pre + id in c.g.entry && c.g.entry[pre + id].Task? && i < |c.g.entry[pre + id].deps|
    ensures IsAbove(c, rank, c.g.entry[pre + id].deps[i], id)
  {
    assert IsNodeEntry(x, pre, id, c.g.entry[pre + id]);
    BroughtBelow(x, pre, c, rank, x.args[id][i]);
  }

  lemma SlotEntryRanked(x: Design, pre: string, c: Ctx, rank: map<string, nat>, raw: string, i: nat)
    requires IsBuilt(x, pre, c) && PlainIds(x, pre) && GoesUp(x, rank) && IsRaw(x, raw) && raw !in x.nodes
    requires pre + raw in c.g.entry && c.g.entry[pre + raw].Task? && i < |c.g.entry[pre + raw].deps|
    requires c.g.entry[pre + raw].deps[i].Ref?
    ensures IsAbove(c, rank, c.g.entry[pre + raw].deps[i], raw)
  {
    var base, n := RawIs(x, raw);
    SlotEntry(x, pre, c, base, n);
    SliceNameParses(base, n);
    SlotIsNoNode(x, pre, base, n);
  }

  lemma SlotEntry(x: Design, pre: string, c: Ctx, base: string, n: nat)
    requires IsBuilt(x, pre, c) && IsSlotOf(x, base, n)
    ensures pre + SliceName(base, n) in c.g.entry
    ensures c.g.entry[pre + SliceName(base, n)] == Task(SliceFn, [Ref(pre + base), Lit(n)])
    ensures base in x.nodes ==> pre + base in c.inv && c.inv[pre + base] == base
  {
    assert IsRaw(x, SliceName(base, n));
    assert base in x.nodes ==> IsRaw(x, base);
  }

  /** What an entry of the graph is: a node's, or a slot's. */
  lemma RawIs(x: Design, raw: string) returns (base: string, n: nat)
    requires IsRaw(x, raw) && raw !in x.nodes
    ensures IsSlotOf(x, base, n) && raw == SliceName(base, n)
  {
    base, n :| IsSlotOf(x, base, n) && raw == SliceName(base, n);
  }

  lemma RawOf(x: Design, pre: string, c: Ctx, k: string) returns (raw: string)
    requires IsBuilt(x, pre, c) && k in c.g.entry
    ensures IsRaw(x, raw) && k == pre + raw && k in c.inv && c.inv[k] == raw
  {
    raw :| IsRaw(x, raw) && k == pre + raw;
  }

  lemma BuiltIsRanked(x: Design, pre: string, c: Ctx, rank: map<string, nat>)
    requires IsBuilt(x, pre, c) && PlainIds(x, pre) && GoesUp(x, rank)
    ensures Ranked(c.g, GraphRank(c, rank))
  {
    forall k | k in c.g.entry
      ensures k in c.inv
    {
      var _ := RawOf(x, pre, c, k);
    }
    forall k, i: nat | k in c.g.entry && c.g.entry[k].Task? && i < |c.g.entry[k].deps| && c.g.entry[k].deps[i].Ref? &&
                       c.g.entry[k].deps[i].key in c.g.entry
      ensures GraphRank(c, rank)[c.g.entry[k].deps[i].key] < GraphRank(c, rank)[k]
    {
      var raw := RawOf(x, pre, c, k);
      if raw in x.nodes {
        NodeEntryRanked(x, pre, c, rank, raw, i);
      } else {
        SlotEntryRanked(x, pre, c, rank, raw, i);
      }
    }
  }

  lemma SlotsNamedAsBuilt(x: Design, pre: string, c: Ctx, rank: map<string, nat>)
    requires IsBuilt(x, pre, c) && PlainIds(x, pre) && GoesUp(x, rank)
    ensures SlicesNamed(c)
  {
    forall k | k in c.g.entry && SliceOf(c, k).Some?
      ensures var (base, slot) := SliceOf(c, k).value;
              && c.g.entry[k] == Task(SliceFn, [Ref(base), Lit(slot)])
              && SliceOf(c, base).None? && (Keyed(c, base) || !Eligible(c, k))
    {
      var raw :| IsRaw(x, raw) && k == pre + raw;
      if raw in x.nodes {
        ReadAsBuilt(x, pre, c, raw);
      } else {
        var base, n := RawIs(x, raw);
        SlotReadAsBuilt(x, pre, c, base, n);
        SlotKeyedAsBuilt(x, pre, c, base, n, rank);
        ReadAsBuilt(x, pre, c, base);
        KeyedAsBuilt(x, pre, c, base);
      }
    }
  }

  lemma ArgsAreWired(x: Design, id: string, args: seq<nat>)
    requires ArgsOf(x, id, args)
    ensures args == [] || exists j :: 0 <= j < |x.wires| && x.wires[j].destination == id
  {
    if args != [] {
      assert x.wires[args[0]].destination == id;
    }
  }

  /** A Parameter with one output and nothing wired to it is accounted for by its key. */
  lemma ParameterIsAccounted(x: Design, pre: string, c: Ctx, id: string)
    requires IsBuilt(x, pre, c) && PlainIds(x, pre) && id in x.nodes && x.nodes[id].Parameter?
    requires forall j :: 0 <= j < |x.wires| ==> x.wires[j].destination != id
    ensures Accounted(c, pre + id)
  {
    ReadAsBuilt(x, pre, c, id);
    assert IsNodeEntry(x, pre, id, c.g.entry[pre + id]);
    ArgsAreWired(x, id, x.args[id]);
  }

  /** What feeds a keyed operator is accounted for by its key. */
  lemma BroughtIsAccounted(x: Design, pre: string, c: Ctx, rank: map<string, nat>, j: nat)
    requires IsBuilt(x, pre, c) && PlainIds(x, pre) && GoesUp(x, rank) && j < |x.wires|
    requires x.wires[j].source in x.nodes && Feeds(x, c.kb, x.wires[j].source)
    ensures Accounted(c, pre + Brings(x, x.wires[j]))
  {
    var w := x.wires[j];
    if x.nodes[w.source].Parameter? {
      ParameterIsAccounted(x, pre, c, w.source);
    } else if HasSlots(x, w.source) {
      assert IsSlotOf(x, w.source, w.output);
      SlotReadAsBuilt(x, pre, c, w.source, w.output);
      SlotKeyedAsBuilt(x, pre, c, w.source, w.output, rank);
    } else {
      KeyedAsBuilt(x, pre, c, w.source);
    }
  }

  /** The keyed entries are those of operators. */
  lemma KeyedIsNode(x: Design, pre: string, c: Ctx, rank: map<string, nat>, k: string) returns (id: string)
    requires IsBuilt(x, pre, c) && PlainIds(x, pre) && GoesUp(x, rank) && k in c.g.entry && Keyed(c, k)
    ensures id in x.nodes && k == pre + id && IsKeyedNode(x, c.kb, id)
  {
    id := RawOf(x, pre, c, k);
    if id in x.nodes {
      KeyedAsBuilt(x, pre, c, id);
    } else {
      var base, n := RawIs(x, id);
      SlotKeyedAsBuilt(x, pre, c, base, n, rank);
      assert false;
    }
  }

  lemma NodeUpstreams(x: Design, pre: string, c: Ctx, rank: map<string, nat>, id: string, i: nat)
    requires IsBuilt(x, pre, c) && PlainIds(x, pre) && GoesUp(x, rank) && WellFed(x, c.kb)
    requires IsKeyedNode(x, c.kb, id) && pre + id in c.g.entry && c.g.entry[pre + id].Task?
    requires i < |c.g.entry[pre + id].deps|
    ensures c.g.entry[pre + id].deps[i].Ref? && Accounted(c, c.g.entry[pre + id].deps[i].key)
  {
    assert IsNodeEntry(x, pre, id, c.g.entry[pre + id]);
    var j := x.args[id][i];
    assert x.wires[j].destination == id;
    BroughtIsAccounted(x, pre, c, rank, j);
  }

  lemma NodeFn(x: Design, pre: string, c: Ctx, id: string)
    requires IsBuilt(x, pre, c) && PlainIds(x, pre) && id in x.nodes && x.nodes[id].Operator?
    ensures pre + id in c.g.entry && c.g.entry[pre + id].Task? && c.g.entry[pre + id].fn.OpFn?
    ensures NodeOf(c.p, c.inv, pre + id) == Some(x.nodes[id]) && c.g.entry[pre + id].fn.fqn == x.nodes[id].name
  {
    ReadAsBuilt(x, pre, c, id);
    assert IsNodeEntry(x, pre, id, c.g.entry[pre + id]);
  }

  lemma UpstreamsAsBuilt(x: Design, pre: string, c: Ctx, rank: map<string, nat>)
    requires IsBuilt(x, pre, c) && PlainIds(x, pre) && GoesUp(x, rank) && WellFed(x, c.kb)
    ensures UpstreamsAccounted(c)
  {
    forall k | k in c.g.entry && Keyed(c, k)
      ensures c.g.entry[k].fn.OpFn? && c.g.entry[k].fn.fqn == NodeOf(c.p, c.inv, k).value.name
      ensures forall i :: 0 <= i < |c.g.entry[k].deps| ==>
                c.g.entry[k].deps[i].Ref? && Accounted(c, c.g.entry[k].deps[i].key)
    {
      var id := KeyedIsNode(x, pre, c, rank, k);
      NodeFn(x, pre, c, id);
      forall i: nat | i < |c.g.entry[k].deps|
        ensures c.g.entry[k].deps[i].Ref? && Accounted(c, c.g.entry[k].deps[i].key)
      {
        NodeUpstreams(x, pre, c, rank, id, i);
      }
    }
  }

  /** The graph built of an acyclic pipeline is well formed for the cache, whatever the run's prefix, when ids are plain
      and each operator with its seed is fed by such operators and by Parameters. */
  lemma BuiltIsWellFormed(x: Design, pre: string, c: Ctx, rank: map<string, nat>)
    requires IsBuilt(x, pre, c) && PlainIds(x, pre) && GoesUp(x, rank) && WellFed(x, c.kb)
    ensures WellFormed(c, GraphRank(c, rank))
  {
    BuiltIsRanked(x, pre, c, rank);
    SlotsNamedAsBuilt(x, pre, c, rank);
    UpstreamsAsBuilt(x, pre, c, rank);
  }

  // ---- keyword ports -------------------------------------------------------------------------------

  lemma {:induction false} LookupIff(params: Params, handle: string)
    ensures Lookup(params, handle).Some? <==> exists i :: 0 <= i < |params| && params[i].0 == handle
  {
    if params != [] && params[0].0 != handle {
      LookupIff(params[1..], handle);
      assert forall i :: 1 <= i < |params| ==> params[i] == params[1..][i - 1];
    }
  }

  lemma {:induction false} HandlesAre(p: Pipeline, id: string, n: nat, handle: string)
    requires n <= |p.edges|
    ensures Lookup(ParamsOf(p, id, n), handle).Some? <==>
            exists i :: 0 <= i < n && Wired(p, id, i) && p.edges[i].position == handle
  {
    if n > 0 {
      var e := p.edges[n - 1];
      HandlesAre(p, id, n - 1, handle);
      if Wired(p, id, n - 1) {
        BindLookup(ParamsOf(p, id, n - 1), e.position, ParamVal(p.nodes[e.source].dtype, p.nodes[e.source].value),
                   handle);
      }
    }
  }

  predicate Ascends(names: seq<string>) {
    forall i, j :: 0 <= i < j < |names| ==> Before(names[i], names[j])
  }

  lemma FirstOfBoth(a: seq<string>, b: seq<string>)
    requires Ascends(a) && Ascends(b) && a != [] && a[0] in b && b[0] in a
    ensures a[0] == b[0]
  {
    if a[0] != b[0] {
      BeforeTransitive(a[0], b[0], a[0]);
      BeforeIrreflexive(a[0]);
    }
  }

  lemma InRest(a: seq<string>, k: string)
    requires Ascends(a) && a != []
    ensures k in a[1..] <==> k in a && k != a[0]
  {
    BeforeIrreflexive(a[0]);
    assert a == [a[0]] + a[1..];
  }

  lemma {:induction false} SortedSame(a: seq<string>, b: seq<string>)
    requires Ascends(a) && Ascends(b) && forall k :: k in a <==> k in b
    ensures a == b
  {
    if a != [] {
      assert a[0] in a;
    }
    if b != [] {
      assert b[0] in b;
      assert a[0] in a && b[0] in a;
      FirstOfBoth(a, b);
      forall k ensures k in a[1..] <==> k in b[1..] {
        InRest(a, k);
        InRest(b, k);
      }
      SortedSame(a[1..], b[1..]);
    }
  }

  /** The Parameters' keywords are those with a Parameter wired to them, sorted. */
  lemma ParameterKeywords(x: Design, id: string, k: string)
    ensures var params := ParamsOf(Pipeline(x.nodes, EdgesOf(x.wires)), id, |x.wires|);
            && Ascends(KeywordsOf(params))
            && (k in KeywordsOf(params) <==> ParseInt(k).None? && ParameterWired(x, id, k))
  {
    var p := Pipeline(x.nodes, EdgesOf(x.wires));
    var params := ParamsOf(p, id, |x.wires|);
    ParamsSorted(p, id, |x.wires|);
    KeywordsAre(params);
    LookupIff(params, k);
    HandlesAre(p, id, |x.wires|, k);
    ParameterEdge(x, id, k);
  }

  /** Every keyword port of the operator has a Parameter wired to it. */
  predicate PortsFed(x: Design, id: string) {
    forall j :: 0 <= j < |x.wires| && x.wires[j].destination == id && IsKeywordPort(x.wires[j]) ==>
      ParameterWired(x, id, x.wires[j].position)
  }

  lemma KeywordsFedIff(x: Design, id: string, names: seq<string>)
    requires AreKeywords(x, id, names)
    ensures PortsFed(x, id) <==> names == KeywordsOf(ParamsOf(Pipeline(x.nodes, EdgesOf(x.wires)), id, |x.wires|))
  {
    var fed := KeywordsOf(ParamsOf(Pipeline(x.nodes, EdgesOf(x.wires)), id, |x.wires|));
    forall k
      ensures Ascends(fed) && (k in fed <==> ParseInt(k).None? && ParameterWired(x, id, k))
    {
      ParameterKeywords(x, id, k);
    }
    ParameterKeywords(x, id, "");
    if PortsFed(x, id) {
      SortedSame(names, fed);
    }
    if names == fed {
      forall j | 0 <= j < |x.wires| && x.wires[j].destination == id && IsKeywordPort(x.wires[j])
        ensures ParameterWired(x, id, x.wires[j].position)
      {
        assert HasKeyword(x, id, x.wires[j].position);
      }
    }
  }

  /** The keys of a built graph can be faithful exactly when every keyword port of a keyed operator has a Parameter. */
  lemma PortsKnownIff(x: Design, pre: string, c: Ctx, rank: map<string, nat>)
    requires IsBuilt(x, pre, c) && PlainIds(x, pre) && GoesUp(x, rank)
    ensures PortsKnown(c) <==> forall id :: IsKeyedNode(x, c.kb, id) ==> PortsFed(x, id)
  {
    if PortsKnown(c) {
      forall id | IsKeyedNode(x, c.kb, id)
        ensures PortsFed(x, id)
      {
        NodePorts(x, pre, c, id);
      }
    }
    if forall id :: IsKeyedNode(x, c.kb, id) ==> PortsFed(x, id) {
      forall k | k in c.g.entry && Keyed(c, k) && c.g.entry[k].fn.OpFn?
        ensures c.g.entry[k].fn.kwNames == KeywordsOf(ParamsOf(c.p, IdOf(c, k), |c.p.edges|))
      {
        var id := KeyedIsNode(x, pre, c, rank, k);
        NodePorts(x, pre, c, id);
      }
    }
  }

  lemma NodePorts(x: Design, pre: string, c: Ctx, id: string)
    requires IsBuilt(x, pre, c) && PlainIds(x, pre) && IsKeyedNode(x, c.kb, id)
    ensures pre + id in c.g.entry && Keyed(c, pre + id) && c.g.entry[pre + id].fn.OpFn?
    ensures PortsFed(x, id) <==>
            c.g.entry[pre + id].fn.kwNames == KeywordsOf(ParamsOf(c.p, IdOf(c, pre + id), |c.p.edges|))
  {
    ReadAsBuilt(x, pre, c, id);
    KeyedAsBuilt(x, pre, c, id);
    NodeFn(x, pre, c, id);
    assert IsNodeEntry(x, pre, id, c.g.entry[pre + id]);
    KeywordsFedIff(x, id, c.g.entry[pre + id].fn.kwNames);
  }
}
