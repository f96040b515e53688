// What one run stores the next one finds: keys ignore the prefix of the run.
module RunReuse {
  import opened Wrappers
  import opened Sequences
  import opened PyText
  import opened Values
  import opened TaskGraph
  import opened TopoOrder
  import opened CacheKeys
  import opened Elision
  import opened CacheRuns
  import opened BuiltGraph

  /** Two runs of one pipeline, on one data set, under two prefixes. */
  ghost predicate AreRunsOf(x: Design, pre: string, c: Ctx, pre': string, c': Ctx, rank: map<string, nat>) {
    && IsBuilt(x, pre, c) && IsBuilt(x, pre', c') && PlainIds(x, pre) && PlainIds(x, pre') && GoesUp(x, rank)
    && WellFed(x, c.kb) && c.kb == c'.kb && c.root == c'.root
    && WellFormed(c, GraphRank(c, rank)) && WellFormed(c', GraphRank(c', rank))
  }

  ghost function NodeKey(x: Design, pre: string, c: Ctx, rank: map<string, nat>, id: string): Hash
    requires IsBuilt(x, pre, c) && PlainIds(x, pre) && WellFormed(c, GraphRank(c, rank)) && IsKeyedNode(x, c.kb, id)
  {
    KeyedAsBuilt(x, pre, c, id);
    KeyOf(c, GraphRank(c, rank), pre + id)
  }

  ghost function WireKey(x: Design, pre: string, c: Ctx, rank: map<string, nat>, j: nat): Hash
    requires IsBuilt(x, pre, c) && PlainIds(x, pre) && GoesUp(x, rank) && WellFormed(c, GraphRank(c, rank))
    requires j < |x.wires| && Feeds(x, c.kb, x.wires[j].source)
  {
    BroughtIsAccounted(x, pre, c, rank, j);
    DepKey(c, GraphRank(c, rank), pre + Brings(x, x.wires[j]))
  }

  /** A node's key has the node's own fields. */
  lemma NodeKeyIs(x: Design, pre: string, c: Ctx, rank: map<string, nat>, id: string)
    requires IsBuilt(x, pre, c) && PlainIds(x, pre) && GoesUp(x, rank) && WellFed(x, c.kb)
    requires WellFormed(c, GraphRank(c, rank)) && IsKeyedNode(x, c.kb, id)
    ensures var key := NodeKey(x, pre, c, rank, id);
            && key.OpHash? && key.fqn == x.nodes[id].name && key.tasks == x.nodes[id].tasks
            && key.params == ParamsOf(Pipeline(x.nodes, EdgesOf(x.wires)), id, |x.wires|)
            && key.root == c.root && |key.upstream| == |x.args[id]|
  {
    ReadAsBuilt(x, pre, c, id);
    KeyedAsBuilt(x, pre, c, id);
    NodeFn(x, pre, c, id);
    assert IsNodeEntry(x, pre, id, c.g.entry[pre + id]);
  }

  /** Its upstream keys are those of what its wires bring. */
  lemma UpstreamIs(x: Design, pre: string, c: Ctx, rank: map<string, nat>, id: string, i: nat)
    requires IsBuilt(x, pre, c) && PlainIds(x, pre) && GoesUp(x, rank) && WellFed(x, c.kb)
    requires WellFormed(c, GraphRank(c, rank)) && IsKeyedNode(x, c.kb, id)
    requires NodeKey(x, pre, c, rank, id).OpHash? && i < |NodeKey(x, pre, c, rank, id).upstream| == |x.args[id]|
    ensures x.args[id][i] < |x.wires| && x.wires[x.args[id][i]].destination == id
    ensures Feeds(x, c.kb, x.wires[x.args[id][i]].source)
    ensures NodeKey(x, pre, c, rank, id).upstream[i] == WireKey(x, pre, c, rank, x.args[id][i])
  {
    ReadAsBuilt(x, pre, c, id);
    KeyedAsBuilt(x, pre, c, id);
    assert IsNodeEntry(x, pre, id, c.g.entry[pre + id]);
  }

  lemma ParameterDepKey(c: Ctx, rank: map<string, nat>, r: string, node: Node)
    requires WellFormed(c, rank) && Accounted(c, r) && SliceOf(c, r).None?
    requires node.Parameter? && NodeOf(c.p, c.inv, r) == Some(node)
    ensures DepKey(c, rank, r) == ParamHash(node.name, node.dtype, node.value)
  {
  }

  lemma ParameterWireKeyIs(x: Design, pre: string, c: Ctx, rank: map<string, nat>, j: nat)
    requires IsBuilt(x, pre, c) && PlainIds(x, pre) && GoesUp(x, rank) && WellFormed(c, GraphRank(c, rank))
    requires j < |x.wires| && Feeds(x, c.kb, x.wires[j].source) && x.nodes[x.wires[j].source].Parameter?
    ensures var node := x.nodes[x.wires[j].source];
            WireKey(x, pre, c, rank, j) == ParamHash(node.name, node.dtype, node.value)
  {
    BroughtIsAccounted(x, pre, c, rank, j);
    ReadAsBuilt(x, pre, c, x.wires[j].source);
    ParameterDepKey(c, GraphRank(c, rank), pre + x.wires[j].source, x.nodes[x.wires[j].source]);
  }

  lemma SlotWireKeyIs(x: Design, pre: string, c: Ctx, rank: map<string, nat>, j: nat)
    requires IsBuilt(x, pre, c) && PlainIds(x, pre) && GoesUp(x, rank) && WellFormed(c, GraphRank(c, rank))
    requires j < |x.wires| && IsKeyedNode(x, c.kb, x.wires[j].source) && HasSlots(x, x.wires[j].source)
    ensures WireKey(x, pre, c, rank, j) == SlotHash(NodeKey(x, pre, c, rank, x.wires[j].source), x.wires[j].output)
  {
    var w := x.wires[j];
    assert IsSlotOf(x, w.source, w.output);
    SlotReadAsBuilt(x, pre, c, w.source, w.output);
    SlotKeyedAsBuilt(x, pre, c, w.source, w.output, rank);
  }

  /** The key of what a wire brings from an operator: the operator's, or that of its slot. */
  lemma WireKeyIs(x: Design, pre: string, c: Ctx, rank: map<string, nat>, j: nat)
    requires IsBuilt(x, pre, c) && PlainIds(x, pre) && GoesUp(x, rank) && WellFormed(c, GraphRank(c, rank))
    requires j < |x.wires| && IsKeyedNode(x, c.kb, x.wires[j].source)
    ensures var (w, key) := (x.wires[j], NodeKey(x, pre, c, rank, x.wires[j].source));
            WireKey(x, pre, c, rank, j) == if HasSlots(x, w.source) then SlotHash(key, w.output) else key
  {
    if HasSlots(x, x.wires[j].source) {
      SlotWireKeyIs(x, pre, c, rank, j);
    } else {
      KeyedAsBuilt(x, pre, c, x.wires[j].source);
    }
  }

  /** The key of a node is the same in every run of the pipeline on a data set. */
  lemma {:induction false} KeyIgnoresPrefix(x: Design, pre: string, c: Ctx, pre': string, c': Ctx,
                                            rank: map<string, nat>, id: string)
    requires AreRunsOf(x, pre, c, pre', c', rank) && IsKeyedNode(x, c.kb, id)
    ensures NodeKey(x, pre, c, rank, id) == NodeKey(x, pre', c', rank, id)
    decreases rank[id]
  {
    NodeKeyIs(x, pre, c, rank, id);
    NodeKeyIs(x, pre', c', rank, id);
    var (key, key') := (NodeKey(x, pre, c, rank, id), NodeKey(x, pre', c', rank, id));
    forall i | 0 <= i < |key.upstream|
      ensures key.upstream[i] == key'.upstream[i]
    {
      var j := x.args[id][i];
      UpstreamIs(x, pre, c, rank, id, i);
      UpstreamIs(x, pre', c', rank, id, i);
      if x.nodes[x.wires[j].source].Operator? {
        WireKeyIs(x, pre, c, rank, j);
        WireKeyIs(x, pre', c', rank, j);
        KeyIgnoresPrefix(x, pre, c, pre', c', rank, x.wires[j].source);
      } else {
        ParameterWireKeyIs(x, pre, c, rank, j);
        ParameterWireKeyIs(x, pre', c', rank, j);
      }
    }
    assert key.upstream == key'.upstream;
  }

  // ---- the second run ------------------------------------------------------------------------------

  /** A run of the pipeline that stored a node's output makes the same node a hit in any later run of it on the data
      set, under any prefix: its entry is the value it would have computed. */
  lemma SecondRunHits(sem: Semantics, r: Run, store: Store, i: nat, x: Design, pre: string, pre': string, c': Ctx,
                      rank: map<string, nat>, id: string)
    requires AsRunner(sem) && CacheSound(sem, store) && Possible(sem, r, store)
    requires AreRunsOf(x, pre, r.c, pre', c', rank) && r.rank == GraphRank(r.c, rank)
    requires IsKeyedNode(x, c'.kb, id) && forall n :: IsKeyedNode(x, c'.kb, n) ==> PortsFed(x, n)
    requires i < |r.items| && r.items[i].0 == pre + id && pre + id in r.finished
    requires !Results(sem, r, store)[pre + id].Tuple?
    requires Puts(r.items[i].1, Results(sem, r, store)[pre + id], r.failing)
    ensures pre' + id in c'.g.entry && Keyed(c', pre' + id)
    ensures ElidedEntry(c', GraphRank(c', rank), StoreAll(store, r.items, Results(sem, r, store), r.failing), pre' + id)
            == Const(Eval(sem, c'.root, c'.g, GraphRank(c', rank), pre' + id))
  {
    KeyedAsBuilt(x, pre, r.c, id);
    KeyedAsBuilt(x, pre', c', id);
    PortsKnownIff(x, pre', c', rank);
    KeyIgnoresPrefix(x, pre, r.c, pre', c', rank, id);
    SameKeyHits(sem, r, store, i, c', GraphRank(c', rank), pre' + id);
  }
}
