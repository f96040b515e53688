// What the task graph of a pipeline computes, said of the pipeline alone.
module PipelineMeaning {
  import opened Wrappers
  import opened Values
  import opened TaskGraph
  import opened CacheKeys
  import opened Elision
  import opened BuiltGraph

  /** The value of a node in a run. */
  ghost function NodeValue(sem: Semantics, x: Design, pre: string, c: Ctx, rank: map<string, nat>, id: string): Value
    requires IsBuilt(x, pre, c) && Ranked(c.g, rank) && id in x.nodes
  {
    assert IsRaw(x, id);
    Eval(sem, c.root, c.g, rank, pre + id)
  }

  lemma SliceValue(sem: Semantics, root: Option<string>, g: Graph, rank: map<string, nat>, k: string, base: string,
                   n: nat)
    requires Ranked(g, rank) && AsRunner(sem) && k in g.entry && base in g.entry
    requires g.entry[k] == Task(SliceFn, [Ref(base), Lit(n)])
    ensures Eval(sem, root, g, rank, k) == Index(Eval(sem, root, g, rank, base), n)
  {
    EvalTask(sem, root, g, rank, k);
  }

  /** A slot has its item of the node's output. */
  lemma SlotValue(sem: Semantics, x: Design, pre: string, c: Ctx, rank: map<string, nat>, base: string, n: nat)
    requires IsBuilt(x, pre, c) && Ranked(c.g, rank) && AsRunner(sem) && base in x.nodes && IsSlotOf(x, base, n)
    ensures pre + SliceName(base, n) in c.g.entry
    ensures Eval(sem, c.root, c.g, rank, pre + SliceName(base, n)) ==
            Index(NodeValue(sem, x, pre, c, rank, base), n)
  {
    SlotEntry(x, pre, c, base, n);
    assert IsRaw(x, base);
    SliceValue(sem, c.root, c.g, rank, pre + SliceName(base, n), pre + base, n);
  }

  /** What a wire carries: the whole output of its source, unless some wire leaves the source at a later port or the
      source is a method shortcut, and then the item at the wire's own port. */
  ghost function Carried(sem: Semantics, x: Design, pre: string, c: Ctx, rank: map<string, nat>, w: Wire): Value
    requires IsBuilt(x, pre, c) && Ranked(c.g, rank) && w.source in x.nodes
  {
    var v := NodeValue(sem, x, pre, c, rank, w.source);
    var node := x.nodes[w.source];
    if (exists i :: 0 <= i < |x.wires| && x.wires[i].source == w.source && x.wires[i].output > 0) ||
       (node.Operator? && node.name in x.shortcuts)
    then Index(v, w.output) else v
  }

  lemma WireValue(sem: Semantics, x: Design, pre: string, c: Ctx, rank: map<string, nat>, j: nat)
    requires IsBuilt(x, pre, c) && Ranked(c.g, rank) && AsRunner(sem) && j < |x.wires| && x.wires[j].source in x.nodes
    ensures pre + Brings(x, x.wires[j]) in c.g.entry
    ensures Eval(sem, c.root, c.g, rank, pre + Brings(x, x.wires[j])) ==
            Carried(sem, x, pre, c, rank, x.wires[j])
  {
    var w := x.wires[j];
    assert IsRaw(x, w.source);
    if HasSlots(x, w.source) {
      assert IsSlotOf(x, w.source, w.output);
      SlotValue(sem, x, pre, c, rank, w.source, w.output);
    }
  }

  /** The values its wires carry, in the order of the arguments. */
  ghost function Arguments(sem: Semantics, x: Design, pre: string, c: Ctx,
                           rank: map<string, nat>, id: string): seq<Value>
    requires IsBuilt(x, pre, c) && Ranked(c.g, rank) && id in x.nodes
    requires forall j :: 0 <= j < |x.wires| ==> x.wires[j].source in x.nodes
  {
    assert ArgsOf(x, id, x.args[id]);
    seq(|x.args[id]|, i requires 0 <= i < |x.args[id]| => Carried(sem, x, pre, c, rank, x.wires[x.args[id][i]]))
  }

  /** The graph computes the pipeline: a node's value is its callable's on what its wires carry. */
  lemma GraphComputesPipeline(sem: Semantics, x: Design, pre: string, c: Ctx, rank: map<string, nat>, id: string)
    requires IsBuilt(x, pre, c) && Ranked(c.g, rank) && AsRunner(sem) && id in x.nodes
    requires forall j :: 0 <= j < |x.wires| ==> x.wires[j].source in x.nodes
    ensures var args := Arguments(sem, x, pre, c, rank, id);
            match x.nodes[id]
            case Operator(name, _) => exists keywords ::
              AreKeywords(x, id, keywords) &&
              NodeValue(sem, x, pre, c, rank, id) == sem.op(name, c.root, keywords, args)
            case Parameter(_, dtype, value) => NodeValue(sem, x, pre, c, rank, id) == sem.param(dtype, value)
            case Snippet(_) => exists code :: NodeValue(sem, x, pre, c, rank, id) == sem.code(code, args)
  {
    var args := Arguments(sem, x, pre, c, rank, id);
    NodeIsEntry(x, pre, c, id);
    var e := c.g.entry[pre + id];
    ArgumentsAre(sem, x, pre, c, rank, id);
    EvalTask(sem, c.root, c.g, rank, pre + id);
    if x.nodes[id].Operator? {
      assert AreKeywords(x, id, e.fn.kwNames);
    }
  }

  lemma NodeIsEntry(x: Design, pre: string, c: Ctx, id: string)
    requires IsBuilt(x, pre, c) && id in x.nodes
    ensures pre + id in c.g.entry && id in x.args && ArgsOf(x, id, x.args[id])
    ensures IsNodeEntry(x, pre, id, c.g.entry[pre + id])
  {
    assert IsRaw(x, id);
  }

  lemma ArgumentsAre(sem: Semantics, x: Design, pre: string, c: Ctx, rank: map<string, nat>, id: string)
    requires IsBuilt(x, pre, c) && Ranked(c.g, rank) && AsRunner(sem) && id in x.nodes
    requires forall j :: 0 <= j < |x.wires| ==> x.wires[j].source in x.nodes
    requires pre + id in c.g.entry && c.g.entry[pre + id].Task?
    ensures EvalArgs(sem, c.root, c.g, rank, c.g.entry[pre + id].deps) == Arguments(sem, x, pre, c, rank, id)
  {
    NodeIsEntry(x, pre, c, id);
    var (got, want) := (EvalArgs(sem, c.root, c.g, rank, c.g.entry[pre + id].deps),
                        Arguments(sem, x, pre, c, rank, id));
    forall i | 0 <= i < |want|
      ensures got[i] == want[i]
    {
      WireValue(sem, x, pre, c, rank, x.args[id][i]);
    }
  }
}
