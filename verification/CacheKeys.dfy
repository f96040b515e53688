// Content-addressed keys of the intermediates cache; digests are ideal.
module CacheKeys {
  import opened Wrappers
  import opened Values
  import opened TaskGraph
  import opened PyText

  datatype Node =
    | Operator(name: string, tasks: seq<string>)
    | Snippet(name: string)
    | Parameter(name: string, dtype: string, value: string)

  datatype Edge = Edge(source: string, destination: string, position: string)

  datatype Pipeline = Pipeline(nodes: map<string, Node>, edges: seq<Edge>)

  datatype ParamVal = ParamVal(dtype: string, value: string)

  type Params = seq<(string, ParamVal)>

  datatype Hash =
    | OpHash(fqn: string, tasks: seq<string>, params: Params, upstream: seq<Hash>, root: Option<string>)
    | SlotHash(parent: Hash, slot: int)
    | ParamHash(name: string, dtype: string, value: string)
    | ConstHash(constant: Value) // JSON of a canonicalisable constant
    | ReprHash(entry: Entry)     // `repr` of anything else

  // ---- names -------------------------------------------------------------------

  /** `_try_parse_slice_key` before the look-up of the parent. */
  function ParseSlice(key: string): Option<(string, int)> {
    match RPartition(key)
    case None => None
    case Some((base, suffix)) =>
      match ParseInt(suffix)
      case None => None
      case Some(slot) => Some((base, slot))
  }

  /** The slot of every slice name is read back, whatever the name of what is sliced. */
  lemma SliceNameParses(base: string, n: nat)
    ensures ParseSlice(SliceName(base, n)) == Some((base, n))
  {
    DecimalOf(n);
    ParseDecimal(n);
    RPartitionAtLast(base, Digits(n));
  }

  /** `f"{src}_{edge.output}"`: what a slot of a node is called. */
  function SliceName(base: string, n: nat): string {
    base + "_" + Digits(n)
  }

  /** Only a name that ends in an underscore and a numeral is taken for a slice. */
  lemma ParseSliceIff(key: string, base: string, slot: int)
    ensures ParseSlice(key) == Some((base, slot)) <==>
            exists suffix :: '_' !in suffix && key == base + "_" + suffix && ParseInt(suffix) == Some(slot)
  {
    RPartitionFinds(key);
    forall suffix | '_' !in suffix && key == base + "_" + suffix && ParseInt(suffix) == Some(slot)
      ensures ParseSlice(key) == Some((base, slot))
    {
      RPartitionAtLast(base, suffix);
    }
  }

  /** `_try_parse_slice_key`: the parent must have been keyed. */
  function TryParseSliceKey(key: string, keyed: set<string>): Option<(string, int)> {
    match ParseSlice(key)
    case None => None
    case Some((base, slot)) => if base in keyed then Some((base, slot)) else None
  }

  /** The DAG node behind a graph key, or behind the key without its last `_` part. */
  function NodeOf(p: Pipeline, inv: map<string, string>, key: string): Option<Node> {
    var id := if key in inv then inv[key] else key;
    if id in p.nodes then Some(p.nodes[id])
    else
      match RPartition(id)
      case Some((base, _)) => if base in p.nodes then Some(p.nodes[base]) else None
      case None => None
  }

  // ---- parameters --------------------------------------------------------------

  /** A dict that is kept sorted by handle; a later binding replaces an earlier one. */
  function Bind(params: Params, handle: string, v: ParamVal): Params {
    if params == [] then [(handle, v)]
    else if params[0].0 == handle then [(handle, v)] + params[1..]
    else if Before(handle, params[0].0) then [(handle, v)] + params
    else [params[0]] + Bind(params[1..], handle, v)
  }

  /** The i-th edge wires a Parameter to the node. */
  predicate Wired(p: Pipeline, id: string, i: nat)
    requires i < |p.edges|
  {
    p.edges[i].destination == id && p.edges[i].source in p.nodes && p.nodes[p.edges[i].source].Parameter?
  }

  /** The Parameters wired to a node, over the first `n` edges. */
  function ParamsOf(p: Pipeline, id: string, n: nat): Params
    requires n <= |p.edges|
  {
    if n == 0 then []
    else
      var rest := ParamsOf(p, id, n - 1);
      var e := p.edges[n - 1];
      if Wired(p, id, n - 1) then Bind(rest, e.position, ParamVal(p.nodes[e.source].dtype, p.nodes[e.source].value))
      else rest
  }

  function Lookup(params: Params, handle: string): Option<ParamVal> {
    if params == [] then None
    else if params[0].0 == handle then Some(params[0].1)
    else Lookup(params[1..], handle)
  }

  predicate HandlesSorted(params: Params) {
    forall i, j :: 0 <= i < j < |params| ==> Before(params[i].0, params[j].0)
  }

  lemma {:induction false} BindLookup(params: Params, handle: string, v: ParamVal, other: string)
    ensures Lookup(Bind(params, handle, v), other) == if other == handle then Some(v) else Lookup(params, other)
  {
    if params != [] {
      BindLookup(params[1..], handle, v, other);
    }
  }

  lemma {:induction false} BindBounded(params: Params, handle: string, v: ParamVal, low: string)
    requires Before(low, handle) && forall i :: 0 <= i < |params| ==> Before(low, params[i].0)
    ensures forall i :: 0 <= i < |Bind(params, handle, v)| ==> Before(low, Bind(params, handle, v)[i].0)
  {
    if params != [] {
      BindBounded(params[1..], handle, v, low);
    }
  }

  lemma {:induction false} BindSorted(params: Params, handle: string, v: ParamVal)
    requires HandlesSorted(params)
    ensures HandlesSorted(Bind(params, handle, v))
  {
    if params != [] && params[0].0 != handle {
      if Before(handle, params[0].0) {
        forall j | 0 < j < |params| ensures Before(handle, params[j].0) {
          BeforeTransitive(handle, params[0].0, params[j].0);
        }
      } else {
        BeforeTotal(handle, params[0].0);
        BindSorted(params[1..], handle, v);
        BindBounded(params[1..], handle, v, params[0].0);
      }
    }
  }

  /** A handle has the Parameter of the last edge wired to it. */
  lemma {:induction false} LastBindingWins(p: Pipeline, id: string, n: nat, i: nat)
    requires i < n <= |p.edges| && Wired(p, id, i)
    requires forall j :: i < j < n && Wired(p, id, j) ==> p.edges[j].position != p.edges[i].position
    ensures var node := p.nodes[p.edges[i].source];
            Lookup(ParamsOf(p, id, n), p.edges[i].position) == Some(ParamVal(node.dtype, node.value))
  {
    var e := p.edges[n - 1];
    if Wired(p, id, n - 1) {
      BindLookup(ParamsOf(p, id, n - 1), e.position, ParamVal(p.nodes[e.source].dtype, p.nodes[e.source].value),
                 p.edges[i].position);
    }
    if i < n - 1 {
      LastBindingWins(p, id, n - 1, i);
    }
  }

  /** A handle no edge wires has no Parameter. */
  lemma {:induction false} NothingElseIsBound(p: Pipeline, id: string, n: nat, handle: string)
    requires n <= |p.edges| && forall i :: 0 <= i < n && Wired(p, id, i) ==> p.edges[i].position != handle
    ensures Lookup(ParamsOf(p, id, n), handle) == None
  {
    if n > 0 {
      var e := p.edges[n - 1];
      NothingElseIsBound(p, id, n - 1, handle);
      if Wired(p, id, n - 1) {
        BindLookup(ParamsOf(p, id, n - 1), e.position, ParamVal(p.nodes[e.source].dtype, p.nodes[e.source].value),
                   handle);
      }
    }
  }

  /** Handles come sorted, so each comes once, whatever the order of the edges. */
  lemma {:induction false} ParamsSorted(p: Pipeline, id: string, n: nat)
    requires n <= |p.edges|
    ensures HandlesSorted(ParamsOf(p, id, n))
  {
    if n > 0 {
      var e := p.edges[n - 1];
      ParamsSorted(p, id, n - 1);
      if Wired(p, id, n - 1) {
        BindSorted(ParamsOf(p, id, n - 1), e.position, ParamVal(p.nodes[e.source].dtype, p.nodes[e.source].value));
      }
    }
  }

  predicate HasSeed(p: Pipeline, id: string, seed: string) {
    exists i :: 0 <= i < |p.edges| && Wired(p, id, i) && p.edges[i].position == seed
  }

  /** The keyword arguments of a call whose keyword ports are all fed by Parameters. */
  function KeywordsOf(params: Params): seq<string> {
    if params == [] then []
    else (if ParseInt(params[0].0).Some? then [] else [params[0].0]) + KeywordsOf(params[1..])
  }

  /** `_params_and_seed_check`. */
  method ParamsAndSeedCheck(p: Pipeline, id: string, seed: string) returns (params: Params, hasSeed: bool)
    ensures params == ParamsOf(p, id, |p.edges|)
    ensures hasSeed <==> (seed != "" && HasSeed(p, id, seed))
  {
    params, hasSeed := [], false;
    for i := 0 to |p.edges|
      invariant params == ParamsOf(p, id, i)
      invariant hasSeed ==> seed != "" && HasSeed(p, id, seed)
      invariant seed != "" && !hasSeed ==>
                  forall j :: 0 <= j < i ==> !(Wired(p, id, j) && p.edges[j].position == seed)
    {
      var e := p.edges[i];
      if e.destination == id && e.source in p.nodes && p.nodes[e.source].Parameter? {
        if seed != "" && e.position == seed {
          hasSeed := true;
        }
        params := Bind(params, e.position, ParamVal(p.nodes[e.source].dtype, p.nodes[e.source].value));
      }
    }
  }

  // ---- constants ---------------------------------------------------------------

  predicate Canonicalisable(v: Value) {
    match v
    case Str(_) => true
    case Num(_) => true
    case Tuple(items) => forall i :: 0 <= i < |items| ==> Canonicalisable(items[i])
    case _ => false
  }

  function ConstantKey(e: Entry): Hash {
    match e
    case Const(v) => if Canonicalisable(v) then ConstHash(v) else ReprHash(e)
    case Task(_, _) => ReprHash(e)
  }

  /** `_upstream_key_for_dep`. */
  function UpstreamKeyForDep(dep: string, p: Pipeline, inv: map<string, string>, g: Graph): Hash {
    match NodeOf(p, inv, dep)
    case Some(Parameter(name, dtype, value)) => ParamHash(name, dtype, value)
    case _ => if dep in g.entry then ConstantKey(g.entry[dep]) else ConstHash(Str(dep))
  }

  // ---- what a key denotes ------------------------------------------------------

  function Denote(sem: Semantics, h: Hash): Value {
    match h
    case OpHash(fqn, _, params, upstream, root) =>
      sem.op(fqn, root, KeywordsOf(params), seq(|upstream|, i requires 0 <= i < |upstream| => Denote(sem, upstream[i])))
    case SlotHash(parent, slot) => Index(Denote(sem, parent), slot)
    case ParamHash(_, dtype, value) => sem.param(dtype, value)
    case ConstHash(v) => v
    case ReprHash(_) => Raised
  }

  // ---- what keys tell apart ------------------------------------------------------

  /** A handle that is no numeral. */
  predicate IsKeyword(params: Params, x: string) {
    ParseInt(x).None? && exists i :: 0 <= i < |params| && params[i].0 == x
  }

  lemma {:induction false} KeywordsHave(params: Params, x: string)
    ensures x in KeywordsOf(params) <==> IsKeyword(params, x)
  {
    if params != [] {
      KeywordsHave(params[1..], x);
      if IsKeyword(params, x) && params[0].0 != x {
        var i :| 0 <= i < |params| && params[i].0 == x;
        assert params[1..][i - 1].0 == x;
      }
      if IsKeyword(params[1..], x) {
        var i :| 0 <= i < |params[1..]| && params[1..][i].0 == x;
        assert params[i + 1].0 == x;
      }
    }
  }

  /** The keywords are the handles that are no numerals, in their order. */
  lemma {:induction false} KeywordsAre(params: Params)
    requires HandlesSorted(params)
    ensures forall x :: x in KeywordsOf(params) <==> IsKeyword(params, x)
    ensures forall i, j :: 0 <= i < j < |KeywordsOf(params)| ==> Before(KeywordsOf(params)[i], KeywordsOf(params)[j])
  {
    forall x ensures x in KeywordsOf(params) <==> IsKeyword(params, x) {
      KeywordsHave(params, x);
    }
    if params != [] {
      KeywordsAre(params[1..]);
      forall x | x in KeywordsOf(params[1..]) ensures Before(params[0].0, x) {
        var i :| 0 <= i < |params[1..]| && params[1..][i].0 == x;
      }
    }
  }

  /** A name stands for the node it is mapped to; where that is none, it stands for the node it slices, if any. */
  lemma NodeOfName(p: Pipeline, inv: map<string, string>, key: string, id: string)
    requires id == if key in inv then inv[key] else key
    ensures id in p.nodes ==> NodeOf(p, inv, key) == Some(p.nodes[id])
    ensures id !in p.nodes && '_' !in id ==> NodeOf(p, inv, key) == None
  {
    RPartitionFinds(id);
  }

  lemma NodeOfSliced(p: Pipeline, inv: map<string, string>, key: string, base: string, suffix: string)
    requires '_' !in suffix && base + "_" + suffix !in p.nodes
    requires base + "_" + suffix == if key in inv then inv[key] else key
    ensures NodeOf(p, inv, key) == if base in p.nodes then Some(p.nodes[base]) else None
  {
    RPartitionAtLast(base, suffix);
  }

  /** A dependency that is a Parameter is keyed by its name, type and value, all three; a constant by itself; anything
      else by its entry. */
  lemma LeafKeys(p: Pipeline, inv: map<string, string>, g: Graph, d: string)
    ensures match NodeOf(p, inv, d)
            case Some(Parameter(name, dtype, value)) =>
              UpstreamKeyForDep(d, p, inv, g) == ParamHash(name, dtype, value)
            case _ =>
              && (d !in g.entry ==> UpstreamKeyForDep(d, p, inv, g) == ConstHash(Str(d)))
              && (d in g.entry && g.entry[d].Task? ==> UpstreamKeyForDep(d, p, inv, g) == ReprHash(g.entry[d]))
              && (d in g.entry && g.entry[d].Const? ==>
                    UpstreamKeyForDep(d, p, inv, g) ==
                    if JsonLike(g.entry[d].value) then ConstHash(g.entry[d].value) else ReprHash(g.entry[d]))
  {
    if d in g.entry && g.entry[d].Const? {
      JsonLikeIff(g.entry[d].value);
    }
  }

  /** Strings and numbers at the leaves, nothing but tuples and lists above them. */
  predicate JsonLike(v: Value) {
    v.Str? || v.Num? || (v.Tuple? && forall x :: x in v.items ==> JsonLike(x))
  }

  lemma {:induction false} JsonLikeIff(v: Value)
    ensures JsonLike(v) <==> Canonicalisable(v)
  {
    if v.Tuple? {
      forall x | x in v.items ensures JsonLike(x) <==> Canonicalisable(x) {
        JsonLikeIff(x);
      }
    }
  }
}
