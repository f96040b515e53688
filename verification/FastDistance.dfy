// The approximate distance of dorian/experiment/similarity.py and its name bound.
module FastDistance {
  import opened Wrappers
  import opened BKNodes
  import opened PyText

  // A node of the DAG JSON; a key may be missing. Bare is a node that is not an object.
  datatype NodeJson =
    | Fields(classType: Option<string>, kind: Option<string>, name: Option<string>, text: Option<string>,
             dtype: Option<string>, value: Option<string>)
    | Bare(text_: string)

  datatype EdgeJson = Link(source: string, destination: string) | NotALink

  datatype Dag = Dag(nodes: seq<(string, NodeJson)>, edges: seq<EdgeJson>)

  // The attributes of a graph node; a key may be missing.
  datatype Attrs = Attrs(name: Option<string>, kind: Option<string>, dtype: Option<string>, value: Option<string>)

  datatype Graph = Graph(nodes: map<string, Attrs>, edges: seq<(string, string)>)

  datatype Sig = Op(name: string) | Param(name: string, dtype: Option<string>, value: Option<string>)
    | Snip(name: string)

  function Or(o: Option<string>, other: string): string {
    if o.Some? then o.value else other
  }

  /** Node ids are the keys of an object, so no id comes twice. */
  ghost predicate Keyed(d: Dag) {
    forall i, j :: 0 <= i < j < |d.nodes| ==> d.nodes[i].0 != d.nodes[j].0
  }

  function AttrsOf(id: string, n: NodeJson): Attrs {
    if n.Bare? then Attrs(Some(n.text_), Some("Unknown"), None, None)
    else Attrs(Some(Or(n.name, Or(n.text, id))), Some(Or(n.classType, Or(n.kind, "Node"))), None, None)
  }

  function SigOf(a: Attrs): Option<Sig> {
    if a.kind.None? || a.name.None? then None
    else if a.kind.value == "Operator" then Some(Op(a.name.value))
    else if a.kind.value == "Parameter" then Some(Param(a.name.value, a.dtype, a.value))
    else if a.kind.value == "Snippet" then Some(Snip(a.name.value))
    else None
  }

  function GraphSigs(g: Graph): set<Sig> {
    set k | k in g.nodes && SigOf(g.nodes[k]).Some? :: SigOf(g.nodes[k]).value
  }

  function NodeSig(n: (string, NodeJson)): Option<Sig> {
    SigOf(AttrsOf(n.0, n.1))
  }

  function Sigs(nodes: seq<(string, NodeJson)>): set<Sig> {
    set i | 0 <= i < |nodes| && NodeSig(nodes[i]).Some? :: NodeSig(nodes[i]).value
  }

  function Links(edges: seq<EdgeJson>): nat {
    if edges == [] then 0 else Links(edges[..|edges| - 1]) + if edges[|edges| - 1].Link? then 1 else 0
  }

  /** The graph of a DAG has the signatures of the DAG's nodes: edges to missing nodes add nothing that counts. */
  method ToGraph(d: Dag) returns (g: Graph)
    requires Keyed(d)
    ensures GraphSigs(g) == Sigs(d.nodes) && |g.edges| == Links(d.edges)
  {
    var nodes: map<string, Attrs>, edges := map[], [];
    var i := 0;
    while i < |d.nodes|
      invariant 0 <= i <= |d.nodes|
      invariant forall j :: 0 <= j < i ==>
                d.nodes[j].0 in nodes && nodes[d.nodes[j].0] == AttrsOf(d.nodes[j].0, d.nodes[j].1)
      invariant forall k :: k in nodes ==> exists j :: 0 <= j < i && d.nodes[j].0 == k
    {
      nodes := nodes[d.nodes[i].0 := AttrsOf(d.nodes[i].0, d.nodes[i].1)];
      i := i + 1;
    }
    LoadedSigs(d, nodes, Graph(nodes, []));
    i := 0;
    while i < |d.edges|
      invariant 0 <= i <= |d.edges|
      invariant GraphSigs(Graph(nodes, edges)) == Sigs(d.nodes) && |edges| == Links(d.edges[..i])
    {
      assert d.edges[..i + 1][..i] == d.edges[..i];
      if d.edges[i].Link? {
        var source, destination := d.edges[i].source, d.edges[i].destination;
        GhostNode(Graph(nodes, edges), source, edges);
        nodes := if source in nodes then nodes else nodes[source := Attrs(None, None, None, None)];
        GhostNode(Graph(nodes, edges), destination, edges + [(source, destination)]);
        nodes := if destination in nodes then nodes else nodes[destination := Attrs(None, None, None, None)];
        edges := edges + [(source, destination)];
      }
      i := i + 1;
    }
    assert d.edges[..i] == d.edges;
    g := Graph(nodes, edges);
  }

  lemma LoadedSigs(d: Dag, nodes: map<string, Attrs>, g: Graph)
    requires g.nodes == nodes
    requires forall j :: 0 <= j < |d.nodes| ==>
               d.nodes[j].0 in nodes && nodes[d.nodes[j].0] == AttrsOf(d.nodes[j].0, d.nodes[j].1)
    requires forall k :: k in nodes ==> exists j :: 0 <= j < |d.nodes| && d.nodes[j].0 == k
    ensures GraphSigs(g) == Sigs(d.nodes)
  {
    forall s ensures s in GraphSigs(g) <==> s in Sigs(d.nodes) {
      if s in GraphSigs(g) {
        var k :| k in nodes && SigOf(nodes[k]) == Some(s);
        var j :| 0 <= j < |d.nodes| && d.nodes[j].0 == k;
        assert NodeSig(d.nodes[j]) == Some(s);
      }
      if s in Sigs(d.nodes) {
        var j :| 0 <= j < |d.nodes| && NodeSig(d.nodes[j]) == Some(s);
        assert SigOf(nodes[d.nodes[j].0]) == Some(s);
      }
    }
  }

  lemma GhostNode(g: Graph, k: string, edges: seq<(string, string)>)
    ensures GraphSigs(Graph(if k in g.nodes then g.nodes else g.nodes[k := Attrs(None, None, None, None)], edges)) ==
            GraphSigs(g)
  {
    var nodes := if k in g.nodes then g.nodes else g.nodes[k := Attrs(None, None, None, None)];
    var h := Graph(nodes, edges);
    assert forall x :: x in g.nodes ==> x in h.nodes && h.nodes[x] == g.nodes[x];
    assert forall x :: x in h.nodes && SigOf(h.nodes[x]).Some? ==> x in g.nodes;
  }

  function SymDiff<T>(a: set<T>, b: set<T>): set<T> {
    (a - b) + (b - a)
  }

  function Gap(a: int, b: int): nat {
    if a >= b then a - b else b - a
  }

  function Distance(d: Dag, e: Dag): nat {
    |SymDiff(Sigs(d.nodes), Sigs(e.nodes))| + Gap(Links(d.edges), Links(e.edges))
  }

  method Fast(d: Dag, e: Dag) returns (n: nat)
    requires Keyed(d) && Keyed(e)
    ensures n == Distance(d, e)
  {
    var g := ToGraph(d);
    var h := ToGraph(e);
    n := |SymDiff(GraphSigs(g), GraphSigs(h))| + Gap(|g.edges|, |h.edges|);
  }

  lemma {:induction false} SubsetSize<T>(a: set<T>, b: set<T>)
    requires a <= b
    ensures |a| <= |b|
  {
    if a != {} {
      var x :| x in a;
      SubsetSize(a - {x}, b - {x});
    }
  }

  lemma SymDiffTriangle<T>(a: set<T>, b: set<T>, c: set<T>)
    ensures |SymDiff(a, c)| <= |SymDiff(a, b)| + |SymDiff(b, c)|
  {
    SubsetSize(SymDiff(a, c), SymDiff(a, b) + SymDiff(b, c));
  }

  /** The approximate distance is a pseudometric. */
  lemma DistanceIsPseudometric()
    ensures Pseudometric(Distance)
  {
    forall d, e, f ensures Distance(d, f) <= Distance(d, e) + Distance(e, f) {
      SymDiffTriangle(Sigs(d.nodes), Sigs(e.nodes), Sigs(f.nodes));
    }
    forall d, e ensures Distance(d, e) == Distance(e, d) {
      assert SymDiff(Sigs(d.nodes), Sigs(e.nodes)) == SymDiff(Sigs(e.nodes), Sigs(d.nodes));
    }
  }

  // ---- parameter values ----------------------------------------------------------------------

  function Blank(n: (string, NodeJson)): (string, NodeJson) {
    if n.1.Bare? then n else (n.0, n.1.(dtype := None, value := None))
  }

  /** Parameter types and values never reach the signatures: pipelines that differ in nothing else are at distance 0. */
  lemma ValuesDoNotCount(d: Dag, e: Dag)
    requires |d.nodes| == |e.nodes| && Links(d.edges) == Links(e.edges)
    requires forall i :: 0 <= i < |d.nodes| ==> Blank(d.nodes[i]) == Blank(e.nodes[i])
    ensures Distance(d, e) == 0
  {
    assert Sigs(d.nodes) == Sigs(e.nodes);
  }

  // ---- the operator bound --------------------------------------------------------------------

  predicate Counted(n: NodeJson) {
    n.Fields? && Or(n.classType, Or(n.kind, "")) == "Operator" && n.name.Some? && n.name.value != ""
  }

  function OpNames(nodes: seq<(string, NodeJson)>): set<string> {
    set i | 0 <= i < |nodes| && Counted(nodes[i].1) :: nodes[i].1.name.value
  }

  /** The names in node order, repeats included. */
  function NameList(nodes: seq<(string, NodeJson)>): seq<string> {
    if nodes == [] then []
    else
      var last := nodes[|nodes| - 1].1;
      NameList(nodes[..|nodes| - 1]) + if Counted(last) then [last.name.value] else []
  }

  /** The names of the named operators, sorted, as often as they occur. */
  method ExtractOperatorNames(d: Dag) returns (names: seq<string>)
    ensures SortedNames(names) && multiset(names) == multiset(NameList(d.nodes))
    ensures (set x | x in names) == OpNames(d.nodes)
  {
    var found: seq<string> := [];
    var i := 0;
    while i < |d.nodes|
      invariant 0 <= i <= |d.nodes|
      invariant found == NameList(d.nodes[..i])
      invariant forall x :: x in found <==> x in OpNames(d.nodes[..i])
    {
      if Counted(d.nodes[i].1) {
        found := found + [d.nodes[i].1.name.value];
      }
      NextName(d.nodes, i);
      assert d.nodes[..i + 1][..i] == d.nodes[..i];
      i := i + 1;
    }
    assert d.nodes[..i] == d.nodes;
    names := SortNames(found);
    SortNamesSorts(found);
    assert forall x :: x in names <==> x in multiset(names);
    assert forall x :: x in found <==> x in multiset(found);
  }

  lemma NextName(nodes: seq<(string, NodeJson)>, i: nat)
    requires i < |nodes|
    ensures OpNames(nodes[..i + 1]) ==
            OpNames(nodes[..i]) + if Counted(nodes[i].1) then {nodes[i].1.name.value} else {}
  {
    assert nodes[..i + 1][i] == nodes[i];
    assert forall j :: 0 <= j < i ==> nodes[..i + 1][j] == nodes[..i][j];
  }

  function OpBound(a: set<string>, b: set<string>): nat {
    |SymDiff(a, b)|
  }

  function NamesIn(sigs: set<Sig>): set<string> {
    set s | s in sigs && s.Op? && s.name != "" :: s.name
  }

  /** The names it is pruned by are those the signatures show. */
  ghost predicate Faithful(d: Dag) {
    OpNames(d.nodes) == NamesIn(Sigs(d.nodes))
  }

  predicate ShowsItsName(n: (string, NodeJson)) {
    match NodeSig(n)
    case Some(Op(name)) => name == "" || Counted(n.1)
    case _ => true
  }

  /** When every operator that shows a name has it under the name key, the two agree. */
  lemma NamedIsFaithful(d: Dag)
    requires forall i :: 0 <= i < |d.nodes| ==> ShowsItsName(d.nodes[i])
    ensures Faithful(d)
  {
    forall x ensures x in OpNames(d.nodes) <==> x in NamesIn(Sigs(d.nodes)) {
      if x in OpNames(d.nodes) {
        var i :| 0 <= i < |d.nodes| && Counted(d.nodes[i].1) && d.nodes[i].1.name.value == x;
        assert NodeSig(d.nodes[i]) == Some(Op(x));
      }
      if x in NamesIn(Sigs(d.nodes)) {
        assert Op(x) in Sigs(d.nodes);
        var i :| 0 <= i < |d.nodes| && NodeSig(d.nodes[i]) == Some(Op(x));
      }
    }
  }

  lemma {:induction false} OpsSize(names: set<string>, sigs: set<Sig>)
    requires forall x :: x in names ==> Op(x) in sigs
    ensures |names| <= |sigs|
  {
    if names != {} {
      var x :| x in names;
      OpsSize(names - {x}, sigs - {Op(x)});
    }
  }

  lemma NamesBound(s: set<Sig>, t: set<Sig>)
    ensures OpBound(NamesIn(s), NamesIn(t)) <= |SymDiff(s, t)|
  {
    forall x | x in SymDiff(NamesIn(s), NamesIn(t)) ensures Op(x) in SymDiff(s, t) {
      assert x in NamesIn(s) <==> Op(x) in s && x != "";
      assert x in NamesIn(t) <==> Op(x) in t && x != "";
    }
    OpsSize(SymDiff(NamesIn(s), NamesIn(t)), SymDiff(s, t));
  }

  /** The same DAG with every node's effective name written out. */
  function Named(nodes: seq<(string, NodeJson)>): seq<(string, NodeJson)> {
    seq(|nodes|, i requires 0 <= i < |nodes| =>
      if nodes[i].1.Bare? then nodes[i]
      else (nodes[i].0, nodes[i].1.(name := Some(Or(nodes[i].1.name, Or(nodes[i].1.text, nodes[i].0))))))
  }

  lemma NamedKeepsSigs(d: Dag)
    ensures Sigs(Named(d.nodes)) == Sigs(d.nodes) && Faithful(Dag(Named(d.nodes), d.edges))
  {
    var nodes := Named(d.nodes);
    forall i | 0 <= i < |nodes| ensures NodeSig(nodes[i]) == NodeSig(d.nodes[i]) && ShowsItsName(nodes[i]) {
    }
    assert Sigs(nodes) == Sigs(d.nodes);
    NamedIsFaithful(Dag(nodes, d.edges));
  }

  /** Every DAG has a faithful twin at distance 0, which the bound tells from it unless it is faithful itself. */
  lemma FaithfulTwin(d: Dag) returns (e: Dag)
    ensures Faithful(e) && Distance(d, e) == 0
    ensures OpBound(OpNames(d.nodes), OpNames(e.nodes)) == 0 ==> Faithful(d)
  {
    e := Dag(Named(d.nodes), d.edges);
    NamedKeepsSigs(d);
    assert SymDiff(Sigs(d.nodes), Sigs(e.nodes)) == {};
    var a, b := OpNames(d.nodes), OpNames(e.nodes);
    if OpBound(a, b) == 0 {
      assert SymDiff(a, b) == {};
      assert forall x :: x in a <==> x in b;
      assert a == b;
    }
  }

  /** The operator bound is below the distance to every faithful DAG exactly for faithful DAGs. */
  lemma BoundIffFaithful(d: Dag)
    ensures Faithful(d) <==> forall e :: Faithful(e) ==> OpBound(OpNames(d.nodes), OpNames(e.nodes)) <= Distance(d, e)
  {
    if Faithful(d) {
      forall e | Faithful(e) ensures OpBound(OpNames(d.nodes), OpNames(e.nodes)) <= Distance(d, e) {
        NamesBound(Sigs(d.nodes), Sigs(e.nodes));
      }
    } else {
      var e := FaithfulTwin(d);
    }
  }

  /** An operator that has a text but no name shows up in the distance and not in the bound. */
  lemma UnnamedOperatorExceeds() returns (d: Dag, e: Dag)
    ensures OpBound(OpNames(d.nodes), OpNames(e.nodes)) > Distance(d, e)
  {
    d := Dag([("a", Fields(Some("Operator"), None, None, Some("PCA"), None, None))], []);
    e := Dag([("a", Fields(Some("Operator"), None, Some("PCA"), None, None, None))], []);
    assert Named(d.nodes)[0].1.name == Some("PCA");
    assert NodeSig(d.nodes[0]) == NodeSig(e.nodes[0]);
    assert SymDiff(Sigs(d.nodes), Sigs(e.nodes)) == {};
    assert Counted(e.nodes[0].1) && "PCA" in OpNames(e.nodes);
    assert OpNames(d.nodes) == {};
    assert "PCA" in SymDiff(OpNames(d.nodes), OpNames(e.nodes));
  }

  /** A named operator with one Parameter wired to it is three edits from the empty DAG, and one by the bound. */
  lemma OneOperator() returns (empty: Dag, one: Dag)
    ensures Distance(one, empty) == 3 && Distance(empty, empty) == 0
    ensures Faithful(empty) && OpNames(empty.nodes) == {}
    ensures Faithful(one) && OpNames(one.nodes) == {"PCA"}
  {
    empty := Dag([], []);
    var op := ("x", Fields(Some("Operator"), None, Some("PCA"), None, None, None));
    var param := ("p", Fields(Some("Parameter"), None, Some("n"), None, Some("int"), Some("2")));
    one := Dag([op, param], [Link("p", "x")]);
    TwoSigs(one.nodes, op, param);
    assert Sigs(empty.nodes) == {};
    assert SymDiff(Sigs(one.nodes), {}) == Sigs(one.nodes);
    assert SymDiff({}, Sigs(empty.nodes)) == {};
    NamedIsFaithful(empty);
    NamedIsFaithful(one);
    assert one.edges[..0] == [];
    assert Links(one.edges) == 1;
  }

  lemma TwoSigs(nodes: seq<(string, NodeJson)>, op: (string, NodeJson), param: (string, NodeJson))
    requires nodes == [op, param]
    requires op.1 == Fields(Some("Operator"), None, Some("PCA"), None, None, None)
    requires param.1 == Fields(Some("Parameter"), None, Some("n"), None, Some("int"), Some("2"))
    ensures Sigs(nodes) == {Op("PCA"), Param("n", None, None)} && OpNames(nodes) == {"PCA"}
    ensures ShowsItsName(nodes[0]) && ShowsItsName(nodes[1])
  {
    assert "Operator"[0] != "Parameter"[0];
    assert Counted(nodes[0].1) && !Counted(nodes[1].1);
    assert NodeSig(nodes[0]) == Some(Op("PCA")) && NodeSig(nodes[1]) == Some(Param("n", None, None));
  }

  // ---- what the distance sees ------------------------------------------------------------------

  /** The type is read before the older name for it, and what is called neither is a plain node. */
  predicate HasType(n: NodeJson, type_: string) {
    n.Fields? && (n.classType == Some(type_) || (n.classType.None? && n.kind == Some(type_)))
  }

  /** A node goes by its name, without one by its text, and without that by its id. */
  predicate GoesBy(id: string, n: NodeJson, shown: string) {
    n.Fields? &&
    (n.name == Some(shown) ||
     (n.name.None? && n.text == Some(shown)) ||
     (n.name.None? && n.text.None? && shown == id))
  }

  /** Operators, Parameters and Snippets sign with what they go by, and no other node signs. */
  lemma SignaturesAre(id: string, n: NodeJson, shown: string)
    requires GoesBy(id, n, shown)
    ensures HasType(n, "Operator") ==> NodeSig((id, n)) == Some(Op(shown))
    ensures HasType(n, "Parameter") ==> NodeSig((id, n)) == Some(Param(shown, None, None))
    ensures HasType(n, "Snippet") ==> NodeSig((id, n)) == Some(Snip(shown))
    ensures !HasType(n, "Operator") && !HasType(n, "Parameter") && !HasType(n, "Snippet") ==> NodeSig((id, n)) == None
  {
  }

  lemma BareNodesDoNotSign(id: string, text: string)
    ensures NodeSig((id, Bare(text))) == None
  {
  }

  /** A name is extracted from exactly the operators that have it, and it is not empty. */
  lemma NamesExtracted(nodes: seq<(string, NodeJson)>, x: string)
    ensures x in OpNames(nodes) <==>
            x != "" && exists i :: 0 <= i < |nodes| && HasType(nodes[i].1, "Operator") && nodes[i].1.name == Some(x)
  {
    if x in OpNames(nodes) {
      var i :| 0 <= i < |nodes| && Counted(nodes[i].1) && nodes[i].1.name.value == x;
      assert HasType(nodes[i].1, "Operator");
    }
    if x != "" && exists i :: 0 <= i < |nodes| && HasType(nodes[i].1, "Operator") && nodes[i].1.name == Some(x) {
      var i :| 0 <= i < |nodes| && HasType(nodes[i].1, "Operator") && nodes[i].1.name == Some(x);
      assert Counted(nodes[i].1);
    }
  }

  function LinkAt(edges: seq<EdgeJson>): set<nat> {
    set i: nat | i < |edges| && edges[i].Link?
  }

  lemma {:induction false} LinksAre(edges: seq<EdgeJson>)
    ensures Links(edges) == |LinkAt(edges)|
  {
    if edges != [] {
      var rest, last := edges[..|edges| - 1], |edges| - 1;
      LinksAre(rest);
      assert LinkAt(edges) == if edges[last].Link? then LinkAt(rest) + {last} else LinkAt(rest);
    }
  }

  /** The distance: signatures in one and not in both, and how many more edges the one with more has. */
  lemma DistanceIs(d: Dag, e: Dag)
    ensures var (a, b) := (Sigs(d.nodes), Sigs(e.nodes));
            var (m, n) := (|LinkAt(d.edges)|, |LinkAt(e.edges)|);
            Distance(d, e) == |a + b| - |a * b| + (if m > n then m - n else n - m)
  {
    var (a, b) := (Sigs(d.nodes), Sigs(e.nodes));
    LinksAre(d.edges);
    LinksAre(e.edges);
    assert a + b == SymDiff(a, b) + a * b;
  }
}
