// One cache key for two pipelines that compute different things, by a keyword port.
module KeywordPorts {
  import opened Wrappers
  import opened Values
  import opened TaskGraph
  import opened PyText
  import opened CacheKeys
  import opened Elision

  /** Operator a, and operator b that takes the output of a under a keyword. */
  function Piped(keyword: string): Ctx {
    Ctx(Graph(["a", "b"], map["a" := Task(OpFn("A", []), []), "b" := Task(OpFn("B", [keyword]), [Ref("a")])]),
        Pipeline(map["a" := Operator("A", []), "b" := Operator("B", [])], [Edge("a", "b", keyword)]),
        map[], map[], None)
  }

  function Ranks(): map<string, nat> {
    map["a" := 0, "b" := 1]
  }

  /** What an operator does may depend on the keyword it gets its input under. */
  function ByKeyword(): Semantics {
    Semantics((_, _, kwNames, _) => if kwNames == ["x"] then Vector([1]) else Vector([2]),
              (_, _) => Raised, (_, _) => Raised, k => Str(k), n => Num(n))
  }

  lemma NoSlices()
    ensures ParseSlice("a") == None && ParseSlice("b") == None
  {
    assert RPartition("") == None;
    assert "a"[..0] == "" && "b"[..0] == "";
    assert RPartition("a") == None && RPartition("b") == None;
  }

  lemma NoParams(keyword: string, id: string)
    requires id == "a" || id == "b"
    ensures ParamsOf(Piped(keyword).p, id, 1) == []
  {
    assert ParamsOf(Piped(keyword).p, id, 0) == [];
    assert !Wired(Piped(keyword).p, id, 0);
  }

  lemma PipedIsWellFormed(keyword: string)
    ensures WellFormed(Piped(keyword), Ranks())
    ensures Keyed(Piped(keyword), "a") && Keyed(Piped(keyword), "b")
  {
    NoSlices();
    var c := Piped(keyword);
    assert SeedParam(c, "A") == "" && SeedParam(c, "B") == "";
    assert Eligible(c, "a") && Eligible(c, "b");
    assert Accounted(c, "a");
  }

  lemma SameKey(keyword: string)
    ensures WellFormed(Piped(keyword), Ranks()) && Keyed(Piped(keyword), "b")
    ensures KeyOf(Piped(keyword), Ranks(), "b") == OpHash("B", [], [], [OpHash("A", [], [], [], None)], None)
  {
    var c := Piped(keyword);
    PipedIsWellFormed(keyword);
    NoParams(keyword, "a");
    NoParams(keyword, "b");
    assert KeyOf(c, Ranks(), "a") == OpHash("A", [], [], [], None);
    assert DepKey(c, Ranks(), "a") == OpHash("A", [], [], [], None);
  }

  lemma ValueByKeyword(keyword: string)
    ensures Ranked(Piped(keyword).g, Ranks())
    ensures Eval(ByKeyword(), None, Piped(keyword).g, Ranks(), "b") ==
            if keyword == "x" then Vector([1]) else Vector([2])
  {
    PipedIsWellFormed(keyword);
    EvalTask(ByKeyword(), None, Piped(keyword).g, Ranks(), "b");
    assert [keyword] == ["x"] <==> keyword == "x" by {
      assert [keyword][0] == keyword && ["x"][0] == "x";
    }
  }

  /** Two well-formed graphs that differ in a keyword port: b has one key and two values, so that the table stored by
      one is a hit in the other, with the wrong value. */
  lemma WrongHit() returns (key: Hash, store: Store)
    ensures WellFormed(Piped("x"), Ranks()) && WellFormed(Piped("y"), Ranks())
    ensures !PortsKnown(Piped("x")) && !PortsKnown(Piped("y"))
    ensures Keyed(Piped("x"), "b") && Keyed(Piped("y"), "b")
    ensures key == KeyOf(Piped("x"), Ranks(), "b") == KeyOf(Piped("y"), Ranks(), "b")
    ensures var mine := Eval(ByKeyword(), None, Piped("x").g, Ranks(), "b");
            var theirs := Eval(ByKeyword(), None, Piped("y").g, Ranks(), "b");
            && mine != theirs
            && NativeToArrow(mine).Some? && store == map[key := NativeToArrow(mine).value]
            && ElidedEntry(Piped("y"), Ranks(), store, "b") == Const(mine)
  {
    SameKey("x");
    SameKey("y");
    ValueByKeyword("x");
    ValueByKeyword("y");
    PortsUnknown("x");
    PortsUnknown("y");
    key := KeyOf(Piped("x"), Ranks(), "b");
    store := map[key := Table(["_v"], [[1]])];
    HitOf("y", store, Table(["_v"], [[1]]));
  }

  /** A table stored under the key of b takes its place, whatever the keyword. */
  lemma HitOf(keyword: string, store: Store, table: Table)
    requires WellFormed(Piped(keyword), Ranks()) && Keyed(Piped(keyword), "b")
    requires KeyOf(Piped(keyword), Ranks(), "b") in store && store[KeyOf(Piped(keyword), Ranks(), "b")] == table
    ensures ElidedEntry(Piped(keyword), Ranks(), store, "b") == Const(ArrowToNative(table))
  {
  }

  lemma PortsUnknown(keyword: string)
    ensures !PortsKnown(Piped(keyword))
  {
    PipedIsWellFormed(keyword);
    NoParams(keyword, "b");
    assert KeywordsOf(ParamsOf(Piped(keyword).p, "b", 1)) == [];
    assert Piped(keyword).g.entry["b"].fn.kwNames == [keyword];
  }
}
