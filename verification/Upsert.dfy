// The upsert branch of `_update_many`: what is inserted when nothing matched.
module Upsert {
  import opened Wrappers
  import opened Json
  import FilterSql
  import FilterMeaning
  import opened DocUpdate

  type Filter = FilterSql.Filter
  type Item = FilterSql.Item

  // What Python prints for an operator mapping that is used as an id.
  datatype Printer = Printer(d: FilterSql.Dialect, printOps: seq<FilterSql.Op> -> string)

  /** One entry of the filter, put into the document to be inserted. */
  function Seed(p: Printer, base: Doc, item: Item): Doc {
    match item
    case Field(name, Value(v)) => SetPath(base, Split(name), v)
    case Field(name, Ops(ops)) =>
      if name == "_id" then base["_id" := Text(p.printOps(ops))]
      else if ops == [] then SetPath(base, Split(name), Object(map[]))
      else base
    case _ => base
  }

  function Seeded(p: Printer, items: seq<Item>): Doc {
    if items == [] then map[] else Seed(p, Seeded(p, items[..|items| - 1]), items[|items| - 1])
  }

  /** The `$setOnInsert` part of an update. */
  function OnInsert(update: seq<UpdateOp>): seq<(string, Json)> {
    if update == [] then []
    else (if update[0].SetOnInsert? then update[0].values else []) + OnInsert(update[1..])
  }

  function InsertEdits(update: seq<UpdateOp>): (edits: seq<Edit>)
    ensures Rooted(edits)
  {
    Edits(Set(OnInsert(update))) + AllEdits(update)
  }

  /** `_doc_to_row`: a missing or null id is generated. */
  function ToRow(d: FilterSql.Dialect, doc: Doc, generated: string): FilterSql.Row {
    FilterSql.Row(if "_id" in doc && !doc["_id"].Null? then FilterSql.CoerceId(d, doc["_id"]) else generated,
                  Object(doc - {"_id"}))
  }

  /** The row the upsert tries to insert; None is a raised exception. */
  function NewRow(p: Printer, f: Filter, update: seq<UpdateOp>, generated: string): Option<FilterSql.Row> {
    match Applied(Seeded(p, f.items), InsertEdits(update))
    case None => None
    case Some(doc) => Some(ToRow(p.d, doc, generated))
  }

  /** Building the document step by step, as the source does. */
  method BuildRow(p: Printer, f: Filter, update: seq<UpdateOp>, generated: string) returns (row: Option<FilterSql.Row>)
    ensures row == NewRow(p, f, update, generated)
  {
    var base: Doc := map[];
    for i := 0 to |f.items|
      invariant base == Seeded(p, f.items[..i])
    {
      base := Seed(p, base, f.items[i]);
      assert f.items[..i + 1][..i] == f.items[..i];
    }
    assert f.items[..|f.items|] == f.items;
    ghost var seeded := base;
    var inserts := OnInsert(update);
    ghost var edits := Edits(Set(inserts));
    for i := 0 to |inserts|
      invariant Applied(seeded, edits) == Applied(base, edits[i..])
    {
      base := SetPath(base, Split(inserts[i].0), inserts[i].1);
      assert edits[i..][1..] == edits[i + 1..];
    }
    AppliedAppend(seeded, edits, AllEdits(update));
    var doc := ApplyUpdate(base, update);
    row := match doc case None => None case Some(doc) => Some(ToRow(p.d, doc, generated));
  }

  // ---- equality filters -------------------------------------------------------------------

  predicate IsEquality(f: Filter) {
    forall i :: 0 <= i < |f.items| ==> f.items[i].Field? && f.items[i].clause.Value?
  }

  function Path(item: Item): seq<string>
    requires item.Field?
  {
    Split(item.name)
  }

  /** What a caller can check: filter paths and update paths do not overlap, the id is not
      null, and nothing but `_id` itself is looked for under `_id`. */
  predicate Separate(f: Filter, update: seq<UpdateOp>)
    requires IsEquality(f)
  {
    && (forall i, j :: 0 <= i < j < |f.items| ==> Diverge(Path(f.items[i]), Path(f.items[j])))
    && (forall i :: 0 <= i < |f.items| ==> Clear(Path(f.items[i]), InsertEdits(update)))
    && (forall i :: 0 <= i < |f.items| ==>
          if f.items[i].name == "_id" then !f.items[i].clause.value.Null? else Path(f.items[i])[0] != "_id")
  }

  lemma {:induction false} DivergeSym(p: seq<string>, q: seq<string>)
    ensures Diverge(p, q) <==> Diverge(q, p)
  {
    if p != [] && q != [] {
      DivergeSym(p[1..], q[1..]);
    }
  }

  /** An entry whose path diverges from all later ones is in the seeded document. */
  lemma {:induction false} SeededHolds(p: Printer, items: seq<Item>, i: nat)
    requires forall j :: 0 <= j < |items| ==> items[j].Field? && items[j].clause.Value?
    requires i < |items| && forall k :: i < k < |items| ==> Diverge(Path(items[i]), Path(items[k]))
    ensures At(Seeded(p, items), Path(items[i])) == Some(items[i].clause.value)
  {
    var last, rest := items[|items| - 1], items[..|items| - 1];
    if i == |items| - 1 {
      GetAfterSet(Seeded(p, rest), Path(last), last.clause.value);
    } else {
      SeededHolds(p, rest, i);
      SetFrame(Seeded(p, rest), Path(last), last.clause.value, Path(items[i]));
    }
  }

  lemma InsertKeeps(p: Printer, f: Filter, update: seq<UpdateOp>, i: nat)
    requires IsEquality(f) && i < |f.items| && Clear(Path(f.items[i]), InsertEdits(update))
    requires forall k :: i < k < |f.items| ==> Diverge(Path(f.items[i]), Path(f.items[k]))
    requires Applied(Seeded(p, f.items), InsertEdits(update)).Some?
    ensures At(Applied(Seeded(p, f.items), InsertEdits(update)).value, Path(f.items[i])) ==
            Some(f.items[i].clause.value)
  {
    SeededHolds(p, f.items, i);
    UpdateFrame(Seeded(p, f.items), InsertEdits(update), Path(f.items[i]));
  }

  lemma WithoutId(doc: Doc, path: seq<string>)
    requires |path| > 0 && path[0] != "_id"
    ensures At(doc - {"_id"}, path) == At(doc, path)
  {
    AtStep(doc, path);
    AtStep(doc - {"_id"}, path);
  }

  lemma ItemHolds(p: Printer, f: Filter, update: seq<UpdateOp>, generated: string, i: nat)
    requires IsEquality(f) && Separate(f, update) && i < |f.items|
    requires NewRow(p, f, update, generated).Some?
    ensures FilterSql.MeansItem(p.d, NewRow(p, f, update, generated).value, f.items[i]) == FilterSql.True
  {
    InsertKeeps(p, f, update, i);
    RowHolds(p.d, Applied(Seeded(p, f.items), InsertEdits(update)).value, generated,
             f.items[i].name, f.items[i].clause.value);
  }

  /** The row of a document that has the value at the path of the field satisfies the entry. */
  lemma RowHolds(d: FilterSql.Dialect, doc: Doc, generated: string, name: string, v: FilterSql.Plain)
    requires At(doc, Split(name)) == Some(v)
    requires if name == "_id" then !v.Null? else Split(name)[0] != "_id"
    ensures FilterSql.MeansItem(d, ToRow(d, doc, generated), FilterSql.Field(name, FilterSql.Value(v))) ==
            FilterSql.True
  {
    if name == "_id" {
      AtStep(doc, ["_id"]);
    } else {
      WithoutId(doc, Split(name));
      ContainsItself(v);
      ContainsNested(Object(doc - {"_id"}), Split(name), v);
    }
  }

  lemma {:induction false} AllHold(d: FilterSql.Dialect, row: FilterSql.Row, items: seq<Item>)
    requires forall i :: 0 <= i < |items| ==> FilterSql.MeansItem(d, row, items[i]) == FilterSql.True
    ensures FilterSql.MeansAll(d, row, items) == FilterSql.True
  {
    if items != [] {
      AllHold(d, row, items[1..]);
    }
  }

  /** After an upsert the inserted row satisfies the filter it was upserted under, and the
      WHERE clause rendered for that filter selects it. */
  lemma UpsertSatisfiesFilter(p: Printer, f: Filter, update: seq<UpdateOp>, generated: string, start: nat)
    requires IsEquality(f) && Separate(f, update) && NewRow(p, f, update, generated).Some?
    ensures var row := NewRow(p, f, update, generated).value;
            && FilterSql.Means(p.d, row, f) == FilterSql.True
            && FilterSql.Emit(p.d, f, start).Some?
            && var e := FilterSql.Emit(p.d, f, start).value;
               FilterSql.Parse(e.tokens).Some? &&
               FilterSql.Eval(p.d, row, e.args, start, FilterSql.Parse(e.tokens).value) == FilterSql.True
  {
    var row := NewRow(p, f, update, generated).value;
    forall i | 0 <= i < |f.items|
      ensures FilterSql.MeansItem(p.d, row, f.items[i]) == FilterSql.True
    {
      ItemHolds(p, f, update, generated, i);
    }
    AllHold(p.d, row, f.items);
    EqualityRenders(p.d, f.items, start);
    FilterMeaning.TranslationMeans(p.d, row, f, start);
  }

  // ---- and exactly when -----------------------------------------------------------------------

  lemma {:induction false} AllHeld(d: FilterSql.Dialect, row: FilterSql.Row, items: seq<Item>, i: nat)
    requires FilterSql.MeansAll(d, row, items) == FilterSql.True && i < |items|
    ensures FilterSql.MeansItem(d, row, items[i]) == FilterSql.True
  {
    if i > 0 {
      AllHeld(d, row, items[1..], i - 1);
    }
  }

  predicate ProperPrefix(p: seq<string>, q: seq<string>) {
    |p| < |q| && q[..|p|] == p
  }

  lemma {:induction false} OverlapIsPrefix(p: seq<string>, q: seq<string>)
    requires p != [] && q != [] && p != q && !Diverge(p, q)
    ensures ProperPrefix(p, q) || ProperPrefix(q, p)
  {
    if |p| > 1 && |q| > 1 {
      assert p == [p[0]] + p[1..] && q == [q[0]] + q[1..];
      OverlapIsPrefix(p[1..], q[1..]);
      if ProperPrefix(p[1..], q[1..]) {
        assert q[..|p|] == [q[0]] + q[1..][..|p| - 1];
      } else {
        assert p[..|q|] == [p[0]] + p[1..][..|q| - 1];
      }
    } else if |p| == 1 {
      assert q[..1] == [q[0]];
    } else {
      assert p[..1] == [p[0]];
    }
  }

  /** Whatever a present path runs through is an object. */
  lemma {:induction false} PrefixIsObject(j: Json, p: seq<string>, q: seq<string>)
    requires ProperPrefix(p, q) && Get(j, q).Some?
    ensures Get(j, p).Some? && Get(j, p).value.Object?
  {
    if p != [] {
      assert q[1..][..|p| - 1] == p[1..];
      PrefixIsObject(j.fields[q[0]], p[1..], q[1..]);
    }
  }

  /** An equality on a field other than `_id` holds when something containing the value is at its path. */
  lemma FieldHolds(p: Printer, row: FilterSql.Row, item: Item)
    requires item.Field? && item.clause.Value? && item.name != "_id"
    requires FilterSql.MeansItem(p.d, row, item) == FilterSql.True
    ensures Get(row.data, Path(item)).Some? && Contains(Get(row.data, Path(item)).value, item.clause.value)
  {
    ContainsNested(row.data, Split(item.name), item.clause.value);
  }

  /** Two equalities on overlapping paths hold of no document: the longer needs an object where the shorter needs a
      value. */
  lemma OverlapNeverHolds(p: Printer, row: FilterSql.Row, a: Item, b: Item)
    requires a.Field? && a.clause.Value? && a.name != "_id" && b.Field? && b.clause.Value? && b.name != "_id"
    requires Path(a) != Path(b) && !Diverge(Path(a), Path(b))
    ensures FilterSql.MeansItem(p.d, row, a) != FilterSql.True || FilterSql.MeansItem(p.d, row, b) != FilterSql.True
  {
    if FilterSql.MeansItem(p.d, row, a) == FilterSql.True && FilterSql.MeansItem(p.d, row, b) == FilterSql.True {
      FieldHolds(p, row, a);
      FieldHolds(p, row, b);
      OverlapIsPrefix(Path(a), Path(b));
      if ProperPrefix(Path(a), Path(b)) {
        PrefixIsObject(row.data, Path(a), Path(b));
      } else {
        PrefixIsObject(row.data, Path(b), Path(a));
      }
    }
  }

  /** Nothing is found under `_id`: the stored document has no such field. */
  lemma UnderIdNeverHolds(p: Printer, doc: Doc, generated: string, item: Item)
    requires item.Field? && item.clause.Value? && item.name != "_id" && Path(item)[0] == "_id"
    ensures FilterSql.MeansItem(p.d, ToRow(p.d, doc, generated), item) != FilterSql.True
  {
    if FilterSql.MeansItem(p.d, ToRow(p.d, doc, generated), item) == FilterSql.True {
      FieldHolds(p, ToRow(p.d, doc, generated), item);
    }
  }

  /** The names of a filter are the keys of a mapping. */
  predicate DistinctNames(f: Filter)
    requires IsEquality(f)
  {
    forall i, j :: 0 <= i < j < |f.items| ==> f.items[i].name != f.items[j].name
  }

  /** No update path overlaps a filter path. */
  predicate UpdateIsClear(f: Filter, update: seq<UpdateOp>)
    requires IsEquality(f)
  {
    forall i :: 0 <= i < |f.items| ==> Clear(Path(f.items[i]), InsertEdits(update))
  }

  /** Whatever the update did: what the upsert inserts matches its filter only if no two of the filter's paths overlap
      and nothing but `_id` itself is looked for under `_id`. */
  lemma MatchedIsApart(p: Printer, f: Filter, update: seq<UpdateOp>, generated: string)
    requires IsEquality(f) && DistinctNames(f) && NewRow(p, f, update, generated).Some?
    requires FilterSql.Means(p.d, NewRow(p, f, update, generated).value, f) == FilterSql.True
    ensures forall i :: 0 <= i < |f.items| && f.items[i].name != "_id" ==> Path(f.items[i])[0] != "_id"
    ensures forall i, j :: 0 <= i < j < |f.items| ==> Diverge(Path(f.items[i]), Path(f.items[j]))
  {
    var doc := Applied(Seeded(p, f.items), InsertEdits(update)).value;
    var row := ToRow(p.d, doc, generated);
    forall i | 0 <= i < |f.items| && f.items[i].name != "_id" ensures Path(f.items[i])[0] != "_id" {
      AllHeld(p.d, row, f.items, i);
      if Path(f.items[i])[0] == "_id" {
        UnderIdNeverHolds(p, doc, generated, f.items[i]);
      }
    }
    forall i, j | 0 <= i < j < |f.items| ensures Diverge(Path(f.items[i]), Path(f.items[j])) {
      AllHeld(p.d, row, f.items, i);
      AllHeld(p.d, row, f.items, j);
      PairIsApart(p, row, f.items[i], f.items[j]);
    }
  }

  lemma PairIsApart(p: Printer, row: FilterSql.Row, a: Item, b: Item)
    requires a.Field? && a.clause.Value? && b.Field? && b.clause.Value? && a.name != b.name
    requires a.name != "_id" ==> Path(a)[0] != "_id"
    requires b.name != "_id" ==> Path(b)[0] != "_id"
    requires FilterSql.MeansItem(p.d, row, a) == FilterSql.True && FilterSql.MeansItem(p.d, row, b) == FilterSql.True
    ensures Diverge(Path(a), Path(b))
  {
    if a.name != "_id" && b.name != "_id" && !Diverge(Path(a), Path(b)) {
      if Path(a) == Path(b) {
        SplitInjective(a.name, b.name);
      }
      OverlapNeverHolds(p, row, a, b);
    }
  }

  /** A null id is still null after an update clear of it, and what is inserted goes under the generated id. */
  lemma NullIdNeverHolds(p: Printer, f: Filter, update: seq<UpdateOp>, generated: string, i: nat)
    requires IsEquality(f) && UpdateIsClear(f, update) && NewRow(p, f, update, generated).Some? && i < |f.items|
    requires f.items[i].name == "_id" && f.items[i].clause.value.Null? && generated != p.d.pyStr(Null)
    requires forall k :: i < k < |f.items| ==> Diverge(Path(f.items[i]), Path(f.items[k]))
    ensures FilterSql.MeansItem(p.d, NewRow(p, f, update, generated).value, f.items[i]) != FilterSql.True
  {
    var doc := Applied(Seeded(p, f.items), InsertEdits(update)).value;
    InsertKeeps(p, f, update, i);
    AtStep(doc, ["_id"]);
  }

  /** For updates clear of the filter's paths: the inserted document matches the filter, in meaning and as rendered,
      exactly when the filter's paths are separate and its id is not null. */
  lemma UpsertSatisfiesIff(p: Printer, f: Filter, update: seq<UpdateOp>, generated: string, start: nat)
    requires IsEquality(f) && DistinctNames(f) && UpdateIsClear(f, update)
    requires NewRow(p, f, update, generated).Some? && generated != p.d.pyStr(Null)
    ensures FilterSql.Means(p.d, NewRow(p, f, update, generated).value, f) == FilterSql.True <==> Separate(f, update)
    ensures FilterSql.Emit(p.d, f, start).Some?
    ensures var e := FilterSql.Emit(p.d, f, start).value;
            var parsed := FilterSql.Parse(e.tokens);
            var row := NewRow(p, f, update, generated).value;
            && parsed.Some?
            && (FilterSql.Eval(p.d, row, e.args, start, parsed.value) == FilterSql.True <==> Separate(f, update))
  {
    var row := NewRow(p, f, update, generated).value;
    EqualityRenders(p.d, f.items, start);
    FilterMeaning.TranslationMeans(p.d, row, f, start);
    if Separate(f, update) {
      UpsertSatisfiesFilter(p, f, update, generated, start);
    } else if FilterSql.Means(p.d, row, f) == FilterSql.True {
      MatchedIsApart(p, f, update, generated);
      var i :| 0 <= i < |f.items| && f.items[i].name == "_id" && f.items[i].clause.value.Null?;
      AllHeld(p.d, row, f.items, i);
      NullIdNeverHolds(p, f, update, generated, i);
    }
  }

  lemma {:induction false} EqualityRenders(d: FilterSql.Dialect, items: seq<Item>, next: nat)
    requires forall i :: 0 <= i < |items| ==> items[i].Field? && items[i].clause.Value?
    ensures FilterSql.EmitItems(d, items, next).Some? && FilterSql.ItemsNonEmpty(items)
  {
    if items != [] {
      EqualityRenders(d, items[1..], next + 1);
    }
  }

  // ---- the whole call -------------------------------------------------------------------------

  type Collection = map<string, Json>

  predicate Matches(d: FilterSql.Dialect, c: Collection, id: string, f: Filter)
    requires id in c
  {
    FilterSql.Means(d, FilterSql.Row(id, c[id]), f) == FilterSql.True
  }

  /** The collection after an upsert that matched no document: an id conflict inserts nothing. */
  function Upserted(p: Printer, c: Collection, f: Filter,
                    update: seq<UpdateOp>, generated: string): Option<Collection> {
    match NewRow(p, f, update, generated)
    case None => None
    case Some(row) => Some(if row.id in c then c else c[row.id := row.data])
  }

  /** An upsert that matched nothing, met no id conflict and did not raise leaves exactly one
      document that the filter matches, and no other document changed. */
  lemma UpsertThenFind(p: Printer, c: Collection, f: Filter, update: seq<UpdateOp>, generated: string)
    requires IsEquality(f) && Separate(f, update) && NewRow(p, f, update, generated).Some?
    requires forall id :: id in c ==> !Matches(p.d, c, id, f)
    requires NewRow(p, f, update, generated).value.id !in c
    ensures var c' := Upserted(p, c, f, update, generated).value;
            var row := NewRow(p, f, update, generated).value;
            && c'.Keys == c.Keys + {row.id}
            && (forall id :: id in c' ==> (Matches(p.d, c', id, f) <==> id == row.id))
            && (forall id :: id in c ==> c'[id] == c[id])
  {
    UpsertSatisfiesFilter(p, f, update, generated, 1);
  }

  /** The filter {a: 1, a.b: 2}. */
  /** An insert never overwrites: what is there stays, under an id that is taken nothing is inserted, and under a new
      one exactly the row is. */
  lemma NothingOverwritten(p: Printer, c: Collection, f: Filter, update: seq<UpdateOp>, generated: string)
    requires Upserted(p, c, f, update, generated).Some?
    ensures NewRow(p, f, update, generated).Some?
    ensures var (row, after) := (NewRow(p, f, update, generated).value, Upserted(p, c, f, update, generated).value);
            && (forall id :: id in c ==> id in after && after[id] == c[id])
            && after.Keys == c.Keys + {row.id}
            && (row.id !in c ==> after[row.id] == row.data)
  {
  }

  function Overlap(): Filter {
    FilterSql.Filter([FilterSql.Field("a", FilterSql.Value(Number(1.0))),
                      FilterSql.Field("a.b", FilterSql.Value(Number(2.0)))])
  }

  /** Paths that overlap lose a value: under {a: 1, a.b: 2} the later entry overwrites the
      earlier one with an object, and the inserted document does not match. */
  lemma OverlappingPathsLoseAValue(p: Printer, generated: string) returns (row: FilterSql.Row)
    ensures !Separate(Overlap(), [])
    ensures NewRow(p, Overlap(), [], generated) == Some(row)
    ensures FilterSql.Means(p.d, row, Overlap()) == FilterSql.False
  {
    NotSeparate(Overlap().items);
    row := OverwrittenRow(p, Overlap(), generated);
    ObjectIsNotNumber(p, row, Overlap().items[0]);
    FalseFirst(p.d, row, Overlap());
  }

  lemma OverwrittenRow(p: Printer, f: Filter, generated: string) returns (row: FilterSql.Row)
    requires f == Overlap()
    ensures NewRow(p, f, [], generated) == Some(row)
    ensures row.data.Object? && "a" in row.data.fields && row.data.fields["a"].Object?
  {
    var doc := OverwrittenSeed(p, f.items);
    NoEdits(doc);
    row := ToRow(p.d, doc, generated);
    assert "a" != "_id" by { assert |"a"| != |"_id"|; }
  }

  lemma NoEdits(doc: Doc)
    ensures Applied(doc, InsertEdits([])) == Some(doc)
  {
    assert InsertEdits([]) == [];
  }

  lemma FalseFirst(d: FilterSql.Dialect, row: FilterSql.Row, f: Filter)
    requires f.items != [] && FilterSql.MeansItem(d, row, f.items[0]) == FilterSql.False
    ensures FilterSql.Means(d, row, f) == FilterSql.False
  {
  }

  lemma NotSeparate(items: seq<Item>)
    requires items == [FilterSql.Field("a", FilterSql.Value(Number(1.0))),
                       FilterSql.Field("a.b", FilterSql.Value(Number(2.0)))]
    ensures !Separate(FilterSql.Filter(items), [])
  {
    SplitAB();
    var f := FilterSql.Filter(items);
    assert !Diverge(["a"], ["a", "b"]) by {
      assert !Diverge(["a"][1..], ["a", "b"][1..]);
    }
    assert Path(f.items[0]) == ["a"] && Path(f.items[1]) == ["a", "b"];
  }

  lemma ObjectIsNotNumber(p: Printer, row: FilterSql.Row, item: Item)
    requires item == FilterSql.Field("a", FilterSql.Value(Number(1.0)))
    requires row.data.Object? && "a" in row.data.fields && row.data.fields["a"].Object?
    ensures FilterSql.MeansItem(p.d, row, item) == FilterSql.False
  {
    SplitAB();
    ContainsNested(row.data, ["a"], Number(1.0));
    AtStep(row.data.fields, ["a"]);
  }

  lemma OverwrittenSeed(p: Printer, items: seq<Item>) returns (doc: Doc)
    requires items == [FilterSql.Field("a", FilterSql.Value(Number(1.0))),
                       FilterSql.Field("a.b", FilterSql.Value(Number(2.0)))]
    ensures doc == Seeded(p, items) && "a" in doc && doc["a"].Object?
  {
    SplitAB();
    assert items[..1] == [items[0]] && items[..1][..0] == [];
    assert Seeded(p, items[..1]) == map["a" := Number(1.0)];
    assert Seeded(p, items) == SetPath(map["a" := Number(1.0)], ["a", "b"], Number(2.0));
    doc := Seeded(p, items);
  }

  lemma SplitAB()
    ensures Split("a") == ["a"] && Split("a.b") == ["a", "b"]
  {
    var s := "a.b";
    assert s[1..] == ".b" && s[1..][1..] == "b";
    assert Split("b") == ["b"];
    assert Split(".b") == [""] + ["b"];
    assert Split("a.b") == [['a'] + ""] + ["b"];
  }

  /** The filter {_id: null}. */
  function NullId(): Filter {
    FilterSql.Filter([FilterSql.Field("_id", FilterSql.Value(Null))])
  }

  /** A null id in the filter is generated afresh on insert, so the document is inserted
      under another id than the one looked for, unless that happens to be generated. */
  lemma NullIdIsNotFoundAgain(p: Printer, generated: string) returns (row: FilterSql.Row)
    requires generated != p.d.pyStr(Null)
    ensures NewRow(p, NullId(), [], generated) == Some(row) && row == FilterSql.Row(generated, Object(map[]))
    ensures FilterSql.Means(p.d, row, NullId()) == FilterSql.False
  {
    row := FilterSql.Row(generated, Object(map[]));
    NullSeed(p, NullId().items);
    NoEdits(map["_id" := Null]);
    assert map["_id" := Null] - {"_id"} == map[];
    assert FilterSql.MeansItem(p.d, row, NullId().items[0]) == FilterSql.False;
    FalseFirst(p.d, row, NullId());
  }

  lemma NullSeed(p: Printer, items: seq<Item>)
    requires items == NullId().items
    ensures Seeded(p, items) == map["_id" := Null]
  {
    assert items[..0] == [];
  }
}
