// What an upsert that matched nothing inserts, said from the filter and the update.
module InsertLaws {
  import opened Wrappers
  import opened Json
  import FilterSql
  import opened DocUpdate
  import opened UpdateLaws
  import opened Upsert

  /** The value is in the row at its path: under the id as the id's text, elsewhere in the data. */
  predicate Holds(d: FilterSql.Dialect, row: FilterSql.Row, generated: string, path: seq<string>, v: Json) {
    if path == ["_id"] then
      row.id == match v case Null => generated case Text(s) => s case _ => d.pyStr(v)
    else path != [] && path[0] != "_id" && Get(row.data, path) == Some(v)
  }

  lemma RowHolds(d: FilterSql.Dialect, doc: Doc, generated: string, path: seq<string>, v: Json)
    requires At(doc, path) == Some(v) && path != [] && (path[0] == "_id" ==> path == ["_id"])
    ensures Holds(d, ToRow(d, doc, generated), generated, path, v)
  {
    if path == ["_id"] {
      AtStep(doc, path);
    } else {
      WithoutId(doc, path);
    }
  }

  /** The document as the update's own operators find it: the filter's equalities, then `$setOnInsert`. */
  function Prepared(p: Printer, f: Filter, update: seq<UpdateOp>): Option<Doc> {
    Applied(Seeded(p, f.items), Edits(Set(OnInsert(update))))
  }

  lemma RowFromPrepared(p: Printer, f: Filter, update: seq<UpdateOp>, generated: string) returns (base: Doc)
    requires NewRow(p, f, update, generated).Some?
    ensures Prepared(p, f, update) == Some(base) && Applied(base, AllEdits(update)).Some?
    ensures NewRow(p, f, update, generated) == Some(ToRow(p.d, Applied(base, AllEdits(update)).value, generated))
  {
    AppliedAppend(Seeded(p, f.items), Edits(Set(OnInsert(update))), AllEdits(update));
    base := Prepared(p, f, update).value;
  }

  /** A `$set` value that no later entry touches is in the inserted row. */
  lemma SetInserted(p: Printer, f: Filter, update: seq<UpdateOp>, generated: string, u: nat, j: nat)
    requires NewRow(p, f, update, generated).Some?
    requires u < |update| && update[u].Set? && j < |update[u].values|
    requires var path := Split(update[u].values[j].0);
             IsLast(update, u, j, path) && (path[0] == "_id" ==> path == ["_id"])
    ensures Holds(p.d, NewRow(p, f, update, generated).value, generated, Split(update[u].values[j].0),
                  update[u].values[j].1)
  {
    var base := RowFromPrepared(p, f, update, generated);
    SetStores(base, update, u, j);
    RowHolds(p.d, Applied(base, AllEdits(update)).value, generated, Split(update[u].values[j].0),
             update[u].values[j].1);
  }

  // ---- $setOnInsert ------------------------------------------------------------------------------

  /** No `$setOnInsert` entry after the j-th of the u-th operator touches the path. */
  predicate LastOnInsert(update: seq<UpdateOp>, u: nat, j: nat, path: seq<string>)
    requires u < |update| && update[u].SetOnInsert?
  {
    && (forall i :: j < i < |update[u].values| ==> Diverge(path, Split(update[u].values[i].0)))
    && (forall v, i :: u < v < |update| && update[v].SetOnInsert? && 0 <= i < |update[v].values| ==>
          Diverge(path, Split(update[v].values[i].0)))
  }

  /** No entry of any other operator touches the path. */
  predicate Untouched(update: seq<UpdateOp>, path: seq<string>) {
    forall v, i :: 0 <= v < |update| && 0 <= i < |Touched(update[v])| ==> Diverge(path, Touched(update[v])[i])
  }

  predicate AllDiverge(values: seq<(string, Json)>, path: seq<string>) {
    forall i :: 0 <= i < |values| ==> Diverge(path, Split(values[i].0))
  }

  lemma {:induction false} OnInsertDiverges(update: seq<UpdateOp>, path: seq<string>)
    requires forall v, i :: 0 <= v < |update| && update[v].SetOnInsert? && 0 <= i < |update[v].values| ==>
               Diverge(path, Split(update[v].values[i].0))
    ensures AllDiverge(OnInsert(update), path)
  {
    if update != [] {
      var rest := update[1..];
      assert forall v :: 0 <= v < |rest| ==> rest[v] == update[v + 1];
      OnInsertDiverges(rest, path);
    }
  }

  /** Where an entry stands in the list of all `$setOnInsert` entries. */
  lemma {:induction false} OnInsertAt(update: seq<UpdateOp>, u: nat, j: nat, path: seq<string>) returns (k: nat)
    requires u < |update| && update[u].SetOnInsert? && j < |update[u].values| && LastOnInsert(update, u, j, path)
    ensures k < |OnInsert(update)| && OnInsert(update)[k] == update[u].values[j]
    ensures AllDiverge(OnInsert(update)[k + 1..], path)
    decreases u
  {
    var rest := update[1..];
    assert forall v :: 0 <= v < |rest| ==> rest[v] == update[v + 1];
    if u == 0 {
      k := j;
      OnInsertDiverges(rest, path);
      assert OnInsert(update)[k + 1..] == update[0].values[j + 1..] + OnInsert(rest);
    } else {
      var i := OnInsertAt(rest, u - 1, j, path);
      k := |OnInsert(update)| - |OnInsert(rest)| + i;
      assert OnInsert(update)[k + 1..] == OnInsert(rest)[i + 1..];
    }
  }

  /** The edits of a list of values leave each of them at its path that later ones do not touch. */
  lemma ValuesStored(d: Doc, values: seq<(string, Json)>, k: nat)
    requires k < |values| && AllDiverge(values[k + 1..], Split(values[k].0)) && Applied(d, Edits(Set(values))).Some?
    ensures At(Applied(d, Edits(Set(values))).value, Split(values[k].0)) == Some(values[k].1)
  {
    var update := [Set(values)];
    assert update[1..] == [] && Edits(Set(values)) + [] == Edits(Set(values));
    assert forall i :: k < i < |values| ==> values[i] == values[k + 1..][i - k - 1];
    SetStores(d, update, 0, k);
  }

  /** A `$setOnInsert` value that no later entry of it and no entry of another operator touches is in the inserted
      row. */
  lemma SetOnInsertInserted(p: Printer, f: Filter, update: seq<UpdateOp>, generated: string, u: nat, j: nat)
    requires NewRow(p, f, update, generated).Some?
    requires u < |update| && update[u].SetOnInsert? && j < |update[u].values|
    requires var path := Split(update[u].values[j].0);
             LastOnInsert(update, u, j, path) && Untouched(update, path) && (path[0] == "_id" ==> path == ["_id"])
    ensures Holds(p.d, NewRow(p, f, update, generated).value, generated, Split(update[u].values[j].0),
                  update[u].values[j].1)
  {
    var path := Split(update[u].values[j].0);
    var base := RowFromPrepared(p, f, update, generated);
    var k := OnInsertAt(update, u, j, path);
    ValuesStored(Seeded(p, f.items), OnInsert(update), k);
    LaterClear(update, path);
    UpdateFrame(base, AllEdits(update), path);
    RowHolds(p.d, Applied(base, AllEdits(update)).value, generated, path, update[u].values[j].1);
  }

  // ---- the filter's part ---------------------------------------------------------------------------

  /** The path is beside the path of each equality; the empty mapping counts as one. */
  predicate EqualitiesDiverge(items: seq<Item>, path: seq<string>) {
    forall i :: 0 <= i < |items| && items[i].Field? && (items[i].clause.Value? || items[i].clause.ops == []) ==>
      Diverge(path, Split(items[i].name))
  }

  /** Only equalities are taken from the filter: operators on a field, and `$and`, `$or`, `$nor`, put nothing there. */
  lemma {:induction false} SeededFromEqualities(p: Printer, items: seq<Item>, path: seq<string>)
    requires path != [] && path[0] != "_id"
    requires EqualitiesDiverge(items, path)
    ensures At(Seeded(p, items), path) == None
  {
    if items == [] {
      AtStep(map[], path);
    } else {
      var last, rest := items[|items| - 1], items[..|items| - 1];
      SeededFromEqualities(p, rest, path);
      match last
      case Field(name, Value(v)) => SetFrame(Seeded(p, rest), Split(name), v, path);
      case Field(name, Ops(ops)) =>
        if name == "_id" {
          AtStep(Seeded(p, rest), path);
          AtStep(Seed(p, Seeded(p, rest), last), path);
        } else if ops == [] {
          SetFrame(Seeded(p, rest), Split(name), Object(map[]), path);
        }
      case _ =>
    }
  }

  /** A path that neither the filter's equalities nor the update touches is not in the inserted row. */
  lemma NothingElseInserted(p: Printer, f: Filter, update: seq<UpdateOp>, generated: string, path: seq<string>)
    requires NewRow(p, f, update, generated).Some? && path != [] && path[0] != "_id"
    requires EqualitiesDiverge(f.items, path)
    requires Untouched(update, path)
    requires forall v, i :: 0 <= v < |update| && update[v].SetOnInsert? && 0 <= i < |update[v].values| ==>
               Diverge(path, Split(update[v].values[i].0))
    ensures Get(NewRow(p, f, update, generated).value.data, path) == None
  {
    var base := RowFromPrepared(p, f, update, generated);
    SeededFromEqualities(p, f.items, path);
    OnInsertDiverges(update, path);
    UpdateFrame(Seeded(p, f.items), Edits(Set(OnInsert(update))), path);
    LaterClear(update, path);
    UpdateFrame(base, AllEdits(update), path);
    WithoutId(Applied(base, AllEdits(update)).value, path);
  }
}
