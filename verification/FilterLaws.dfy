// Which rows the clauses of a filter select, said of the row's values.
module FilterLaws {
  import opened Wrappers
  import opened Json
  import opened PyText
  import opened FilterSql

  // ---- reading a row ---------------------------------------------------------------------------

  /** Where a path leads through objects, the database reads what Python reads. */
  lemma {:induction false} ReadsObjects(j: Json, parts: seq<string>)
    requires Get(j, parts).Some?
    ensures SqlGet(j, parts) == Get(j, parts)
  {
    if parts != [] {
      ReadsObjects(j.fields[parts[0]], parts[1..]);
    }
  }

  /** Into arrays it goes by position, from the front or, with a sign, from the back. */
  lemma ReadsArrays(items: seq<Json>, n: nat)
    requires n < |items|
    ensures SqlGet(Array(items), [Digits(n)]) == Some(items[n])
    ensures SqlGet(Array(items), ["-" + Digits(|items| - n)]) == Some(items[n])
    ensures SqlGet(Array(items), [Digits(|items| + n)]) == None
  {
    ParseDecimal(n);
    ReadsAt(items, Digits(n), n);
    ParseDecimal(|items| - n);
    ReadsAt(items, "-" + Digits(|items| - n), n - |items|);
    ParseDecimal(|items| + n);
    ReadsAt(items, Digits(|items| + n), |items| + n);
  }

  lemma ReadsAt(items: seq<Json>, part: string, n: int)
    requires ParseInt(part).Some? && ParseInt(part).value == n
    ensures SqlGet(Array(items), [part]) ==
            if 0 <= n < |items| then Some(items[n])
            else if 0 <= n + |items| < |items| then Some(items[n + |items|])
            else None
  {
    assert [part][1..] == [];
  }

  /** The row satisfies the mapping that holds just the one operator. */
  predicate Selects(d: Dialect, row: Row, name: string, op: Op) {
    MeansItem(d, row, Field(name, Ops([op]))) == True
  }

  lemma SelectsIs(d: Dialect, row: Row, name: string, op: Op, ignoreCase: bool)
    requires !op.Regex?
    ensures Selects(d, row, name, op) <==>
            (if name == "_id" then MeansIdOp(d, row, op) else MeansOp(d, row, name, op, ignoreCase)) == True
  {
    var asked := IgnoreCase([op]);
    assert [op][1..] == [] && MeansOps(d, row, name, [], asked) == True;
    assert MeansOp(d, row, name, op, asked) == MeansOp(d, row, name, op, ignoreCase);
  }

  // ---- comparisons -----------------------------------------------------------------------------

  ghost predicate OrdersNumbers(d: Dialect) {
    forall x, y :: d.jsonLess(Number(x), Number(y)) <==> x < y
  }

  /** A number is selected by a comparison with a number as their order says. */
  lemma NumbersCompared(d: Dialect, row: Row, name: string, a: real, b: real)
    requires name != "_id" && OrdersNumbers(d) && SqlGet(row.data, Split(name)) == Some(Number(a))
    ensures Selects(d, row, name, Compare(Eq, Number(b))) <==> a == b
    ensures Selects(d, row, name, Compare(Ne, Number(b))) <==> a != b
    ensures Selects(d, row, name, Compare(Gt, Number(b))) <==> a > b
    ensures Selects(d, row, name, Compare(Gte, Number(b))) <==> a >= b
    ensures Selects(d, row, name, Compare(Lt, Number(b))) <==> a < b
    ensures Selects(d, row, name, Compare(Lte, Number(b))) <==> a <= b
  {
    forall cmp: Cmp ensures Selects(d, row, name, Compare(cmp, Number(b))) <==> Decide(cmp, a == b, a < b) == True {
      SelectsIs(d, row, name, Compare(cmp, Number(b)), false);
    }
  }

  /** Text is compared as text, by the database's order of it. */
  lemma TextsCompared(d: Dialect, row: Row, name: string, s: string, v: Json, t: string)
    requires name != "_id" && !v.Number? && !v.Bool? && d.pyStr(v) == t
    requires SqlGetText(d, row.data, Split(name)) == Some(s) && !(d.textLess(s, t) && s == t)
    ensures Selects(d, row, name, Compare(Eq, v)) <==> s == t
    ensures Selects(d, row, name, Compare(Ne, v)) <==> s != t
    ensures Selects(d, row, name, Compare(Lt, v)) <==> d.textLess(s, t)
    ensures Selects(d, row, name, Compare(Lte, v)) <==> s == t || d.textLess(s, t)
    ensures Selects(d, row, name, Compare(Gt, v)) <==> s != t && !d.textLess(s, t)
    ensures Selects(d, row, name, Compare(Gte, v)) <==> !d.textLess(s, t)
  {
    forall cmp: Cmp ensures Selects(d, row, name, Compare(cmp, v)) <==> Decide(cmp, s == t, d.textLess(s, t)) == True {
      SelectsIs(d, row, name, Compare(cmp, v), false);
    }
  }

  /** Nothing at the path, or a null where text is compared, satisfies no comparison, not even inequality. */
  lemma NothingCompared(d: Dialect, row: Row, name: string, cmp: Cmp, v: Json)
    requires name != "_id"
    requires SqlGet(row.data, Split(name)) == None ||
             (SqlGet(row.data, Split(name)) == Some(Null) && !v.Number? && !v.Bool?)
    ensures !Selects(d, row, name, Compare(cmp, v))
  {
    SelectsIs(d, row, name, Compare(cmp, v), false);
  }

  /** `$exists` selects by presence alone; a null is there. */
  lemma PresenceTested(d: Dialect, row: Row, name: string)
    requires name != "_id"
    ensures Selects(d, row, name, Op.Exists(true)) <==> SqlGet(row.data, Split(name)).Some?
    ensures Selects(d, row, name, Op.Exists(false)) <==> SqlGet(row.data, Split(name)).None?
  {
    SelectsIs(d, row, name, Op.Exists(true), false);
    SelectsIs(d, row, name, Op.Exists(false), false);
  }

  // ---- membership ------------------------------------------------------------------------------

  lemma {:induction false} AnyEqualIs(d: Dialect, row: Row, parts: seq<string>, values: seq<Json>)
    ensures AnyEqual(d, row, parts, values) ==
            if values == [] then False
            else
              match SqlGet(row.data, parts)
              case None => Unknown3
              case Some(j) => if j in values then True else False
  {
    if values != [] {
      AnyEqualIs(d, row, parts, values[1..]);
    }
  }

  /** `$in` selects the listed values; `$nin` those that are there and not listed, and everything when nothing is
      listed. */
  lemma MembersSelected(d: Dialect, row: Row, name: string, values: seq<Json>)
    requires name != "_id"
    ensures Selects(d, row, name, In(values)) <==>
            SqlGet(row.data, Split(name)).Some? && SqlGet(row.data, Split(name)).value in values
    ensures Selects(d, row, name, Nin(values)) <==>
            values == [] || (SqlGet(row.data, Split(name)).Some? && SqlGet(row.data, Split(name)).value !in values)
  {
    AnyEqualIs(d, row, Split(name), values);
    SelectsIs(d, row, name, In(values), false);
    SelectsIs(d, row, name, Nin(values), false);
  }

  /** The text an id has in its column: a string as it is, anything else as Python prints it. */
  predicate IsId(d: Dialect, v: Json, id: string) {
    if v.Text? then id == v.s else id == d.pyStr(v)
  }

  lemma {:induction false} AnyIdIs(d: Dialect, row: Row, values: seq<Json>)
    ensures AnyId(d, row, values) == if IsAnyId(d, values, row.id) then True else False
  {
    if values != [] {
      AnyIdIs(d, row, values[1..]);
      assert forall i :: 1 <= i < |values| ==> values[i] == values[1..][i - 1];
      assert forall i :: 0 <= i < |values[1..]| ==> values[1..][i] == values[i + 1];
    }
  }

  predicate IsAnyId(d: Dialect, values: seq<Json>, id: string) {
    exists i :: 0 <= i < |values| && IsId(d, values[i], id)
  }

  /** Ids are compared as text, and never unknown. */
  lemma IdsSelected(d: Dialect, row: Row, v: Json, values: seq<Json>)
    ensures Selects(d, row, "_id", Compare(Eq, v)) <==> IsId(d, v, row.id)
    ensures Selects(d, row, "_id", Compare(Ne, v)) <==> !IsId(d, v, row.id)
    ensures Selects(d, row, "_id", In(values)) <==> IsAnyId(d, values, row.id)
    ensures Selects(d, row, "_id", Nin(values)) <==> !IsAnyId(d, values, row.id)
  {
    AnyIdIs(d, row, values);
    SelectsIs(d, row, "_id", Compare(Eq, v), false);
    SelectsIs(d, row, "_id", Compare(Ne, v), false);
    SelectsIs(d, row, "_id", In(values), false);
    SelectsIs(d, row, "_id", Nin(values), false);
  }

  // ---- clauses and logic -----------------------------------------------------------------------

  /** A plain value is looked for at its path, and something that contains it will do; as an id it is compared. */
  lemma ValuesSelected(d: Dialect, row: Row, name: string, v: Plain)
    ensures name == "_id" ==> (MeansItem(d, row, Field(name, Value(v))) == True <==> IsId(d, v, row.id))
    ensures name != "_id" ==>
              (MeansItem(d, row, Field(name, Value(v))) == True <==>
               Get(row.data, Split(name)).Some? && Contains(Get(row.data, Split(name)).value, v))
  {
    ContainsNested(row.data, Split(name), v);
  }

  /** A mapping of operators other than `$regex` selects what each of them selects. */
  lemma {:induction false} MappingSelects(d: Dialect, row: Row, name: string, ops: seq<Op>, ignoreCase: bool)
    requires forall i :: 0 <= i < |ops| ==> !ops[i].Regex?
    ensures MeansOps(d, row, name, ops, ignoreCase) == True <==>
            forall i :: 0 <= i < |ops| ==> Selects(d, row, name, ops[i])
  {
    if ops != [] {
      MappingSelects(d, row, name, ops[1..], ignoreCase);
      SelectsIs(d, row, name, ops[0], ignoreCase);
      assert forall i :: 1 <= i < |ops| ==> ops[i] == ops[1..][i - 1];
      assert forall i :: 0 <= i < |ops[1..]| ==> ops[1..][i] == ops[i + 1];
    }
  }

  /** A filter selects a row when all its entries do. */
  lemma {:induction false} AllSelect(d: Dialect, row: Row, items: seq<Item>)
    ensures MeansAll(d, row, items) == True <==> forall i :: 0 <= i < |items| ==> MeansItem(d, row, items[i]) == True
  {
    if items != [] {
      AllSelect(d, row, items[1..]);
      assert forall i :: 1 <= i < |items| ==> items[i] == items[1..][i - 1];
      assert forall i :: 0 <= i < |items[1..]| ==> items[1..][i] == items[i + 1];
    }
  }

  predicate Each(d: Dialect, row: Row, subs: seq<Filter>, truth: Truth) {
    forall i :: 0 <= i < |subs| ==> Means(d, row, subs[i]) == truth
  }

  predicate One(d: Dialect, row: Row, subs: seq<Filter>, truth: Truth) {
    exists i :: 0 <= i < |subs| && Means(d, row, subs[i]) == truth
  }

  /** `$and` selects when all do, `$or` when one does, and `$nor` when every one is false, not merely unknown. */
  lemma LogicSelects(d: Dialect, row: Row, subs: seq<Filter>)
    ensures MeansItem(d, row, And(subs)) == True <==> Each(d, row, subs, True)
    ensures MeansItem(d, row, Or(subs)) == True <==> One(d, row, subs, True)
    ensures MeansItem(d, row, Nor(subs)) == True <==> Each(d, row, subs, False)
  {
    EveryIs(d, row, subs);
    SomeIs(d, row, subs);
  }

  lemma {:induction false} EveryIs(d: Dialect, row: Row, subs: seq<Filter>)
    ensures Every(d, row, subs) == True <==> Each(d, row, subs, True)
  {
    if subs != [] {
      EveryIs(d, row, subs[1..]);
      assert forall i :: 1 <= i < |subs| ==> subs[i] == subs[1..][i - 1];
      assert forall i :: 0 <= i < |subs[1..]| ==> subs[1..][i] == subs[i + 1];
    }
  }

  lemma {:induction false} SomeIs(d: Dialect, row: Row, subs: seq<Filter>)
    ensures Some_(d, row, subs) == True <==> One(d, row, subs, True)
    ensures Some_(d, row, subs) == False <==> Each(d, row, subs, False)
  {
    if subs != [] {
      SomeIs(d, row, subs[1..]);
      assert forall i :: 1 <= i < |subs| ==> subs[i] == subs[1..][i - 1];
      assert forall i :: 0 <= i < |subs[1..]| ==> subs[1..][i] == subs[i + 1];
    }
  }
}
