// What an update leaves at the paths it touches, said from its operators.
module UpdateLaws {
  import opened Wrappers
  import opened Sequences
  import opened Json
  import opened DocUpdate

  // ---- entries and their order -----------------------------------------------------------------

  /** The paths that an operator's entries touch, in order. */
  function Touched(op: UpdateOp): seq<seq<string>> {
    match op
    case Set(values) => seq(|values|, i requires 0 <= i < |values| => Split(values[i].0))
    case Unset(paths) => seq(|paths|, i requires 0 <= i < |paths| => Split(paths[i]))
    case Inc(amounts) => seq(|amounts|, i requires 0 <= i < |amounts| => Split(amounts[i].0))
    case Push(pushes) => seq(|pushes|, i requires 0 <= i < |pushes| => Split(pushes[i].0))
    case Pull(values) => seq(|values|, i requires 0 <= i < |values| => Split(values[i].0))
    case AddToSet(values) => seq(|values|, i requires 0 <= i < |values| => Split(values[i].0))
    case Replace(name, _) => [[name]]
    case _ => []
  }

  /** Every entry after the j-th of the u-th operator touches other paths. */
  predicate IsLast(update: seq<UpdateOp>, u: nat, j: nat, path: seq<string>)
    requires u < |update|
  {
    && (forall i :: j < i < |Touched(update[u])| ==> Diverge(path, Touched(update[u])[i]))
    && (forall v, i :: u < v < |update| && 0 <= i < |Touched(update[v])| ==> Diverge(path, Touched(update[v])[i]))
  }

  lemma TouchedByEdits(op: UpdateOp, path: seq<string>)
    ensures forall i :: 0 <= i < |Edits(op)| && !Edits(op)[i].Unsupported? ==>
              i < |Touched(op)| && Edits(op)[i].path == Touched(op)[i]
    ensures op.CurrentDate? || |Edits(op)| == |Touched(op)|
  {
  }

  lemma {:induction false} LaterClear(update: seq<UpdateOp>, path: seq<string>)
    requires forall v, i :: 0 <= v < |update| && 0 <= i < |Touched(update[v])| ==> Diverge(path, Touched(update[v])[i])
    ensures Clear(path, AllEdits(update))
  {
    if update != [] {
      assert forall v :: 0 <= v < |update[1..]| ==> update[1..][v] == update[v + 1];
      LaterClear(update[1..], path);
      TouchedByEdits(update[0], path);
    }
  }

  function EditsBefore(update: seq<UpdateOp>, u: nat, j: nat): (edits: seq<Edit>)
    requires u < |update| && j < |Edits(update[u])|
    ensures Rooted(edits)
  {
    AllEdits(update[..u]) + Edits(update[u])[..j]
  }

  function EditsAfter(update: seq<UpdateOp>, u: nat, j: nat): (edits: seq<Edit>)
    requires u < |update| && j < |Edits(update[u])|
    ensures Rooted(edits)
  {
    Edits(update[u])[j + 1..] + AllEdits(update[u + 1..])
  }

  lemma {:induction false} EditsSplit(update: seq<UpdateOp>, u: nat, j: nat)
    requires u < |update| && j < |Edits(update[u])|
    ensures AllEdits(update) == EditsBefore(update, u, j) + [Edits(update[u])[j]] + EditsAfter(update, u, j)
  {
    AllEditsConcat(update[..u], update[u..]);
    assert update == update[..u] + update[u..] && update[u..][1..] == update[u + 1..];
    assert AllEdits(update[u..]) == Edits(update[u]) + AllEdits(update[u + 1..]);
    CutAt(AllEdits(update[..u]), Edits(update[u]), j, AllEdits(update[u + 1..]));
  }

  lemma {:induction false} AllEditsConcat(a: seq<UpdateOp>, b: seq<UpdateOp>)
    ensures AllEdits(a + b) == AllEdits(a) + AllEdits(b)
  {
    if a == [] {
      assert a + b == b;
    } else {
      AllEditsConcat(a[1..], b);
      HeadOut(a, b);
      FirstEdits(a[0], a[1..] + b);
      Associates(Edits(a[0]), AllEdits(a[1..]), AllEdits(b));
    }
  }

  lemma HeadOut<T>(a: seq<T>, b: seq<T>)
    requires a != []
    ensures a + b == [a[0]] + (a[1..] + b)
  {
  }

  lemma FirstEdits(op: UpdateOp, rest: seq<UpdateOp>)
    ensures AllEdits([op] + rest) == Edits(op) + AllEdits(rest)
  {
    assert ([op] + rest)[1..] == rest;
  }

  lemma CutAt<T>(a: seq<T>, b: seq<T>, j: nat, c: seq<T>)
    requires j < |b|
    ensures a + (b + c) == a + b[..j] + [b[j]] + (b[j + 1..] + c)
  {
    assert b == b[..j] + [b[j]] + b[j + 1..];
  }

  /** The document as the j-th entry of the u-th operator finds it. */
  ghost function Before(d: Doc, update: seq<UpdateOp>, u: nat, j: nat): Option<Doc>
    requires u < |update| && j < |Edits(update[u])|
  {
    Applied(d, EditsBefore(update, u, j))
  }

  /** Where an update goes through, each entry found a document and changed it, and later entries left its path
      alone. */
  lemma EntryApplied(d: Doc, update: seq<UpdateOp>, u: nat, j: nat) returns (found: Doc, after: Doc)
    requires u < |update| && j < |Edits(update[u])| && Applied(d, AllEdits(update)).Some?
    ensures Before(d, update, u, j) == Some(found) && ApplyEdit(found, Edits(update[u])[j]) == Some(after)
    ensures Applied(after, EditsAfter(update, u, j)) == Applied(d, AllEdits(update))
  {
    var e, before, rest := Edits(update[u])[j], EditsBefore(update, u, j), EditsAfter(update, u, j);
    EditsSplit(update, u, j);
    Associates(before, [e], rest);
    AppliedAppend(d, before, [e] + rest);
    found := Applied(d, before).value;
    assert ([e] + rest)[0] == e && ([e] + rest)[1..] == rest;
    after := ApplyEdit(found, e).value;
  }

  /** Later entries that touch other paths keep what the entry left at its own. */
  lemma EntryKept(d: Doc, update: seq<UpdateOp>, u: nat, j: nat, after: Doc, path: seq<string>)
    requires u < |update| && j < |Edits(update[u])| && IsLast(update, u, j, path)
    requires Applied(d, AllEdits(update)).Some?
    requires Applied(after, EditsAfter(update, u, j)) == Applied(d, AllEdits(update))
    ensures At(Applied(d, AllEdits(update)).value, path) == At(after, path)
  {
    AfterIsClear(update, u, j, path);
    UpdateFrame(after, EditsAfter(update, u, j), path);
  }

  lemma AfterIsClear(update: seq<UpdateOp>, u: nat, j: nat, path: seq<string>)
    requires u < |update| && j < |Edits(update[u])| && IsLast(update, u, j, path)
    ensures Clear(path, EditsAfter(update, u, j))
  {
    TouchedByEdits(update[u], path);
    var later := update[u + 1..];
    assert forall v :: 0 <= v < |later| ==> later[v] == update[u + 1 + v];
    LaterClear(later, path);
  }

  // ---- what each operator leaves ---------------------------------------------------------------

  /** The value at a path as the j-th entry of the u-th operator finds it: what earlier entries left there. */
  ghost function Was(d: Doc, update: seq<UpdateOp>, u: nat, j: nat, path: seq<string>): Option<Json>
    requires u < |update| && j < |Edits(update[u])|
  {
    match Before(d, update, u, j)
    case None => None
    case Some(found) => At(found, path)
  }

  predicate Missing(was: Option<Json>) {
    was.None? || was.value.Null?
  }

  /** `$set` leaves its value. */
  lemma SetStores(d: Doc, update: seq<UpdateOp>, u: nat, j: nat)
    requires Applied(d, AllEdits(update)).Some?
    requires u < |update| && update[u].Set? && j < |update[u].values|
    requires IsLast(update, u, j, Split(update[u].values[j].0))
    ensures At(Applied(d, AllEdits(update)).value, Split(update[u].values[j].0)) == Some(update[u].values[j].1)
  {
    var (path, v) := (Split(update[u].values[j].0), update[u].values[j].1);
    assert Edits(update[u])[j] == SetAt(path, v);
    var found, after := EntryApplied(d, update, u, j);
    SetLeaves(found, path, v);
    EntryKept(d, update, u, j, after, path);
  }

  lemma SetLeaves(found: Doc, path: seq<string>, v: Json)
    requires |path| > 0
    ensures ApplyEdit(found, SetAt(path, v)).Some? && At(ApplyEdit(found, SetAt(path, v)).value, path) == Some(v)
  {
    GetAfterSet(found, path, v);
  }

  /** Any key that is no operator leaves its payload under that very name, dots and all. */
  lemma ReplaceStores(d: Doc, update: seq<UpdateOp>, u: nat)
    requires Applied(d, AllEdits(update)).Some?
    requires u < |update| && update[u].Replace? && IsLast(update, u, 0, [update[u].name])
    ensures At(Applied(d, AllEdits(update)).value, [update[u].name]) == Some(update[u].payload)
  {
    var (path, v) := ([update[u].name], update[u].payload);
    ReplaceEntry(update[u]);
    var found, after := EntryApplied(d, update, u, 0);
    SetLeaves(found, path, v);
    EntryKept(d, update, u, 0, after, path);
  }

  lemma ReplaceEntry(op: UpdateOp)
    requires op.Replace?
    ensures |Edits(op)| == 1 && Edits(op)[0] == SetAt([op.name], op.payload)
  {
  }

  /** `$unset` leaves nothing. */
  lemma UnsetRemoves(d: Doc, update: seq<UpdateOp>, u: nat, j: nat)
    requires Applied(d, AllEdits(update)).Some?
    requires u < |update| && update[u].Unset? && j < |update[u].paths|
    requires IsLast(update, u, j, Split(update[u].paths[j]))
    ensures At(Applied(d, AllEdits(update)).value, Split(update[u].paths[j])) == None
  {
    var path := Split(update[u].paths[j]);
    assert Edits(update[u])[j] == UnsetAt(path);
    var found, after := EntryApplied(d, update, u, j);
    GetAfterUnset(found, path);
    EntryKept(d, update, u, j, after, path);
  }

  /** `$inc` leaves the old number plus the amount, and the amount where there was nothing. */
  lemma IncAdds(d: Doc, update: seq<UpdateOp>, u: nat, j: nat)
    requires Applied(d, AllEdits(update)).Some?
    requires u < |update| && update[u].Inc? && j < |update[u].amounts|
    requires IsLast(update, u, j, Split(update[u].amounts[j].0))
    ensures Increased(Was(d, update, u, j, Split(update[u].amounts[j].0)), update[u].amounts[j].1,
                      At(Applied(d, AllEdits(update)).value, Split(update[u].amounts[j].0)))
  {
    var (path, amount) := (Split(update[u].amounts[j].0), update[u].amounts[j].1);
    assert Edits(update[u])[j] == IncAt(path, amount);
    var found, after := EntryApplied(d, update, u, j);
    IncLeaves(found, path, amount, after);
    EntryKept(d, update, u, j, after, path);
  }

  /** The sum, with nothing and null counted as 0, and Python's booleans as numbers. */
  predicate Increased(was: Option<Json>, amount: real, now: Option<Json>) {
    && now.Some? && now.value.Number?
    && (Missing(was) ==> now.value.n == amount)
    && (was.Some? && was.value.Number? ==> now.value.n == was.value.n + amount)
    && (was.Some? && was.value.Bool? ==> now.value.n == if was.value.b then amount + 1.0 else amount)
  }

  lemma IncLeaves(found: Doc, path: seq<string>, amount: real, after: Doc)
    requires |path| > 0 && ApplyEdit(found, IncAt(path, amount)) == Some(after)
    ensures Increased(At(found, path), amount, At(after, path))
  {
    GetAfterSet(found, path, EditValue(IncAt(path, amount), Current(found, path)).value);
  }

  /** The items that a push adds. */
  function Pushed(push: PushArg): seq<Json> {
    match push
    case One(item) => [item]
    case Each(items) => items
  }

  /** `$push` leaves the old items followed by the new ones; an update that goes through found a list or nothing. */
  lemma PushAppends(d: Doc, update: seq<UpdateOp>, u: nat, j: nat)
    requires Applied(d, AllEdits(update)).Some?
    requires u < |update| && update[u].Push? && j < |update[u].pushes|
    requires IsLast(update, u, j, Split(update[u].pushes[j].0))
    ensures Appended(Was(d, update, u, j, Split(update[u].pushes[j].0)), Pushed(update[u].pushes[j].1),
                     At(Applied(d, AllEdits(update)).value, Split(update[u].pushes[j].0)))
  {
    var (path, push) := (Split(update[u].pushes[j].0), update[u].pushes[j].1);
    assert Edits(update[u])[j] == PushAt(path, push);
    var found, after := EntryApplied(d, update, u, j);
    PushLeaves(found, path, push, after);
    EntryKept(d, update, u, j, after, path);
  }

  predicate Appended(was: Option<Json>, items: seq<Json>, now: Option<Json>) {
    if Missing(was) then now == Some(Array(items))
    else was.value.Array? && now == Some(Array(was.value.items + items))
  }

  lemma PushLeaves(found: Doc, path: seq<string>, push: PushArg, after: Doc)
    requires |path| > 0 && ApplyEdit(found, PushAt(path, push)) == Some(after)
    ensures Appended(At(found, path), Pushed(push), At(after, path))
  {
    GetAfterSet(found, path, EditValue(PushAt(path, push), Current(found, path)).value);
  }

  /** The kept items are the old ones at the positions `at`, which are all where no `v` stood, in order. */
  predicate KeepsAllBut(old_: seq<Json>, kept: seq<Json>, v: Json, at: seq<nat>) {
    && |at| == |kept|
    && (forall i :: 0 <= i < |at| ==> at[i] < |old_| && kept[i] == old_[at[i]])
    && (forall i, k :: 0 <= i < k < |at| ==> at[i] < at[k])
    && (forall k: nat :: k < |old_| ==> (k in at <==> old_[k] != v))
  }

  lemma {:induction false} WithoutKeeps(items: seq<Json>, v: Json) returns (at: seq<nat>)
    ensures KeepsAllBut(items, Without(items, v), v, at)
  {
    if items == [] {
      at := [];
    } else {
      var rest := WithoutKeeps(items[1..], v);
      assert items == [items[0]] + items[1..];
      if items[0] == v {
        at := Moved(rest);
        SkipsFirst(items[1..], Without(items[1..], v), v, rest);
        assert [] + Without(items[1..], v) == Without(items[1..], v);
      } else {
        at := [0] + Moved(rest);
        SkipsFirst(items[1..], Without(items[1..], v), v, rest);
        TakesFirst(items[0], items[1..], Without(items[1..], v), v, rest);
      }
    }
  }

  function Moved(at: seq<nat>): seq<nat> {
    seq(|at|, i requires 0 <= i < |at| => at[i] + 1)
  }

  lemma MovedHas(at: seq<nat>, k: nat)
    ensures k in Moved(at) <==> k > 0 && k - 1 in at
  {
    if k > 0 && k - 1 in at {
      var i :| 0 <= i < |at| && at[i] == k - 1;
      assert Moved(at)[i] == k;
    }
  }

  lemma SkipsFirst(rest: seq<Json>, kept: seq<Json>, v: Json, at: seq<nat>)
    requires KeepsAllBut(rest, kept, v, at)
    ensures KeepsAllBut([v] + rest, kept, v, Moved(at))
  {
    forall k: nat | k < |[v] + rest| ensures k in Moved(at) <==> ([v] + rest)[k] != v {
      MovedHas(at, k);
    }
  }

  lemma TakesFirst(first: Json, rest: seq<Json>, kept: seq<Json>, v: Json, at: seq<nat>)
    requires KeepsAllBut(rest, kept, v, at) && first != v
    ensures KeepsAllBut([first] + rest, [first] + kept, v, [0] + Moved(at))
  {
    forall k: nat | k < |[first] + rest| ensures k in [0] + Moved(at) <==> ([first] + rest)[k] != v {
      MovedHas(at, k);
    }
  }

  /** `$pull` leaves of a list the items that are not the value, in order, and anything else as it was. */
  lemma PullKeepsOthers(d: Doc, update: seq<UpdateOp>, u: nat, j: nat) returns (at: seq<nat>)
    requires Applied(d, AllEdits(update)).Some?
    requires u < |update| && update[u].Pull? && j < |update[u].values|
    requires IsLast(update, u, j, Split(update[u].values[j].0))
    ensures Pulled(Was(d, update, u, j, Split(update[u].values[j].0)), update[u].values[j].1,
                   At(Applied(d, AllEdits(update)).value, Split(update[u].values[j].0)), at)
  {
    var (path, v) := (Split(update[u].values[j].0), update[u].values[j].1);
    assert Edits(update[u])[j] == PullAt(path, v);
    var found, after := EntryApplied(d, update, u, j);
    at := PullLeaves(found, path, v, after);
    EntryKept(d, update, u, j, after, path);
  }

  predicate Pulled(was: Option<Json>, v: Json, now: Option<Json>, at: seq<nat>) {
    if was.Some? && was.value.Array? then
      now.Some? && now.value.Array? && KeepsAllBut(was.value.items, now.value.items, v, at)
    else now == was
  }

  lemma PullLeaves(found: Doc, path: seq<string>, v: Json, after: Doc) returns (at: seq<nat>)
    requires |path| > 0 && ApplyEdit(found, PullAt(path, v)) == Some(after)
    ensures Pulled(At(found, path), v, At(after, path), at)
  {
    at := [];
    if Current(found, path).Array? {
      GetAfterSet(found, path, Array(Without(Current(found, path).items, v)));
      at := WithoutKeeps(Current(found, path).items, v);
    }
  }

  /** `$addToSet` leaves a list as it was when the value is in it, and otherwise with the value at its end, once. */
  lemma AddToSetAdds(d: Doc, update: seq<UpdateOp>, u: nat, j: nat)
    requires Applied(d, AllEdits(update)).Some?
    requires u < |update| && update[u].AddToSet? && j < |update[u].values|
    requires IsLast(update, u, j, Split(update[u].values[j].0))
    ensures Added(Was(d, update, u, j, Split(update[u].values[j].0)), update[u].values[j].1,
                  At(Applied(d, AllEdits(update)).value, Split(update[u].values[j].0)))
  {
    var (path, v) := (Split(update[u].values[j].0), update[u].values[j].1);
    assert Edits(update[u])[j] == AddAt(path, v);
    var found, after := EntryApplied(d, update, u, j);
    AddLeaves(found, path, v, after);
    EntryKept(d, update, u, j, after, path);
  }

  predicate Added(was: Option<Json>, v: Json, now: Option<Json>) {
    if Missing(was) then now == Some(Array([v]))
    else if was.value.Array? && v !in was.value.items then
      now == Some(Array(was.value.items + [v])) && Occurs(now.value.items, v) == 1
    else now == was
  }

  lemma AddLeaves(found: Doc, path: seq<string>, v: Json, after: Doc)
    requires |path| > 0 && ApplyEdit(found, AddAt(path, v)) == Some(after)
    ensures Added(At(found, path), v, At(after, path))
  {
    GetAfterSet(found, path, EditValue(AddAt(path, v), Current(found, path)).value);
    if Current(found, path).Array? && v !in Current(found, path).items {
      OccursSnoc(Current(found, path).items, v, v);
      NotThere(Current(found, path).items, v);
    }
  }

  lemma {:induction false} NotThere(items: seq<Json>, v: Json)
    requires v !in items
    ensures Occurs(items, v) == 0
  {
    if items != [] {
      NotThere(items[1..], v);
    }
  }

  // ---- when an update raises -------------------------------------------------------------------

  /** What an entry cannot be applied to. */
  predicate Refuses(op: UpdateOp, j: nat, was: Option<Json>) {
    match op
    case CurrentDate => true
    case Inc(_) =>
      !Missing(was) &&
      (match was.value
       case Text(s) => s != ""
       case Array(items) => items != []
       case Object(fields) => fields != map[]
       case _ => false)
    case Push(_) => !Missing(was) && !was.value.Array?
    case AddToSet(values) =>
      !Missing(was) && j < |values| &&
      (match was.value
       case Array(_) => false
       case Text(s) => !(values[j].1.Text? && exists i, k :: 0 <= i <= k <= |s| && s[i..k] == values[j].1.s)
       case Object(fields) => !(values[j].1.Text? && values[j].1.s in fields)
       case _ => true)
    case _ => false
  }

  lemma SubstringIff(a: string, b: string)
    ensures IsSubstring(a, b) <==> exists i, k :: 0 <= i <= k <= |b| && b[i..k] == a
  {
    if IsSubstring(a, b) {
      var i :| 0 <= i <= |b| && a <= b[i..];
      assert b[i..i + |a|] == a;
    }
    if exists i, k :: 0 <= i <= k <= |b| && b[i..k] == a {
      var i, k :| 0 <= i <= k <= |b| && b[i..k] == a;
      assert a <= b[i..];
    }
  }

  lemma EntryRaisesIff(found: Doc, op: UpdateOp, j: nat, path: seq<string>)
    requires j < |Edits(op)| && (j < |Touched(op)| ==> path == Touched(op)[j])
    ensures ApplyEdit(found, Edits(op)[j]).None? <==> Refuses(op, j, At(found, path))
  {
    TouchedByEdits(op, path);
    if op.AddToSet? && Current(found, path).Text? && op.values[j].1.Text? {
      SubstringIff(op.values[j].1.s, Current(found, path).s);
    }
  }

  /** The path an entry touches, if any. */
  function PathOf(op: UpdateOp, j: nat): seq<string> {
    if j < |Touched(op)| then Touched(op)[j] else []
  }

  ghost predicate RaisesAt(d: Doc, update: seq<UpdateOp>, u: nat, j: nat) {
    && u < |update| && j < |Edits(update[u])|
    && Before(d, update, u, j).Some? && Refuses(update[u], j, Was(d, update, u, j, PathOf(update[u], j)))
  }

  /** An update raises exactly when some entry, reached without an exception, refuses what it finds. */
  lemma RaisesIff(d: Doc, update: seq<UpdateOp>)
    ensures Applied(d, AllEdits(update)).None? <==> exists u: nat, j: nat :: RaisesAt(d, update, u, j)
  {
    if Applied(d, AllEdits(update)).None? {
      var u, j := FirstRaise(d, update);
      EntryRaisesIff(Before(d, update, u, j).value, update[u], j, PathOf(update[u], j));
      assert RaisesAt(d, update, u, j);
    }
    if exists u: nat, j: nat :: RaisesAt(d, update, u, j) {
      var u: nat, j: nat :| RaisesAt(d, update, u, j);
      EntryRaisesIff(Before(d, update, u, j).value, update[u], j, PathOf(update[u], j));
      if Applied(d, AllEdits(update)).Some? {
        var found, after := EntryApplied(d, update, u, j);
      }
    }
  }

  lemma {:induction false} FirstRaise(d: Doc, update: seq<UpdateOp>) returns (u: nat, j: nat)
    requires Applied(d, AllEdits(update)).None?
    ensures u < |update| && j < |Edits(update[u])|
    ensures Before(d, update, u, j).Some? && ApplyEdit(Before(d, update, u, j).value, Edits(update[u])[j]).None?
    decreases |update|
  {
    AppliedAppend(d, Edits(update[0]), AllEdits(update[1..]));
    match Applied(d, Edits(update[0]))
    case None =>
      u := 0;
      j := FirstOf(d, Edits(update[0]));
      assert update[..0] == [] && [] + Edits(update[0])[..j] == Edits(update[0])[..j];
    case Some(d') =>
      var v;
      v, j := FirstRaise(d', update[1..]);
      u := v + 1;
      BeforeRest(d, update, v, j);
  }

  lemma BeforeRest(d: Doc, update: seq<UpdateOp>, v: nat, j: nat)
    requires v + 1 < |update| && j < |Edits(update[v + 1])| && Applied(d, Edits(update[0])).Some?
    ensures Before(d, update, v + 1, j) == Before(Applied(d, Edits(update[0])).value, update[1..], v, j)
  {
    EditsBeforeRest(update, v, j);
    AppliedAppend(d, Edits(update[0]), EditsBefore(update[1..], v, j));
  }

  lemma EditsBeforeRest(update: seq<UpdateOp>, v: nat, j: nat)
    requires v + 1 < |update| && j < |Edits(update[v + 1])|
    ensures EditsBefore(update, v + 1, j) == Edits(update[0]) + EditsBefore(update[1..], v, j)
  {
    assert update[1..][v] == update[v + 1];
    assert update[..v + 1] == [update[0]] + update[1..][..v];
    FirstEdits(update[0], update[1..][..v]);
    Associates(Edits(update[0]), AllEdits(update[1..][..v]), Edits(update[v + 1])[..j]);
  }

  lemma {:induction false} FirstOf(d: Doc, edits: seq<Edit>) returns (j: nat)
    requires Rooted(edits) && Applied(d, edits).None?
    ensures j < |edits| && Applied(d, edits[..j]).Some? && ApplyEdit(Applied(d, edits[..j]).value, edits[j]).None?
    decreases |edits|
  {
    match ApplyEdit(d, edits[0])
    case None => j := 0;
    case Some(d') =>
      var k := FirstOf(d', edits[1..]);
      j := k + 1;
      assert edits[..j][1..] == edits[1..][..k];
  }
}
