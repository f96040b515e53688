// Updating documents (`_set_path`, `_unset_path`, `_apply_update`), with documents as values.
module DocUpdate {
  import opened Wrappers
  import opened Json

  type Doc = map<string, Json>

  datatype PushArg = One(item: Json) | Each(items: seq<Json>)

  // One operator of an update, in the order of the update's keys.
  datatype UpdateOp =
    | Set(values: seq<(string, Json)>)
    | Unset(paths: seq<string>)
    | Inc(amounts: seq<(string, real)>)
    | Push(pushes: seq<(string, PushArg)>)
    | Pull(values: seq<(string, Json)>)
    | AddToSet(values: seq<(string, Json)>)
    | SetOnInsert(values: seq<(string, Json)>)
    | CurrentDate
    | Replace(name: string, payload: Json) // any other key: taken literally, dots and all

  // One change to one path.
  datatype Edit =
    | SetAt(path: seq<string>, value: Json)
    | UnsetAt(path: seq<string>)
    | IncAt(path: seq<string>, amount: real)
    | PushAt(path: seq<string>, push: PushArg)
    | PullAt(path: seq<string>, value: Json)
    | AddAt(path: seq<string>, value: Json)
    | Unsupported

  // ---- paths --------------------------------------------------------------------------

  function Inner(d: Doc, key: string): Doc {
    if key in d && d[key].Object? then d[key].fields else map[]
  }

  /** `_set_path`: intermediates that are missing or not objects are replaced by objects. */
  function SetPath(d: Doc, parts: seq<string>, v: Json): Doc
    requires |parts| > 0
    decreases |parts|
  {
    if |parts| == 1 then d[parts[0] := v]
    else d[parts[0] := Object(SetPath(Inner(d, parts[0]), parts[1..], v))]
  }

  /** `_unset_path`. */
  function UnsetPath(d: Doc, parts: seq<string>): Doc
    requires |parts| > 0
    decreases |parts|
  {
    if |parts| == 1 then d - {parts[0]}
    else if parts[0] in d && d[parts[0]].Object? then d[parts[0] := Object(UnsetPath(d[parts[0]].fields, parts[1..]))]
    else d
  }

  /** Neither path is a prefix of the other. */
  predicate Diverge(p: seq<string>, q: seq<string>) {
    p != [] && q != [] && (p[0] != q[0] || Diverge(p[1..], q[1..]))
  }

  lemma {:induction false} DivergeIff(p: seq<string>, q: seq<string>)
    ensures Diverge(p, q) <==> !(p <= q) && !(q <= p)
  {
    if p != [] && q != [] {
      DivergeIff(p[1..], q[1..]);
      assert p == [p[0]] + p[1..] && q == [q[0]] + q[1..];
    }
  }

  function At(d: Doc, parts: seq<string>): Option<Json> {
    Get(Object(d), parts)
  }

  lemma AtStep(d: Doc, parts: seq<string>)
    requires |parts| > 0
    ensures At(d, parts) == if parts[0] in d then Get(d[parts[0]], parts[1..]) else None
    ensures |parts| == 1 ==> At(d, parts) == if parts[0] in d then Some(d[parts[0]]) else None
    ensures |parts| > 1 ==> At(d, parts) == At(Inner(d, parts[0]), parts[1..])
  {
    if |parts| == 1 {
      assert parts[1..] == [];
    }
  }

  /** What was set is there. */
  lemma {:induction false} GetAfterSet(d: Doc, parts: seq<string>, v: Json)
    requires |parts| > 0
    ensures At(SetPath(d, parts, v), parts) == Some(v)
    decreases |parts|
  {
    AtStep(SetPath(d, parts, v), parts);
    if |parts| > 1 {
      GetAfterSet(Inner(d, parts[0]), parts[1..], v);
    }
  }

  /** Setting leaves every diverging path as it was, even when it overwrites an intermediate. */
  lemma {:induction false} SetFrame(d: Doc, q: seq<string>, v: Json, p: seq<string>)
    requires |q| > 0 && Diverge(p, q)
    ensures At(SetPath(d, q, v), p) == At(d, p)
    decreases |q|
  {
    AtStep(SetPath(d, q, v), p);
    AtStep(d, p);
    if p[0] == q[0] {
      SetFrame(Inner(d, q[0]), q[1..], v, p[1..]);
    }
  }

  lemma {:induction false} UnsetFrame(d: Doc, q: seq<string>, p: seq<string>)
    requires |q| > 0 && Diverge(p, q)
    ensures At(UnsetPath(d, q), p) == At(d, p)
    decreases |q|
  {
    AtStep(UnsetPath(d, q), p);
    AtStep(d, p);
    if p[0] == q[0] && q[0] in d && d[q[0]].Object? {
      UnsetFrame(d[q[0]].fields, q[1..], p[1..]);
    }
  }

  /** What was unset is gone, and nothing is created on the way. */
  lemma {:induction false} GetAfterUnset(d: Doc, parts: seq<string>)
    requires |parts| > 0
    ensures At(UnsetPath(d, parts), parts) == None
    ensures At(d, parts) == None ==> UnsetPath(d, parts) == d
    decreases |parts|
  {
    AtStep(UnsetPath(d, parts), parts);
    AtStep(d, parts);
    if |parts| > 1 && parts[0] in d && d[parts[0]].Object? {
      GetAfterUnset(d[parts[0]].fields, parts[1..]);
    }
  }

  // ---- edits ----------------------------------------------------------------------------

  /** The value `_get_path` returns; a missing one and a null look the same. */
  function Current(d: Doc, parts: seq<string>): Json {
    match At(d, parts)
    case None => Null
    case Some(v) => v
  }

  /** Python's `x or 0`, as a number; None is a value that cannot be added to. */
  function OrZero(v: Json): Option<real> {
    match v
    case Null => Some(0.0)
    case Bool(b) => Some(if b then 1.0 else 0.0)
    case Number(n) => Some(n)
    case Text(s) => if s == "" then Some(0.0) else None
    case Array(items) => if items == [] then Some(0.0) else None
    case Object(fields) => if fields == map[] then Some(0.0) else None
  }

  function Without(items: seq<Json>, v: Json): seq<Json> {
    if items == [] then [] else (if items[0] == v then [] else [items[0]]) + Without(items[1..], v)
  }

  predicate IsSubstring(a: string, b: string) {
    exists i :: 0 <= i <= |b| && a <= b[i..]
  }

  function EditValue(e: Edit, current: Json): Option<Json> {
    match e
    case SetAt(_, v) => Some(v)
    case IncAt(_, amount) =>
      (match OrZero(current) case None => None case Some(n) => Some(Number(n + amount)))
    case PushAt(_, push) =>
      var more := if push.Each? then push.items else [push.item];
      if current.Null? then Some(Array(more))
      else if current.Array? then Some(Array(current.items + more))
      else None
    case PullAt(_, v) => if current.Array? then Some(Array(Without(current.items, v))) else Some(current)
    case AddAt(_, v) =>
      (match current
       case Null => Some(Array([v]))
       case Array(items) => Some(if v in items then current else Array(items + [v]))
       case Text(s) => if v.Text? && IsSubstring(v.s, s) then Some(current) else None
       case Object(fields) => if v.Text? && v.s in fields then Some(current) else None
       case _ => None)
    case _ => None
  }

  /** None is a raised exception. */
  function ApplyEdit(d: Doc, e: Edit): Option<Doc>
    requires !e.Unsupported? ==> |e.path| > 0
  {
    match e
    case Unsupported => None
    case UnsetAt(path) => Some(UnsetPath(d, path))
    case PullAt(path, _) =>
      if Current(d, path).Array? then Some(SetPath(d, path, EditValue(e, Current(d, path)).value)) else Some(d)
    case _ =>
      match EditValue(e, Current(d, e.path))
      case None => None
      case Some(v) => Some(SetPath(d, e.path, v))
  }

  predicate Rooted(edits: seq<Edit>) {
    forall i :: 0 <= i < |edits| && !edits[i].Unsupported? ==> |edits[i].path| > 0
  }

  function Edits(op: UpdateOp): (edits: seq<Edit>)
    ensures Rooted(edits)
  {
    match op
    case Set(values) => seq(|values|, i requires 0 <= i < |values| => SetAt(Split(values[i].0), values[i].1))
    case Unset(paths) => seq(|paths|, i requires 0 <= i < |paths| => UnsetAt(Split(paths[i])))
    case Inc(amounts) => seq(|amounts|, i requires 0 <= i < |amounts| => IncAt(Split(amounts[i].0), amounts[i].1))
    case Push(pushes) => seq(|pushes|, i requires 0 <= i < |pushes| => PushAt(Split(pushes[i].0), pushes[i].1))
    case Pull(values) => seq(|values|, i requires 0 <= i < |values| => PullAt(Split(values[i].0), values[i].1))
    case AddToSet(values) => seq(|values|, i requires 0 <= i < |values| => AddAt(Split(values[i].0), values[i].1))
    case SetOnInsert(_) => []
    case CurrentDate => [Unsupported]
    case Replace(name, payload) => [SetAt([name], payload)]
  }

  function AllEdits(update: seq<UpdateOp>): (edits: seq<Edit>)
    ensures Rooted(edits)
  {
    if update == [] then [] else Edits(update[0]) + AllEdits(update[1..])
  }

  function Applied(d: Doc, edits: seq<Edit>): Option<Doc>
    requires Rooted(edits)
    decreases |edits|
  {
    if edits == [] then Some(d)
    else
      match ApplyEdit(d, edits[0])
      case None => None
      case Some(d') => Applied(d', edits[1..])
  }

  lemma {:induction false} AppliedAppend(d: Doc, a: seq<Edit>, b: seq<Edit>)
    requires Rooted(a) && Rooted(b)
    ensures Rooted(a + b)
    ensures Applied(d, a + b) == match Applied(d, a) case None => None case Some(d') => Applied(d', b)
    decreases |a|
  {
    if a == [] {
      assert a + b == b;
    } else {
      assert (a + b)[1..] == a[1..] + b;
      if ApplyEdit(d, a[0]).Some? {
        AppliedAppend(ApplyEdit(d, a[0]).value, a[1..], b);
      }
    }
  }

  /** The inner loop of `_apply_update`: the entries of one operator. */
  method ApplyOperator(doc: Doc, edits: seq<Edit>) returns (r: Option<Doc>)
    requires Rooted(edits)
    ensures r == Applied(doc, edits)
  {
    var new_ := doc;
    for j := 0 to |edits|
      invariant Applied(doc, edits) == Applied(new_, edits[j..])
    {
      var step := ApplyEdit(new_, edits[j]);
      assert edits[j..][1..] == edits[j + 1..];
      if step.None? {
        return None;
      }
      new_ := step.value;
    }
    r := Some(new_);
  }

  /** `_apply_update`. */
  method ApplyUpdate(doc: Doc, update: seq<UpdateOp>) returns (r: Option<Doc>)
    ensures r == Applied(doc, AllEdits(update))
  {
    var new_ := doc;
    for i := 0 to |update|
      invariant Applied(doc, AllEdits(update)) == Applied(new_, AllEdits(update[i..]))
    {
      assert update[i..][1..] == update[i + 1..];
      AppliedAppend(new_, Edits(update[i]), AllEdits(update[i + 1..]));
      var step := ApplyOperator(new_, Edits(update[i]));
      if step.None? {
        return None;
      }
      new_ := step.value;
    }
    r := Some(new_);
  }

  /** No edit touches the path. */
  predicate Clear(p: seq<string>, edits: seq<Edit>) {
    forall i :: 0 <= i < |edits| && !edits[i].Unsupported? ==> Diverge(p, edits[i].path)
  }

  /** The frame law of updates: a path that diverges from every touched path keeps its value. */
  lemma {:induction false} UpdateFrame(d: Doc, edits: seq<Edit>, p: seq<string>)
    requires Rooted(edits) && Clear(p, edits) && Applied(d, edits).Some?
    ensures At(Applied(d, edits).value, p) == At(d, p)
    decreases |edits|
  {
    if edits != [] {
      var e, d' := edits[0], ApplyEdit(d, edits[0]).value;
      if e.UnsetAt? {
        UnsetFrame(d, e.path, p);
      } else if !e.PullAt? || Current(d, e.path).Array? {
        SetFrame(d, e.path, EditValue(e, Current(d, e.path)).value, p);
      }
      UpdateFrame(d', edits[1..], p);
    }
  }
}
