// JSON documents, dotted paths and jsonb containment.
module Json {
  import opened Wrappers

  datatype Json =
    | Null
    | Bool(b: bool)
    | Number(n: real)
    | Text(s: string)
    | Array(items: seq<Json>)
    | Object(fields: map<string, Json>)

  // ---- dotted paths --------------------------------------------------------------

  /** `path.split(".")`. */
  function Split(path: string): (parts: seq<string>)
    ensures |parts| > 0
    ensures '.' !in path ==> parts == [path]
  {
    if path == "" then [""]
    else if path[0] == '.' then [""] + Split(path[1..])
    else
      var rest := Split(path[1..]);
      assert path == [path[0]] + path[1..];
      assert '.' !in path ==> '.' !in path[1..];
      [[path[0]] + rest[0]] + rest[1..]
  }

  /** `dotted.split(".", 1)`, for a path that has a dot. */
  function HeadAndRest(dotted: string): (r: (string, string))
    requires '.' in dotted
    ensures |r.1| < |dotted|
  {
    if dotted[0] == '.' then ("", dotted[1..])
    else
      var (head, rest) := HeadAndRest(dotted[1..]);
      ([dotted[0]] + head, rest)
  }

  lemma {:induction false} HeadOfSplit(dotted: string)
    requires '.' in dotted
    ensures Split(dotted) == [HeadAndRest(dotted).0] + Split(HeadAndRest(dotted).1)
  {
    if dotted[0] != '.' {
      HeadOfSplit(dotted[1..]);
    }
  }

  function Dotted(parts: seq<string>): string
    requires |parts| > 0
  {
    if |parts| == 1 then parts[0] else parts[0] + "." + Dotted(parts[1..])
  }

  lemma {:induction false} DottedSplit(path: string)
    ensures Dotted(Split(path)) == path
  {
    if path != "" {
      var rest := Split(path[1..]);
      DottedSplit(path[1..]);
      assert path == [path[0]] + path[1..];
      if path[0] == '.' {
        assert ([""] + rest)[1..] == rest;
        assert "" + "." + Dotted(rest) == path;
      } else {
        assert ([[path[0]] + rest[0]] + rest[1..])[1..] == rest[1..];
        if |rest| > 1 {
          assert [path[0]] + rest[0] + "." + Dotted(rest[1..]) == [path[0]] + (rest[0] + "." + Dotted(rest[1..]));
        }
      }
    }
  }

  /** No part of a path has a dot in it. */
  lemma {:induction false} SplitHasNoDots(path: string)
    ensures forall i :: 0 <= i < |Split(path)| ==> '.' !in Split(path)[i]
  {
    if path != "" {
      SplitHasNoDots(path[1..]);
    }
  }

  /** So splitting is the one way to take a dotted path apart. */
  lemma {:induction false} SplitDotted(parts: seq<string>)
    requires |parts| > 0 && forall i :: 0 <= i < |parts| ==> '.' !in parts[i]
    ensures Split(Dotted(parts)) == parts
    decreases |parts|
  {
    if |parts| == 1 {
      assert Dotted(parts) == parts[0];
    } else {
      SplitDotted(parts[1..]);
      SplitFirst(parts[0], Dotted(parts[1..]));
      assert parts == [parts[0]] + parts[1..];
    }
  }

  lemma {:induction false} SplitFirst(head: string, rest: string)
    requires '.' !in head
    ensures Split(head + "." + rest) == [head] + Split(rest)
    decreases |head|
  {
    var path := head + "." + rest;
    if head == "" {
      assert path[1..] == rest;
    } else {
      SplitFirst(head[1..], rest);
      assert path[1..] == head[1..] + "." + rest;
      assert head == [head[0]] + head[1..];
    }
  }

  /** The first part is what stands before the first dot. */
  lemma {:induction false} HeadIsBeforeFirstDot(dotted: string)
    requires '.' in dotted
    ensures var (head, rest) := HeadAndRest(dotted); '.' !in head && dotted == head + "." + rest
  {
    if dotted[0] != '.' {
      HeadIsBeforeFirstDot(dotted[1..]);
      assert dotted == [dotted[0]] + dotted[1..];
    } else {
      assert dotted == "" + "." + dotted[1..];
    }
  }

  /** Different dotted names are different paths. */
  lemma SplitInjective(a: string, b: string)
    requires Split(a) == Split(b)
    ensures a == b
  {
    DottedSplit(a);
    DottedSplit(b);
  }

  function Nest(parts: seq<string>, v: Json): Json
    requires |parts| > 0
  {
    if |parts| == 1 then Object(map[parts[0] := v]) else Object(map[parts[0] := Nest(parts[1..], v)])
  }

  /** `_rebuild_nested`. */
  function RebuildNested(dotted: string, v: Json): Json
    decreases |dotted|
  {
    if '.' !in dotted then Object(map[dotted := v])
    else
      var (head, rest) := HeadAndRest(dotted);
      Object(map[head := RebuildNested(rest, v)])
  }

  /** Every segment of the path is wrapped exactly once. */
  lemma {:induction false} RebuildNests(dotted: string, v: Json)
    ensures RebuildNested(dotted, v) == Nest(Split(dotted), v)
    decreases |dotted|
  {
    if '.' in dotted {
      HeadOfSplit(dotted);
      RebuildNests(HeadAndRest(dotted).1, v);
    }
  }

  // ---- reading -------------------------------------------------------------------

  /** `_get_path`, with None for "not there". */
  function Get(j: Json, parts: seq<string>): Option<Json> {
    if parts == [] then Some(j)
    else if j.Object? && parts[0] in j.fields then Get(j.fields[parts[0]], parts[1..])
    else None
  }

  // ---- containment ---------------------------------------------------------------

  /** `a @> b`, below the top level (PostgreSQL manual, section 8.14.3). */
  predicate Contains(a: Json, b: Json)
    decreases b, 0
  {
    match b
    case Object(fields) => a.Object? && forall k :: k in fields ==> k in a.fields && Contains(a.fields[k], fields[k])
    case Array(items) => a.Array? && forall i :: 0 <= i < |items| ==> SomeContains(a.items, items[i])
    case _ => a == b
  }

  predicate SomeContains(items: seq<Json>, b: Json)
    decreases b, 1
  {
    exists j :: 0 <= j < |items| && Contains(items[j], b)
  }

  lemma {:induction false} ContainsItself(a: Json)
    ensures Contains(a, a)
  {
    match a
    case Object(fields) =>
      forall k | k in fields
        ensures Contains(fields[k], fields[k])
      {
        ContainsItself(fields[k]);
      }
    case Array(items) =>
      forall i | 0 <= i < |items|
        ensures SomeContains(a.items, items[i])
      {
        ContainsItself(items[i]);
      }
    case _ =>
  }

  /** A document contains a rebuilt path exactly when it holds, at that path, something that
      contains the value. */
  lemma {:induction false} ContainsNested(doc: Json, parts: seq<string>, v: Json)
    requires |parts| > 0
    ensures Contains(doc, Nest(parts, v)) <==> Get(doc, parts).Some? && Contains(Get(doc, parts).value, v)
  {
    var nested := Nest(parts, v);
    assert parts[0] in nested.fields;
    if |parts| > 1 {
      if doc.Object? && parts[0] in doc.fields {
        ContainsNested(doc.fields[parts[0]], parts[1..], v);
      }
    } else {
      assert parts[1..] == [];
      if doc.Object? && parts[0] in doc.fields {
        assert Get(doc, parts) == Get(doc.fields[parts[0]], []);
      }
    }
  }

  /** Reading a nested value back, part by part. */
  lemma {:induction false} GetNested(parts: seq<string>, v: Json)
    requires |parts| > 0
    ensures Get(Nest(parts, v), parts) == Some(v)
  {
    if |parts| == 1 {
      assert parts[1..] == [];
    } else {
      GetNested(parts[1..], v);
    }
  }

  /** Containment is transitive. */
  lemma {:induction false} ContainsTransitive(a: Json, b: Json, c: Json)
    requires Contains(a, b) && Contains(b, c)
    ensures Contains(a, c)
    decreases c
  {
    match c
    case Object(fields) =>
      forall k | k in fields ensures k in a.fields && Contains(a.fields[k], fields[k]) {
        ContainsTransitive(a.fields[k], b.fields[k], fields[k]);
      }
    case Array(items) =>
      forall i | 0 <= i < |items| ensures SomeContains(a.items, items[i]) {
        assert SomeContains(b.items, items[i]);
        var j :| 0 <= j < |b.items| && Contains(b.items[j], items[i]);
        assert SomeContains(a.items, b.items[j]);
        var k :| 0 <= k < |a.items| && Contains(a.items[k], b.items[j]);
        ContainsTransitive(a.items[k], b.items[j], items[i]);
      }
    case _ =>
  }

  lemma SomeContainsIff(items: seq<Json>, x: Json)
    ensures SomeContains(items, x) <==> exists y :: y in items && Contains(y, x)
  {
    if SomeContains(items, x) {
      var j :| 0 <= j < |items| && Contains(items[j], x);
      assert items[j] in items;
    }
    if y :| y in items && Contains(y, x) {
      var j :| 0 <= j < |items| && items[j] == y;
      assert Contains(items[j], x);
    }
  }

  /** Scalars contain only themselves; an object contains those whose every field it contains under the same key; an
      array contains those of which each item is contained in one of its own, whatever the order and the repeats. */
  lemma ContainsByKind(a: Json, b: Json)
    ensures !b.Object? && !b.Array? ==> (Contains(a, b) <==> a == b)
    ensures b.Object? ==>
              (Contains(a, b) <==>
               a.Object? && b.fields.Keys <= a.fields.Keys &&
                 forall k :: k in b.fields ==> Contains(a.fields[k], b.fields[k]))
    ensures b.Array? ==>
              (Contains(a, b) <==>
               a.Array? && forall x :: x in b.items ==> exists y :: y in a.items && Contains(y, x))
  {
    if b.Array? && a.Array? {
      forall x ensures SomeContains(a.items, x) <==> exists y :: y in a.items && Contains(y, x) {
        SomeContainsIff(a.items, x);
      }
      assert (forall i :: 0 <= i < |b.items| ==> SomeContains(a.items, b.items[i])) <==>
             (forall x :: x in b.items ==> SomeContains(a.items, x));
    }
  }
}
