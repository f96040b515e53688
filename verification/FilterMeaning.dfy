// The emitted text, parsed and evaluated with its arguments, means the filter.
module FilterMeaning {
  import opened Wrappers
  import opened Json
  import opened FilterSql

  // Everything an evaluation needs.
  datatype World = World(d: Dialect, row: Row, args: seq<Arg>, start: nat)

  type Outcome = Option<(Truth, seq<Token>)>

  function Valued(w: World, p: Parsed): Outcome {
    match p
    case None => None
    case Some((e, rest)) => Some((Eval(w.d, w.row, w.args, w.start, e), rest))
  }

  /** What an AND-chain that has come as far as `rest` still adds. */
  function AndTail(w: World, rest: seq<Token>): Outcome {
    if rest != [] && rest[0] == AndTok then Valued(w, ParseAnd(rest[1..])) else Some((True, rest))
  }

  function AndThen(ok: bool, v: Truth, tail: Outcome): Outcome {
    if !ok then None
    else
      match tail
      case None => None
      case Some((t, rest)) => Some((And3(v, t), rest))
  }

  /** The tokens read as an AND-chain of value `v`, whatever follows; they cannot be read at all unless `ok`. */
  ghost predicate ReadsAs(w: World, tokens: seq<Token>, rest: seq<Token>, ok: bool, v: Truth) {
    Valued(w, ParseAnd(tokens + rest)) == AndThen(ok, v, AndTail(w, rest))
  }

  /** The arguments sent are where the placeholders point. */
  ghost predicate Sent(w: World, next: nat, sent: seq<Arg>) {
    && w.start <= next && next - w.start + |sent| <= |w.args|
    && forall i :: 0 <= i < |sent| ==> w.args[next - w.start + i] == sent[i]
  }

  lemma SentSplit(w: World, next: nat, a: seq<Arg>, b: seq<Arg>)
    requires Sent(w, next, a + b)
    ensures Sent(w, next, a) && Sent(w, next + |a|, b)
  {
    forall i | 0 <= i < |a|
      ensures w.args[next - w.start + i] == a[i]
    {
      assert (a + b)[i] == a[i];
    }
    forall i | 0 <= i < |b|
      ensures w.args[next + |a| - w.start + i] == b[i]
    {
      assert (a + b)[|a| + i] == b[i];
    }
  }

  lemma SentOne(w: World, next: nat, a: Arg)
    requires Sent(w, next, [a])
    ensures w.args[next - w.start] == a
  {
    assert w.args[next - w.start + 0] == [a][0];
  }

  // ---- reading pieces ----------------------------------------------------------------

  lemma UnitReads(w: World, tokens: seq<Token>, rest: seq<Token>, e: Expr)
    requires ParseNot(tokens + rest) == Some((e, rest))
    ensures ReadsAs(w, tokens, rest, true, Eval(w.d, w.row, w.args, w.start, e))
  {
    var v := Eval(w.d, w.row, w.args, w.start, e);
    assert And3(v, True) == v;
  }

  lemma AtomReads(w: World, a: Atom, rest: seq<Token>)
    ensures ReadsAs(w, [AtomTok(a)], rest, true, EvalAtom(w.d, w.row, w.args, w.start, a))
  {
    assert ([AtomTok(a)] + rest)[1..] == rest;
    UnitReads(w, [AtomTok(a)], rest, Pred(a));
  }

  lemma ConstReads(w: World, rest: seq<Token>)
    ensures ReadsAs(w, [TrueTok], rest, true, True)
    ensures ReadsAs(w, [FalseTok], rest, true, False)
  {
    assert ([TrueTok] + rest)[1..] == rest;
    assert ([FalseTok] + rest)[1..] == rest;
    UnitReads(w, [TrueTok], rest, Const(True));
    UnitReads(w, [FalseTok], rest, Const(False));
  }

  lemma NotAtomReads(w: World, a: Atom, rest: seq<Token>)
    ensures ReadsAs(w, [NotTok, LParen, AtomTok(a), RParen], rest, true, Not3(EvalAtom(w.d, w.row, w.args, w.start, a)))
  {
    var tokens := [NotTok, LParen, AtomTok(a), RParen];
    var ts := tokens + rest;
    assert ts[1..][1..][1..] == [RParen] + rest;
    assert ([RParen] + rest)[1..] == rest;
    var inner := ts[1..][1..];
    assert ParseNot(inner) == Some((Pred(a), [RParen] + rest));
    assert ParseAnd(inner) == Some((Pred(a), [RParen] + rest));
    assert ParseOr(inner) == Some((Pred(a), [RParen] + rest));
    assert ParseNot(ts[1..]) == Some((Pred(a), rest));
    assert Eval(w.d, w.row, w.args, w.start, Pred(a)) == EvalAtom(w.d, w.row, w.args, w.start, a);
    UnitReads(w, tokens, rest, Not(Pred(a)));
  }

  /** Two AND-chains joined by AND are one: AND needs no parentheses of its own. */
  lemma ChainsReads(w: World, first: seq<Token>, more: seq<Token>, rest: seq<Token>, ok: bool, v: Truth, ok': bool,
                    v': Truth)
    requires ReadsAs(w, first, [AndTok] + more + rest, ok, v)
    requires ReadsAs(w, more, rest, ok', v')
    ensures ReadsAs(w, first + [AndTok] + more, rest, ok && ok', And3(v, v'))
  {
    assert first + [AndTok] + more + rest == first + ([AndTok] + more + rest);
    assert ([AndTok] + more + rest)[1..] == more + rest;
  }

  /** A parenthesised list. */
  lemma ParensRead(w: World, inner: seq<Token>, rest: seq<Token>, ok: bool, v: Truth)
    requires Valued(w, ParseOr(inner + ([RParen] + rest))) == if ok then Some((v, [RParen] + rest)) else None
    ensures ReadsAs(w, [LParen] + inner + [RParen], rest, ok, v)
    ensures ReadsAs(w, [NotTok] + [LParen] + inner + [RParen], rest, ok, Not3(v))
  {
    var tokens := [LParen] + inner + [RParen];
    var negated := [NotTok] + [LParen] + inner + [RParen];
    assert (tokens + rest)[1..] == inner + ([RParen] + rest);
    assert (negated + rest)[1..] == tokens + rest;
    assert ([RParen] + rest)[1..] == rest;
    if ok {
      var (e, _) := ParseOr(inner + ([RParen] + rest)).value;
      assert ParseNot(tokens + rest) == Some((e, rest));
      UnitReads(w, tokens, rest, e);
      UnitReads(w, negated, rest, Not(e));
    } else {
      assert ParseNot(tokens + rest) == None;
      assert ParseNot(negated + rest) == None;
    }
  }

  lemma EmptyListUnreadable(w: World, rest: seq<Token>)
    ensures Valued(w, ParseOr([] + ([RParen] + rest))) == None
  {
    var ts := [RParen] + rest;
    assert [] + ts == ts;
    assert ParseNot(ts) == None;
    assert ParseAnd(ts) == None;
    assert ParseOr(ts) == None;
  }

  // ---- operators -----------------------------------------------------------------------

  lemma {:induction false} AnyJsonSent(w: World, parts: seq<string>, values: seq<Json>, next: nat)
    requires Sent(w, next, JsonArgs(values))
    ensures AnyJsonAt(w.d, w.row, parts, w.args, w.start, Placeholders(next, |values|)) ==
            AnyEqual(w.d, w.row, parts, values)
  {
    if values != [] {
      assert JsonArgs(values) == [JsonArg(values[0])] + JsonArgs(values[1..]);
      SentSplit(w, next, [JsonArg(values[0])], JsonArgs(values[1..]));
      AnyJsonSent(w, parts, values[1..], next + 1);
      assert Placeholders(next, |values|)[1..] == Placeholders(next + 1, |values| - 1);
      SentOne(w, next, JsonArg(values[0]));
    }
  }

  lemma {:induction false} AnyIdSent(w: World, values: seq<Json>, next: nat)
    requires Sent(w, next, IdArgs(w.d, values))
    ensures AnyIdAt(w.row, w.args, w.start, Placeholders(next, |values|)) == AnyId(w.d, w.row, values)
  {
    if values != [] {
      var first := TextArg(CoerceId(w.d, values[0]));
      assert IdArgs(w.d, values) == [first] + IdArgs(w.d, values[1..]);
      SentSplit(w, next, [first], IdArgs(w.d, values[1..]));
      AnyIdSent(w, values[1..], next + 1);
      assert Placeholders(next, |values|)[1..] == Placeholders(next + 1, |values| - 1);
      SentOne(w, next, first);
    }
  }

  /** The one part an operator emits reads as the operator's meaning. */
  ghost predicate OpRead(w: World, name: string, op: Op, ignoreCase: bool, next: nat, rest: seq<Token>)
    requires EmitOp(w.d, name, op, ignoreCase, next).Some? && !op.Options?
  {
    var parts := EmitOp(w.d, name, op, ignoreCase, next).value.parts;
    |parts| == 1 && ReadsAs(w, parts[0], rest, true, MeansOp(w.d, w.row, name, op, ignoreCase))
  }

  lemma ValueReads(w: World, name: string, op: Op, ignoreCase: bool, next: nat, rest: seq<Token>)
    requires w.row.data.Object? && (op.Compare? || op.Regex?)
    requires Sent(w, next, EmitOp(w.d, name, op, ignoreCase, next).value.args)
    ensures OpRead(w, name, op, ignoreCase, next, rest)
  {
    var p := EmitOp(w.d, name, op, ignoreCase, next).value;
    SentOne(w, next, p.args[0]);
    AtomReads(w, p.parts[0][0].atom, rest);
  }

  lemma ListReads(w: World, name: string, op: Op, ignoreCase: bool, next: nat, rest: seq<Token>)
    requires w.row.data.Object? && (op.In? || op.Nin?)
    requires Sent(w, next, EmitOp(w.d, name, op, ignoreCase, next).value.args)
    ensures OpRead(w, name, op, ignoreCase, next, rest)
  {
    var p := EmitOp(w.d, name, op, ignoreCase, next).value;
    ConstReads(w, rest);
    if p.parts[0][0].AtomTok? {
      AtomReads(w, p.parts[0][0].atom, rest);
    }
    AnyJsonSent(w, Split(name), op.values, next);
  }

  lemma PresenceReads(w: World, name: string, flag: bool, ignoreCase: bool, next: nat, rest: seq<Token>, a: Atom)
    requires w.row.data.Object?
    requires EmitOp(w.d, name, Exists(flag), ignoreCase, next).value.parts[0] ==
             if flag then [AtomTok(a)] else [NotTok, LParen, AtomTok(a), RParen]
    requires EvalAtom(w.d, w.row, w.args, w.start, a) == MeansOp(w.d, w.row, name, Exists(true), ignoreCase)
    ensures OpRead(w, name, Exists(flag), ignoreCase, next, rest)
  {
    if flag {
      AtomReads(w, a, rest);
    } else {
      NotAtomReads(w, a, rest);
    }
  }

  lemma ExistsReads(w: World, name: string, op: Op, ignoreCase: bool, next: nat, rest: seq<Token>)
    requires w.row.data.Object? && op.Exists?
    requires Sent(w, next, EmitOp(w.d, name, op, ignoreCase, next).value.args)
    ensures OpRead(w, name, op, ignoreCase, next, rest)
  {
    if '.' !in name {
      SentOne(w, next, TextArg(name));
      assert Split(name)[1..] == [];
      assert SqlGet(w.row.data, Split(name)).Some? <==> name in w.row.data.fields;
      PresenceReads(w, name, op.flag, ignoreCase, next, rest, HasKey(next));
    } else {
      PresenceReads(w, name, op.flag, ignoreCase, next, rest, PathNotNull(Split(name)));
    }
  }

  lemma OpReads(w: World, name: string, op: Op, ignoreCase: bool, next: nat, rest: seq<Token>)
    requires w.row.data.Object?
    requires EmitOp(w.d, name, op, ignoreCase, next).Some? && !op.Options?
    requires Sent(w, next, EmitOp(w.d, name, op, ignoreCase, next).value.args)
    ensures OpRead(w, name, op, ignoreCase, next, rest)
  {
    if op.Exists? {
      ExistsReads(w, name, op, ignoreCase, next, rest);
    } else if op.In? || op.Nin? {
      ListReads(w, name, op, ignoreCase, next, rest);
    } else {
      ValueReads(w, name, op, ignoreCase, next, rest);
    }
  }

  lemma IdOpReads(w: World, op: Op, next: nat, rest: seq<Token>)
    requires EmitIdOp(w.d, op, next).Some?
    requires Sent(w, next, EmitIdOp(w.d, op, next).value.args)
    ensures |EmitIdOp(w.d, op, next).value.parts| == 1
    ensures ReadsAs(w, EmitIdOp(w.d, op, next).value.parts[0], rest, true, MeansIdOp(w.d, w.row, op))
  {
    var p := EmitIdOp(w.d, op, next).value;
    ConstReads(w, rest);
    if |p.args| == 1 {
      SentOne(w, next, p.args[0]);
    }
    if p.parts[0][0].AtomTok? {
      AtomReads(w, p.parts[0][0].atom, rest);
    }
    match op
    case In(values) => AnyIdSent(w, values, next);
    case Nin(values) => AnyIdSent(w, values, next);
    case _ =>
  }

  lemma JoinCons(first: seq<Token>, more: seq<seq<Token>>, sep: Token)
    requires more != []
    ensures Join([first] + more, sep) == first + [sep] + Join(more, sep)
  {
    assert ([first] + more)[1..] == more;
  }

  /** A part in front of an AND-chain of parts. */
  lemma PrependReads(w: World, first: seq<Token>, more: seq<seq<Token>>, rest: seq<Token>, ok: bool, v: Truth,
                     ok': bool, v': Truth)
    requires more == [] ==> ok' && v' == True && ReadsAs(w, first, rest, ok, v)
    requires more != [] ==> ReadsAs(w, Join(more, AndTok), rest, ok', v')
    requires more != [] ==> ReadsAs(w, first, [AndTok] + Join(more, AndTok) + rest, ok, v)
    ensures ReadsAs(w, Join([first] + more, AndTok), rest, ok && ok', And3(v, v'))
  {
    assert And3(v, True) == v;
    if more != [] {
      JoinCons(first, more, AndTok);
      ChainsReads(w, first, Join(more, AndTok), rest, ok, v, ok', v');
    }
  }

  /** What follows the first of several parts. */
  function After(more: seq<seq<Token>>, rest: seq<Token>): seq<Token> {
    if more == [] then rest else [AndTok] + Join(more, AndTok) + rest
  }

  lemma {:induction false} OpsRead(w: World, name: string, ops: seq<Op>, ignoreCase: bool, next: nat, rest: seq<Token>)
    requires w.row.data.Object?
    requires EmitOps(w.d, name, ops, ignoreCase, next).Some?
    requires Sent(w, next, EmitOps(w.d, name, ops, ignoreCase, next).value.args)
    ensures var parts := EmitOps(w.d, name, ops, ignoreCase, next).value.parts;
            var v := MeansOps(w.d, w.row, name, ops, ignoreCase);
            if parts == [] then v == True else ReadsAs(w, Join(parts, AndTok), rest, true, v)
  {
    if ops != [] {
      var first := (if name == "_id" then EmitIdOp(w.d, ops[0], next)
                    else EmitOp(w.d, name, ops[0], ignoreCase, next)).value;
      var more := EmitOps(w.d, name, ops[1..], ignoreCase, next + |first.args|).value;
      SentSplit(w, next, first.args, more.args);
      OpsRead(w, name, ops[1..], ignoreCase, next + |first.args|, rest);
      var v' := MeansOps(w.d, w.row, name, ops[1..], ignoreCase);
      if name != "_id" && ops[0].Options? {
        assert first.parts + more.parts == more.parts;
        assert And3(True, v') == v';
      } else {
        var v := if name == "_id" then MeansIdOp(w.d, w.row, ops[0]) else MeansOp(w.d, w.row, name, ops[0], ignoreCase);
        if name == "_id" {
          IdOpReads(w, ops[0], next, After(more.parts, rest));
        } else {
          OpReads(w, name, ops[0], ignoreCase, next, After(more.parts, rest));
        }
        assert first.parts == [first.parts[0]];
        PrependReads(w, first.parts[0], more.parts, rest, true, v, true, v');
      }
    }
  }

  lemma OrReads(w: World, tokens: seq<Token>, rest: seq<Token>, ok: bool, v: Truth)
    requires rest != [] && rest[0] == RParen && ReadsAs(w, tokens, rest, ok, v)
    ensures Valued(w, ParseOr(tokens + rest)) == if ok then Some((v, rest)) else None
  {
    assert And3(v, True) == v;
  }

  lemma OrJoins(w: World, first: seq<Token>, more: seq<Token>, rest: seq<Token>, ok: bool, v: Truth, ok': bool,
                v': Truth)
    requires ReadsAs(w, first, [OrTok] + (more + rest), ok, v)
    requires Valued(w, ParseOr(more + rest)) == if ok' then Some((v', rest)) else None
    ensures Valued(w, ParseOr(first + [OrTok] + more + rest)) == if ok && ok' then Some((Or3(v, v'), rest)) else None
  {
    var tail := [OrTok] + (more + rest);
    assert first + [OrTok] + more + rest == first + tail;
    assert tail[1..] == more + rest;
    OrStep(w, first + tail, tail, ok, v);
  }

  /** Reading on after a first AND-chain that ends at an OR. */
  lemma OrStep(w: World, tokens: seq<Token>, tail: seq<Token>, ok: bool, v: Truth)
    requires tail != [] && tail[0] == OrTok && Valued(w, ParseAnd(tokens)) == AndThen(ok, v, AndTail(w, tail))
    ensures Valued(w, ParseOr(tokens)) ==
            if !ok then None
            else match Valued(w, ParseOr(tail[1..]))
                 case None => None
                 case Some((v', rest)) => Some((Or3(v, v'), rest))
  {
    assert And3(v, True) == v;
  }

  /** A list joined by AND, up to its closing parenthesis. */
  lemma {:induction false} SubsReadAnd(w: World, subs: seq<Filter>, next: nat, rest: seq<Token>)
    requires w.row.data.Object? && rest != [] && rest[0] == RParen
    requires EmitSubs(w.d, subs, next).Some? && Sent(w, next, EmitSubs(w.d, subs, next).value.args)
    ensures Valued(w, ParseOr(Join(EmitSubs(w.d, subs, next).value.parts, AndTok) + rest)) ==
            if subs != [] && SubsNonEmpty(subs) then Some((Every(w.d, w.row, subs), rest)) else None
    decreases subs, 1
  {
    if subs == [] {
      EmptyListUnreadable(w, rest[1..]);
      assert [] + ([RParen] + rest[1..]) == [] + rest;
    } else {
      SubsChain(w, subs, next, rest);
      OrReads(w, Join(EmitSubs(w.d, subs, next).value.parts, AndTok), rest, SubsNonEmpty(subs),
              Every(w.d, w.row, subs));
    }
  }

  lemma {:induction false} SubsChain(w: World, subs: seq<Filter>, next: nat, rest: seq<Token>)
    requires w.row.data.Object? && subs != []
    requires EmitSubs(w.d, subs, next).Some? && Sent(w, next, EmitSubs(w.d, subs, next).value.args)
    ensures |EmitSubs(w.d, subs, next).value.parts| == |subs|
    ensures ReadsAs(w, Join(EmitSubs(w.d, subs, next).value.parts, AndTok), rest, SubsNonEmpty(subs),
                    Every(w.d, w.row, subs))
    decreases subs, 0
  {
    var e := Emit(w.d, subs[0], next).value;
    var more := EmitSubs(w.d, subs[1..], next + |e.args|).value;
    SentSplit(w, next, e.args, more.args);
    if |subs| > 1 {
      SubsChain(w, subs[1..], next + |e.args|, rest);
    }
    FilterReads(w, subs[0], next, After(more.parts, rest));
    PrependReads(w, e.tokens, more.parts, rest, ListsNonEmpty(subs[0]), Means(w.d, w.row, subs[0]),
                 SubsNonEmpty(subs[1..]), Every(w.d, w.row, subs[1..]));
  }

  /** A list joined by OR: each sub-filter is an AND-chain, which binds tighter. */
  lemma {:induction false} SubsReadOr(w: World, subs: seq<Filter>, next: nat, rest: seq<Token>)
    requires w.row.data.Object? && rest != [] && rest[0] == RParen
    requires EmitSubs(w.d, subs, next).Some? && Sent(w, next, EmitSubs(w.d, subs, next).value.args)
    ensures Valued(w, ParseOr(Join(EmitSubs(w.d, subs, next).value.parts, OrTok) + rest)) ==
            if subs != [] && SubsNonEmpty(subs) then Some((Some_(w.d, w.row, subs), rest)) else None
    decreases subs
  {
    if subs == [] {
      EmptyListUnreadable(w, rest[1..]);
      assert [] + ([RParen] + rest[1..]) == [] + rest;
    } else {
      var e := Emit(w.d, subs[0], next).value;
      var more := EmitSubs(w.d, subs[1..], next + |e.args|).value;
      var v := Means(w.d, w.row, subs[0]);
      SentSplit(w, next, e.args, more.args);
      if |subs| == 1 {
        FilterReads(w, subs[0], next, rest);
        OrReads(w, e.tokens, rest, ListsNonEmpty(subs[0]), v);
        assert Or3(v, False) == v;
        assert Join([e.tokens] + more.parts, OrTok) == e.tokens;
      } else {
        var tail := Join(more.parts, OrTok);
        assert more.parts != [];
        SubsReadOr(w, subs[1..], next + |e.args|, rest);
        FilterReads(w, subs[0], next, [OrTok] + (tail + rest));
        JoinCons(e.tokens, more.parts, OrTok);
        OrJoins(w, e.tokens, tail, rest, ListsNonEmpty(subs[0]), v, SubsNonEmpty(subs[1..]),
                Some_(w.d, w.row, subs[1..]));
      }
    }
  }

  lemma FieldReads(w: World, name: string, clause: Clause, next: nat, rest: seq<Token>)
    requires w.row.data.Object?
    requires EmitItem(w.d, Field(name, clause), next).Some?
    requires Sent(w, next, EmitItem(w.d, Field(name, clause), next).value.args)
    ensures ReadsAs(w, EmitItem(w.d, Field(name, clause), next).value.tokens, rest, true,
                    MeansItem(w.d, w.row, Field(name, clause)))
  {
    var e := EmitItem(w.d, Field(name, clause), next).value;
    match clause
    case Value(v) =>
      SentOne(w, next, e.args[0]);
      AtomReads(w, e.tokens[0].atom, rest);
      RebuildNests(name, v);
    case Ops(ops) =>
      ConstReads(w, rest);
      OpsRead(w, name, ops, IgnoreCase(ops), next, rest);
  }

  lemma {:induction false} FilterReads(w: World, f: Filter, next: nat, rest: seq<Token>)
    requires w.row.data.Object?
    requires Emit(w.d, f, next).Some? && Sent(w, next, Emit(w.d, f, next).value.args)
    ensures ReadsAs(w, Emit(w.d, f, next).value.tokens, rest, ListsNonEmpty(f), Means(w.d, w.row, f))
    decreases f
  {
    if f.items == [] {
      ConstReads(w, rest);
    } else {
      ItemsRead(w, f.items, next, rest);
    }
  }

  lemma {:induction false} ItemsRead(w: World, items: seq<Item>, next: nat, rest: seq<Token>)
    requires w.row.data.Object? && items != []
    requires EmitItems(w.d, items, next).Some? && Sent(w, next, EmitItems(w.d, items, next).value.args)
    ensures |EmitItems(w.d, items, next).value.parts| == |items|
    ensures ReadsAs(w, Join(EmitItems(w.d, items, next).value.parts, AndTok), rest, ItemsNonEmpty(items),
                    MeansAll(w.d, w.row, items))
    decreases items
  {
    var e := EmitItem(w.d, items[0], next).value;
    var more := EmitItems(w.d, items[1..], next + |e.args|).value;
    SentSplit(w, next, e.args, more.args);
    if |items| > 1 {
      ItemsRead(w, items[1..], next + |e.args|, rest);
    }
    ItemReads(w, items[0], next, After(more.parts, rest));
    PrependReads(w, e.tokens, more.parts, rest, ItemNonEmpty(items[0]), MeansItem(w.d, w.row, items[0]),
                 ItemsNonEmpty(items[1..]), MeansAll(w.d, w.row, items[1..]));
  }

  lemma {:induction false} ItemReads(w: World, item: Item, next: nat, rest: seq<Token>)
    requires w.row.data.Object?
    requires EmitItem(w.d, item, next).Some? && Sent(w, next, EmitItem(w.d, item, next).value.args)
    ensures ReadsAs(w, EmitItem(w.d, item, next).value.tokens, rest, ItemNonEmpty(item), MeansItem(w.d, w.row, item))
    decreases item
  {
    assert forall ts: seq<Token> :: [] + ts == ts;
    match item
    case Field(name, clause) => FieldReads(w, name, clause, next, rest);
    case And(subs) =>
      SubsReadAnd(w, subs, next, [RParen] + rest);
      ParensRead(w, Join(EmitSubs(w.d, subs, next).value.parts, AndTok), rest, ItemNonEmpty(item),
                 Every(w.d, w.row, subs));
    case Or(subs) =>
      SubsReadOr(w, subs, next, [RParen] + rest);
      ParensRead(w, Join(EmitSubs(w.d, subs, next).value.parts, OrTok), rest, ItemNonEmpty(item),
                 Some_(w.d, w.row, subs));
    case Nor(subs) =>
      SubsReadOr(w, subs, next, [RParen] + rest);
      ParensRead(w, Join(EmitSubs(w.d, subs, next).value.parts, OrTok), rest, ItemNonEmpty(item),
                 Some_(w.d, w.row, subs));
  }

  /** The WHERE clause the translator emits for a filter parses exactly when no list in the
      filter is empty, and then the database computes the filter's own truth value. */
  lemma TranslationMeans(d: Dialect, row: Row, f: Filter, start: nat)
    requires row.data.Object? && Emit(d, f, start).Some?
    ensures var e := Emit(d, f, start).value;
            var parsed := Parse(e.tokens);
            && (parsed.Some? <==> ListsNonEmpty(f))
            && (parsed.Some? ==> Eval(d, row, e.args, start, parsed.value) == Means(d, row, f))
  {
    var e := Emit(d, f, start).value;
    var w := World(d, row, e.args, start);
    FilterReads(w, f, start, []);
    assert e.tokens + [] == e.tokens;
    var v := Means(d, row, f);
    assert And3(v, True) == v;
  }
}
