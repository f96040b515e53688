// The placeholders of a rendered filter count up, left to right, one per argument.
module PlaceholderOrder {
  import opened Wrappers
  import opened Json
  import opened FilterSql
  import opened Sequences

  function OfAtom(a: Atom): seq<nat> {
    match a
    case DataContains(ph) => [ph]
    case JsonCmp(_, _, ph) => [ph]
    case TextCmp(_, _, ph) => [ph]
    case JsonIn(_, phs, _) => phs
    case HasKey(ph) => [ph]
    case PathNotNull(_) => []
    case RegexMatch(_, _, ph) => [ph]
    case IdCmp(_, ph) => [ph]
    case IdIn(phs, _) => phs
  }

  function OfTokens(ts: seq<Token>): seq<nat> {
    if ts == [] then [] else (if ts[0].AtomTok? then OfAtom(ts[0].atom) else []) + OfTokens(ts[1..])
  }

  function OfParts(parts: seq<seq<Token>>): seq<nat> {
    if parts == [] then [] else OfTokens(parts[0]) + OfParts(parts[1..])
  }

  lemma {:induction false} OfAppend(a: seq<Token>, b: seq<Token>)
    ensures OfTokens(a + b) == OfTokens(a) + OfTokens(b)
  {
    if a == [] {
      assert a + b == b;
    } else {
      OfAppend(a[1..], b);
      assert (a + b)[1..] == a[1..] + b;
    }
  }

  lemma {:induction false} OfJoin(parts: seq<seq<Token>>, sep: Token)
    requires !sep.AtomTok?
    ensures OfTokens(Join(parts, sep)) == OfParts(parts)
  {
    if |parts| == 1 {
      assert OfParts(parts[1..]) == [];
    } else if parts != [] {
      OfJoin(parts[1..], sep);
      OfAppend(parts[0] + [sep], Join(parts[1..], sep));
      OfAppend(parts[0], [sep]);
    }
  }

  lemma Counting(next: nat, a: nat, b: nat)
    ensures Placeholders(next, a + b) == Placeholders(next, a) + Placeholders(next + a, b)
  {
  }

  predicate InOrder(parts: seq<seq<Token>>, args: seq<Arg>, next: nat) {
    OfParts(parts) == Placeholders(next, |args|)
  }

  lemma ThenInOrder(first: Parts, rest: Parts, next: nat)
    requires InOrder(first.parts, first.args, next) && InOrder(rest.parts, rest.args, next + |first.args|)
    ensures InOrder(first.parts + rest.parts, first.args + rest.args, next)
  {
    PartsAppend(first.parts, rest.parts);
    Counting(next, |first.args|, |rest.args|);
  }

  lemma FirstPart(part: seq<Token>, rest: seq<seq<Token>>)
    ensures OfParts([part] + rest) == OfTokens(part) + OfParts(rest)
  {
    assert ([part] + rest)[1..] == rest;
  }

  lemma {:induction false} PartsAppend(a: seq<seq<Token>>, b: seq<seq<Token>>)
    ensures OfParts(a + b) == OfParts(a) + OfParts(b)
  {
    if a == [] {
      assert a + b == b;
    } else {
      PartsAppend(a[1..], b);
      assert a + b == [a[0]] + (a[1..] + b);
      FirstPart(a[0], a[1..] + b);
      Associates(OfTokens(a[0]), OfParts(a[1..]), OfParts(b));
    }
  }

  ghost predicate PartsInOrder(p: Option<Parts>, next: nat) {
    p.Some? ==> InOrder(p.value.parts, p.value.args, next)
  }

  lemma OpInOrder(d: Dialect, name: string, op: Op, ignoreCase: bool, next: nat)
    ensures PartsInOrder(EmitOp(d, name, op, ignoreCase, next), next)
  {
    if op.Exists? {
      ExistsInOrder(d, name, op.flag, ignoreCase, next);
    } else if EmitOp(d, name, op, ignoreCase, next).Some? && !op.Options? {
      SinglePart(EmitOp(d, name, op, ignoreCase, next).value.parts);
    }
  }

  lemma ExistsInOrder(d: Dialect, name: string, flag: bool, ignoreCase: bool, next: nat)
    ensures PartsInOrder(EmitOp(d, name, Op.Exists(flag), ignoreCase, next), next)
  {
    NegatedAtom(if '.' !in name then HasKey(next) else PathNotNull(Split(name)));
    SinglePart(EmitOp(d, name, Op.Exists(flag), ignoreCase, next).value.parts);
  }

  lemma IdOpInOrder(d: Dialect, op: Op, next: nat)
    ensures PartsInOrder(EmitIdOp(d, op, next), next)
  {
    if EmitIdOp(d, op, next).Some? {
      SinglePart(EmitIdOp(d, op, next).value.parts);
    }
  }

  lemma NegatedAtom(a: Atom)
    ensures OfTokens([NotTok, LParen, AtomTok(a), RParen]) == OfAtom(a)
  {
    var ts := [NotTok, LParen, AtomTok(a), RParen];
    assert ts[1..][1..] == [AtomTok(a), RParen];
    assert [AtomTok(a), RParen][1..] == [RParen] && [RParen][1..] == [];
    assert OfTokens([RParen]) == [];
    assert OfTokens([AtomTok(a), RParen]) == OfAtom(a);
    assert OfTokens(ts[1..]) == OfAtom(a);
  }

  lemma SinglePart(parts: seq<seq<Token>>)
    ensures |parts| == 1 ==> OfParts(parts) == OfTokens(parts[0])
    ensures |parts| == 1 && |parts[0]| == 1 ==>
              OfTokens(parts[0]) == if parts[0][0].AtomTok? then OfAtom(parts[0][0].atom) else []
  {
    if |parts| == 1 {
      assert OfParts(parts[1..]) == [];
    }
  }

  lemma {:induction false} OpsInOrder(d: Dialect, name: string, ops: seq<Op>, ignoreCase: bool, next: nat)
    requires EmitOps(d, name, ops, ignoreCase, next).Some?
    ensures InOrder(EmitOps(d, name, ops, ignoreCase, next).value.parts,
                    EmitOps(d, name, ops, ignoreCase, next).value.args, next)
  {
    if ops != [] {
      var first;
      if name == "_id" {
        IdOpInOrder(d, ops[0], next);
        first := EmitIdOp(d, ops[0], next).value;
      } else {
        OpInOrder(d, name, ops[0], ignoreCase, next);
        first := EmitOp(d, name, ops[0], ignoreCase, next).value;
      }
      assert InOrder(first.parts, first.args, next);
      OpsInOrder(d, name, ops[1..], ignoreCase, next + |first.args|);
      ThenInOrder(first, EmitOps(d, name, ops[1..], ignoreCase, next + |first.args|).value, next);
    }
  }

  lemma {:induction false} FilterInOrder(d: Dialect, f: Filter, next: nat)
    requires Emit(d, f, next).Some?
    ensures OfTokens(Emit(d, f, next).value.tokens) == Placeholders(next, |Emit(d, f, next).value.args|)
    decreases f
  {
    ItemsInOrder(d, f.items, next);
    OfJoin(EmitItems(d, f.items, next).value.parts, AndTok);
  }

  lemma EmittedInOrder(e: Emitted, rest: Parts, next: nat)
    requires OfTokens(e.tokens) == Placeholders(next, |e.args|) && InOrder(rest.parts, rest.args, next + |e.args|)
    ensures InOrder([e.tokens] + rest.parts, e.args + rest.args, next)
  {
    SinglePart([e.tokens]);
    ThenInOrder(Parts([e.tokens], e.args), rest, next);
  }

  lemma {:induction false} ItemsInOrder(d: Dialect, items: seq<Item>, next: nat)
    requires EmitItems(d, items, next).Some?
    ensures InOrder(EmitItems(d, items, next).value.parts, EmitItems(d, items, next).value.args, next)
    decreases items
  {
    if items != [] {
      ItemInOrder(d, items[0], next);
      var e := EmitItem(d, items[0], next).value;
      ItemsInOrder(d, items[1..], next + |e.args|);
      EmittedInOrder(e, EmitItems(d, items[1..], next + |e.args|).value, next);
    }
  }

  lemma Parenthesised(prefix: seq<Token>, parts: seq<seq<Token>>, sep: Token)
    requires !sep.AtomTok? && (prefix == [] || prefix == [NotTok])
    ensures OfTokens(prefix + [LParen] + Join(parts, sep) + [RParen]) == OfParts(parts)
  {
    OfJoin(parts, sep);
    OfAppend(prefix + [LParen] + Join(parts, sep), [RParen]);
    OfAppend(prefix + [LParen], Join(parts, sep));
    OfAppend(prefix, [LParen]);
  }

  lemma {:induction false} ItemInOrder(d: Dialect, item: Item, next: nat)
    requires EmitItem(d, item, next).Some?
    ensures OfTokens(EmitItem(d, item, next).value.tokens) == Placeholders(next, |EmitItem(d, item, next).value.args|)
    decreases item
  {
    match item
    case Field(name, Value(v)) =>
    case Field(name, Ops(ops)) =>
      OpsInOrder(d, name, ops, IgnoreCase(ops), next);
      OfJoin(EmitOps(d, name, ops, IgnoreCase(ops), next).value.parts, AndTok);
    case And(subs) =>
      SubsInOrder(d, subs, next);
      Parenthesised([], EmitSubs(d, subs, next).value.parts, AndTok);
    case Or(subs) =>
      SubsInOrder(d, subs, next);
      Parenthesised([], EmitSubs(d, subs, next).value.parts, OrTok);
    case Nor(subs) =>
      SubsInOrder(d, subs, next);
      Parenthesised([NotTok], EmitSubs(d, subs, next).value.parts, OrTok);
  }

  lemma {:induction false} SubsInOrder(d: Dialect, subs: seq<Filter>, next: nat)
    requires EmitSubs(d, subs, next).Some?
    ensures InOrder(EmitSubs(d, subs, next).value.parts, EmitSubs(d, subs, next).value.args, next)
    decreases subs
  {
    if subs != [] {
      FilterInOrder(d, subs[0], next);
      var e := Emit(d, subs[0], next).value;
      SubsInOrder(d, subs[1..], next + |e.args|);
      EmittedInOrder(e, EmitSubs(d, subs[1..], next + |e.args|).value, next);
    }
  }
}
