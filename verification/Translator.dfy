// `_Translator`: the object that renders a filter and collects its positional arguments.
module Translator {
  import opened Wrappers
  import opened Json
  import opened FilterSql

  lemma ThenThen(a: Parts, b: Parts, c: Option<Parts>)
    ensures Then(a, Then(b, c)) == Then(Parts(a.parts + b.parts, a.args + b.args), c)
  {
    if c.Some? {
      assert a.parts + (b.parts + c.value.parts) == a.parts + b.parts + c.value.parts;
      assert a.args + (b.args + c.value.args) == a.args + b.args + c.value.args;
    }
  }

  lemma ThenNothing(a: Parts)
    ensures Then(a, Some(Parts([], []))) == Some(a)
  {
    assert a.parts + [] == a.parts && a.args + [] == a.args;
  }

  lemma NothingThen(c: Option<Parts>)
    ensures Then(Parts([], []), c) == c
  {
    if c.Some? {
      assert [] + c.value.parts == c.value.parts && [] + c.value.args == c.value.args;
    }
  }

  /** One more round of a loop: what it adds to the parts and to the arguments joins what was there. */
  lemma Gathered(start: seq<Arg>, before: seq<Arg>, now: seq<Arg>,
                 parts: seq<seq<Token>>, more: seq<seq<Token>>, rest: Option<Parts>)
    requires start <= before <= now
    ensures Then(Parts(parts, before[|start|..]), Then(Parts(more, now[|before|..]), rest)) ==
            Then(Parts(parts + more, now[|start|..]), rest)
  {
    ThenThen(Parts(parts, before[|start|..]), Parts(more, now[|before|..]), rest);
    assert before[|start|..] + now[|before|..] == now[|start|..];
  }

  lemma OpsStep(d: Dialect, name: string, ops: seq<Op>, ignoreCase: bool, next: nat, i: nat)
    requires i < |ops|
    ensures EmitOps(d, name, ops[i..], ignoreCase, next) ==
            match if name == "_id" then EmitIdOp(d, ops[i], next) else EmitOp(d, name, ops[i], ignoreCase, next)
            case None => None
            case Some(first) => Then(first, EmitOps(d, name, ops[i + 1..], ignoreCase, next + |first.args|))
  {
    assert ops[i..][1..] == ops[i + 1..];
  }

  lemma SubsStep(d: Dialect, subs: seq<Filter>, next: nat, i: nat)
    requires i < |subs|
    ensures EmitSubs(d, subs[i..], next) ==
            match Emit(d, subs[i], next)
            case None => None
            case Some(e) => Then(Parts([e.tokens], e.args), EmitSubs(d, subs[i + 1..], next + |e.args|))
  {
    assert subs[i..][1..] == subs[i + 1..];
  }

  lemma ItemsStep(d: Dialect, items: seq<Item>, next: nat, i: nat)
    requires i < |items|
    ensures EmitItems(d, items[i..], next) ==
            match EmitItem(d, items[i], next)
            case None => None
            case Some(e) => Then(Parts([e.tokens], e.args), EmitItems(d, items[i + 1..], next + |e.args|))
  {
    assert items[i..][1..] == items[i + 1..];
  }

  lemma DropPrefix(a: seq<Arg>)
    ensures forall b: seq<Arg> :: (a + b)[|a|..] == b
    ensures a[|a|..] == []
  {
  }

  class Translator {
    const d: Dialect
    const start: nat
    var args: seq<Arg>
    var next: nat

    ghost predicate Valid()
      reads this
    {
      next == start + |args|
    }

    constructor (d: Dialect, start: nat)
      ensures Valid() && args == [] && this.d == d && this.start == start
    {
      this.d, this.start, args, next := d, start, [], start;
    }

    /** What has been collected since the translator had `n` arguments. */
    ghost function Since(n: nat): seq<Arg>
      requires n <= |args|
      reads this
    {
      args[n..]
    }

    method Param(a: Arg) returns (ph: nat)
      requires Valid()
      modifies this
      ensures Valid() && ph == old(next) && args == old(args) + [a]
    {
      args := args + [a];
      ph := next;
      next := next + 1;
    }

    method JsonParams(values: seq<Json>) returns (phs: seq<nat>)
      requires Valid()
      modifies this
      ensures Valid() && phs == Placeholders(old(next), |values|) && args == old(args) + JsonArgs(values)
    {
      phs := [];
      for i := 0 to |values|
        invariant Valid() && next == old(next) + i
        invariant phs == Placeholders(old(next), i) && args == old(args) + JsonArgs(values[..i])
      {
        var ph := Param(JsonArg(values[i]));
        phs := phs + [ph];
        assert JsonArgs(values[..i + 1]) == JsonArgs(values[..i]) + [JsonArg(values[i])];
      }
      assert values[..|values|] == values;
    }

    method IdParams(values: seq<Json>) returns (phs: seq<nat>)
      requires Valid()
      modifies this
      ensures Valid() && phs == Placeholders(old(next), |values|) && args == old(args) + IdArgs(d, values)
    {
      phs := [];
      for i := 0 to |values|
        invariant Valid() && next == old(next) + i
        invariant phs == Placeholders(old(next), i) && args == old(args) + IdArgs(d, values[..i])
      {
        var ph := Param(TextArg(CoerceId(d, values[i])));
        phs := phs + [ph];
        assert IdArgs(d, values[..i + 1]) == IdArgs(d, values[..i]) + [TextArg(CoerceId(d, values[i]))];
      }
      assert values[..|values|] == values;
    }

    /** One operator of a field clause; None inside Some is an operator that renders nothing. */
    method FieldOp(name: string, op: Op, ignoreCase: bool) returns (ok: bool, parts: seq<seq<Token>>)
      requires Valid()
      modifies this
      ensures Valid() && old(args) <= args
      ensures EmitOp(d, name, op, ignoreCase, old(next)) == if ok then Some(Parts(parts, Since(|old(args)|))) else None
    {
      DropPrefix(args);
      ok, parts := true, [];
      match op
      case Compare(cmp, v) =>
        if v.Number? || v.Bool? {
          var ph := Param(JsonArg(v));
          parts := [[AtomTok(JsonCmp(Split(name), cmp, ph))]];
        } else {
          var ph := Param(TextArg(d.pyStr(v)));
          parts := [[AtomTok(TextCmp(Split(name), cmp, ph))]];
        }
      case In(values) =>
        if values == [] {
          parts := [[FalseTok]];
        } else {
          var phs := JsonParams(values);
          parts := [[AtomTok(JsonIn(Split(name), phs, false))]];
        }
      case Nin(values) =>
        if values == [] {
          parts := [[TrueTok]];
        } else {
          var phs := JsonParams(values);
          parts := [[AtomTok(JsonIn(Split(name), phs, true))]];
        }
      case Exists(flag) =>
        var present := AtomTok(PathNotNull(Split(name)));
        if '.' !in name {
          var ph := Param(TextArg(name));
          present := AtomTok(HasKey(ph));
        }
        parts := [if flag then [present] else [NotTok, LParen, present, RParen]];
      case Regex(pattern) =>
        var ph := Param(TextArg(pattern));
        parts := [[AtomTok(RegexMatch(Split(name), ignoreCase, ph))]];
      case Options(_) =>
      case Unknown(_) =>
        ok := false;
    }

    method IdOp(op: Op) returns (ok: bool, parts: seq<seq<Token>>)
      requires Valid()
      modifies this
      ensures Valid() && old(args) <= args
      ensures EmitIdOp(d, op, old(next)) == if ok then Some(Parts(parts, Since(|old(args)|))) else None
    {
      DropPrefix(args);
      ok, parts := true, [];
      match op
      case Compare(cmp, v) =>
        if cmp == Eq || cmp == Ne {
          var ph := Param(TextArg(CoerceId(d, v)));
          parts := [[AtomTok(IdCmp(cmp == Eq, ph))]];
        } else {
          ok := false;
        }
      case In(values) =>
        if values == [] {
          parts := [[FalseTok]];
        } else {
          var phs := IdParams(values);
          parts := [[AtomTok(IdIn(phs, false))]];
        }
      case Nin(values) =>
        if values == [] {
          parts := [[TrueTok]];
        } else {
          var phs := IdParams(values);
          parts := [[AtomTok(IdIn(phs, true))]];
        }
      case _ =>
        ok := false;
    }

    method AnyOp(name: string, op: Op, ignoreCase: bool) returns (ok: bool, parts: seq<seq<Token>>)
      requires Valid()
      modifies this
      ensures Valid() && old(args) <= args
      ensures (if name == "_id" then EmitIdOp(d, op, old(next)) else EmitOp(d, name, op, ignoreCase, old(next))) ==
              if ok then Some(Parts(parts, Since(|old(args)|))) else None
    {
      if name == "_id" {
        ok, parts := IdOp(op);
      } else {
        ok, parts := FieldOp(name, op, ignoreCase);
      }
    }

    method OpsParts(name: string, ops: seq<Op>, ignoreCase: bool) returns (ok: bool, parts: seq<seq<Token>>)
      requires Valid()
      modifies this
      ensures Valid() && old(args) <= args
      ensures EmitOps(d, name, ops, ignoreCase, old(next)) ==
              if ok then Some(Parts(parts, Since(|old(args)|))) else None
    {
      parts := [];
      DropPrefix(args);
      NothingThen(EmitOps(d, name, ops, ignoreCase, next));
      for i := 0 to |ops|
        invariant Valid() && old(args) <= args
        invariant EmitOps(d, name, ops, ignoreCase, old(next)) ==
                  Then(Parts(parts, Since(|old(args)|)), EmitOps(d, name, ops[i..], ignoreCase, next))
      {
        ghost var before := args;
        OpsStep(d, name, ops, ignoreCase, next, i);
        var done, more := AnyOp(name, ops[i], ignoreCase);
        if !done {
          return false, [];
        }
        Gathered(old(args), before, args, parts, more, EmitOps(d, name, ops[i + 1..], ignoreCase, next));
        parts := parts + more;
      }
      ThenNothing(Parts(parts, Since(|old(args)|)));
      ok := true;
    }

    method OpsClause(name: string, ops: seq<Op>) returns (r: Option<seq<Token>>)
      requires Valid()
      modifies this
      ensures Valid() && old(args) <= args
      ensures r.None? <==> Chain(EmitOps(d, name, ops, IgnoreCase(ops), old(next))).None?
      ensures r.Some? ==>
                Chain(EmitOps(d, name, ops, IgnoreCase(ops), old(next))) == Some(Emitted(r.value, Since(|old(args)|)))
    {
      var ok, parts := OpsParts(name, ops, IgnoreCase(ops));
      r := if !ok then None else Some(if parts == [] then [TrueTok] else Join(parts, AndTok));
    }

    method FieldClause(name: string, clause: Clause) returns (r: Option<seq<Token>>)
      requires Valid()
      modifies this
      ensures Valid() && old(args) <= args
      ensures r.None? <==> EmitItem(d, Field(name, clause), old(next)).None?
      ensures r.Some? ==> EmitItem(d, Field(name, clause), old(next)) == Some(Emitted(r.value, Since(|old(args)|)))
    {
      DropPrefix(args);
      match clause
      case Value(v) =>
        if name == "_id" {
          var ph := Param(TextArg(CoerceId(d, v)));
          r := Some([AtomTok(IdCmp(true, ph))]);
        } else {
          var ph := Param(JsonArg(RebuildNested(name, v)));
          r := Some([AtomTok(DataContains(ph))]);
        }
      case Ops(ops) =>
        r := OpsClause(name, ops);
    }

    method TranslateSubs(subs: seq<Filter>) returns (ok: bool, parts: seq<seq<Token>>)
      requires Valid()
      modifies this
      ensures Valid() && old(args) <= args
      ensures EmitSubs(d, subs, old(next)) == if ok then Some(Parts(parts, Since(|old(args)|))) else None
      decreases subs
    {
      DropPrefix(args);
      NothingThen(EmitSubs(d, subs, next));
      parts := [];
      for i := 0 to |subs|
        invariant Valid() && old(args) <= args
        invariant EmitSubs(d, subs, old(next)) == Then(Parts(parts, Since(|old(args)|)), EmitSubs(d, subs[i..], next))
      {
        ghost var before := args;
        SubsStep(d, subs, next, i);
        var t := Translate(subs[i]);
        if t.None? {
          return false, [];
        }
        Gathered(old(args), before, args, parts, [t.value], EmitSubs(d, subs[i + 1..], next));
        parts := parts + [t.value];
      }
      ThenNothing(Parts(parts, Since(|old(args)|)));
      ok := true;
    }

    method TranslateItem(item: Item) returns (r: Option<seq<Token>>)
      requires Valid()
      modifies this
      ensures Valid() && old(args) <= args
      ensures r.None? <==> EmitItem(d, item, old(next)).None?
      ensures r.Some? ==> EmitItem(d, item, old(next)) == Some(Emitted(r.value, Since(|old(args)|)))
      decreases item
    {
      match item
      case Field(name, clause) =>
        r := FieldClause(name, clause);
      case And(subs) =>
        var ok, parts := TranslateSubs(subs);
        r := if ok then Some([] + [LParen] + Join(parts, AndTok) + [RParen]) else None;
      case Or(subs) =>
        var ok, parts := TranslateSubs(subs);
        r := if ok then Some([] + [LParen] + Join(parts, OrTok) + [RParen]) else None;
      case Nor(subs) =>
        var ok, parts := TranslateSubs(subs);
        r := if ok then Some([NotTok] + [LParen] + Join(parts, OrTok) + [RParen]) else None;
    }

    /** Renders the filter and appends its arguments; None is an unsupported operator. */
    method Translate(f: Filter) returns (r: Option<seq<Token>>)
      requires Valid()
      modifies this
      ensures Valid() && old(args) <= args
      ensures r.None? <==> Emit(d, f, old(next)).None?
      ensures r.Some? ==> Emit(d, f, old(next)) == Some(Emitted(r.value, Since(|old(args)|)))
      decreases f
    {
      DropPrefix(args);
      if f.items == [] {
        return Some([TrueTok]);
      }
      DropPrefix(args);
      NothingThen(EmitItems(d, f.items, next));
      var parts: seq<seq<Token>> := [];
      for i := 0 to |f.items|
        invariant Valid() && old(args) <= args
        invariant EmitItems(d, f.items, old(next)) ==
                  Then(Parts(parts, Since(|old(args)|)), EmitItems(d, f.items[i..], next))
      {
        ghost var before := args;
        ItemsStep(d, f.items, next, i);
        var t := TranslateItem(f.items[i]);
        if t.None? {
          return None;
        }
        Gathered(old(args), before, args, parts, [t.value], EmitItems(d, f.items[i + 1..], next));
        parts := parts + [t.value];
      }
      ThenNothing(Parts(parts, Since(|old(args)|)));
      r := Some(if parts == [] then [TrueTok] else Join(parts, AndTok));
    }
  }
}
