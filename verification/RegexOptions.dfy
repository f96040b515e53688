// Whether a `$regex` ignores case, decided by the `$options` of the same mapping.
module RegexOptions {
  import opened Wrappers
  import opened Json
  import opened Sequences
  import opened FilterSql

  /** The mapping asks to ignore case: some `$options` in it has an `i` among its letters. */
  ghost predicate AsksToIgnoreCase(ops: seq<Op>) {
    exists i, j :: 0 <= i < |ops| && ops[i].Options? && 0 <= j < |ops[i].flags| && ops[i].flags[j] == 'i'
  }

  lemma FlagIsAsked(ops: seq<Op>)
    ensures IgnoreCase(ops) <==> AsksToIgnoreCase(ops)
  {
    if IgnoreCase(ops) {
      var i :| 0 <= i < |ops| && ops[i].Options? && 'i' in ops[i].flags;
      var j :| 0 <= j < |ops[i].flags| && ops[i].flags[j] == 'i';
    }
    if AsksToIgnoreCase(ops) {
      var i, j :| 0 <= i < |ops| && ops[i].Options? && 0 <= j < |ops[i].flags| && ops[i].flags[j] == 'i';
      assert 'i' in ops[i].flags;
    }
  }

  // ---- in what is emitted -------------------------------------------------------------------

  predicate IsRegex(t: Token) {
    t.AtomTok? && t.atom.RegexMatch?
  }

  /** The regular-expression predicates among the tokens, in order. */
  function Regexes(ts: seq<Token>): seq<Token> {
    if ts == [] then [] else (if IsRegex(ts[0]) then [ts[0]] else []) + Regexes(ts[1..])
  }

  function RegexesOf(parts: seq<seq<Token>>): seq<Token> {
    if parts == [] then [] else Regexes(parts[0]) + RegexesOf(parts[1..])
  }

  lemma {:induction false} RegexesConcat(a: seq<Token>, b: seq<Token>)
    ensures Regexes(a + b) == Regexes(a) + Regexes(b)
  {
    if a == [] {
      assert a + b == b;
    } else {
      RegexesConcat(a[1..], b);
      assert a + b == [a[0]] + (a[1..] + b);
      RegexFirst(a[0], a[1..] + b);
      Associates(if IsRegex(a[0]) then [a[0]] else [], Regexes(a[1..]), Regexes(b));
    }
  }

  lemma RegexFirst(t: Token, rest: seq<Token>)
    ensures Regexes([t] + rest) == (if IsRegex(t) then [t] else []) + Regexes(rest)
  {
    assert ([t] + rest)[1..] == rest;
  }

  lemma {:induction false} RegexesJoined(parts: seq<seq<Token>>, sep: Token)
    requires !IsRegex(sep)
    ensures Regexes(Join(parts, sep)) == RegexesOf(parts)
  {
    if |parts| == 1 {
      assert RegexesOf(parts[1..]) == [];
    } else if parts != [] {
      RegexesJoined(parts[1..], sep);
      RegexesConcat(parts[0] + [sep], Join(parts[1..], sep));
      RegexesConcat(parts[0], [sep]);
    }
  }

  lemma PartsFirst(part: seq<Token>, rest: seq<seq<Token>>)
    ensures RegexesOf([part] + rest) == Regexes(part) + RegexesOf(rest)
  {
    assert ([part] + rest)[1..] == rest;
  }

  /** The patterns of the `$regex` entries, in order. */
  function Patterns(ops: seq<Op>): seq<string> {
    if ops == [] then [] else (if ops[0].Regex? then [ops[0].pattern] else []) + Patterns(ops[1..])
  }

  /** One predicate for each pattern, in order, on the path of the field, with an argument that is the pattern. */
  predicate Match(found: seq<Token>, args: seq<Arg>, name: string, patterns: seq<string>, ignoreCase: bool, next: nat) {
    |found| == |patterns| &&
    forall i :: 0 <= i < |found| ==>
      && IsRegex(found[i]) && found[i].atom.parts == Split(name) && found[i].atom.ignoreCase == ignoreCase
      && next <= found[i].atom.ph < next + |args| && args[found[i].atom.ph - next] == TextArg(patterns[i])
  }

  lemma MatchConcat(a: seq<Token>, aArgs: seq<Arg>, aPatterns: seq<string>, b: seq<Token>, bArgs: seq<Arg>,
                    bPatterns: seq<string>, name: string, ignoreCase: bool, next: nat)
    requires Match(a, aArgs, name, aPatterns, ignoreCase, next)
    requires Match(b, bArgs, name, bPatterns, ignoreCase, next + |aArgs|)
    ensures Match(a + b, aArgs + bArgs, name, aPatterns + bPatterns, ignoreCase, next)
  {
  }

  lemma OpMatches(d: Dialect, name: string, op: Op, ignoreCase: bool, next: nat)
    requires EmitOp(d, name, op, ignoreCase, next).Some?
    ensures var e := EmitOp(d, name, op, ignoreCase, next).value;
            Match(RegexesOf(e.parts), e.args, name, if op.Regex? then [op.pattern] else [], ignoreCase, next)
  {
    var e := EmitOp(d, name, op, ignoreCase, next).value;
    if e.parts != [] {
      NoneOrOne(e.parts[0]);
      assert RegexesOf(e.parts[1..]) == [] && Regexes(e.parts[0]) + [] == Regexes(e.parts[0]);
    }
  }

  lemma NoneOrOne(ts: seq<Token>)
    requires |ts| == 1 || (|ts| == 4 && forall i :: 0 <= i < 4 ==> !IsRegex(ts[i]))
    ensures Regexes(ts) == if IsRegex(ts[0]) then [ts[0]] else []
  {
    if |ts| == 1 {
      assert ts[1..] == [];
    } else {
      assert Regexes(ts[1..]) == Regexes(ts[1..][1..]) == Regexes(ts[1..][1..][1..]) == [];
    }
  }

  lemma {:induction false} OpsMatch(d: Dialect, name: string, ops: seq<Op>, ignoreCase: bool, next: nat)
    requires name != "_id" && EmitOps(d, name, ops, ignoreCase, next).Some?
    ensures var e := EmitOps(d, name, ops, ignoreCase, next).value;
            Match(RegexesOf(e.parts), e.args, name, Patterns(ops), ignoreCase, next)
    decreases |ops|
  {
    if ops != [] {
      var first := EmitOp(d, name, ops[0], ignoreCase, next).value;
      var rest := EmitOps(d, name, ops[1..], ignoreCase, next + |first.args|).value;
      OpMatches(d, name, ops[0], ignoreCase, next);
      OpsMatch(d, name, ops[1..], ignoreCase, next + |first.args|);
      ThenMatches(first, if ops[0].Regex? then [ops[0].pattern] else [], rest, Patterns(ops[1..]), name, ignoreCase,
                  next);
    }
  }

  lemma ThenMatches(first: Parts, firstPatterns: seq<string>, rest: Parts, restPatterns: seq<string>, name: string,
                    ignoreCase: bool, next: nat)
    requires Match(RegexesOf(first.parts), first.args, name, firstPatterns, ignoreCase, next)
    requires Match(RegexesOf(rest.parts), rest.args, name, restPatterns, ignoreCase, next + |first.args|)
    ensures Match(RegexesOf(first.parts + rest.parts), first.args + rest.args, name, firstPatterns + restPatterns,
                  ignoreCase, next)
  {
    PartsConcat(first.parts, rest.parts);
    MatchConcat(RegexesOf(first.parts), first.args, firstPatterns, RegexesOf(rest.parts), rest.args, restPatterns, name,
                ignoreCase, next);
  }

  lemma {:induction false} PartsConcat(a: seq<seq<Token>>, b: seq<seq<Token>>)
    ensures RegexesOf(a + b) == RegexesOf(a) + RegexesOf(b)
  {
    if a == [] {
      assert a + b == b;
    } else {
      PartsConcat(a[1..], b);
      assert a + b == [a[0]] + (a[1..] + b);
      PartsFirst(a[0], a[1..] + b);
      Associates(Regexes(a[0]), RegexesOf(a[1..]), RegexesOf(b));
    }
  }

  /** The tokens of a field's operators hold one regular-expression predicate for each `$regex`, and it ignores case if
      and only if the mapping asks for it; without `$options` none does. */
  lemma RegexesEmitted(d: Dialect, name: string, ops: seq<Op>, next: nat)
    requires name != "_id" && EmitItem(d, Field(name, Ops(ops)), next).Some?
    ensures var e := EmitItem(d, Field(name, Ops(ops)), next).value;
            Match(Regexes(e.tokens), e.args, name, Patterns(ops), AsksToIgnoreCase(ops), next)
    ensures (forall i :: 0 <= i < |ops| ==> !ops[i].Options?) ==> !AsksToIgnoreCase(ops)
  {
    FlagIsAsked(ops);
    OpsMatch(d, name, ops, IgnoreCase(ops), next);
    var e := EmitOps(d, name, ops, IgnoreCase(ops), next).value;
    RegexesJoined(e.parts, AndTok);
    assert Regexes([TrueTok]) == [];
  }

  // ---- in what is meant ---------------------------------------------------------------------

  /** The text at the field matches the pattern; no text matches nothing. */
  predicate TextMatches(d: Dialect, row: Row, name: string, pattern: string, ignoreCase: bool) {
    SqlGetText(d, row.data, Split(name)).Some? &&
    d.matches(pattern, ignoreCase, SqlGetText(d, row.data, Split(name)).value)
  }

  /** A row satisfies a mapping only if each of its patterns matches, case being ignored as the mapping asks; with
      nothing but `$regex` and `$options` in the mapping, exactly then. */
  lemma RegexesMeant(d: Dialect, row: Row, name: string, ops: seq<Op>)
    requires name != "_id"
    ensures MeansItem(d, row, Field(name, Ops(ops))) == True ==>
              forall i :: 0 <= i < |ops| && ops[i].Regex? ==>
                TextMatches(d, row, name, ops[i].pattern, AsksToIgnoreCase(ops))
    ensures (forall i :: 0 <= i < |ops| ==> ops[i].Regex? || ops[i].Options?) ==>
              (MeansItem(d, row, Field(name, Ops(ops))) == True <==>
               forall i :: 0 <= i < |ops| && ops[i].Regex? ==>
                 TextMatches(d, row, name, ops[i].pattern, AsksToIgnoreCase(ops)))
  {
    FlagIsAsked(ops);
    OpsMeant(d, row, name, ops, IgnoreCase(ops));
  }

  lemma {:induction false} OpsMeant(d: Dialect, row: Row, name: string, ops: seq<Op>, ignoreCase: bool)
    requires name != "_id"
    ensures MeansOps(d, row, name, ops, ignoreCase) == True ==>
              forall i :: 0 <= i < |ops| && ops[i].Regex? ==> TextMatches(d, row, name, ops[i].pattern, ignoreCase)
    ensures (forall i :: 0 <= i < |ops| ==> ops[i].Regex? || ops[i].Options?) ==>
              ((forall i :: 0 <= i < |ops| && ops[i].Regex? ==>
                TextMatches(d, row, name, ops[i].pattern, ignoreCase)) ==>
               MeansOps(d, row, name, ops, ignoreCase) == True)
  {
    if ops != [] {
      OpsMeant(d, row, name, ops[1..], ignoreCase);
      assert forall i :: 0 < i < |ops| ==> ops[i] == ops[1..][i - 1];
    }
  }
}
