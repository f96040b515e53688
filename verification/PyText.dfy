// The few string operations of Python that decide branches.
module PyText {
  import opened Wrappers

  /** `s.rpartition("_")`: None when there is no underscore. */
  function RPartition(s: string): (r: Option<(string, string)>)
    ensures r.Some? ==> s == r.value.0 + "_" + r.value.1 && '_' !in r.value.1
  {
    if s == "" then None
    else if s[|s| - 1] == '_' then Some((s[..|s| - 1], ""))
    else
      match RPartition(s[..|s| - 1])
      case None => None
      case Some((base, suffix)) => Some((base, suffix + [s[|s| - 1]]))
  }

  predicate IsDigits(s: string) {
    s != "" && forall i :: 0 <= i < |s| ==> '0' <= s[i] <= '9'
  }

  function DigitsValue(s: string): (n: int)
    requires forall i :: 0 <= i < |s| ==> '0' <= s[i] <= '9'
    ensures n >= 0
  {
    if s == "" then 0 else 10 * DigitsValue(s[..|s| - 1]) + (s[|s| - 1] - '0') as int
  }

  /** Python's `int(s)` on signed ASCII digits. */
  function ParseInt(s: string): Option<int> {
    if IsDigits(s) then Some(DigitsValue(s))
    else if s != "" && s[0] == '-' && IsDigits(s[1..]) then Some(-DigitsValue(s[1..]))
    else if s != "" && s[0] == '+' && IsDigits(s[1..]) then Some(DigitsValue(s[1..]))
    else None
  }

  /** `str(n)`. */
  function Digits(n: nat): (s: string)
    ensures |s| > 0
  {
    var d := '0' + (n % 10) as char;
    if n < 10 then [d] else Digits(n / 10) + [d]
  }

  // ---- what the numerals mean ----------------------------------------------------------------

  function Pow10(n: nat): nat {
    if n == 0 then 1 else 10 * Pow10(n - 1)
  }

  /** Position by position from the left: each digit times its power of ten. */
  function PlaceSum(s: string, i: nat): int
    requires i <= |s|
    decreases |s| - i
  {
    if i == |s| then 0 else (s[i] as int - '0' as int) * Pow10(|s| - 1 - i) + PlaceSum(s, i + 1)
  }

  lemma {:induction false} PlaceSumSnoc(s: string, c: char, i: nat)
    requires i <= |s|
    ensures PlaceSum(s + [c], i) == 10 * PlaceSum(s, i) + (c as int - '0' as int)
    decreases |s| - i
  {
    if i == |s| {
      assert PlaceSum(s + [c], i + 1) == 0 && Pow10(0) == 1;
    } else {
      PlaceSumSnoc(s, c, i + 1);
      assert Pow10(|s| - i) == 10 * Pow10(|s| - 1 - i);
    }
  }

  lemma {:induction false} DigitsValueIsPlaceSum(s: string)
    requires forall i :: 0 <= i < |s| ==> '0' <= s[i] <= '9'
    ensures DigitsValue(s) == PlaceSum(s, 0)
  {
    if s != "" {
      DigitsValueIsPlaceSum(s[..|s| - 1]);
      PlaceSumSnoc(s[..|s| - 1], s[|s| - 1], 0);
      FrontAndLast(s);
    }
  }

  /** A decimal is made of digits, without a leading zero, and is worth its number. */
  lemma {:induction false} DecimalOf(n: nat)
    ensures IsDigits(Digits(n)) && DigitsValue(Digits(n)) == n
    ensures n > 0 ==> Digits(n)[0] != '0'
    ensures '_' !in Digits(n)
  {
    var s, d := Digits(n), '0' + (n % 10) as char;
    assert '0' <= d <= '9' && (d - '0') as int == n % 10;
    if n < 10 {
      assert s[..0] == "" && s == [d];
    } else {
      DecimalOf(n / 10);
      assert s[..|s| - 1] == Digits(n / 10) && s[|s| - 1] == d;
    }
  }

  /** And it is the only numeral of that number without a leading zero. */
  lemma {:induction false} DecimalIsUnique(s: string)
    requires IsDigits(s) && (|s| > 1 ==> s[0] != '0')
    ensures Digits(DigitsValue(s)) == s
    ensures s[0] != '0' ==> DigitsValue(s) > 0
    decreases |s|
  {
    var front, last := s[..|s| - 1], s[|s| - 1];
    if front == "" {
      OneDigit(last);
    } else {
      DecimalIsUnique(front);
      NextDigit(DigitsValue(front), last);
      FrontAndLast(s);
    }
  }

  lemma FrontAndLast(s: string)
    requires s != ""
    ensures s == s[..|s| - 1] + [s[|s| - 1]]
  {
  }

  lemma OneDigit(c: char)
    requires '0' <= c <= '9'
    ensures 0 <= (c - '0') as int < 10 && Digits((c - '0') as int) == [c]
  {
    assert '0' + ((c - '0') as int) as char == c;
  }

  lemma NextDigit(n: nat, c: char)
    requires n > 0 && '0' <= c <= '9'
    ensures Digits(10 * n + (c - '0') as int) == Digits(n) + [c]
  {
    OneDigit(c);
    var m := 10 * n + (c - '0') as int;
    assert m / 10 == n && m % 10 == (c - '0') as int;
  }

  predicate OnlyDigits(s: string) {
    s != "" && forall i :: 0 <= i < |s| ==> s[i] in "0123456789"
  }

  lemma OnlyDigitsIff(s: string)
    ensures OnlyDigits(s) <==> IsDigits(s)
  {
    forall i | 0 <= i < |s|
      ensures s[i] in "0123456789" <==> '0' <= s[i] <= '9'
    {
      if '0' <= s[i] <= '9' {
        assert "0123456789"[(s[i] - '0') as int] == s[i];
      }
    }
  }

  /** Digits after at most one sign, with their place value. */
  predicate IsNumeral(s: string, digits: string, n: int) {
    && OnlyDigits(digits)
    && if s == "-" + digits then n == -PlaceSum(digits, 0) else s in [digits, "+" + digits] && n == PlaceSum(digits, 0)
  }

  /** `int` reads the numerals, each as its value, and refuses anything else. */
  lemma ParseIntIff(s: string, n: int)
    ensures ParseInt(s) == Some(n) <==> exists digits :: IsNumeral(s, digits, n)
  {
    if ParseInt(s).Some? && ParseInt(s).value == n {
      var digits := if IsDigits(s) then s else s[1..];
      OnlyDigitsIff(digits);
      DigitsValueIsPlaceSum(digits);
      assert IsDigits(s) || s == [s[0]] + digits;
      assert IsNumeral(s, digits, n);
    }
    forall digits | IsNumeral(s, digits, n) ensures ParseInt(s) == Some(n) {
      NumeralIsRead(s, digits, n);
    }
  }

  lemma NumeralIsRead(s: string, digits: string, n: int)
    requires IsNumeral(s, digits, n)
    ensures ParseInt(s) == Some(n)
  {
    OnlyDigitsIff(digits);
    DigitsValueIsPlaceSum(digits);
    assert ("-" + digits)[1..] == digits && ("+" + digits)[1..] == digits;
    assert ("-" + digits)[0] == '-' && ("+" + digits)[0] == '+';
  }

  /** Python's `int` reads the decimal of every number back, with and without a sign. */
  lemma ParseDecimal(n: nat)
    ensures ParseInt(Digits(n)) == Some(n)
    ensures ParseInt("-" + Digits(n)).Some? && ParseInt("-" + Digits(n)).value + n == 0
    ensures ParseInt("+" + Digits(n)) == Some(n)
  {
    DecimalOf(n);
    DigitsValueIsPlaceSum(Digits(n));
    OnlyDigitsIff(Digits(n));
    assert Digits(n)[0] in "0123456789";
    NumeralIsRead(Digits(n), Digits(n), n);
    var m: int := n;
    NumeralIsRead("-" + Digits(n), Digits(n), -m);
    NumeralIsRead("+" + Digits(n), Digits(n), n);
  }

  /** `rpartition` finds an underscore exactly when there is one. */
  lemma {:induction false} RPartitionFinds(s: string)
    ensures RPartition(s).None? <==> '_' !in s
  {
    if s != "" {
      assert s == s[..|s| - 1] + [s[|s| - 1]];
      RPartitionFinds(s[..|s| - 1]);
    }
  }

  /** And cuts at the last. */
  lemma {:induction false} RPartitionAtLast(base: string, suffix: string)
    requires '_' !in suffix
    ensures RPartition(base + "_" + suffix) == Some((base, suffix))
    decreases |suffix|
  {
    var s := base + "_" + suffix;
    if suffix == "" {
      assert s[..|s| - 1] == base;
    } else {
      var front, last := suffix[..|suffix| - 1], suffix[|suffix| - 1];
      RPartitionAtLast(base, front);
      assert suffix == front + [last];
      assert s[..|s| - 1] == base + "_" + front && s[|s| - 1] == last;
    }
  }

  // ---- the order of strings ------------------------------------------------------------------

  predicate Before(a: string, b: string) {
    if b == "" then false
    else if a == "" then true
    else if a[0] != b[0] then a[0] < b[0]
    else Before(a[1..], b[1..])
  }

  /** The strings agree up to `i`, where the first ends or has the smaller character. */
  predicate DecidedAt(a: string, b: string, i: nat) {
    i <= |a| && i < |b| && a[..i] == b[..i] && (i == |a| || a[i] < b[i])
  }

  /** Python's order of strings: a proper prefix comes first, and otherwise the first difference decides. */
  lemma {:induction false} BeforeIff(a: string, b: string)
    ensures Before(a, b) <==> exists i: nat :: DecidedAt(a, b, i)
  {
    if b != "" && a != "" && a[0] == b[0] {
      BeforeIff(a[1..], b[1..]);
      if Before(a, b) {
        var i: nat :| DecidedAt(a[1..], b[1..], i);
        assert a[..i + 1] == [a[0]] + a[1..][..i] && b[..i + 1] == [b[0]] + b[1..][..i];
        assert DecidedAt(a, b, i + 1);
      }
      if i: nat :| DecidedAt(a, b, i) {
        assert i > 0;
        assert a[1..][..i - 1] == a[..i][1..] && b[1..][..i - 1] == b[..i][1..];
        assert DecidedAt(a[1..], b[1..], i - 1);
      }
    } else if Before(a, b) {
      assert DecidedAt(a, b, 0);
    } else if i: nat :| DecidedAt(a, b, i) {
      FirstAgrees(a, b, i);
    }
  }

  lemma FirstAgrees(a: string, b: string, i: nat)
    requires DecidedAt(a, b, i)
    ensures i > 0 ==> a[0] == b[0]
  {
    if i > 0 {
      assert a[..i][0] == a[0] && b[..i][0] == b[0];
    }
  }

  lemma {:induction false} BeforeTotal(a: string, b: string)
    ensures a == b || Before(a, b) || Before(b, a)
  {
    if a != "" && b != "" && a[0] == b[0] {
      BeforeTotal(a[1..], b[1..]);
      assert a == [a[0]] + a[1..] && b == [b[0]] + b[1..];
    }
  }

  lemma {:induction false} BeforeTransitive(a: string, b: string, c: string)
    requires Before(a, b) && Before(b, c)
    ensures Before(a, c)
  {
    if a != "" && a[0] == b[0] && b[0] == c[0] {
      BeforeTransitive(a[1..], b[1..], c[1..]);
    }
  }

  lemma {:induction false} BeforeIrreflexive(a: string)
    ensures !Before(a, a)
  {
    if a != "" {
      BeforeIrreflexive(a[1..]);
    }
  }

  predicate SortedNames(names: seq<string>) {
    forall i, j :: 0 <= i < j < |names| ==> names[i] == names[j] || Before(names[i], names[j])
  }

  function InsertName(names: seq<string>, x: string): (r: seq<string>)
    ensures |r| == |names| + 1
  {
    if names == [] || Before(x, names[0]) then [x] + names else [names[0]] + InsertName(names[1..], x)
  }

  /** `sorted(names)`. */
  function SortNames(names: seq<string>): seq<string> {
    if names == [] then [] else InsertName(SortNames(names[1..]), names[0])
  }

  lemma {:induction false} InsertNameKeeps(names: seq<string>, x: string)
    requires SortedNames(names)
    ensures SortedNames(InsertName(names, x))
  {
    if names == [] {
    } else if Before(x, names[0]) {
      forall j | 0 < j < |names| && names[0] != names[j] ensures Before(x, names[j]) {
        BeforeTransitive(x, names[0], names[j]);
      }
    } else {
      InsertNameKeeps(names[1..], x);
      BeforeTotal(x, names[0]);
      InsertNameBounded(names[1..], x, names[0]);
    }
  }

  lemma {:induction false} InsertNameAdds(names: seq<string>, x: string)
    ensures multiset(InsertName(names, x)) == multiset(names) + multiset{x}
  {
    if names != [] && !Before(x, names[0]) {
      InsertNameAdds(names[1..], x);
      assert names == [names[0]] + names[1..];
    }
  }

  /** What is at or after a bound stays so. */
  lemma {:induction false} InsertNameBounded(names: seq<string>, x: string, low: string)
    requires forall i :: 0 <= i < |names| ==> names[i] == low || Before(low, names[i])
    requires x == low || Before(low, x)
    ensures forall i :: 0 <= i < |InsertName(names, x)| ==>
              InsertName(names, x)[i] == low || Before(low, InsertName(names, x)[i])
  {
    if names != [] && !Before(x, names[0]) {
      InsertNameBounded(names[1..], x, low);
    }
  }

  /** Sorting permutes and sorts. */
  lemma {:induction false} SortNamesSorts(names: seq<string>)
    ensures SortedNames(SortNames(names)) && multiset(SortNames(names)) == multiset(names)
  {
    if names != [] {
      SortNamesSorts(names[1..]);
      InsertNameKeeps(SortNames(names[1..]), names[0]);
      InsertNameAdds(SortNames(names[1..]), names[0]);
      assert names == [names[0]] + names[1..];
    }
  }
}
