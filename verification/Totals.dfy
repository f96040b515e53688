// Adding up a measure over a sequence, for the protocols that count what their parties hold.
module Totals {
  function Total<T>(s: seq<T>, f: T -> nat): nat {
    if s == [] then 0 else f(s[0]) + Total(s[1..], f)
  }

  lemma {:induction false} TotalConcat<T>(a: seq<T>, b: seq<T>, f: T -> nat)
    ensures Total(a + b, f) == Total(a, f) + Total(b, f)
  {
    if a == [] {
      assert a + b == b;
    } else {
      TotalConcat(a[1..], b, f);
      assert (a + b)[1..] == a[1..] + b;
    }
  }

  lemma TotalSnoc<T>(s: seq<T>, x: T, f: T -> nat)
    ensures Total(s + [x], f) == Total(s, f) + f(x)
  {
    TotalConcat(s, [x], f);
    assert [x][1..] == [];
  }

  lemma {:induction false} TotalUpdate<T>(s: seq<T>, i: nat, x: T, f: T -> nat)
    requires i < |s|
    ensures Total(s[i := x], f) + f(s[i]) == Total(s, f) + f(x)
  {
    assert s == s[..i] + ([s[i]] + s[i + 1..]);
    assert s[i := x] == s[..i] + ([x] + s[i + 1..]);
    TotalConcat(s[..i], [s[i]] + s[i + 1..], f);
    TotalConcat(s[..i], [x] + s[i + 1..], f);
  }

  lemma {:induction false} TotalAt<T>(s: seq<T>, i: nat, f: T -> nat)
    requires i < |s|
    ensures f(s[i]) <= Total(s, f)
  {
    if i > 0 {
      TotalAt(s[1..], i - 1, f);
    }
  }

  lemma {:induction false} TotalWitness<T>(s: seq<T>, f: T -> nat) returns (i: nat)
    requires Total(s, f) > 0
    ensures i < |s| && f(s[i]) > 0
  {
    if f(s[0]) > 0 {
      i := 0;
    } else {
      i := TotalWitness(s[1..], f);
      i := i + 1;
    }
  }

  lemma {:induction false} TotalZero<T>(s: seq<T>, f: T -> nat)
    requires forall i :: 0 <= i < |s| ==> f(s[i]) == 0
    ensures Total(s, f) == 0
  {
    if s != [] {
      TotalZero(s[1..], f);
    }
  }

  lemma {:induction false} TotalOnes<T>(s: seq<T>, f: T -> nat)
    requires forall i :: 0 <= i < |s| ==> f(s[i]) == 1
    ensures Total(s, f) == |s|
  {
    if s != [] {
      TotalOnes(s[1..], f);
    }
  }
}
