/** Small vocabulary the other modules share. */
module Basics {
  datatype Option<+T> = None | Some(value: T)

  function Min(a: int, b: int): int { if a <= b then a else b }

  function Max(a: int, b: int): int { if a >= b then a else b }

  function MinReal(a: real, b: real): real { if a <= b then a else b }

  function MaxReal(a: real, b: real): real { if a >= b then a else b }

  function SumReal(s: seq<real>): real {
    if s == [] then 0.0 else s[0] + SumReal(s[1..])
  }

  lemma {:induction false} SumRealUpdate(s: seq<real>, i: nat, v: real)
    requires i < |s|
    ensures SumReal(s[i := v]) == SumReal(s) - s[i] + v
  {
    if i == 0 {
      assert s[0 := v][1..] == s[1..];
    } else {
      assert s[i := v][1..] == s[1..][i - 1 := v];
      SumRealUpdate(s[1..], i - 1, v);
    }
  }

  lemma {:induction false} SumRealNonNegative(s: seq<real>)
    requires forall i :: 0 <= i < |s| ==> s[i] >= 0.0
    ensures SumReal(s) >= 0.0
    ensures forall i :: 0 <= i < |s| ==> s[i] <= SumReal(s)
  {
    if s != [] {
      SumRealNonNegative(s[1..]);
      forall i | 0 <= i < |s| ensures s[i] <= SumReal(s) {
        if i > 0 { assert s[i] == s[1..][i - 1]; }
      }
    }
  }

  lemma Assoc<T>(a: seq<T>, b: seq<T>, c: seq<T>)
    ensures a + b + c == a + (b + c)
  {}

  lemma Units<T>(a: seq<T>)
    ensures a + [] == a && [] + a == a
  {}

  lemma Glue<T>(s: seq<T>, a: nat, b: nat, c: nat)
    requires a <= b <= c <= |s|
    ensures s[a..b] + s[b..c] == s[a..c]
  {}

  function SumBy<T(!new)>(s: seq<T>, f: T -> int): int {
    if s == [] then 0 else f(s[0]) + SumBy(s[1..], f)
  }

  lemma {:induction false} SumByConcat<T(!new)>(a: seq<T>, b: seq<T>, f: T -> int)
    ensures SumBy(a + b, f) == SumBy(a, f) + SumBy(b, f)
  {
    if a == [] {
      Units(b);
    } else {
      assert (a + b)[0] == a[0] && (a + b)[1..] == a[1..] + b;
      SumByConcat(a[1..], b, f);
    }
  }

  lemma SumByPush<T(!new)>(s: seq<T>, x: T, f: T -> int)
    ensures SumBy(s + [x], f) == SumBy(s, f) + f(x)
  {
    SumByConcat(s, [x], f);
    assert [x][1..] == [];
    assert SumBy([x], f) == f(x) + SumBy([], f);
  }

  lemma SumByWithout<T(!new)>(s: seq<T>, i: nat, f: T -> int)
    requires i < |s|
    ensures SumBy(s, f) == f(s[i]) + SumBy(s[..i] + s[i + 1..], f)
  {
    assert s == s[..i] + [s[i]] + s[i + 1..];
    SumByConcat(s[..i] + [s[i]], s[i + 1..], f);
    SumByPush(s[..i], s[i], f);
    SumByConcat(s[..i], s[i + 1..], f);
  }

  lemma MultisetWithout<T>(s: seq<T>, i: nat)
    requires i < |s|
    ensures multiset(s[..i] + s[i + 1..]) == multiset(s) - multiset{s[i]}
  {
    assert s == s[..i] + [s[i]] + s[i + 1..];
  }

  lemma RestsAgree<T>(a: seq<T>, b: seq<T>, i: nat)
    requires multiset(a) == multiset(b) && a != [] && i < |b| && b[i] == a[0]
    ensures multiset(a[1..]) == multiset(b[..i] + b[i + 1..])
  {
    MultisetWithout(b, i);
    assert a == [a[0]] + a[1..];
  }

  lemma SameMultisetSameLength<T>(a: seq<T>, b: seq<T>)
    requires multiset(a) == multiset(b)
    ensures |a| == |b|
    ensures a != [] ==> a[0] in b
  {
    assert |multiset(a)| == |a| && |multiset(b)| == |b|;
    if a != [] { assert a[0] in multiset(a); }
  }

  /// A sum does not depend on the order of what is summed.
  lemma {:induction false} SumByPermutes<T(!new)>(a: seq<T>, b: seq<T>, f: T -> int)
    requires multiset(a) == multiset(b)
    ensures SumBy(a, f) == SumBy(b, f)
    decreases |a|
  {
    hide SumBy;
    SameMultisetSameLength(a, b);
    if a != [] {
      var i :| 0 <= i < |b| && b[i] == a[0];
      RestsAgree(a, b, i);
      SumByPermutes(a[1..], b[..i] + b[i + 1..], f);
      SumByFirst(a, f);
      SumByWithout(b, i, f);
    }
  }

  lemma SumByFirst<T(!new)>(s: seq<T>, f: T -> int)
    requires s != []
    ensures SumBy(s, f) == f(s[0]) + SumBy(s[1..], f)
  {}
}
