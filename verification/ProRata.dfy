/**
 Whole-unit pro-rata shares: what both splits below (StrandedFlows, RosterPairs) rest on.
 */
module ProRata {

  function Sum(a: seq<nat>): nat {
    if a == [] then 0 else a[0] + Sum(a[1..])
  }

  /// `part` of `whole`, rounded down, of `amount`.
  function Share(part: nat, amount: nat, whole: nat): nat
    requires whole > 0
  {
    part * amount / whole
  }

  function Shares(parts: seq<nat>, amount: nat, whole: nat): seq<nat>
    requires whole > 0
  {
    seq(|parts|, k requires 0 <= k < |parts| => Share(parts[k], amount, whole))
  }

  lemma ShareBounds(part: nat, amount: nat, whole: nat)
    requires whole > 0
    ensures Share(part, amount, whole) * whole <= part * amount <= Share(part, amount, whole) * whole + (whole - 1)
  {}

  /// What the rounding loses over all the shares is less than one unit each.
  lemma {:induction false} SharesBounds(parts: seq<nat>, amount: nat, whole: nat)
    requires whole > 0
    ensures var s := Sum(Shares(parts, amount, whole));
            s * whole <= Sum(parts) * amount <= s * whole + |parts| * (whole - 1)
  {
    if parts != [] {
      var rest := parts[1..];
      assert Shares(parts, amount, whole)[1..] == Shares(rest, amount, whole);
      SharesBounds(rest, amount, whole);
      ShareBounds(parts[0], amount, whole);
      var s, first := Sum(Shares(rest, amount, whole)), Share(parts[0], amount, whole);
      assert Sum(Shares(parts, amount, whole)) == first + s;
      Distribute(first, s, whole);
      Distribute(parts[0], Sum(rest), amount);
      Distribute(1, |rest|, whole - 1);
    }
  }

  lemma Distribute(a: nat, b: nat, c: nat)
    ensures (a + b) * c == a * c + b * c
  {}

  lemma Order(a: nat, b: nat, w: nat)
    ensures a <= b ==> a * w <= b * w
    ensures a < b ==> a * w + w <= b * w
  {
    if a < b {
      Distribute(a, b - a, w);
      Distribute(1, b - a - 1, w);
    }
  }

  lemma SumOne(n: nat)
    ensures Sum([n]) == n
  {
    assert [n][1..] == [];
  }

  lemma {:induction false} SumConcat(a: seq<nat>, b: seq<nat>)
    ensures Sum(a + b) == Sum(a) + Sum(b)
  {
    if a == [] {
      assert a + b == b;
    } else {
      assert (a + b)[1..] == a[1..] + b;
      SumConcat(a[1..], b);
    }
  }

  /// The shares of all the parts of a whole never exceed the amount split ...
  lemma SharesNeverExceed(parts: seq<nat>, amount: nat, whole: nat)
    requires whole > 0 && Sum(parts) <= whole
    ensures Sum(Shares(parts, amount, whole)) <= amount
  {
    SharesBounds(parts, amount, whole);
    FitsIn(Sum(Shares(parts, amount, whole)), Sum(parts), amount, whole);
  }

  lemma FitsIn(s: nat, sum: nat, amount: nat, whole: nat)
    requires whole > 0 && sum <= whole && s * whole <= sum * amount
    ensures s <= amount
  {
    Order(sum, whole, amount);
    Order(amount, s, whole);
    assert whole * amount == amount * whole;
  }

  /// ... and fall short of it by less than one unit per part when the parts make up the whole.
  lemma SharesFallShortByLessThanOneEach(parts: seq<nat>, amount: nat)
    requires Sum(parts) > 0
    ensures amount < Sum(Shares(parts, amount, Sum(parts))) + |parts|
  {
    SharesBounds(parts, amount, Sum(parts));
    FallsShort(Sum(Shares(parts, amount, Sum(parts))), |parts|, amount, Sum(parts));
  }

  lemma FallsShort(s: nat, n: nat, amount: nat, whole: nat)
    requires whole > 0 && n > 0 && whole * amount <= s * whole + n * (whole - 1)
    ensures amount < s + n
  {
    Distribute(s, n, whole);
    Distribute(n, 0, whole);
    assert n * (whole - 1) == n * whole - n;
    assert whole * amount == amount * whole;
    Order(s + n, amount, whole);
  }

  /// All of the whole is all of the amount.
  lemma WholeShare(a: nat, h: nat)
    requires a > 0
    ensures Share(a, h, a) == h
  {
    ShareBounds(a, h, a);
    Order(Share(a, h, a), h, a);
    Order(h, Share(a, h, a), a);
    assert a * h == h * a;
  }
}
