/** The arithmetic the engine borrows from Python and numpy: `sum`, `math.floor` of a
    true division, `math.ceil`, `numpy.argmax`, `range`. Floating point is modelled by
    exact reals. */
module Numerics {

  /** `sum(s)`. */
  function Sum(s: seq<real>): real {
    if s == [] then 0.0 else Sum(s[..|s| - 1]) + s[|s| - 1]
  }

  lemma {:induction false} SumScaled(s: seq<real>, t: seq<real>, f: real)
    requires |s| == |t| && f != 0.0
    requires forall i :: 0 <= i < |s| ==> t[i] == s[i] / f
    ensures Sum(t) == Sum(s) / f
  {
    if s != [] {
      SumScaled(s[..|s| - 1], t[..|t| - 1], f);
    }
  }

  /** Values divided by their own non-zero sum add up to 1. */
  lemma SharesSumToOne(s: seq<real>, t: seq<real>)
    requires |s| == |t| && Sum(s) != 0.0
    requires forall i :: 0 <= i < |s| ==> t[i] == s[i] / Sum(s)
    ensures Sum(t) == 1.0
  {
    var f := Sum(s);
    SumScaled(s, t, f);
    DivSelf(f);
  }

  /** Kept apart from the quantified facts above, where the solver does not find it. */
  lemma DivSelf(f: real)
    requires f != 0.0
    ensures f / f == 1.0
  {
  }

  lemma {:induction false} SumNonNegative(s: seq<real>)
    requires forall i :: 0 <= i < |s| ==> s[i] >= 0.0
    ensures Sum(s) >= 0.0
  {
    if s != [] {
      SumNonNegative(s[..|s| - 1]);
    }
  }

  lemma {:induction false} SumPositive(s: seq<real>)
    requires s != [] && forall i :: 0 <= i < |s| ==> s[i] > 0.0
    ensures Sum(s) > 0.0
  {
    var init := s[..|s| - 1];
    assert forall i :: 0 <= i < |init| ==> init[i] == s[i];
    SumNonNegative(init);
  }

  /** `cf[i]` after the prefix-sum loop: `nf[0] + ... + nf[i]`. */
  function PrefixSum(s: seq<real>, i: nat): real
    requires i < |s|
  {
    Sum(s[..i + 1])
  }

  /** Prefix sums of non-negative values never decrease. */
  lemma PrefixSumMonotone(s: seq<real>, i: nat, j: nat)
    requires i <= j < |s|
    requires forall k :: 0 <= k < |s| ==> s[k] >= 0.0
    ensures PrefixSum(s, i) <= PrefixSum(s, j)
    decreases j - i
  {
    if i < j {
      PrefixSumMonotone(s, i, j - 1);
      assert s[..j + 1][..j] == s[..j];
    }
  }

  lemma DivBetween(x: real, y: real, lo: real, hi: real)
    requires y > 0.0 && lo * y <= x < hi * y
    ensures lo <= x / y < hi
  {
    var d := x / y;
    assert d * y == x;
  }

  /** `math.floor(a / b)` for integers, on the exact quotient. */
  function FloorDiv(a: int, b: int): (q: int)
    requires b != 0
    ensures q as real <= a as real / b as real < q as real + 1.0
  {
    var n, d := if b > 0 then a else -a, if b > 0 then b else -b;
    var q := n / d;
    assert n == d * q + n % d && 0 <= n % d < d;
    assert q as real * d as real <= n as real < (q as real + 1.0) * d as real;
    DivBetween(n as real, d as real, q as real, q as real + 1.0);
    assert a as real / b as real == n as real / d as real;
    q
  }

  /** `math.ceil(x)`. */
  function Ceil(x: real): (c: int)
    ensures c as real - 1.0 < x <= c as real
  {
    -((-x).Floor)
  }

  /** `numpy.argmax(s)`: the first position of a maximum. */
  function ArgMax(s: seq<real>): (i: nat)
    requires s != []
    ensures i < |s|
    ensures forall j :: 0 <= j < |s| ==> s[j] <= s[i]
    ensures forall j :: 0 <= j < i ==> s[j] < s[i]
  {
    if |s| == 1 then 0
    else
      var k := ArgMax(s[..|s| - 1]);
      assert forall j :: 0 <= j < |s| - 1 ==> s[..|s| - 1][j] == s[j];
      if s[|s| - 1] > s[k] then |s| - 1 else k
  }

  /** `range(lo, hi)` as a list. */
  function Range(lo: int, hi: int): (r: seq<int>)
    ensures |r| == if lo <= hi then hi - lo else 0
    ensures forall i :: 0 <= i < |r| ==> r[i] == lo + i
  {
    if lo < hi then seq(hi - lo, i => lo + i) else []
  }
}
