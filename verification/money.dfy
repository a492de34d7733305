/** Exact fixed-point money. Amounts are whole cents (`int`), so the
    two-decimal `Decimal` arithmetic of the ledger becomes integer
    arithmetic, and quantizing a quotient to 0.01 becomes rounding a
    rational number of cents to an integer. */
module Money {

  function Abs(x: int): (r: nat)
    ensures r == x || r == -x
  {
    if x < 0 then -x else x
  }

  /** Python's `sum(...)` over a list of amounts. */
  function Sum(s: seq<int>): int
  {
    if |s| == 0 then 0 else s[0] + Sum(s[1..])
  }

  lemma {:induction false} SumAppend(a: seq<int>, b: seq<int>)
    ensures Sum(a + b) == Sum(a) + Sum(b)
  {
    if |a| == 0 {
      assert a + b == b;
    } else {
      assert (a + b)[1..] == a[1..] + b;
      SumAppend(a[1..], b);
    }
  }

  /** Replacing one entry changes the sum by exactly the change of that entry. */
  lemma {:induction false} SumUpdate(s: seq<int>, i: int, v: int)
    requires 0 <= i < |s|
    ensures Sum(s[i := v]) == Sum(s) - s[i] + v
  {
    if i == 0 {
      assert s[i := v][1..] == s[1..];
    } else {
      assert s[i := v][1..] == s[1..][i - 1 := v];
      SumUpdate(s[1..], i - 1, v);
    }
  }

  /** Python's `[v] * n`. */
  function Repeat(v: int, n: nat): (r: seq<int>)
    ensures |r| == n
    ensures forall i :: 0 <= i < n ==> r[i] == v
  {
    if n == 0 then [] else [v] + Repeat(v, n - 1)
  }

  lemma {:induction false} SumRepeat(v: int, n: nat)
    ensures Sum(Repeat(v, n)) == n * v
  {
    if n > 0 {
      assert Repeat(v, n)[1..] == Repeat(v, n - 1);
      SumRepeat(v, n - 1);
    }
  }

  /** `x` lies within half a denominator of `d * r`: `r` is a nearest
      integer to the rational `x / d`. */
  predicate Nearest(x: int, d: int, r: int)
  {
    2 * Abs(x - d * r) <= d
  }

  /** The rounding `Decimal.quantize(Decimal('0.01'), ROUND_HALF_EVEN)`
      applies to a quotient of cents: the nearest integer to `x / d`, and on
      an exact tie the even one. Dafny's `/` and `%` are Euclidean, so for
      `d > 0` the quotient below is the floor and the remainder lies in
      `[0, d)`; the tie rule makes the result symmetric in the sign of `x`. */
  function RoundHalfEven(x: int, d: int): (r: int)
    requires d > 0
    ensures Nearest(x, d, r)
    ensures 2 * Abs(x - d * r) == d ==> r % 2 == 0
  {
    var q := x / d;
    var m := x % d;
    assert x - d * (q + 1) == m - d;
    if 2 * m < d then q
    else if 2 * m > d then q + 1
    else if q % 2 == 0 then q
    else q + 1
  }

  /** Two integers that are both within `d / 2` of `x / d` differ by at
      most one. */
  lemma NearestClose(x: int, d: int, r1: int, r2: int)
    requires d > 0 && Nearest(x, d, r1) && Nearest(x, d, r2)
    ensures -1 <= r1 - r2 <= 1
  {
    assert d * r1 - d * r2 == d * (r1 - r2);
    ScaleAtLeastTwo(d, r1 - r2);
    ScaleAtLeastTwo(d, r2 - r1);
    assert d * r2 - d * r1 == d * (r2 - r1);
  }

  lemma ScaleAtLeastTwo(d: int, t: int)
    requires d > 0
    ensures t >= 2 ==> d * t >= 2 * d
  {
    if t >= 2 {
      assert d * t == 2 * d + d * (t - 2);
    }
  }

  /** When two consecutive integers are both nearest to `x / d`, the
      quotient sits exactly halfway between them. */
  lemma NeighboursTie(x: int, d: int, lo: int)
    requires d > 0
    ensures Nearest(x, d, lo) && Nearest(x, d, lo + 1) ==>
              2 * Abs(x - d * lo) == d && 2 * Abs(x - d * (lo + 1)) == d
  {
    assert d * (lo + 1) == d * lo + d;
  }

  /** The rounding rule singles out one integer: any nearest integer that is
      even on a tie is the value `RoundHalfEven` computes. */
  lemma {:induction false} RoundHalfEvenUnique(x: int, d: int, r: int)
    requires d > 0
    requires Nearest(x, d, r)
    requires 2 * Abs(x - d * r) == d ==> r % 2 == 0
    ensures r == RoundHalfEven(x, d)
  {
    var e := RoundHalfEven(x, d);
    NearestClose(x, d, r, e);
    NeighboursTie(x, d, e);
    NeighboursTie(x, d, r);
  }

  /** Rounding is symmetric: a negative quotient rounds to the negation of
      its magnitude's rounding, as `Decimal` does. */
  lemma RoundHalfEvenSymmetric(x: int, d: int)
    requires d > 0
    ensures RoundHalfEven(-x, d) == -RoundHalfEven(x, d)
  {
    var r := RoundHalfEven(x, d);
    assert -x - d * (-r) == -(x - d * r);
    RoundHalfEvenUnique(-x, d, -r);
  }

  /** An exact quotient is left unchanged. */
  lemma RoundHalfEvenExact(q: int, d: int)
    requires d > 0
    ensures RoundHalfEven(d * q, d) == q
  {
    assert d * q - d * q == 0;
    RoundHalfEvenUnique(d * q, d, q);
  }

  /** A non-negative quotient never rounds below zero. */
  lemma RoundHalfEvenNonNegative(x: int, d: int)
    requires d > 0 && x >= 0
    ensures RoundHalfEven(x, d) >= 0
  {
  }
}
