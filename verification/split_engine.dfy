/** The split engine: dividing an expense amount among its participants by
    one of three policies, in exact cents. Percentages are whole hundredths
    of a percent, so `100.00%` is `10000`. */
module SplitEngine {
  import opened Results
  import opened Money
  import opened BalanceMaps

  datatype SplitType = Equal | Custom | Percentage

  /** One constructor per `ValueError` the engine raises. */
  datatype SplitError =
    | NonPositiveParticipants
    | NonPositiveAmount
    | SplitMismatch(total: int, difference: int)
    | NegativeCustomAmount
    | PercentageMismatch(total: int)
    | NegativePercentage
    | NoParticipants
    | MissingCustomAmounts
    | MissingPercentages

  /** 100.00 percent, in hundredths of a percent. */
  const FullPercentage := 10000

  /** The accepted deviation of a percentage total from 100.00: 0.01
      percentage points. */
  const PercentageTolerance := 1

  predicate NonNegative(s: seq<int>)
  {
    forall i :: 0 <= i < |s| ==> s[i] >= 0
  }

  // ---------------------------------------------------------------- equal

  /** The share every participant would get before the cent fix-ups. */
  function EqualBase(amount: int, n: int): int
    requires n > 0
  {
    RoundHalfEven(amount, n)
  }

  /** How many participants receive a one-cent fix-up: the rounding
      difference `amount - n * base`, counted in cents. */
  function EqualFixups(amount: int, n: int): nat
    requires n > 0
  {
    Abs(amount - n * EqualBase(amount, n))
  }

  /** The direction of the fix-up: a cent more when the base rounded down,
      a cent less when it rounded up. */
  function EqualFixupSign(amount: int, n: int): int
    requires n > 0
  {
    if amount - n * EqualBase(amount, n) > 0 then 1 else -1
  }

  /** The fix-up loop only touches existing shares: at most half of the
      participants are adjusted, since the base is within half a cent of the
      exact quotient. */
  lemma EqualFixupsFit(amount: int, n: int)
    requires n > 0
    ensures 2 * EqualFixups(amount, n) <= n
    ensures EqualFixups(amount, n) < n
  {
  }

  function SplitEqual(amount: int, n: int): (r: Result<seq<int>, SplitError>)
    ensures n <= 0 ==> r == Failure(NonPositiveParticipants)
    ensures n > 0 && amount <= 0 ==> r == Failure(NonPositiveAmount)
    ensures n > 0 && amount > 0 ==> r.Success? && |r.value| == n && Sum(r.value) == amount
    ensures r.Success? ==> NonNegative(r.value)
    ensures r.Success? ==> forall i :: 0 <= i < |r.value| ==> Abs(n * r.value[i] - amount) < n
  {
    if n <= 0 then Failure(NonPositiveParticipants)
    else if amount <= 0 then Failure(NonPositiveAmount)
    else
      EqualFixupsFit(amount, n);
      var base := EqualBase(amount, n);
      var k := EqualFixups(amount, n);
      var adjustment := EqualFixupSign(amount, n);
      EqualSharesFacts(amount, n);
      Success(Repeat(base + adjustment, k) + Repeat(base, n - k))
  }

  lemma EqualSharesFacts(amount: int, n: int)
    requires n > 0 && amount > 0
    ensures var base := EqualBase(amount, n);
            var k := EqualFixups(amount, n);
            var adjustment := EqualFixupSign(amount, n);
            && k <= n
            && Sum(Repeat(base + adjustment, k) + Repeat(base, n - k)) == amount
            && 0 <= base && (k > 0 ==> 0 <= base + adjustment)
            && Abs(n * base - amount) < n
            && (k > 0 ==> Abs(n * (base + adjustment) - amount) < n)
  {
    var base := EqualBase(amount, n);
    var k := EqualFixups(amount, n);
    var adjustment := EqualFixupSign(amount, n);
    EqualFixupsFit(amount, n);
    SumAppend(Repeat(base + adjustment, k), Repeat(base, n - k));
    SumRepeat(base + adjustment, k);
    SumRepeat(base, n - k);
    EqualSumCases(amount, n, base, k, adjustment);
    RoundHalfEvenNonNegative(amount, n);
    if amount - n * base < 0 {
      PositiveFactor(n, base);
    }
  }

  /** The arithmetic behind the equal split: `k` shares of `base + adj` and
      `n - k` of `base` add up to the amount, and each lies within one
      participant's worth of it. */
  lemma EqualSumCases(amount: int, n: int, base: int, k: nat, adjustment: int)
    requires n > 0 && 2 * k <= n
    requires k == Abs(amount - n * base)
    requires adjustment == if amount - n * base > 0 then 1 else -1
    ensures k * (base + adjustment) + (n - k) * base == amount
    ensures Abs(n * base - amount) < n
    ensures k > 0 ==> Abs(n * (base + adjustment) - amount) < n
  {
    var diff := amount - n * base;
    assert k * (base + adjustment) == k * base + k * adjustment;
    assert k * base + (n - k) * base == n * base;
    assert n * (base + adjustment) == n * base + n * adjustment;
    if diff > 0 {
      assert k * adjustment == diff;
    } else if diff < 0 {
      assert k * adjustment == diff;
    }
  }

  /** A positive product with a positive factor has a positive cofactor. */
  lemma PositiveFactor(n: int, b: int)
    requires n > 0 && n * b > 0
    ensures b > 0
  {
  }

  /** The order of an equal split is fixed: the adjusted shares come first,
      in input order, and the rest receive the rounded base. */
  lemma SplitEqualPrefixAdjusted(amount: int, n: int)
    requires n > 0 && amount > 0
    ensures var r := SplitEqual(amount, n).value;
            forall i :: 0 <= i < n ==>
              r[i] == EqualBase(amount, n) + (if i < EqualFixups(amount, n) then EqualFixupSign(amount, n) else 0)
  {
    EqualFixupsFit(amount, n);
    var base := EqualBase(amount, n);
    var k := EqualFixups(amount, n);
    var adjustment := EqualFixupSign(amount, n);
    var r := Repeat(base + adjustment, k) + Repeat(base, n - k);
    assert SplitEqual(amount, n).value == r;
    forall i | 0 <= i < n
      ensures r[i] == base + (if i < k then adjustment else 0)
    {
      if i >= k {
        assert r[i] == Repeat(base, n - k)[i - k];
      }
    }
  }

  /** Shares of an equal split differ by at most one cent. */
  lemma SplitEqualFair(amount: int, n: int, i: int, j: int)
    requires n > 0 && amount > 0
    requires 0 <= i < n && 0 <= j < n
    ensures -1 <= SplitEqual(amount, n).value[i] - SplitEqual(amount, n).value[j] <= 1
  {
    SplitEqualPrefixAdjusted(amount, n);
  }

  // --------------------------------------------------------------- custom

  function SplitCustom(amount: int, amounts: seq<int>): (r: Result<seq<int>, SplitError>)
    ensures Sum(amounts) != amount ==> r == Failure(SplitMismatch(Sum(amounts), amount - Sum(amounts)))
    ensures Sum(amounts) == amount && !NonNegative(amounts) ==> r == Failure(NegativeCustomAmount)
    ensures r.Success? <==> Sum(amounts) == amount && NonNegative(amounts)
    ensures r.Success? ==> r.value == amounts && Sum(r.value) == amount
  {
    var total := Sum(amounts);
    if total != amount then Failure(SplitMismatch(total, amount - total))
    else if exists i :: 0 <= i < |amounts| && amounts[i] < 0 then Failure(NegativeCustomAmount)
    else Success(amounts)
  }

  // ----------------------------------------------------------- percentage

  /** `(amount * pct / 100).quantize(Decimal('0.01'), ROUND_HALF_EVEN)` in
      cents and hundredths of a percent. */
  function PercentShare(amount: int, pct: int): int
  {
    RoundHalfEven(amount * pct, FullPercentage)
  }

  /** The shares before the remainder is assigned. */
  function RoundedShares(amount: int, pcts: seq<int>): (r: seq<int>)
    ensures |r| == |pcts|
    ensures forall i :: 0 <= i < |pcts| ==> r[i] == PercentShare(amount, pcts[i])
  {
    seq(|pcts|, i requires 0 <= i < |pcts| => PercentShare(amount, pcts[i]))
  }

  /** `s.index(max(s))`: the first position holding the largest value. */
  function FirstMaxIndex(s: seq<int>): (k: nat)
    requires |s| > 0
    ensures k < |s|
    ensures forall j :: 0 <= j < |s| ==> s[j] <= s[k]
    ensures forall j :: 0 <= j < k ==> s[j] < s[k]
  {
    if |s| == 1 then 0
    else
      var k := FirstMaxIndex(s[1..]) + 1;
      if s[0] >= s[k] then 0 else k
  }

  function SplitPercentage(amount: int, pcts: seq<int>): (r: Result<seq<int>, SplitError>)
    ensures Abs(Sum(pcts) - FullPercentage) > PercentageTolerance ==>
              r == Failure(PercentageMismatch(Sum(pcts)))
    ensures Abs(Sum(pcts) - FullPercentage) <= PercentageTolerance && !NonNegative(pcts) ==>
              r == Failure(NegativePercentage)
    ensures r.Success? <==> Abs(Sum(pcts) - FullPercentage) <= PercentageTolerance && NonNegative(pcts)
    ensures r.Success? ==> |pcts| > 0 && |r.value| == |pcts| && Sum(r.value) == amount
    ensures r.Success? ==>
              var rounded := RoundedShares(amount, pcts);
              var m := FirstMaxIndex(rounded);
              && r.value[m] == rounded[m] + (amount - Sum(rounded))
              && forall i :: 0 <= i < |pcts| && i != m ==> r.value[i] == PercentShare(amount, pcts[i])
    ensures r.Success? && Sum(RoundedShares(amount, pcts)) == amount ==>
              r.value == RoundedShares(amount, pcts)
  {
    var total := Sum(pcts);
    if Abs(total - FullPercentage) > PercentageTolerance then Failure(PercentageMismatch(total))
    else if exists i :: 0 <= i < |pcts| && pcts[i] < 0 then Failure(NegativePercentage)
    else
      var splits := RoundedShares(amount, pcts);
      var diff := amount - Sum(splits);
      if diff == 0 then Success(splits)
      else
        var m := FirstMaxIndex(splits);
        SumUpdate(splits, m, splits[m] + diff);
        Success(splits[m := splits[m] + diff])
  }

  // ------------------------------------------------------------- dispatch

  /** The per-participant amounts the chosen policy produces. */
  function PolicyShares(amount: int, kind: SplitType, n: nat,
                        custom: Option<seq<int>>, pcts: Option<seq<int>>): (r: Result<seq<int>, SplitError>)
    requires n > 0
    ensures kind == Custom && (custom.None? || |custom.value| != n) ==> r == Failure(MissingCustomAmounts)
    ensures kind == Percentage && (pcts.None? || |pcts.value| != n) ==> r == Failure(MissingPercentages)
    ensures kind == Equal ==> r == SplitEqual(amount, n)
    ensures kind == Custom && custom.Some? && |custom.value| == n ==> r == SplitCustom(amount, custom.value)
    ensures kind == Percentage && pcts.Some? && |pcts.value| == n ==> r == SplitPercentage(amount, pcts.value)
    ensures kind == Equal ==> (r.Success? <==> amount > 0)
    ensures kind == Custom && custom.Some? && |custom.value| == n ==>
              && (r.Success? <==> Sum(custom.value) == amount && NonNegative(custom.value))
              && (r.Success? ==> r.value == custom.value)
    ensures kind == Percentage && pcts.Some? && |pcts.value| == n ==>
              (r.Success? <==> Abs(Sum(pcts.value) - FullPercentage) <= PercentageTolerance && NonNegative(pcts.value))
    ensures r.Success? ==> |r.value| == n && Sum(r.value) == amount
  {
    match kind
    case Equal => SplitEqual(amount, n)
    case Custom =>
      if custom.None? || |custom.value| == 0 || |custom.value| != n then Failure(MissingCustomAmounts)
      else SplitCustom(amount, custom.value)
    case Percentage =>
      if pcts.None? || |pcts.value| == 0 || |pcts.value| != n then Failure(MissingPercentages)
      else SplitPercentage(amount, pcts.value)
  }

  /** `{user_id: share for user_id, share in zip(ids, shares)}`: items are
      assigned in order, so a repeated id keeps its first position and its
      last share. */
  function Zip(ids: seq<UserId>, shares: seq<int>): (r: BalanceMap)
    requires |ids| == |shares|
    ensures Distinct(r)
    ensures forall u :: u in Keys(r) <==> u in ids
  {
    if |ids| == 0 then []
    else
      var n := |ids| - 1;
      var m := Zip(ids[..n], shares[..n]);
      PutDistinct(m, ids[n], shares[n]);
      PutShape(m, ids[n], shares[n]);
      assert forall u :: u in ids <==> u in ids[..n] || u == ids[n];
      Put(m, ids[n], shares[n])
  }

  predicate NoDuplicates(ids: seq<UserId>)
  {
    forall i, j :: 0 <= i < j < |ids| ==> ids[i] != ids[j]
  }

  /** The share an id ends up with is the one paired with its last
      occurrence. */
  lemma {:induction false} ZipLastWins(ids: seq<UserId>, shares: seq<int>, i: int)
    requires |ids| == |shares| && 0 <= i < |ids|
    requires forall j :: i < j < |ids| ==> ids[j] != ids[i]
    ensures Get(Zip(ids, shares), ids[i]) == shares[i]
  {
    var n := |ids| - 1;
    GetPut(Zip(ids[..n], shares[..n]), ids[n], shares[n], ids[i]);
    if i < n {
      ZipLastWins(ids[..n], shares[..n], i);
    }
  }

  /** With distinct ids the mapping pairs the i-th id with the i-th share,
      in input order. */
  lemma {:induction false} ZipDistinct(ids: seq<UserId>, shares: seq<int>)
    requires |ids| == |shares| && NoDuplicates(ids)
    ensures |Zip(ids, shares)| == |ids|
    ensures forall i :: 0 <= i < |ids| ==> Zip(ids, shares)[i] == (ids[i], shares[i])
  {
    if |ids| > 0 {
      var n := |ids| - 1;
      assert NoDuplicates(ids[..n]);
      ZipDistinct(ids[..n], shares[..n]);
      var m := Zip(ids[..n], shares[..n]);
      assert ids[n] !in ids[..n];
      assert ids[n] !in Keys(m);
      PutShape(m, ids[n], shares[n]);
      var r := m + [(ids[n], shares[n])];
      assert Zip(ids, shares) == r;
      forall i | 0 <= i < |ids|
        ensures r[i] == (ids[i], shares[i])
      {
        if i < n {
          assert r[i] == m[i] == (ids[..n][i], shares[..n][i]);
        }
      }
    }
  }

  /** The mapping iterates in order of first occurrence: a repeated id
      keeps the position its first occurrence gave it. */
  lemma {:induction false} ZipOrder(ids: seq<UserId>, shares: seq<int>)
    requires |ids| == |shares|
    ensures KeySeq(Zip(ids, shares)) == AppendNew([], ids)
  {
    if |ids| > 0 {
      var n := |ids| - 1;
      var m := Zip(ids[..n], shares[..n]);
      ZipOrder(ids[..n], shares[..n]);
      PutKeySeq(m, ids[n], shares[n]);
      AppendNewSingle(AppendNew([], ids[..n]), ids[n]);
      AppendNewConcat([], ids[..n], [ids[n]]);
      assert ids[..n] + [ids[n]] == ids;
    } else {
      assert KeySeq([]) == [];
    }
  }

  lemma {:induction false} ZipTotal(ids: seq<UserId>, shares: seq<int>)
    requires |ids| == |shares| && NoDuplicates(ids)
    ensures Total(Zip(ids, shares)) == Sum(shares)
  {
    ZipDistinct(ids, shares);
    var r := Zip(ids, shares);
    assert Values(r) == shares;
    TotalIsSumOfValues(r);
  }

  /** `create_splits`: validates the participant list and policy parameters,
      computes the shares and keys them by participant id. */
  function CreateSplits(amount: int, kind: SplitType, ids: seq<UserId>,
                        custom: Option<seq<int>>, pcts: Option<seq<int>>): (r: Result<BalanceMap, SplitError>)
    ensures |ids| == 0 ==> r == Failure(NoParticipants)
    ensures |ids| > 0 ==> (r.Success? <==> PolicyShares(amount, kind, |ids|, custom, pcts).Success?)
    ensures |ids| > 0 && PolicyShares(amount, kind, |ids|, custom, pcts).Failure? ==>
              r == Failure(PolicyShares(amount, kind, |ids|, custom, pcts).error)
    ensures r.Success? ==> Distinct(r.value) && forall u :: u in Keys(r.value) <==> u in ids
    ensures r.Success? && NoDuplicates(ids) ==>
              var shares := PolicyShares(amount, kind, |ids|, custom, pcts).value;
              && |r.value| == |ids|
              && (forall i :: 0 <= i < |ids| ==> r.value[i] == (ids[i], shares[i]))
              && Total(r.value) == amount
  {
    if |ids| == 0 then Failure(NoParticipants)
    else
      var shares :- PolicyShares(amount, kind, |ids|, custom, pcts);
      assert NoDuplicates(ids) ==>
               && |Zip(ids, shares)| == |ids|
               && (forall i :: 0 <= i < |ids| ==> Zip(ids, shares)[i] == (ids[i], shares[i]))
               && Total(Zip(ids, shares)) == amount by {
        if NoDuplicates(ids) {
          ZipDistinct(ids, shares);
          ZipTotal(ids, shares);
        }
      }
      Success(Zip(ids, shares))
  }
}
