/** Concrete cases from the ledger's unit tests, in cents, proved about the
    model. */
module Scenarios {
  import opened Results
  import opened Money
  import opened BalanceMaps
  import opened SplitEngine
  import opened GroupBalances
  import opened DebtSimplifier

  /** 10.00 split three ways gives the extra cent to the first participant. */
  lemma EqualSplitTenDollarsThreeWays()
    ensures SplitEqual(1000, 3) == Success([334, 333, 333])
  {
    assert EqualBase(1000, 3) == 333;
    assert EqualFixups(1000, 3) == 1;
    assert EqualFixupSign(1000, 3) == 1;
    assert Repeat(334, 1) == [334];
    assert Repeat(333, 2) == [333, 333];
    assert Repeat(334, 1) + Repeat(333, 2) == [334, 333, 333];
  }

  /** A single cent among two or more participants: the first gets it, the
      others get nothing, and no share is negative. */
  lemma EqualSplitOneCent(n: int)
    requires n >= 2
    ensures SplitEqual(1, n) == Success([1] + Repeat(0, n - 1))
  {
    OneCentFixup(n);
    assert Repeat(1, 1) == [1];
  }

  /** A cent among n >= 2 rounds to a base of zero, leaving one fix-up of
      plus one cent. */
  lemma OneCentFixup(n: int)
    requires n >= 2
    ensures EqualBase(1, n) == 0 && EqualFixups(1, n) == 1 && EqualFixupSign(1, n) == 1
  {
    assert RoundHalfEven(1, n) == 0 by {
      assert n * 0 == 0;
      RoundHalfEvenUnique(1, n, 0);
    }
  }

  /** 1234.56 among seven: every share is 176.36 or 176.37. */
  lemma EqualSplitLargeAmount(s: seq<int>)
    requires SplitEqual(123456, 7) == Success(s)
    ensures |s| == 7 && Sum(s) == 123456
    ensures forall i :: 0 <= i < |s| ==> 17636 <= s[i] <= 17637
  {
  }

  /** The participant count is checked before the amount. */
  lemma EqualSplitErrorOrder()
    ensures SplitEqual(0, 0) == Failure(NonPositiveParticipants)
    ensures SplitEqual(1000, -1) == Failure(NonPositiveParticipants)
    ensures SplitEqual(0, 3) == Failure(NonPositiveAmount)
    ensures SplitEqual(-500, 3) == Failure(NonPositiveAmount)
  {
  }

  /** A custom split is returned unchanged when exact; a short one reports
      its sum and the difference, before any negative entry is looked at. */
  lemma CustomSplitCases()
    ensures SplitCustom(10000, [5000, 3000, 2000]) == Success([5000, 3000, 2000])
    ensures SplitCustom(10000, [5000, 3000, 1500]) == Failure(SplitMismatch(9500, 500))
    ensures SplitCustom(100, [200, -50]) == Failure(SplitMismatch(150, -50))
    ensures SplitCustom(100, [150, -50]) == Failure(NegativeCustomAmount)
  {
    assert Sum([5000, 3000, 2000]) == 10000 by { SumThree(5000, 3000, 2000); }
    assert Sum([5000, 3000, 1500]) == 9500 by { SumThree(5000, 3000, 1500); }
    assert Sum([200, -50]) == 150 by { SumTwo(200, -50); }
    assert Sum([150, -50]) == 100 by { SumTwo(150, -50); }
  }

  lemma SumTwo(a: int, b: int)
    ensures Sum([a, b]) == a + b
  {
    assert [b][1..] == [];
    assert Sum([b]) == b;
    assert [a, b][1..] == [b];
  }

  lemma SumThree(a: int, b: int, c: int)
    ensures Sum([a, b, c]) == a + b + c
  {
    assert [a, b, c][1..] == [b, c];
    SumTwo(b, c);
  }

  /** Whole percentages of a whole amount split exactly. */
  lemma PercentageSplitExact()
    ensures SplitPercentage(10000, [5000, 3000, 2000]) == Success([5000, 3000, 2000])
  {
    SumThree(5000, 3000, 2000);
    assert PercentShare(10000, 5000) == 5000 by { RoundHalfEvenExact(5000, 10000); }
    assert PercentShare(10000, 3000) == 3000 by { RoundHalfEvenExact(3000, 10000); }
    assert PercentShare(10000, 2000) == 2000 by { RoundHalfEvenExact(2000, 10000); }
    assert RoundedShares(10000, [5000, 3000, 2000]) == [5000, 3000, 2000];
  }

  /** Thirds of 100% that do not divide evenly still split 100.00 exactly,
      with no adjustment. */
  lemma PercentageSplitUnevenThirds()
    ensures SplitPercentage(10000, [3333, 3333, 3334]) == Success([3333, 3333, 3334])
  {
    SumThree(3333, 3333, 3334);
    assert PercentShare(10000, 3333) == 3333 by { RoundHalfEvenExact(3333, 10000); }
    assert PercentShare(10000, 3334) == 3334 by { RoundHalfEvenExact(3334, 10000); }
    assert RoundedShares(10000, [3333, 3333, 3334]) == [3333, 3333, 3334];
  }

  /** A total 0.01% over 100% is accepted, and the surplus cent is taken
      from the first largest share. */
  lemma PercentageSplitWithinTolerance()
    ensures SplitPercentage(10000, [5001, 5000]) == Success([5000, 5000])
  {
    SumTwo(5001, 5000);
    assert PercentShare(10000, 5001) == 5001 by { RoundHalfEvenExact(5001, 10000); }
    assert PercentShare(10000, 5000) == 5000 by { RoundHalfEvenExact(5000, 10000); }
    var rounded := RoundedShares(10000, [5001, 5000]);
    assert rounded == [5001, 5000];
    assert FirstMaxIndex(rounded) == 0 by { assert rounded[1..] == [5000]; }
    assert rounded[0 := 5000] == [5000, 5000];
  }

  /** A total 0.02% over is rejected; a negative percentage is rejected once
      the total is acceptable. */
  lemma PercentageSplitErrors()
    ensures SplitPercentage(10000, [5002, 5000]) == Failure(PercentageMismatch(10002))
    ensures SplitPercentage(10000, [10100, -100]) == Failure(NegativePercentage)
  {
    SumTwo(5002, 5000);
    SumTwo(10100, -100);
  }

  /** A whole number of cents per participant leaves no fix-up. */
  lemma EqualSplitExact(q: int, n: int)
    requires q > 0 && n > 0
    ensures SplitEqual(n * q, n) == Success(Repeat(q, n))
  {
    assert EqualBase(n * q, n) == q by { RoundHalfEvenExact(q, n); }
    assert EqualFixups(n * q, n) == 0;
    assert Repeat(q + EqualFixupSign(n * q, n), 0) == [];
    assert Repeat(q + EqualFixupSign(n * q, n), 0) + Repeat(q, n) == Repeat(q, n);
  }

  /** 99.99 among three distinct users maps each of them to 33.33, in
      participant order. */
  lemma CreateSplitsThreeUsers(a: UserId, b: UserId, c: UserId)
    requires a != b && a != c && b != c
    ensures CreateSplits(9999, Equal, [a, b, c], None, None)
            == Success([(a, 3333), (b, 3333), (c, 3333)])
  {
    EqualSplitExact(3333, 3);
    assert Repeat(3333, 3) == [3333, 3333, 3333];
    var ids := [a, b, c];
    var shares := [3333, 3333, 3333];
    ZipDistinct(ids, shares);
    assert Zip(ids, shares) == [(a, 3333), (b, 3333), (c, 3333)];
  }

  /** A repeated id keeps its first position and the share of its last
      occurrence, so 10.00 among [a, b, a] keeps only 6.66 of it. */
  lemma CreateSplitsRepeatedId(a: UserId, b: UserId)
    requires a != b
    ensures CreateSplits(1000, Equal, [a, b, a], None, None) == Success([(a, 333), (b, 333)])
  {
    EqualSplitTenDollarsThreeWays();
    var ids := [a, b, a];
    var shares := [334, 333, 333];
    assert !NoDuplicates(ids) by { assert ids[0] == ids[2]; }
    ZipDistinct(ids[..2], shares[..2]);
    var m := Zip(ids[..2], shares[..2]);
    assert m == [(a, 334), (b, 333)];
    assert Zip(ids, shares) == Put(m, a, 333);
    assert Put(m, a, 333) == [(a, 333), (b, 333)];
  }

  /** An empty participant list, and a custom or percentage split whose list
      is absent, empty or of the wrong length, each report their own error. */
  lemma CreateSplitsErrors(a: UserId, b: UserId)
    ensures CreateSplits(1000, Equal, [], None, None) == Failure(NoParticipants)
    ensures CreateSplits(1000, Custom, [a, b], None, None) == Failure(MissingCustomAmounts)
    ensures CreateSplits(1000, Custom, [a, b], Some([1000]), None) == Failure(MissingCustomAmounts)
    ensures CreateSplits(1000, Percentage, [a, b], None, Some([])) == Failure(MissingPercentages)
  {
  }

  /** Called directly with five participants, the percentage split can give
      the first participant a negative share: 0.03 at 20% each rounds every
      share to 0.01, and the whole surplus of 0.02 comes off the first. */
  lemma PercentageSplitNegativeShare(pcts: seq<int>)
    requires pcts == [2000, 2000, 2000, 2000, 2000]
    ensures SplitPercentage(3, pcts) == Success([-1, 1, 1, 1, 1])
  {
    FiveFifths(pcts);
    SurplusOnFirstOfEqualShares(3, pcts);
    var r := SplitPercentage(3, pcts).value;
    assert r == [-1, 1, 1, 1, 1];
  }

  lemma FiveFifths(pcts: seq<int>)
    requires pcts == [2000, 2000, 2000, 2000, 2000]
    ensures Abs(Sum(pcts) - FullPercentage) <= PercentageTolerance && NonNegative(pcts)
    ensures forall i :: 0 <= i < |pcts| ==> PercentShare(3, pcts[i]) == 1
    ensures Sum(RoundedShares(3, pcts)) == 5
  {
    FifthsOfThreeCents();
    SumFive(2000, 2000, 2000, 2000, 2000);
    SumFive(1, 1, 1, 1, 1);
  }

  /** When every percentage rounds to the same share, the first participant
      takes the whole surplus. */
  lemma SurplusOnFirstOfEqualShares(amount: int, pcts: seq<int>)
    requires |pcts| > 0 && Abs(Sum(pcts) - FullPercentage) <= PercentageTolerance && NonNegative(pcts)
    requires forall i :: 0 <= i < |pcts| ==> PercentShare(amount, pcts[i]) == PercentShare(amount, pcts[0])
    ensures SplitPercentage(amount, pcts).Success?
    ensures var r := SplitPercentage(amount, pcts).value;
            && |r| == |pcts|
            && r[0] == PercentShare(amount, pcts[0]) + (amount - Sum(RoundedShares(amount, pcts)))
            && forall i :: 1 <= i < |pcts| ==> r[i] == PercentShare(amount, pcts[i])
  {
    var rounded := RoundedShares(amount, pcts);
    assert FirstMaxIndex(rounded) == 0;
  }

  /** 20% of 0.03 is 0.006, which rounds to a whole cent. */
  lemma FifthsOfThreeCents()
    ensures RoundedShares(3, [2000, 2000, 2000, 2000, 2000]) == [1, 1, 1, 1, 1]
  {
    assert PercentShare(3, 2000) == 1 by {
      assert RoundHalfEven(6000, FullPercentage) == 1 by {
        RoundHalfEvenUnique(6000, FullPercentage, 1);
      }
    }
  }

  lemma SumFive(a: int, b: int, c: int, d: int, e: int)
    ensures Sum([a, b, c, d, e]) == a + b + c + d + e
  {
    assert [a, b, c, d, e][1..] == [b, c, d, e];
    assert [b, c, d, e][1..] == [c, d, e];
    SumThree(c, d, e);
  }

  /** Alice pays 100.00 split evenly with Bob. */
  lemma OneExpenseBalances()
    ensures CalculateGroupBalances(
              [ExpenseRecord("alice", 10000, [SplitLine("alice", 5000), SplitLine("bob", 5000)])], [])
            == [("alice", 5000), ("bob", -5000)]
  {
    var lines := [SplitLine("alice", 5000), SplitLine("bob", 5000)];
    var es := [ExpenseRecord("alice", 10000, lines)];
    assert Add([], "alice", 10000) == [("alice", 10000)];
    assert Add([("alice", 10000)], "alice", -5000) == [("alice", 5000)];
    assert Add([("alice", 5000)], "bob", -5000) == [("alice", 5000), ("bob", -5000)] by {
      assert "bob" !in Keys([("alice", 5000)]);
    }
    assert ApplySplits([("alice", 5000), ("bob", -5000)], lines[1..][1..]) == [("alice", 5000), ("bob", -5000)];
    assert ApplyExpenses([], es) == ApplyExpenses([("alice", 5000), ("bob", -5000)], es[1..]);
  }

  /** Dinner for three paid by Alice and a movie for two paid by Bob. */
  predicate DinnerAndMovie(es: seq<ExpenseRecord>, a: UserId, b: UserId, c: UserId)
  {
    es == [ExpenseRecord(a, 12000, [SplitLine(a, 4000), SplitLine(b, 4000), SplitLine(c, 4000)]),
           ExpenseRecord(b, 6000, [SplitLine(b, 3000), SplitLine(c, 3000)])]
  }

  /** Alice ends at +80.00, Bob at -10.00 and Charlie at -70.00, and the
      balances pass the zero-sum check. */
  lemma TwoExpensesBalances(es: seq<ExpenseRecord>, a: UserId, b: UserId, c: UserId)
    requires a != b && a != c && b != c && DinnerAndMovie(es, a, b, c)
    ensures Get(CalculateGroupBalances(es, []), a) == 8000
    ensures Get(CalculateGroupBalances(es, []), b) == -1000
    ensures Get(CalculateGroupBalances(es, []), c) == -7000
    ensures VerifyZeroSum(CalculateGroupBalances(es, []), ZeroSumTolerance)
  {
    DinnerAndMovieNet(es, a, b, c);
    BalancesMatchNetPosition(es, [], a);
    BalancesMatchNetPosition(es, [], b);
    BalancesMatchNetPosition(es, [], c);
    assert WellFormedExpenses(es) by {
      SplitLinesThree(es[0].splits[0], es[0].splits[1], es[0].splits[2], a);
      SplitLinesTwo(es[1].splits[0], es[1].splits[1], a);
    }
    ZeroSumInvariant(es, [], ZeroSumTolerance);
  }

  lemma DinnerAndMovieNet(es: seq<ExpenseRecord>, a: UserId, b: UserId, c: UserId)
    requires a != b && a != c && b != c && DinnerAndMovie(es, a, b, c)
    ensures NetPosition(es, [], a) == 8000
    ensures NetPosition(es, [], b) == -1000
    ensures NetPosition(es, [], c) == -7000
  {
    var l0 := es[0].splits;
    var l1 := es[1].splits;
    assert l0 == [l0[0], l0[1], l0[2]];
    assert l1 == [l1[0], l1[1]];
    TwoExpenses(es, a);
    TwoExpenses(es, b);
    TwoExpenses(es, c);
    SplitLinesThree(l0[0], l0[1], l0[2], a);
    SplitLinesThree(l0[0], l0[1], l0[2], b);
    SplitLinesThree(l0[0], l0[1], l0[2], c);
    SplitLinesTwo(l1[0], l1[1], a);
    SplitLinesTwo(l1[0], l1[1], b);
    SplitLinesTwo(l1[0], l1[1], c);
  }

  lemma TwoExpenses(es: seq<ExpenseRecord>, u: UserId)
    requires |es| == 2
    ensures AmountPaid(es, u) == (if es[0].paidBy == u then es[0].amount else 0)
                                 + (if es[1].paidBy == u then es[1].amount else 0)
    ensures AmountOwed(es, u) == OwedBy(es[0].splits, u) + OwedBy(es[1].splits, u)
  {
    assert es[1..] == [es[1]];
    assert es[1..][1..] == [];
    assert AmountPaid(es[1..], u) == (if es[1].paidBy == u then es[1].amount else 0) + AmountPaid([], u);
    assert AmountOwed(es[1..], u) == OwedBy(es[1].splits, u) + AmountOwed([], u);
  }

  lemma SplitLinesTwo(x: SplitLine, y: SplitLine, u: UserId)
    ensures OwedBy([x, y], u) == LineOwed(x, u) + LineOwed(y, u)
    ensures SplitsTotal([x, y]) == x.amount + y.amount
  {
    assert [x, y][1..] == [y];
    assert [y][1..] == [];
    assert OwedBy([y], u) == LineOwed(y, u) + OwedBy([], u);
    assert OwedBy([x, y], u) == LineOwed(x, u) + OwedBy([y], u);
    assert SplitsTotal([y]) == y.amount + SplitsTotal([]);
  }

  lemma SplitLinesThree(x: SplitLine, y: SplitLine, z: SplitLine, u: UserId)
    ensures OwedBy([x, y, z], u) == LineOwed(x, u) + LineOwed(y, u) + LineOwed(z, u)
    ensures SplitsTotal([x, y, z]) == x.amount + y.amount + z.amount
  {
    assert [x, y, z][1..] == [y, z];
    SplitLinesTwo(y, z, u);
    assert OwedBy([x, y, z], u) == LineOwed(x, u) + OwedBy([y, z], u);
  }

  /** A settlement is counted as received by its receiver and made by its
      payer: Bob paying Alice 20.00 takes 20.00 from Bob's balance and adds
      it to Alice's. */
  lemma SettlementBalances()
    ensures CalculateGroupBalances(
              [ExpenseRecord("alice", 10000, [SplitLine("alice", 5000), SplitLine("bob", 5000)])],
              [SettlementRecord("bob", "alice", 2000)])
            == [("alice", 7000), ("bob", -7000)]
  {
    OneExpenseBalances();
    var m: BalanceMap := [("alice", 5000), ("bob", -5000)];
    var ss := [SettlementRecord("bob", "alice", 2000)];
    assert Add(m, "bob", -2000) == [("alice", 5000), ("bob", -7000)] by {
      assert m[1..] == [("bob", -5000)];
    }
    assert Add([("alice", 5000), ("bob", -7000)], "alice", 2000) == [("alice", 7000), ("bob", -7000)];
    assert ApplySettlements(m, ss) == ApplySettlements([("alice", 7000), ("bob", -7000)], ss[1..]);
  }

  /** The zero-sum check passes for a complete map and fails when a
      participant is missing. */
  lemma ZeroSumCases()
    ensures VerifyZeroSum([("Alice", 5000), ("Bob", -3000), ("Charlie", -2000)], ZeroSumTolerance)
    ensures !VerifyZeroSum([("Alice", 5000), ("Bob", -3000)], ZeroSumTolerance)
    ensures VerifyZeroSum([("Alice", 1), ("Bob", 0)], ZeroSumTolerance)
  {
  }

  /** Sorting a list that is already in descending order of magnitude
      leaves it unchanged. */
  lemma SortTwo(p: Party, q: Party)
    requires p.1 >= q.1
    ensures SortDescending([p, q]) == [p, q]
  {
    assert [p, q][1..] == [q];
    assert SortDescending([q]) == [q] by {
      assert [q][1..] == [];
    }
    assert Insert(p, [q]) == [p, q];
  }

  lemma SortOne(p: Party)
    ensures SortDescending([p]) == [p]
  {
    assert [p][1..] == [];
  }

  /** Alice is owed 50.00 by Bob (30.00) and Charlie (20.00). */
  lemma SimplifyThreeUsers()
    ensures Simplify([("Alice", 5000), ("Bob", -3000), ("Charlie", -2000)])
            == [Transfer("Bob", "Alice", 3000), Transfer("Charlie", "Alice", 2000)]
  {
    var m: BalanceMap := [("Alice", 5000), ("Bob", -3000), ("Charlie", -2000)];
    var ds: seq<Party> := [("Bob", 3000), ("Charlie", 2000)];
    var cs: seq<Party> := [("Alice", 5000)];
    ThreeUsersDebtors();
    ThreeUsersCreditors();
    SortTwo(ds[0], ds[1]);
    SortOne(cs[0]);
    ThreeUsersSettle();
  }

  lemma ThreeUsersDebtors()
    ensures Debtors([("Alice", 5000), ("Bob", -3000), ("Charlie", -2000)]) == [("Bob", 3000), ("Charlie", 2000)]
  {
    var m: BalanceMap := [("Alice", 5000), ("Bob", -3000), ("Charlie", -2000)];
    assert m[1..][1..] == [("Charlie", -2000)];
    assert m[1..][1..][1..] == [];
    assert Debtors(m[1..][1..]) == [("Charlie", 2000)];
  }

  lemma ThreeUsersCreditors()
    ensures Creditors([("Alice", 5000), ("Bob", -3000), ("Charlie", -2000)]) == [("Alice", 5000)]
  {
    var m: BalanceMap := [("Alice", 5000), ("Bob", -3000), ("Charlie", -2000)];
    assert m[1..][1..] == [("Charlie", -2000)];
    assert m[1..][1..][1..] == [];
    assert Creditors(m[1..][1..]) == [];
  }

  lemma ThreeUsersSettle()
    ensures Settle([("Bob", 3000), ("Charlie", 2000)], [("Alice", 5000)])
            == [Transfer("Bob", "Alice", 3000), Transfer("Charlie", "Alice", 2000)]
  {
    var ds: seq<Party> := [("Bob", 3000), ("Charlie", 2000)];
    var cs: seq<Party> := [("Alice", 5000)];
    assert AfterPaying(ds, 3000) == [("Charlie", 2000)];
    assert AfterPaying(cs, 3000) == [("Alice", 2000)];
    assert Settle([("Charlie", 2000)], [("Alice", 2000)]) == [Transfer("Charlie", "Alice", 2000)] by {
      assert AfterPaying([("Charlie", 2000)], 2000) == [];
      assert AfterPaying([("Alice", 2000)], 2000) == [];
    }
  }

  /** Balances of exactly one cent are left alone. */
  lemma SimplifyLeavesStrayCents(a: UserId, b: UserId)
    ensures Simplify([(a, 1), (b, -1)]) == []
  {
    SimplifyAllSettled([(a, 1), (b, -1)]);
  }

  /** Stray cents can strand a debt: three users owed 0.01 each and one
      owing 0.03 sum to zero, yet nobody is a creditor, so no transfer is
      made and the debtor still owes 0.03 afterwards. */
  lemma SimplifyStrandsDebtor(m: BalanceMap, a: UserId, b: UserId, c: UserId, d: UserId)
    requires d != a && d != b && d != c
    requires m == [(a, 1), (b, 1), (c, 1), (d, -3)]
    ensures Total(m) == 0
    ensures Simplify(m) == []
    ensures Get(ApplyTransfers(m, Simplify(m)), d) == -3
  {
    StrandedTotal(m);
    NoCreditors(m);
    SimplifyCount(m);
    StrandedGet(m, d);
  }

  lemma StrandedTotal(m: BalanceMap)
    requires |m| == 4 && m[0].1 == 1 && m[1].1 == 1 && m[2].1 == 1 && m[3].1 == -3
    ensures Total(m) == 0
  {
    var t1, t2, t3 := m[1..], m[2..], m[3..];
    assert t1[1..] == t2 && t2[1..] == t3 && t3[1..] == [];
    assert Total(t3) == -3;
    assert Total(t2) == -2;
    assert Total(t1) == -1;
  }

  lemma StrandedGet(m: BalanceMap, d: UserId)
    requires |m| == 4 && m[0].0 != d && m[1].0 != d && m[2].0 != d && m[3] == (d, -3)
    ensures Get(m, d) == -3
  {
    var t1, t2, t3 := m[1..], m[2..], m[3..];
    assert t1[1..] == t2 && t2[1..] == t3 && t3 == [m[3]];
    assert Get(t3, d) == -3;
    assert Get(t2, d) == -3;
    assert Get(t1, d) == -3;
  }

  /** Nobody more than a cent in credit means no creditors. */
  lemma {:induction false} NoCreditors(m: BalanceMap)
    requires forall i :: 0 <= i < |m| ==> m[i].1 <= Tolerance
    ensures Creditors(m) == []
  {
    if |m| > 0 {
      NoCreditors(m[1..]);
    }
  }

  /** An all-zero map needs no transfers. */
  lemma SimplifyAlreadyBalanced(a: UserId, b: UserId, c: UserId)
    ensures Simplify([(a, 0), (b, 0), (c, 0)]) == []
  {
    SimplifyAllSettled([(a, 0), (b, 0), (c, 0)]);
  }
}
