/** The sign of a recorded settlement. A settlement is a debtor paying back
    a creditor, and a positive balance means the group owes the user, so
    paying back should raise the payer's balance and lower the receiver's,
    which is how the simplifier's transfers are applied. The aggregator does
    the opposite. This module states both: what recording the simplifier's
    own transfers does under the aggregator as written, and the corrected
    repayment with the settling property it was meant to have. */
module SettlementSign {
  import opened Money
  import opened BalanceMaps
  import opened GroupBalances
  import opened DebtSimplifier

  /** The settlement rows a group would record after carrying out the
      transfers: the sender is the payer, the recipient the receiver. */
  function AsSettlements(ts: seq<Transfer>): seq<SettlementRecord>
  {
    if |ts| == 0 then [] else [SettlementRecord(ts[0].from, ts[0].to, ts[0].amount)] + AsSettlements(ts[1..])
  }

  lemma {:induction false} SettlementsMadeAs(ts: seq<Transfer>, u: UserId)
    ensures SettlementsMade(AsSettlements(ts), u) == SentBy(ts, u)
  {
    if |ts| > 0 {
      SettlementsMadeAs(ts[1..], u);
    }
  }

  lemma {:induction false} SettlementsReceivedAs(ts: seq<Transfer>, u: UserId)
    ensures SettlementsReceived(AsSettlements(ts), u) == ReceivedBy(ts, u)
  {
    if |ts| > 0 {
      SettlementsReceivedAs(ts[1..], u);
    }
  }

  // ---------------------------------------------------------- as written

  /** Recording transfers as settlements moves every user by the negation
      of what carrying out the same transfers does to them. */
  lemma RecordedTransfersMoveOpposite(m: BalanceMap, ts: seq<Transfer>, u: UserId)
    ensures Get(ApplySettlements(m, AsSettlements(ts)), u) - Get(m, u) == Get(m, u) - Get(ApplyTransfers(m, ts), u)
  {
    ApplySettlementsGet(m, AsSettlements(ts), u);
    ApplyTransfersGet(m, ts, u);
    SettlementsMadeAs(ts, u);
    SettlementsReceivedAs(ts, u);
  }

  /** Recording the simplifier's plan for a zero-sum map doubles every
      balance instead of clearing it. */
  lemma RecordedSettlementsDoubleBalances(m: BalanceMap, u: UserId)
    requires Distinct(m) && NoStrayCents(m) && Total(m) == 0
    ensures Get(ApplySettlements(m, AsSettlements(Simplify(m))), u) == 2 * Get(m, u)
  {
    RecordedTransfersMoveOpposite(m, Simplify(m), u);
    SimplifyZeroesZeroSumMap(m, u);
  }

  /** A debtor who pays back what the plan tells them to ends up owing
      twice as much. */
  lemma RepaymentDeepensDebt(m: BalanceMap, a: UserId, b: UserId)
    requires a != b && m == [(a, 5000), (b, -5000)]
    ensures Get(m, b) == -5000
    ensures Get(ApplySettlements(m, AsSettlements(Simplify(m))), b) == -10000
  {
    assert Distinct(m);
    assert NoStrayCents(m);
    assert Total(m) == 0 by {
      assert Total(m[1..]) == -5000;
    }
    assert Get(m, b) == -5000 by {
      assert Get(m[1..], b) == -5000;
    }
    RecordedSettlementsDoubleBalances(m, b);
  }

  // ----------------------------------------------------------- corrected

  /** Paying back: the payer's debt shrinks and the receiver is owed less. */
  function ApplyRepayment(m: BalanceMap, s: SettlementRecord): BalanceMap
  {
    Add(Add(m, s.paidBy, s.amount), s.paidTo, -s.amount)
  }

  function ApplyRepayments(m: BalanceMap, ss: seq<SettlementRecord>): BalanceMap
    decreases |ss|
  {
    if |ss| == 0 then m else ApplyRepayments(ApplyRepayment(m, ss[0]), ss[1..])
  }

  /** Every user's balance rises by what they paid back and falls by what
      was paid back to them. */
  lemma {:induction false} ApplyRepaymentsGet(m: BalanceMap, ss: seq<SettlementRecord>, u: UserId)
    ensures Get(ApplyRepayments(m, ss), u) == Get(m, u) + SettlementsMade(ss, u) - SettlementsReceived(ss, u)
    decreases |ss|
  {
    if |ss| > 0 {
      var s := ss[0];
      var credited := Add(m, s.paidBy, s.amount);
      GetAdd(m, s.paidBy, s.amount, u);
      GetAdd(credited, s.paidTo, -s.amount, u);
      ApplyRepaymentsGet(ApplyRepayment(m, s), ss[1..], u);
    }
  }

  /** Recording transfers as repayments is carrying them out. */
  lemma {:induction false} RepaymentsAreTransfers(m: BalanceMap, ts: seq<Transfer>)
    ensures ApplyRepayments(m, AsSettlements(ts)) == ApplyTransfers(m, ts)
    decreases |ts|
  {
    if |ts| > 0 {
      var t := ts[0];
      var paid := Add(Add(m, t.from, t.amount), t.to, -t.amount);
      assert ApplyRepayment(m, SettlementRecord(t.from, t.to, t.amount)) == paid;
      RepaymentsAreTransfers(paid, ts[1..]);
    }
  }

  /** Recording the simplifier's plan for a zero-sum map as repayments
      clears every balance. */
  lemma RepaymentsSettleEveryone(m: BalanceMap, u: UserId)
    requires Distinct(m) && NoStrayCents(m) && Total(m) == 0
    ensures Get(ApplyRepayments(m, AsSettlements(Simplify(m))), u) == 0
  {
    RepaymentsAreTransfers(m, Simplify(m));
    SimplifyZeroesZeroSumMap(m, u);
  }

  /** The aggregator with repayments in place of the as-written settlement
      step. */
  function CalculateRepaidBalances(es: seq<ExpenseRecord>, ss: seq<SettlementRecord>): BalanceMap
  {
    ApplyRepayments(ApplyExpenses([], es), ss)
  }

  /** Each balance is paid minus owed plus repayments made minus repayments
      received. */
  lemma RepaidBalancesMatch(es: seq<ExpenseRecord>, ss: seq<SettlementRecord>, u: UserId)
    ensures Get(CalculateRepaidBalances(es, ss), u) ==
              AmountPaid(es, u) - AmountOwed(es, u) + SettlementsMade(ss, u) - SettlementsReceived(ss, u)
  {
    ApplyExpensesGet([], es, u);
    ApplyRepaymentsGet(ApplyExpenses([], es), ss, u);
  }

  lemma {:induction false} ApplyRepaymentsConcat(m: BalanceMap, ss: seq<SettlementRecord>, ts: seq<SettlementRecord>)
    ensures ApplyRepayments(m, ss + ts) == ApplyRepayments(ApplyRepayments(m, ss), ts)
    decreases |ss|
  {
    if |ss| > 0 {
      assert (ss + ts)[0] == ss[0];
      assert (ss + ts)[1..] == ss[1..] + ts;
      ApplyRepaymentsConcat(ApplyRepayment(m, ss[0]), ss[1..], ts);
    } else {
      assert ss + ts == ts;
    }
  }

  lemma {:induction false} ApplyRepaymentsKeepsShape(m: BalanceMap, ss: seq<SettlementRecord>)
    requires Distinct(m)
    ensures Distinct(ApplyRepayments(m, ss))
    ensures Total(ApplyRepayments(m, ss)) == Total(m)
    decreases |ss|
  {
    if |ss| > 0 {
      var s := ss[0];
      var credited := Add(m, s.paidBy, s.amount);
      AddDistinct(m, s.paidBy, s.amount);
      AddDistinct(credited, s.paidTo, -s.amount);
      TotalAdd(m, s.paidBy, s.amount);
      TotalAdd(credited, s.paidTo, -s.amount);
      ApplyRepaymentsKeepsShape(ApplyRepayment(m, s), ss[1..]);
    }
  }

  /** End to end: once a group's expenses add up, recording the simplified
      plan for its current balances as repayments leaves everyone settled. */
  lemma RepaidBalancesSettle(es: seq<ExpenseRecord>, ss: seq<SettlementRecord>, u: UserId)
    requires WellFormedExpenses(es)
    requires NoStrayCents(CalculateRepaidBalances(es, ss))
    ensures Get(CalculateRepaidBalances(es, ss + AsSettlements(Simplify(CalculateRepaidBalances(es, ss)))), u) == 0
  {
    var start := ApplyExpenses([], es);
    var b := CalculateRepaidBalances(es, ss);
    ApplyExpensesDistinct([], es);
    ApplyExpensesTotal([], es);
    WellFormedHasNoImbalance(es);
    ApplyRepaymentsKeepsShape(start, ss);
    ApplyRepaymentsConcat(start, ss, AsSettlements(Simplify(b)));
    RepaymentsSettleEveryone(b, u);
  }
}
