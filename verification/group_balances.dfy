/** The balance aggregator and the zero-sum check of the debt simplifier
    service: expense and settlement records are folded, in input order, into
    one map of net balances (positive: the group owes the user; negative:
    the user owes the group). */
module GroupBalances {
  import opened Money
  import opened BalanceMaps

  datatype SplitLine = SplitLine(user: UserId, amount: int)

  datatype ExpenseRecord = ExpenseRecord(paidBy: UserId, amount: int, splits: seq<SplitLine>)

  datatype SettlementRecord = SettlementRecord(paidBy: UserId, paidTo: UserId, amount: int)

  /** The default tolerance of the zero-sum check: one cent. */
  const ZeroSumTolerance := 1

  // ------------------------------------------------------------- the fold

  /** Each split line debits its user by the owed amount. */
  function ApplySplits(m: BalanceMap, lines: seq<SplitLine>): BalanceMap
    decreases |lines|
  {
    if |lines| == 0 then m
    else ApplySplits(Add(m, lines[0].user, -lines[0].amount), lines[1..])
  }

  /** The payer is credited with the full amount, then every split line is
      debited (the payer too, when they are among the participants). */
  function ApplyExpense(m: BalanceMap, e: ExpenseRecord): BalanceMap
  {
    ApplySplits(Add(m, e.paidBy, e.amount), e.splits)
  }

  function ApplyExpenses(m: BalanceMap, es: seq<ExpenseRecord>): BalanceMap
    decreases |es|
  {
    if |es| == 0 then m else ApplyExpenses(ApplyExpense(m, es[0]), es[1..])
  }

  /** A settlement debits the payer and credits the receiver. */
  function ApplySettlement(m: BalanceMap, s: SettlementRecord): BalanceMap
  {
    Add(Add(m, s.paidBy, -s.amount), s.paidTo, s.amount)
  }

  function ApplySettlements(m: BalanceMap, ss: seq<SettlementRecord>): BalanceMap
    decreases |ss|
  {
    if |ss| == 0 then m else ApplySettlements(ApplySettlement(m, ss[0]), ss[1..])
  }

  /** `calculate_group_balances`: expenses first, then settlements, each in
      input order, starting from an empty map. */
  function CalculateGroupBalances(es: seq<ExpenseRecord>, ss: seq<SettlementRecord>): (r: BalanceMap)
    ensures Distinct(r)
  {
    FoldDistinct(es, ss);
    ApplySettlements(ApplyExpenses([], es), ss)
  }

  /** `verify_zero_sum`: the balances sum to within `tolerance` of zero,
      the bound included. */
  function VerifyZeroSum(m: BalanceMap, tolerance: int): (ok: bool)
    ensures ok <==> -tolerance <= Total(m) <= tolerance
  {
    Abs(Total(m)) <= tolerance
  }

  // ------------------------------------------------ reference definitions

  /** What the lines charge user `u`. */
  function OwedBy(lines: seq<SplitLine>, u: UserId): int
  {
    if |lines| == 0 then 0 else LineOwed(lines[0], u) + OwedBy(lines[1..], u)
  }

  /** What one split line charges `u`: its amount if it is `u`'s line. */
  function LineOwed(line: SplitLine, u: UserId): int
  {
    if line.user == u then line.amount else 0
  }

  /** Total of all expenses `u` paid. */
  function AmountPaid(es: seq<ExpenseRecord>, u: UserId): int
  {
    if |es| == 0 then 0
    else (if es[0].paidBy == u then es[0].amount else 0) + AmountPaid(es[1..], u)
  }

  /** Total of all shares `u` owes. */
  function AmountOwed(es: seq<ExpenseRecord>, u: UserId): int
  {
    if |es| == 0 then 0 else OwedBy(es[0].splits, u) + AmountOwed(es[1..], u)
  }

  function SettlementsReceived(ss: seq<SettlementRecord>, u: UserId): int
  {
    if |ss| == 0 then 0
    else (if ss[0].paidTo == u then ss[0].amount else 0) + SettlementsReceived(ss[1..], u)
  }

  function SettlementsMade(ss: seq<SettlementRecord>, u: UserId): int
  {
    if |ss| == 0 then 0
    else (if ss[0].paidBy == u then ss[0].amount else 0) + SettlementsMade(ss[1..], u)
  }

  /** The balance formula the aggregator documents: amount paid minus
      amount owed plus settlements received minus settlements made. */
  function NetPosition(es: seq<ExpenseRecord>, ss: seq<SettlementRecord>, u: UserId): int
  {
    AmountPaid(es, u) - AmountOwed(es, u) + SettlementsReceived(ss, u) - SettlementsMade(ss, u)
  }

  function SplitIds(lines: seq<SplitLine>): set<UserId>
  {
    if |lines| == 0 then {} else {lines[0].user} + SplitIds(lines[1..])
  }

  function ExpenseIds(es: seq<ExpenseRecord>): set<UserId>
  {
    if |es| == 0 then {} else {es[0].paidBy} + SplitIds(es[0].splits) + ExpenseIds(es[1..])
  }

  function SettlementIds(ss: seq<SettlementRecord>): set<UserId>
  {
    if |ss| == 0 then {} else {ss[0].paidBy, ss[0].paidTo} + SettlementIds(ss[1..])
  }

  /** Every user some record mentions. */
  function MentionedIds(es: seq<ExpenseRecord>, ss: seq<SettlementRecord>): set<UserId>
  {
    ExpenseIds(es) + SettlementIds(ss)
  }

  function SplitsTotal(lines: seq<SplitLine>): int
  {
    if |lines| == 0 then 0 else lines[0].amount + SplitsTotal(lines[1..])
  }

  /** How much the expenses credit beyond what their split lines debit. */
  function Imbalance(es: seq<ExpenseRecord>): int
  {
    if |es| == 0 then 0 else es[0].amount - SplitsTotal(es[0].splits) + Imbalance(es[1..])
  }

  /** Every expense's split lines add up to its amount, as the split engine
      guarantees when it creates them. */
  predicate WellFormedExpenses(es: seq<ExpenseRecord>)
  {
    forall i :: 0 <= i < |es| ==> SplitsTotal(es[i].splits) == es[i].amount
  }

  // --------------------------------------------------- per-user balances

  lemma {:induction false} ApplySplitsGet(m: BalanceMap, lines: seq<SplitLine>, u: UserId)
    ensures Get(ApplySplits(m, lines), u) == Get(m, u) - OwedBy(lines, u)
    decreases |lines|
  {
    if |lines| > 0 {
      var m' := Add(m, lines[0].user, -lines[0].amount);
      GetAdd(m, lines[0].user, -lines[0].amount, u);
      ApplySplitsGet(m', lines[1..], u);
    }
  }

  lemma {:induction false} ApplyExpensesGet(m: BalanceMap, es: seq<ExpenseRecord>, u: UserId)
    ensures Get(ApplyExpenses(m, es), u) == Get(m, u) + AmountPaid(es, u) - AmountOwed(es, u)
    decreases |es|
  {
    if |es| > 0 {
      var e := es[0];
      GetAdd(m, e.paidBy, e.amount, u);
      ApplySplitsGet(Add(m, e.paidBy, e.amount), e.splits, u);
      ApplyExpensesGet(ApplyExpense(m, e), es[1..], u);
    }
  }

  lemma {:induction false} ApplySettlementsGet(m: BalanceMap, ss: seq<SettlementRecord>, u: UserId)
    ensures Get(ApplySettlements(m, ss), u) == Get(m, u) + SettlementsReceived(ss, u) - SettlementsMade(ss, u)
    decreases |ss|
  {
    if |ss| > 0 {
      ApplySettlementGet(m, ss[0], u);
      ApplySettlementsGet(ApplySettlement(m, ss[0]), ss[1..], u);
    }
  }

  /** One settlement takes its amount from the payer and gives it to the
      receiver. */
  lemma {:induction false} ApplySettlementGet(m: BalanceMap, s: SettlementRecord, u: UserId)
    ensures Get(ApplySettlement(m, s), u) ==
              Get(m, u) + (if s.paidTo == u then s.amount else 0) - (if s.paidBy == u then s.amount else 0)
  {
    var debited := Add(m, s.paidBy, -s.amount);
    GetAdd(m, s.paidBy, -s.amount, u);
    GetAdd(debited, s.paidTo, s.amount, u);
  }

  /** Every user's balance is what they paid minus what they owe plus the
      settlements they received minus those they made. */
  lemma BalancesMatchNetPosition(es: seq<ExpenseRecord>, ss: seq<SettlementRecord>, u: UserId)
    ensures Get(CalculateGroupBalances(es, ss), u) == NetPosition(es, ss, u)
  {
    ApplyExpensesGet([], es, u);
    ApplySettlementsGet(ApplyExpenses([], es), ss, u);
  }

  // ------------------------------------------------------------ the keys

  lemma {:induction false} ApplySplitsKeys(m: BalanceMap, lines: seq<SplitLine>)
    ensures Keys(ApplySplits(m, lines)) == Keys(m) + SplitIds(lines)
    decreases |lines|
  {
    if |lines| > 0 {
      AddKeys(m, lines[0].user, -lines[0].amount);
      ApplySplitsKeys(Add(m, lines[0].user, -lines[0].amount), lines[1..]);
    }
  }

  lemma {:induction false} ApplyExpensesKeys(m: BalanceMap, es: seq<ExpenseRecord>)
    ensures Keys(ApplyExpenses(m, es)) == Keys(m) + ExpenseIds(es)
    decreases |es|
  {
    if |es| > 0 {
      AddKeys(m, es[0].paidBy, es[0].amount);
      ApplySplitsKeys(Add(m, es[0].paidBy, es[0].amount), es[0].splits);
      ApplyExpensesKeys(ApplyExpense(m, es[0]), es[1..]);
    }
  }

  lemma {:induction false} ApplySettlementsKeys(m: BalanceMap, ss: seq<SettlementRecord>)
    ensures Keys(ApplySettlements(m, ss)) == Keys(m) + SettlementIds(ss)
    decreases |ss|
  {
    if |ss| > 0 {
      var s := ss[0];
      AddKeys(m, s.paidBy, -s.amount);
      AddKeys(Add(m, s.paidBy, -s.amount), s.paidTo, s.amount);
      ApplySettlementsKeys(ApplySettlement(m, s), ss[1..]);
    }
  }

  /** The map has exactly one key per user some record mentions; nobody is
      zero-initialised. */
  lemma BalanceKeysAreMentionedIds(es: seq<ExpenseRecord>, ss: seq<SettlementRecord>)
    ensures Keys(CalculateGroupBalances(es, ss)) == MentionedIds(es, ss)
  {
    ApplyExpensesKeys([], es);
    ApplySettlementsKeys(ApplyExpenses([], es), ss);
  }

  // ----------------------------------------------------- the key order

  /** The users of the split lines, in line order. */
  function SplitUsers(lines: seq<SplitLine>): seq<UserId>
  {
    if |lines| == 0 then [] else [lines[0].user] + SplitUsers(lines[1..])
  }

  /** The users the expenses mention, in the order the fold touches them:
      each payer, then that expense's split users. */
  function ExpenseMentions(es: seq<ExpenseRecord>): seq<UserId>
  {
    if |es| == 0 then [] else [es[0].paidBy] + SplitUsers(es[0].splits) + ExpenseMentions(es[1..])
  }

  /** The users the settlements mention: each payer, then each receiver. */
  function SettlementMentions(ss: seq<SettlementRecord>): seq<UserId>
  {
    if |ss| == 0 then [] else [ss[0].paidBy, ss[0].paidTo] + SettlementMentions(ss[1..])
  }

  /** Every mentioned user once, in order of first mention: expenses before
      settlements, as the aggregator reads them. */
  function FirstMentions(es: seq<ExpenseRecord>, ss: seq<SettlementRecord>): seq<UserId>
  {
    AppendNew([], ExpenseMentions(es) + SettlementMentions(ss))
  }

  lemma {:induction false} ApplySplitsOrder(m: BalanceMap, lines: seq<SplitLine>)
    ensures KeySeq(ApplySplits(m, lines)) == AppendNew(KeySeq(m), SplitUsers(lines))
    decreases |lines|
  {
    if |lines| > 0 {
      var m' := Add(m, lines[0].user, -lines[0].amount);
      AddKeySeq(m, lines[0].user, -lines[0].amount);
      ApplySplitsOrder(m', lines[1..]);
      var us := SplitUsers(lines);
      assert us[0] == lines[0].user && us[1..] == SplitUsers(lines[1..]);
    }
  }

  lemma {:induction false} ApplyExpensesOrder(m: BalanceMap, es: seq<ExpenseRecord>)
    ensures KeySeq(ApplyExpenses(m, es)) == AppendNew(KeySeq(m), ExpenseMentions(es))
    decreases |es|
  {
    if |es| > 0 {
      var e := es[0];
      var paid := Add(m, e.paidBy, e.amount);
      AddKeySeq(m, e.paidBy, e.amount);
      ApplySplitsOrder(paid, e.splits);
      ApplyExpensesOrder(ApplyExpense(m, e), es[1..]);
      AppendNewSingle(KeySeq(m), e.paidBy);
      AppendNewConcat(KeySeq(m), [e.paidBy], SplitUsers(e.splits));
      AppendNewConcat(KeySeq(m), [e.paidBy] + SplitUsers(e.splits), ExpenseMentions(es[1..]));
    }
  }

  lemma {:induction false} ApplySettlementsOrder(m: BalanceMap, ss: seq<SettlementRecord>)
    ensures KeySeq(ApplySettlements(m, ss)) == AppendNew(KeySeq(m), SettlementMentions(ss))
    decreases |ss|
  {
    if |ss| > 0 {
      var s := ss[0];
      ApplySettlementOrder(m, s);
      ApplySettlementsOrder(ApplySettlement(m, s), ss[1..]);
      AppendNewConcat(KeySeq(m), [s.paidBy, s.paidTo], SettlementMentions(ss[1..]));
    }
  }

  /** A settlement notes its payer, then its receiver. */
  lemma ApplySettlementOrder(m: BalanceMap, s: SettlementRecord)
    ensures KeySeq(ApplySettlement(m, s)) == AppendNew(KeySeq(m), [s.paidBy, s.paidTo])
  {
    var k := KeySeq(m);
    var debited := Add(m, s.paidBy, -s.amount);
    AddKeySeq(m, s.paidBy, -s.amount);
    AddKeySeq(debited, s.paidTo, s.amount);
    assert KeySeq(ApplySettlement(m, s)) == Note(Note(k, s.paidBy), s.paidTo);
    AppendNewSingle(k, s.paidBy);
    AppendNewSingle(Note(k, s.paidBy), s.paidTo);
    AppendNewConcat(k, [s.paidBy], [s.paidTo]);
    assert [s.paidBy] + [s.paidTo] == [s.paidBy, s.paidTo];
  }

  /** The balances iterate in order of first mention: a user's entry sits
      where the first expense (or, failing that, settlement) naming them put
      it. This is the order the simplifier's stable sorts break ties by. */
  lemma BalanceOrder(es: seq<ExpenseRecord>, ss: seq<SettlementRecord>)
    ensures |CalculateGroupBalances(es, ss)| == |FirstMentions(es, ss)|
    ensures forall i :: 0 <= i < |CalculateGroupBalances(es, ss)| ==>
              CalculateGroupBalances(es, ss)[i].0 == FirstMentions(es, ss)[i]
  {
    var r := CalculateGroupBalances(es, ss);
    ApplyExpensesOrder([], es);
    ApplySettlementsOrder(ApplyExpenses([], es), ss);
    AppendNewConcat([], ExpenseMentions(es), SettlementMentions(ss));
    assert KeySeq([]) == [];
    assert KeySeq(r) == FirstMentions(es, ss);
  }

  // ----------------------------------------------- distinctness and total

  lemma {:induction false} ApplySplitsDistinct(m: BalanceMap, lines: seq<SplitLine>)
    requires Distinct(m)
    ensures Distinct(ApplySplits(m, lines))
    decreases |lines|
  {
    if |lines| > 0 {
      AddDistinct(m, lines[0].user, -lines[0].amount);
      ApplySplitsDistinct(Add(m, lines[0].user, -lines[0].amount), lines[1..]);
    }
  }

  lemma {:induction false} ApplyExpensesDistinct(m: BalanceMap, es: seq<ExpenseRecord>)
    requires Distinct(m)
    ensures Distinct(ApplyExpenses(m, es))
    decreases |es|
  {
    if |es| > 0 {
      AddDistinct(m, es[0].paidBy, es[0].amount);
      ApplySplitsDistinct(Add(m, es[0].paidBy, es[0].amount), es[0].splits);
      ApplyExpensesDistinct(ApplyExpense(m, es[0]), es[1..]);
    }
  }

  lemma {:induction false} ApplySettlementsDistinct(m: BalanceMap, ss: seq<SettlementRecord>)
    requires Distinct(m)
    ensures Distinct(ApplySettlements(m, ss))
    decreases |ss|
  {
    if |ss| > 0 {
      ApplySettlementDistinct(m, ss[0]);
      ApplySettlementsDistinct(ApplySettlement(m, ss[0]), ss[1..]);
    }
  }

  lemma {:induction false} ApplySettlementDistinct(m: BalanceMap, s: SettlementRecord)
    requires Distinct(m)
    ensures Distinct(ApplySettlement(m, s))
  {
    var debited := Add(m, s.paidBy, -s.amount);
    AddDistinct(m, s.paidBy, -s.amount);
    AddDistinct(debited, s.paidTo, s.amount);
  }

  lemma FoldDistinct(es: seq<ExpenseRecord>, ss: seq<SettlementRecord>)
    ensures Distinct(ApplySettlements(ApplyExpenses([], es), ss))
  {
    ApplyExpensesDistinct([], es);
    ApplySettlementsDistinct(ApplyExpenses([], es), ss);
  }

  lemma {:induction false} ApplySplitsTotal(m: BalanceMap, lines: seq<SplitLine>)
    ensures Total(ApplySplits(m, lines)) == Total(m) - SplitsTotal(lines)
    decreases |lines|
  {
    if |lines| > 0 {
      TotalAdd(m, lines[0].user, -lines[0].amount);
      ApplySplitsTotal(Add(m, lines[0].user, -lines[0].amount), lines[1..]);
    }
  }

  lemma {:induction false} ApplyExpensesTotal(m: BalanceMap, es: seq<ExpenseRecord>)
    ensures Total(ApplyExpenses(m, es)) == Total(m) + Imbalance(es)
    decreases |es|
  {
    if |es| > 0 {
      TotalAdd(m, es[0].paidBy, es[0].amount);
      ApplySplitsTotal(Add(m, es[0].paidBy, es[0].amount), es[0].splits);
      ApplyExpensesTotal(ApplyExpense(m, es[0]), es[1..]);
    }
  }

  lemma {:induction false} ApplySettlementsTotal(m: BalanceMap, ss: seq<SettlementRecord>)
    ensures Total(ApplySettlements(m, ss)) == Total(m)
    decreases |ss|
  {
    if |ss| > 0 {
      ApplySettlementTotal(m, ss[0]);
      ApplySettlementsTotal(ApplySettlement(m, ss[0]), ss[1..]);
    }
  }

  /** A settlement is a balanced transfer. */
  lemma {:induction false} ApplySettlementTotal(m: BalanceMap, s: SettlementRecord)
    ensures Total(ApplySettlement(m, s)) == Total(m)
  {
    TotalAdd(m, s.paidBy, -s.amount);
    TotalAdd(Add(m, s.paidBy, -s.amount), s.paidTo, s.amount);
  }

  /** Settlements are balanced transfers, so the balances add up to what the
      expenses credit beyond their split lines. */
  lemma BalancesTotal(es: seq<ExpenseRecord>, ss: seq<SettlementRecord>)
    ensures Total(CalculateGroupBalances(es, ss)) == Imbalance(es)
  {
    ApplyExpensesTotal([], es);
    ApplySettlementsTotal(ApplyExpenses([], es), ss);
  }

  lemma {:induction false} WellFormedHasNoImbalance(es: seq<ExpenseRecord>)
    requires WellFormedExpenses(es)
    ensures Imbalance(es) == 0
  {
    if |es| > 0 {
      assert WellFormedExpenses(es[1..]) by {
        forall i | 0 <= i < |es| - 1
          ensures SplitsTotal(es[1..][i].splits) == es[1..][i].amount
        {
          assert es[1..][i] == es[i + 1];
        }
      }
      WellFormedHasNoImbalance(es[1..]);
    }
  }

  /** The zero-sum invariant: when every expense's split lines add up to its
      amount, the balances sum to exactly zero and the check passes for any
      non-negative tolerance. */
  lemma ZeroSumInvariant(es: seq<ExpenseRecord>, ss: seq<SettlementRecord>, tolerance: int)
    requires WellFormedExpenses(es) && tolerance >= 0
    ensures Total(CalculateGroupBalances(es, ss)) == 0
    ensures VerifyZeroSum(CalculateGroupBalances(es, ss), tolerance)
  {
    BalancesTotal(es, ss);
    WellFormedHasNoImbalance(es);
  }
}
