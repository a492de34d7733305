# Split engine and ledger routines of a shared-expense app, in Dafny

This project models the money logic of a shared-expense ledger:

- **Split engine.** It divides an expense among participants equally, by custom amounts, or by percentages. Then it zips the shares onto participant ids.
- **Balance aggregator.** It folds expense and settlement records into net balances per user.
- **Zero-sum check.** It tests whether those balances add up to zero.
- **Debt simplifier.** A greedy matcher that turns balances into a list of (debtor, creditor, amount) transfers.

All values are whole cents held in unbounded `int`s:

- The tolerance of 0.01 is 1 cent.
- A percentage is an integer in hundredths of a percent, so 100% is 10000.
- `Decimal.quantize(Decimal('0.01'), ROUND_HALF_EVEN)` of the exact quotient becomes `Money.RoundHalfEven(x, d)`. It is proved to return the integer nearest `x / d`, with ties going to the even one, and to be the only such integer.

A Python `dict` becomes a `BalanceMap`: the sequence of its (key, value) items in insertion order.

- `Get` is `d.get(k, 0)`.
- `Put` is `d[k] = v`. It keeps the position of an existing key and appends a new one.
- This order is what the simplifier's stable sort uses to break ties (`DebtSimplifier.DebtorTieOrder`, `DebtSimplifier.CreditorTieOrder`).

Each `raise ValueError` of the source is one constructor of `SplitEngine.SplitError`, returned in a `Results.Result`.

Modules, one file each:

| file | module | models |
|---|---|---|
| `results.dfy` | `Results` | `Option`, and `Result` with `:-` propagation |
| `money.dfy` | `Money` | sums, and banker's rounding of a quotient to whole cents |
| `balance_maps.dfy` | `BalanceMaps` | insertion-ordered dictionaries from user id to cents |
| `split_engine.dfy` | `SplitEngine` | `split_engine.py` |
| `group_balances.dfy` | `GroupBalances` | `calculate_group_balances`, `verify_zero_sum` |
| `debt_simplifier.dfy` | `DebtSimplifier` | `simplify_debts` |
| `settlement_sign.dfy` | `SettlementSign` | the sign of a recorded settlement, as written and corrected |
| `scenarios.dfy` | `Scenarios` | the unit tests' concrete cases, proved about the model |

Points where the model follows the code rather than its prose:

- **Equal split, order of shares.** The `split_equal` docstring shows `[3.33, 3.33, 3.34]`. The code gives the fix-up cents to the first participants, so 10.00 split three ways is `[3.34, 3.33, 3.33]`. The test agrees with the code, and so does `SplitEngine.SplitEqualPrefixAdjusted`.
- **Amount check.** Only `split_equal` rejects a non-positive amount. Custom and percentage splits do not check the amount.
- **Duplicate ids.** `create_splits` zips ids and shares into a dict. A repeated id keeps its first position and its last share, so the mapping need not sum to the amount: the shares of its earlier occurrences are dropped (`SplitEngine.ZipOrder`, `SplitEngine.ZipLastWins`, `Scenarios.CreateSplitsRepeatedId`).
- **Settlement sign.** A settlement subtracts its amount from the payer's balance and adds it to the receiver's. `GroupBalances.ApplySettlement` keeps this, and it matches the aggregator's own documented formula: paid − owed + received − made. It contradicts the rest of the source, though:
  - a positive balance means the user is owed money (debt_simplifier.py:21);
  - a settlement is "when someone pays back their debt" (database.py:112);
  - the tests apply a transfer as `from += amount, to −= amount` (test_balance_engine.py:110-112), and so does `DebtSimplifier.ApplyTransfers`.

  A debtor who records a repayment therefore ends up owing more. See "## Findings". The path is latent today, because both endpoints that compute balances pass an empty settlement list (expenses.py:280-281, 331).
- **Negative percentage shares.** `split_percentage` adds the whole rounding surplus to the first largest share. Called directly with five or more participants, that share can go negative: 0.03 split five ways at 20% gives `[-0.01, 0.01, 0.01, 0.01, 0.01]` (`Scenarios.PercentageSplitNegativeShare`). Expense requests accept at most four participants, and with percentages in whole hundredths no share goes negative for four or fewer. Percentages finer than 0.01% do reach the engine, though, and give a negative share with four participants: 0.02 at 25.0025% each totals 100.01%, which is accepted. Each share rounds to 0.01, so the first becomes −0.01. The database's `amount >= 0` constraint on split rows (database.py:102-104) then rejects it.

The two-pointer loop of `simplify_debts` is `DebtSimplifier.Sweep`. It is proved equal to `DebtSimplifier.Settle`, a recursion whose list heads carry the remaining debt and credit. All properties of the transfers are proved about `Settle`.

## Model

| member | source | states |
|---|---|---|
| Money.RoundHalfEven | backend/app/services/split_engine.py:40 | the quantized share is an integer within half a cent of the exact quotient, and on an exact half it is even |
| Money.RoundHalfEvenUnique | backend/app/services/split_engine.py:116 | banker's rounding is determined: any integer within half of the quotient, and even on a tie, is the rounded value |
| Money.RoundHalfEvenSymmetric | backend/app/services/split_engine.py:116 | rounding a negated quotient gives the negated result, as Decimal's half-even rounding does |
| Money.RoundHalfEvenExact | backend/app/services/split_engine.py:116 | a quotient that is already a whole number of cents is left unchanged, so whole percentages of whole amounts split exactly |
| Money.RoundHalfEvenNonNegative | backend/app/services/split_engine.py:116 | a non-negative percentage of a non-negative amount rounds to a non-negative share |
| BalanceMaps.Get | backend/app/services/debt_simplifier.py:104 | no contract of its own; `BalanceMaps.GetItem`, `BalanceMaps.GetAbsent` and `BalanceMaps.GetPut` state what `d.get(k, 0)` reads |
| BalanceMaps.Put | backend/app/services/debt_simplifier.py:104 | no contract of its own; `BalanceMaps.GetPut` and `BalanceMaps.PutShape` state what `d[k] = v` does |
| BalanceMaps.Add | backend/app/services/debt_simplifier.py:110 | no contract of its own; `BalanceMaps.GetAdd`, `BalanceMaps.TotalAdd` and `BalanceMaps.AddKeySeq` state what `d[k] = d.get(k, 0) + delta` does |
| BalanceMaps.GetAbsent | backend/app/services/debt_simplifier.py:104 | a key the dictionary lacks reads as 0 |
| BalanceMaps.PutShape | backend/app/services/debt_simplifier.py:104 | assignment adds the key to the keys; an existing key keeps the size, and a new key is appended at the end with its value |
| BalanceMaps.PutKeySeq | backend/app/services/debt_simplifier.py:104 | assignment moves no key: the iteration order stays as it was, with a new key appended at the end |
| BalanceMaps.AddKeySeq | backend/app/services/debt_simplifier.py:110 | an update moves no key: the iteration order stays as it was, with a new key appended at the end |
| BalanceMaps.GetPut | backend/app/services/debt_simplifier.py:104 | after `d[k] = v` key k reads v and every other key reads as before |
| BalanceMaps.GetAdd | backend/app/services/debt_simplifier.py:110 | `d[k] = d.get(k, 0) + delta` changes the reading of k by delta and of no other key |
| BalanceMaps.TotalAdd | backend/app/services/debt_simplifier.py:119-121 | an update under any key moves the sum of all values by exactly its delta |
| BalanceMaps.GetItem | backend/app/services/debt_simplifier.py:36-37 | iterating the items of a dictionary yields, for each key, the value `get` returns |
| SplitEngine.SplitEqual | backend/app/services/split_engine.py:17-55 | fails on n ≤ 0 first, then on amount ≤ 0; otherwise returns exactly n non-negative shares summing to the amount, each within a cent of amount/n |
| SplitEngine.EqualFixupsFit | backend/app/services/split_engine.py:48-53 | the number of one-cent fix-ups is at most n/2 and below n, so the loop only touches existing shares |
| SplitEngine.SplitEqualPrefixAdjusted | backend/app/services/split_engine.py:40-53 | the first k shares are base plus the sign of the rounding difference, the others are base, where k is that difference in cents |
| SplitEngine.SplitEqualFair | backend/app/services/split_engine.py:40-53 | any two equal-split shares differ by at most one cent |
| SplitEngine.SplitCustom | backend/app/services/split_engine.py:58-84 | a sum mismatch is reported with the sum and amount − sum before any negative entry; succeeds exactly when the sum matches and nothing is negative, returning the input unchanged |
| SplitEngine.FirstMaxIndex | backend/app/services/split_engine.py:125 | `s.index(max(s))` holds a maximum and every earlier position holds strictly less |
| SplitEngine.SplitPercentage | backend/app/services/split_engine.py:87-128 | rejects a percentage total more than 0.01% off 100%, then any negative percentage; on success returns one share per percentage summing to the amount, the first largest rounded share takes the whole remainder, every other share is the rounded percentage, and nothing changes when the rounded shares already sum to the amount |
| SplitEngine.PolicyShares | backend/app/services/split_engine.py:156-170 | the dispatch: an equal request gets exactly `SplitEqual`'s result, a custom list of the right length exactly `SplitCustom`'s, a percentage list of the right length exactly `SplitPercentage`'s; an absent or wrong-length custom or percentage list is rejected with its own error; an equal split succeeds exactly when the amount is positive; a custom list of the right length succeeds exactly when it sums to the amount with no negative entry, and is returned unchanged; a percentage list of the right length succeeds exactly when its total is within 0.01% of 100% with no negative entry; any success has one share per participant summing to the amount |
| SplitEngine.Zip | backend/app/services/split_engine.py:173-176 | the mapping has no repeated id and its keys are exactly the given ids |
| SplitEngine.ZipOrder | backend/app/services/split_engine.py:173-176 | the mapping iterates over the ids in order of first occurrence, each once, so a repeated id keeps its first position |
| SplitEngine.ZipLastWins | backend/app/services/split_engine.py:173-176 | an id ends up with the share paired with its last occurrence |
| SplitEngine.ZipDistinct | backend/app/services/split_engine.py:173-176 | with distinct ids, item i of the mapping is (id i, share i) |
| SplitEngine.ZipTotal | backend/app/services/split_engine.py:173-176 | with distinct ids, the values of the mapping sum to the sum of the shares |
| SplitEngine.CreateSplits | backend/app/services/split_engine.py:131-176 | an empty participant list is rejected; otherwise it succeeds exactly when the chosen policy does and passes on its error; the keys are exactly the ids; with distinct ids id i maps to share i and the values sum to the amount |
| GroupBalances.CalculateGroupBalances | backend/app/services/debt_simplifier.py:79-123 | the resulting balances have no repeated user |
| GroupBalances.BalancesMatchNetPosition | backend/app/services/debt_simplifier.py:87 | every user's balance is amount paid − amount owed + settlements received − settlements made, the documented formula |
| GroupBalances.ApplyExpensesGet | backend/app/services/debt_simplifier.py:99-110 | the expense fold credits each payer with the full amount and debits each split line from its user |
| GroupBalances.ApplySettlementsGet | backend/app/services/debt_simplifier.py:113-121 | the settlement fold takes each amount from the payer and gives it to the receiver |
| GroupBalances.BalanceKeysAreMentionedIds | backend/app/services/debt_simplifier.py:96-123 | the keys are exactly the users some expense, split line or settlement mentions |
| GroupBalances.BalanceOrder | backend/app/services/debt_simplifier.py:96-123 | the balances iterate in order of first mention: payers and split users of the expenses in record order, then payers and receivers of the settlements, each user once; `DebtSimplifier.DebtorTieOrder` and `DebtSimplifier.CreditorTieOrder` carry this order through the simplifier's tie-breaking |
| GroupBalances.BalancesTotal | backend/app/services/debt_simplifier.py:96-123 | the balances sum to the total by which expense amounts exceed their split lines; settlements do not change it |
| GroupBalances.ApplySettlementsTotal | backend/app/services/debt_simplifier.py:113-121 | settlements are balanced transfers and leave the sum unchanged |
| GroupBalances.WellFormedHasNoImbalance | backend/app/services/debt_simplifier.py:99-110 | when every expense's split lines add up to its amount, the expenses create no imbalance |
| GroupBalances.ZeroSumInvariant | backend/app/services/debt_simplifier.py:126-139 | with split lines that add up, the balances sum to exactly zero and pass the zero-sum check for any non-negative tolerance |
| GroupBalances.VerifyZeroSum | backend/app/services/debt_simplifier.py:126-139 | the check passes exactly when the sum lies within the tolerance, bounds included |
| DebtSimplifier.Debtors | backend/app/services/debt_simplifier.py:36 | every listed debtor owes more than one cent |
| DebtSimplifier.Creditors | backend/app/services/debt_simplifier.py:37 | every listed creditor is owed more than one cent |
| DebtSimplifier.DebtorsOf | backend/app/services/debt_simplifier.py:36 | a user is listed as a debtor exactly when their balance is below −0.01, with the magnitude of that balance |
| DebtSimplifier.CreditorsOf | backend/app/services/debt_simplifier.py:37 | a user is listed as a creditor exactly when their balance is above 0.01, with that balance |
| DebtSimplifier.SortDescending | backend/app/services/debt_simplifier.py:39-42 | the sorted list is a permutation of the input in descending order of magnitude |
| DebtSimplifier.SortDescendingStable | backend/app/services/debt_simplifier.py:39-42 | the parties of any one magnitude appear in the sorted list in the same order as in the input list |
| DebtSimplifier.DebtorPair | backend/app/services/debt_simplifier.py:36 | two debtors appear in the debtor list in the order of their positions in the map, with their magnitudes |
| DebtSimplifier.CreditorPair | backend/app/services/debt_simplifier.py:37 | two creditors appear in the creditor list in the order of their positions in the map, with their balances |
| DebtSimplifier.SortKeepsTie | backend/app/services/debt_simplifier.py:39-42 | the sort keeps any two parties of equal magnitude in their input order |
| DebtSimplifier.DebtorTieOrder | backend/app/services/debt_simplifier.py:36-42 | of two users owing the same amount, the one earlier in the map comes earlier in the sorted debtor list, so it pays first |
| DebtSimplifier.CreditorTieOrder | backend/app/services/debt_simplifier.py:37-42 | of two users owed the same amount, the one earlier in the map comes earlier in the sorted creditor list, so it is paid first |
| DebtSimplifier.SortDescendingAmounts | backend/app/services/debt_simplifier.py:39-42 | sorting changes neither who is listed nor how much |
| DebtSimplifier.Settle | backend/app/services/debt_simplifier.py:44-76 | no contract of its own; `DebtSimplifier.SettleCount`, `DebtSimplifier.SettleTransfers` and `DebtSimplifier.SettleAmounts` state what the greedy matching produces, and `DebtSimplifier.Sweep` that the loop computes it |
| DebtSimplifier.Simplify | backend/app/services/debt_simplifier.py:9-76 | no contract of its own; `DebtSimplifier.SimplifyCount`, `DebtSimplifier.SimplifyTransfers`, `DebtSimplifier.SimplifyPaysListed` and `DebtSimplifier.SimplifyZeroesZeroSumMap` state what `simplify_debts` returns |
| DebtSimplifier.SettleCount | backend/app/services/debt_simplifier.py:51-74 | every step exhausts a side, so there are at most #debtors + #creditors − 1 transfers, and none when a side is empty |
| DebtSimplifier.SettleTransfers | backend/app/services/debt_simplifier.py:51-74 | every transfer goes from a listed debtor to a listed creditor and moves at least one cent |
| DebtSimplifier.SettleAmounts | backend/app/services/debt_simplifier.py:56-74 | nobody sends more than it owes or receives more than it is owed, and exactly that much when total debt equals total credit |
| DebtSimplifier.SimplifyCount | backend/app/services/debt_simplifier.py:36-76 | at most #debtors + #creditors − 1 transfers, and none when either side is empty |
| DebtSimplifier.SimplifyTransfers | backend/app/services/debt_simplifier.py:36-76 | every transfer goes from a user with balance below −0.01 to one above 0.01 and moves at least 0.01, so settled users never appear |
| DebtSimplifier.SimplifyAllSettled | backend/app/services/debt_simplifier.py:36-37 | when no balance is more than a cent from zero there are no transfers |
| DebtSimplifier.ApplyTransfersGet | backend/app/tests/test_balance_engine.py:109-112 | applying transfers adds what a user sent and subtracts what it received |
| DebtSimplifier.SimplifyWithinBalances | backend/app/services/debt_simplifier.py:56-74 | no debtor sends more than it owes, no creditor receives more than it is owed, settled users neither send nor receive |
| DebtSimplifier.SimplifyPaysListed | backend/app/services/debt_simplifier.py:51-74 | when total debt equals total credit, every debtor sends exactly its debt and every creditor receives exactly its credit |
| DebtSimplifier.SimplifySettlesEveryone | backend/app/services/debt_simplifier.py:51-76 | when total debt equals total credit, applying the transfers brings every debtor and creditor to exactly zero and leaves settled balances alone |
| DebtSimplifier.TotalIsCreditMinusDebt | backend/app/services/debt_simplifier.py:36-37 | with no balance at exactly one cent either way, the sum of the map is total credit minus total debt |
| DebtSimplifier.SimplifyZeroesZeroSumMap | backend/app/tests/test_balance_engine.py:109-115 | a map that sums to zero with no stray cent ends with every user at exactly zero after the transfers |
| DebtSimplifier.Sweep | backend/app/services/debt_simplifier.py:44-76 | the two-pointer loop emits exactly the transfers of the recursive greedy matching |
| DebtSimplifier.SimplifyDebts | backend/app/services/debt_simplifier.py:9-76 | the method partitions, sorts and sweeps; its result is bounded in count and every transfer runs from a debtor to a creditor for at least a cent |
| SettlementSign.RecordedTransfersMoveOpposite | backend/app/services/debt_simplifier.py:113-121 | recording transfers as settlements moves every user by the negation of what carrying them out does |
| SettlementSign.RecordedSettlementsDoubleBalances | backend/app/services/debt_simplifier.py:113-121 | recording the simplifier's plan for a zero-sum map without stray cents doubles every balance instead of clearing it |
| SettlementSign.RepaymentDeepensDebt | backend/app/services/debt_simplifier.py:113-121 | a debtor at −50.00 who records paying back the 50.00 the plan assigns them ends at −100.00 |
| SettlementSign.ApplyRepaymentsGet | backend/app/models/database.py:111-112 | a repayment raises the payer's balance by what they paid back and lowers the receiver's by what they received |
| SettlementSign.RepaymentsAreTransfers | backend/app/tests/test_balance_engine.py:110-112 | recording transfers as repayments is the same as carrying them out |
| SettlementSign.RepaymentsSettleEveryone | backend/app/services/debt_simplifier.py:9-27 | recording the simplifier's plan for a zero-sum map without stray cents as repayments brings every user to exactly zero |
| SettlementSign.RepaidBalancesMatch | backend/app/services/debt_simplifier.py:83-87 | with repayments, each balance is paid − owed + repayments made − repayments received |
| SettlementSign.ApplyRepaymentsKeepsShape | backend/app/services/debt_simplifier.py:113-121 | repayments keep the map free of repeated users and leave its sum unchanged |
| SettlementSign.RepaidBalancesSettle | backend/app/api/expenses.py:331-334 | once every expense's split lines add up, recording the simplified plan for the current balances as repayments leaves every user at zero |
| Scenarios.EqualSplitTenDollarsThreeWays | backend/app/tests/test_balance_engine.py:22-29 | 10.00 split three ways is [3.34, 3.33, 3.33] |
| Scenarios.EqualSplitLargeAmount | backend/app/tests/test_balance_engine.py:31-39 | 1234.56 split seven ways sums to the amount, and every share is 176.36 or 176.37 |
| Scenarios.EqualSplitExact | backend/app/services/split_engine.py:40-53 | an amount that is a whole number of cents per participant splits into equal shares with no fix-up |
| Scenarios.EqualSplitOneCent | backend/app/tests/test_balance_engine.py:237 | 0.01 among two or more participants goes wholly to the first; the others get 0.00 |
| Scenarios.EqualSplitErrorOrder | backend/app/services/split_engine.py:33-37 | a non-positive participant count is reported before a non-positive amount |
| Scenarios.CustomSplitCases | backend/app/tests/test_balance_engine.py:42-57 | an exact custom split is returned unchanged; one summing to 95.00 of 100.00 is rejected with difference 5.00; the sum is checked before the signs |
| Scenarios.PercentageSplitExact | backend/app/tests/test_balance_engine.py:59-69 | 50/30/20% of 100.00 is [50.00, 30.00, 20.00] |
| Scenarios.PercentageSplitUnevenThirds | backend/app/tests/test_balance_engine.py:70-77 | 33.33/33.33/33.34% of 100.00 is [33.33, 33.33, 33.34] |
| Scenarios.PercentageSplitWithinTolerance | backend/app/services/split_engine.py:104-126 | a total of 100.01% is accepted and the surplus cent comes off the first largest share |
| Scenarios.PercentageSplitErrors | backend/app/services/split_engine.py:104-114 | a total of 100.02% is rejected; a negative percentage is rejected once the total is acceptable |
| Scenarios.SurplusOnFirstOfEqualShares | backend/app/services/split_engine.py:119-126 | when every percentage rounds to the same share, the first participant absorbs the whole difference |
| Scenarios.PercentageSplitNegativeShare | backend/app/services/split_engine.py:119-126 | 0.03 at 20% each among five gives [-0.01, 0.01, 0.01, 0.01, 0.01] |
| Scenarios.CreateSplitsThreeUsers | backend/app/tests/test_balance_engine.py:80-89 | 99.99 among three distinct users maps each, in order, to 33.33 |
| Scenarios.CreateSplitsRepeatedId | backend/app/services/split_engine.py:173-176 | a repeated id keeps its first position and the share of its last occurrence |
| Scenarios.CreateSplitsErrors | backend/app/services/split_engine.py:153-166 | an empty participant list, and an absent, empty or wrong-length custom or percentage list, each give their own error |
| Scenarios.OneExpenseBalances | backend/app/tests/test_balance_engine.py:153-171 | alice paying 100.00 split evenly with bob gives alice +50.00 and bob −50.00 |
| Scenarios.TwoExpensesBalances | backend/app/tests/test_balance_engine.py:193-225 | dinner for three paid by alice and a movie for two paid by bob leave +80.00, −10.00 and −70.00, which pass the zero-sum check |
| Scenarios.SettlementBalances | backend/app/services/debt_simplifier.py:113-121 | bob paying alice 20.00 after that takes bob to −70.00 and alice to +70.00 |
| Scenarios.ZeroSumCases | backend/app/tests/test_balance_engine.py:173-191 | the three-user map passes the zero-sum check and the map missing Charlie fails it |
| Scenarios.SimplifyThreeUsers | backend/app/services/debt_simplifier.py:26-33 | {Alice: 50, Bob: −30, Charlie: −20} simplifies to [(Bob, Alice, 30), (Charlie, Alice, 20)] |
| Scenarios.SimplifyLeavesStrayCents | backend/app/services/debt_simplifier.py:36-37 | balances of exactly ±0.01 need no transfers |
| Scenarios.SimplifyStrandsDebtor | backend/app/services/debt_simplifier.py:36-51 | three balances of +0.01 and one of −0.03 sum to zero, yet yield no transfers, leaving the debtor at −0.03 |
| Scenarios.SimplifyAlreadyBalanced | backend/app/tests/test_balance_engine.py:140-151 | all-zero balances need no transfers |

## Findings

| source | as written | input that shows it | evidently intended | confidence | as-written member | corrected member |
|---|---|---|---|---|---|---|
| backend/app/services/debt_simplifier.py:113-121 | a settlement lowers the payer's balance and raises the receiver's, and the docstring formula says the same: + received − made | balances {alice: +50.00, bob: −50.00}; the plan is bob pays alice 50.00; recording it as a settlement leaves bob at −100.00 and alice at +100.00 | a settlement is a debtor paying back (database.py:112), so it raises the payer's balance and lowers the receiver's, as the tests apply transfers; the formula should read + made − received | not executed; medium (the path is latent while the endpoints pass no settlements) | SettlementSign.RecordedSettlementsDoubleBalances | SettlementSign.RepaidBalancesSettle |

`GroupBalances.CalculateGroupBalances` keeps the sign as written, and the simplifier's transfers (`DebtSimplifier.ApplyTransfers`) already follow the intended one. `SettlementSign.CalculateRepaidBalances` is the aggregator with the corrected step. `SettlementSign.RepaidBalancesSettle` proves the end-to-end property for it: recording the simplified plan as repayments leaves every user at zero. `SettlementSign.RepaymentsSettleEveryone` proves the same for a bare zero-sum map.

## Left out

- The HTTP endpoints, database queries, row locking and response assembly are not part of this model. They are I/O around the core.
- The AI categorisation service is not part of this model. It is a call to an external API.
- Decimal context precision and the float round-trip of amounts in the endpoints are left out. The model works in exact integer cents, and a percentage share is the exact rational `amount · p / 10000` rounded once.
- Custom amounts finer than a cent and percentages finer than 0.01% are not modelled. The expense amount itself is limited to two decimals by the input schema, so the truncating `int(diff * 100)` in `split_equal` never truncates. The custom amounts and percentages of a request carry no such limit, so sub-cent values such as custom `[33.333, 33.333, 33.334]` of 100.00 do reach the split engine; the integer-cent model cannot represent them.
- The `else` branch of `create_splits` for an unknown split type is left out. `SplitType` is a closed enumeration here, so that branch cannot be reached.
- The schema limits (amount > 0, one to four participants, split ≥ 0, settlement amount > 0, payer ≠ receiver) are not imposed as preconditions. Every operation is modelled on all inputs, as the functions themselves accept them.
- Error messages are not modelled. Each error is a constructor carrying the numbers the message interpolates.
- DebtSimplifier.SimplifySettlesEveryone: it requires total debt to equal total credit. With balances that sum to zero, this holds once no balance sits at exactly ±0.01 (`DebtSimplifier.TotalIsCreditMinusDebt`). A balance of ±0.01 is neither paid nor collected, so it is left as it was. Such stray cents can also strand a larger debt: `[(a, 0.01), (b, 0.01), (c, 0.01), (d, −0.03)]` sums to zero, yet there is no creditor, no transfer is made and d still owes 0.03 (`Scenarios.SimplifyStrandsDebtor`).
