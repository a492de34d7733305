/** The debt simplifier: a balance map becomes an ordered list of
    (debtor, creditor, amount) transfers by greedily matching the largest
    remaining debtor with the largest remaining creditor. */
module DebtSimplifier {
  import opened Money
  import opened BalanceMaps

  /** Balances within one cent of zero count as settled. */
  const Tolerance := 1

  /** `(from_user, to_user, amount)`: `from` pays `amount` cents to `to`. */
  datatype Transfer = Transfer(from: UserId, to: UserId, amount: int)

  /** A user with the magnitude of what they still owe or are owed. */
  type Party = (UserId, int)

  function Min(a: int, b: int): (r: int)
    ensures r <= a && r <= b && (r == a || r == b)
  {
    if a <= b then a else b
  }

  // ------------------------------------------------------------ partition

  /** `[(user, abs(balance)) ... if balance < -0.01]`, in map order. */
  function Debtors(m: BalanceMap): (r: seq<Party>)
    ensures |r| <= |m|
    ensures forall i :: 0 <= i < |r| ==> r[i].1 > Tolerance
  {
    if |m| == 0 then []
    else (if m[0].1 < -Tolerance then [(m[0].0, -m[0].1)] else []) + Debtors(m[1..])
  }

  /** `[(user, balance) ... if balance > 0.01]`, in map order. */
  function Creditors(m: BalanceMap): (r: seq<Party>)
    ensures |r| <= |m|
    ensures forall i :: 0 <= i < |r| ==> r[i].1 > Tolerance
  {
    if |m| == 0 then []
    else (if m[0].1 > Tolerance then [(m[0].0, m[0].1)] else []) + Creditors(m[1..])
  }

  function Ids(ps: seq<Party>): set<UserId>
  {
    if |ps| == 0 then {} else {ps[0].0} + Ids(ps[1..])
  }

  /** The total magnitude listed for `u`. */
  function AmountFor(ps: seq<Party>, u: UserId): int
  {
    if |ps| == 0 then 0 else (if ps[0].0 == u then ps[0].1 else 0) + AmountFor(ps[1..], u)
  }

  function Magnitude(ps: seq<Party>): int
  {
    if |ps| == 0 then 0 else ps[0].1 + Magnitude(ps[1..])
  }

  predicate AllOutstanding(ps: seq<Party>)
  {
    forall i :: 0 <= i < |ps| ==> ps[i].1 >= Tolerance
  }

  /** In a map without repeated keys, a user is listed as a debtor exactly
      when their balance is below minus one cent, with its magnitude. */
  lemma {:induction false} DebtorsOf(m: BalanceMap, u: UserId)
    requires Distinct(m)
    ensures AmountFor(Debtors(m), u) == if Get(m, u) < -Tolerance then -Get(m, u) else 0
    ensures u in Ids(Debtors(m)) <==> Get(m, u) < -Tolerance
  {
    if |m| > 0 {
      assert Distinct(m[1..]);
      DebtorsOf(m[1..], u);
      var head: seq<Party> := if m[0].1 < -Tolerance then [(m[0].0, -m[0].1)] else [];
      AmountForAppend(head, Debtors(m[1..]), u);
      IdsAppend(head, Debtors(m[1..]));
      if m[0].0 == u {
        KeysOfTail(m);
        GetAbsent(m[1..], u);
      }
    }
  }

  /** The same for creditors, above one cent. */
  lemma {:induction false} CreditorsOf(m: BalanceMap, u: UserId)
    requires Distinct(m)
    ensures AmountFor(Creditors(m), u) == if Get(m, u) > Tolerance then Get(m, u) else 0
    ensures u in Ids(Creditors(m)) <==> Get(m, u) > Tolerance
  {
    if |m| > 0 {
      assert Distinct(m[1..]);
      CreditorsOf(m[1..], u);
      var head: seq<Party> := if m[0].1 > Tolerance then [(m[0].0, m[0].1)] else [];
      AmountForAppend(head, Creditors(m[1..]), u);
      IdsAppend(head, Creditors(m[1..]));
      if m[0].0 == u {
        KeysOfTail(m);
        GetAbsent(m[1..], u);
      }
    }
  }

  /** The first key of a map without repeats does not occur in its tail. */
  lemma KeysOfTail(m: BalanceMap)
    requires Distinct(m) && |m| > 0
    ensures m[0].0 !in Keys(m[1..])
  {
    assert Distinct(m[1..]);
    if m[0].0 in Keys(m[1..]) {
      var i := KeyIndex(m[1..], m[0].0);
    }
  }

  lemma {:induction false} AmountForAppend(a: seq<Party>, b: seq<Party>, u: UserId)
    ensures AmountFor(a + b, u) == AmountFor(a, u) + AmountFor(b, u)
  {
    if |a| > 0 {
      assert (a + b)[1..] == a[1..] + b;
      AmountForAppend(a[1..], b, u);
    } else {
      assert a + b == b;
    }
  }

  lemma {:induction false} IdsAppend(a: seq<Party>, b: seq<Party>)
    ensures Ids(a + b) == Ids(a) + Ids(b)
  {
    if |a| > 0 {
      assert (a + b)[1..] == a[1..] + b;
      IdsAppend(a[1..], b);
    } else {
      assert a + b == b;
    }
  }

  /** Where a key sits in the map. */
  lemma {:induction false} KeyIndex(m: BalanceMap, k: UserId) returns (i: int)
    requires k in Keys(m)
    ensures 0 <= i < |m| && m[i].0 == k
  {
    if m[0].0 == k {
      i := 0;
    } else {
      i := KeyIndex(m[1..], k);
      i := i + 1;
    }
  }

  // ----------------------------------------------------------------- sort

  /** Ordered by magnitude, largest first. */
  predicate SortedDescending(ps: seq<Party>)
  {
    forall i, j :: 0 <= i < j < |ps| ==> ps[i].1 >= ps[j].1
  }

  /** Places `x` before the first entry that is not larger than it, so `x`
      precedes every entry of equal magnitude. */
  function Insert(x: Party, t: seq<Party>): (r: seq<Party>)
    ensures |r| == |t| + 1
    ensures multiset(r) == multiset([x] + t)
  {
    if |t| == 0 || t[0].1 <= x.1 then [x] + t
    else
      assert t == [t[0]] + t[1..];
      [t[0]] + Insert(x, t[1..])
  }

  /** Inserting under a common upper bound stays under it. */
  lemma {:induction false} InsertBounded(x: Party, t: seq<Party>, b: int)
    requires x.1 <= b
    requires forall k :: 0 <= k < |t| ==> t[k].1 <= b
    ensures forall k :: 0 <= k < |Insert(x, t)| ==> Insert(x, t)[k].1 <= b
  {
    if |t| > 0 && t[0].1 > x.1 {
      InsertBounded(x, t[1..], b);
    }
  }

  lemma {:induction false} InsertSorted(x: Party, t: seq<Party>)
    requires SortedDescending(t)
    ensures SortedDescending(Insert(x, t))
  {
    if |t| > 0 && t[0].1 > x.1 {
      var rest := Insert(x, t[1..]);
      InsertSorted(x, t[1..]);
      InsertBounded(x, t[1..], t[0].1);
      var r := [t[0]] + rest;
      assert Insert(x, t) == r;
      forall i, j | 0 <= i < j < |r|
        ensures r[i].1 >= r[j].1
      {
        if i > 0 {
          assert r[i] == rest[i - 1] && r[j] == rest[j - 1];
        } else {
          assert r[j] == rest[j - 1];
        }
      }
    }
  }

  /** `sort(key=magnitude, reverse=True)`: a stable sort, largest first. */
  function SortDescending(ps: seq<Party>): (r: seq<Party>)
    ensures |r| == |ps|
    ensures multiset(r) == multiset(ps)
    ensures SortedDescending(r)
  {
    if |ps| == 0 then []
    else
      assert ps == [ps[0]] + ps[1..];
      InsertSorted(ps[0], SortDescending(ps[1..]));
      Insert(ps[0], SortDescending(ps[1..]))
  }

  /** The parties of magnitude `v`, in order. */
  function OfMagnitude(ps: seq<Party>, v: int): seq<Party>
  {
    if |ps| == 0 then []
    else (if ps[0].1 == v then [ps[0]] else []) + OfMagnitude(ps[1..], v)
  }

  lemma {:induction false} InsertOfMagnitude(x: Party, t: seq<Party>, v: int)
    ensures OfMagnitude(Insert(x, t), v) == OfMagnitude([x] + t, v)
  {
    if |t| > 0 && t[0].1 > x.1 {
      InsertOfMagnitude(x, t[1..], v);
      assert ([x] + t)[1..] == t;
      assert ([x] + t[1..])[1..] == t[1..];
      assert ([t[0]] + Insert(x, t[1..]))[1..] == Insert(x, t[1..]);
    }
  }

  /** The sort is stable: parties of equal magnitude keep their map order. */
  lemma {:induction false} SortDescendingStable(ps: seq<Party>, v: int)
    ensures OfMagnitude(SortDescending(ps), v) == OfMagnitude(ps, v)
  {
    if |ps| > 0 {
      SortDescendingStable(ps[1..], v);
      InsertOfMagnitude(ps[0], SortDescending(ps[1..]), v);
      assert ([ps[0]] + SortDescending(ps[1..]))[1..] == SortDescending(ps[1..]);
    }
  }

  // -------------------------------------------------------------- ties

  /** Where a user below minus one cent sits among the debtors. */
  lemma {:induction false} DebtorIndex(m: BalanceMap, p: int) returns (i: int)
    requires 0 <= p < |m| && m[p].1 < -Tolerance
    ensures 0 <= i < |Debtors(m)| && Debtors(m)[i] == (m[p].0, -m[p].1)
  {
    var head: seq<Party> := if m[0].1 < -Tolerance then [(m[0].0, -m[0].1)] else [];
    assert Debtors(m) == head + Debtors(m[1..]);
    if p == 0 {
      i := 0;
    } else {
      i := DebtorIndex(m[1..], p - 1);
      i := |head| + i;
    }
  }

  /** The debtors keep map order. */
  lemma {:induction false} DebtorPair(m: BalanceMap, p: int, q: int) returns (i: int, j: int)
    requires 0 <= p < q < |m| && m[p].1 < -Tolerance && m[q].1 < -Tolerance
    ensures 0 <= i < j < |Debtors(m)|
    ensures Debtors(m)[i] == (m[p].0, -m[p].1) && Debtors(m)[j] == (m[q].0, -m[q].1)
  {
    var head: seq<Party> := if m[0].1 < -Tolerance then [(m[0].0, -m[0].1)] else [];
    assert Debtors(m) == head + Debtors(m[1..]);
    if p == 0 {
      i := 0;
      j := DebtorIndex(m[1..], q - 1);
      j := 1 + j;
    } else {
      i, j := DebtorPair(m[1..], p - 1, q - 1);
      i, j := |head| + i, |head| + j;
    }
  }

  /** Where a user above one cent sits among the creditors. */
  lemma {:induction false} CreditorIndex(m: BalanceMap, p: int) returns (i: int)
    requires 0 <= p < |m| && m[p].1 > Tolerance
    ensures 0 <= i < |Creditors(m)| && Creditors(m)[i] == m[p]
  {
    var head: seq<Party> := if m[0].1 > Tolerance then [(m[0].0, m[0].1)] else [];
    assert Creditors(m) == head + Creditors(m[1..]);
    if p == 0 {
      i := 0;
    } else {
      i := CreditorIndex(m[1..], p - 1);
      i := |head| + i;
    }
  }

  /** The creditors keep map order. */
  lemma {:induction false} CreditorPair(m: BalanceMap, p: int, q: int) returns (i: int, j: int)
    requires 0 <= p < q < |m| && m[p].1 > Tolerance && m[q].1 > Tolerance
    ensures 0 <= i < j < |Creditors(m)|
    ensures Creditors(m)[i] == m[p] && Creditors(m)[j] == m[q]
  {
    var head: seq<Party> := if m[0].1 > Tolerance then [(m[0].0, m[0].1)] else [];
    assert Creditors(m) == head + Creditors(m[1..]);
    if p == 0 {
      i := 0;
      j := CreditorIndex(m[1..], q - 1);
      j := 1 + j;
    } else {
      i, j := CreditorPair(m[1..], p - 1, q - 1);
      i, j := |head| + i, |head| + j;
    }
  }

  /** Where a party of magnitude `v` sits among those of that magnitude. */
  lemma {:induction false} OfMagnitudeIndex(ps: seq<Party>, v: int, p: int) returns (i: int)
    requires 0 <= p < |ps| && ps[p].1 == v
    ensures 0 <= i < |OfMagnitude(ps, v)| && OfMagnitude(ps, v)[i] == ps[p]
  {
    var head: seq<Party> := if ps[0].1 == v then [ps[0]] else [];
    assert OfMagnitude(ps, v) == head + OfMagnitude(ps[1..], v);
    if p == 0 {
      i := 0;
    } else {
      i := OfMagnitudeIndex(ps[1..], v, p - 1);
      i := |head| + i;
    }
  }

  /** Two parties of magnitude `v` keep their order among those of that
      magnitude. */
  lemma {:induction false} OfMagnitudePair(ps: seq<Party>, v: int, p: int, q: int) returns (i: int, j: int)
    requires 0 <= p < q < |ps| && ps[p].1 == v && ps[q].1 == v
    ensures 0 <= i < j < |OfMagnitude(ps, v)|
    ensures OfMagnitude(ps, v)[i] == ps[p] && OfMagnitude(ps, v)[j] == ps[q]
  {
    var head: seq<Party> := if ps[0].1 == v then [ps[0]] else [];
    assert OfMagnitude(ps, v) == head + OfMagnitude(ps[1..], v);
    if p == 0 {
      i := 0;
      j := OfMagnitudeIndex(ps[1..], v, q - 1);
      j := 1 + j;
    } else {
      i, j := OfMagnitudePair(ps[1..], v, p - 1, q - 1);
      i, j := |head| + i, |head| + j;
    }
  }

  /** An entry of the magnitude-`v` parties comes from some position of
      the list. */
  lemma {:induction false} FromMagnitudeIndex(ps: seq<Party>, v: int, i: int) returns (p: int)
    requires 0 <= i < |OfMagnitude(ps, v)|
    ensures 0 <= p < |ps| && ps[p] == OfMagnitude(ps, v)[i]
  {
    var head: seq<Party> := if ps[0].1 == v then [ps[0]] else [];
    assert OfMagnitude(ps, v) == head + OfMagnitude(ps[1..], v);
    if i < |head| {
      p := 0;
    } else {
      p := FromMagnitudeIndex(ps[1..], v, i - |head|);
      p := p + 1;
    }
  }

  /** Two entries of the magnitude-`v` parties come, in the same order, from
      two positions of the list. */
  lemma {:induction false} FromMagnitudePair(ps: seq<Party>, v: int, i: int, j: int) returns (p: int, q: int)
    requires 0 <= i < j < |OfMagnitude(ps, v)|
    ensures 0 <= p < q < |ps|
    ensures ps[p] == OfMagnitude(ps, v)[i] && ps[q] == OfMagnitude(ps, v)[j]
  {
    var head: seq<Party> := if ps[0].1 == v then [ps[0]] else [];
    assert OfMagnitude(ps, v) == head + OfMagnitude(ps[1..], v);
    if i < |head| {
      p := 0;
      q := FromMagnitudeIndex(ps[1..], v, j - 1);
      q := q + 1;
    } else {
      p, q := FromMagnitudePair(ps[1..], v, i - |head|, j - |head|);
      p, q := p + 1, q + 1;
    }
  }

  /** A stable sort keeps two parties of equal magnitude in list order. */
  lemma SortKeepsTie(ps: seq<Party>, p: int, q: int) returns (i: int, j: int)
    requires 0 <= p < q < |ps| && ps[p].1 == ps[q].1
    ensures 0 <= i < j < |SortDescending(ps)|
    ensures SortDescending(ps)[i] == ps[p] && SortDescending(ps)[j] == ps[q]
  {
    var v := ps[p].1;
    var a, b := OfMagnitudePair(ps, v, p, q);
    SortDescendingStable(ps, v);
    i, j := FromMagnitudePair(SortDescending(ps), v, a, b);
  }

  /** Of two users who owe the same amount, the one who comes first in the
      map is paid from first. */
  lemma DebtorTieOrder(m: BalanceMap, p: int, q: int)
    requires 0 <= p < q < |m| && m[p].1 == m[q].1 < -Tolerance
    ensures exists i, j :: 0 <= i < j < |SortDescending(Debtors(m))| &&
              SortDescending(Debtors(m))[i].0 == m[p].0 && SortDescending(Debtors(m))[j].0 == m[q].0
  {
    var a, b := DebtorPair(m, p, q);
    var i, j := SortKeepsTie(Debtors(m), a, b);
    assert SortDescending(Debtors(m))[i].0 == m[p].0;
  }

  /** Of two users owed the same amount, the one who comes first in the map
      is paid first. */
  lemma CreditorTieOrder(m: BalanceMap, p: int, q: int)
    requires 0 <= p < q < |m| && m[p].1 == m[q].1 > Tolerance
    ensures exists i, j :: 0 <= i < j < |SortDescending(Creditors(m))| &&
              SortDescending(Creditors(m))[i].0 == m[p].0 && SortDescending(Creditors(m))[j].0 == m[q].0
  {
    var a, b := CreditorPair(m, p, q);
    var i, j := SortKeepsTie(Creditors(m), a, b);
    assert SortDescending(Creditors(m))[i].0 == m[p].0;
  }

  lemma {:induction false} InsertAmounts(x: Party, t: seq<Party>, u: UserId)
    ensures AmountFor(Insert(x, t), u) == AmountFor([x] + t, u)
    ensures Magnitude(Insert(x, t)) == x.1 + Magnitude(t)
    ensures Ids(Insert(x, t)) == Ids([x] + t)
  {
    if |t| > 0 && t[0].1 > x.1 {
      InsertAmounts(x, t[1..], u);
      assert ([x] + t)[1..] == t;
      assert ([x] + t[1..])[1..] == t[1..];
      assert ([t[0]] + Insert(x, t[1..]))[1..] == Insert(x, t[1..]);
    } else {
      assert ([x] + t)[1..] == t;
    }
  }

  /** Sorting does not change who is listed, for how much. */
  lemma SortDescendingAmounts(ps: seq<Party>, u: UserId)
    ensures AmountFor(SortDescending(ps), u) == AmountFor(ps, u)
    ensures Magnitude(SortDescending(ps)) == Magnitude(ps)
    ensures Ids(SortDescending(ps)) == Ids(ps)
  {
    SortAmountFor(ps, u);
    SortMagnitude(ps);
    SortIds(ps);
  }

  lemma {:induction false} SortAmountFor(ps: seq<Party>, u: UserId)
    ensures AmountFor(SortDescending(ps), u) == AmountFor(ps, u)
  {
    if |ps| > 0 {
      var s := SortDescending(ps[1..]);
      assert SortDescending(ps) == Insert(ps[0], s);
      SortAmountFor(ps[1..], u);
      InsertAmounts(ps[0], s, u);
      assert ([ps[0]] + s)[1..] == s;
    }
  }

  lemma {:induction false} SortMagnitude(ps: seq<Party>)
    ensures Magnitude(SortDescending(ps)) == Magnitude(ps)
  {
    if |ps| > 0 {
      var s := SortDescending(ps[1..]);
      assert SortDescending(ps) == Insert(ps[0], s);
      SortMagnitude(ps[1..]);
      InsertAmounts(ps[0], s, "");
    }
  }

  lemma {:induction false} SortIds(ps: seq<Party>)
    ensures Ids(SortDescending(ps)) == Ids(ps)
  {
    if |ps| > 0 {
      var s := SortDescending(ps[1..]);
      assert SortDescending(ps) == Insert(ps[0], s);
      SortIds(ps[1..]);
      InsertAmounts(ps[0], s, "");
      assert ([ps[0]] + s)[1..] == s;
    }
  }

  lemma SortDescendingOutstanding(ps: seq<Party>)
    requires AllOutstanding(ps)
    ensures AllOutstanding(SortDescending(ps))
  {
    var r := SortDescending(ps);
    forall i | 0 <= i < |r|
      ensures r[i].1 >= Tolerance
    {
      assert r[i] in multiset(r);
      assert r[i] in multiset(ps);
    }
  }

  // -------------------------------------------------------------- matching

  /** One step of the sweep: what is left of the head party after `amount`
      is settled. A party below one cent is done and the next one is loaded
      at its full magnitude. */
  function AfterPaying(ps: seq<Party>, amount: int): seq<Party>
    requires |ps| > 0
  {
    if ps[0].1 - amount < Tolerance then ps[1..] else [(ps[0].0, ps[0].1 - amount)] + ps[1..]
  }

  /** The greedy sweep as a recursion: the heads of `ds` and `cs` carry the
      remaining debt and credit of the current debtor and creditor. */
  function Settle(ds: seq<Party>, cs: seq<Party>): seq<Transfer>
    decreases |ds| + |cs|
  {
    if |ds| == 0 || |cs| == 0 then []
    else
      var amount := Min(ds[0].1, cs[0].1);
      [Transfer(ds[0].0, cs[0].0, amount)] + Settle(AfterPaying(ds, amount), AfterPaying(cs, amount))
  }

  /** `simplify_debts`. */
  function Simplify(m: BalanceMap): seq<Transfer>
  {
    Settle(SortDescending(Debtors(m)), SortDescending(Creditors(m)))
  }

  /** Each step exhausts at least one side, so the sweep emits at most one
      transfer fewer than there are parties, and none when a side is
      empty. */
  lemma {:induction false} SettleCount(ds: seq<Party>, cs: seq<Party>)
    ensures |ds| > 0 && |cs| > 0 ==> |Settle(ds, cs)| <= |ds| + |cs| - 1
    ensures |ds| == 0 || |cs| == 0 ==> |Settle(ds, cs)| == 0
    decreases |ds| + |cs|
  {
    if |ds| > 0 && |cs| > 0 {
      var amount := Min(ds[0].1, cs[0].1);
      SettleCount(AfterPaying(ds, amount), AfterPaying(cs, amount));
    }
  }

  /** Every transfer goes from a listed debtor to a listed creditor and
      moves at least one cent. */
  lemma {:induction false} SettleTransfers(ds: seq<Party>, cs: seq<Party>)
    requires AllOutstanding(ds) && AllOutstanding(cs)
    ensures forall t :: t in Settle(ds, cs) ==> t.from in Ids(ds) && t.to in Ids(cs) && t.amount >= Tolerance
    decreases |ds| + |cs|
  {
    if |ds| > 0 && |cs| > 0 {
      var amount := Min(ds[0].1, cs[0].1);
      var ds', cs' := AfterPaying(ds, amount), AfterPaying(cs, amount);
      assert AllOutstanding(ds') && AllOutstanding(cs');
      SettleTransfers(ds', cs');
      assert Ids(ds) == {ds[0].0} + Ids(ds[1..]);
      assert Ids(cs) == {cs[0].0} + Ids(cs[1..]);
      assert Ids(ds') <= Ids(ds) by {
        if ds' != ds[1..] {
          assert ds'[1..] == ds[1..];
        }
      }
      assert Ids(cs') <= Ids(cs) by {
        if cs' != cs[1..] {
          assert cs'[1..] == cs[1..];
        }
      }
    }
  }

  /** Cents sent by `u`. */
  function SentBy(ts: seq<Transfer>, u: UserId): int
  {
    if |ts| == 0 then 0 else (if ts[0].from == u then ts[0].amount else 0) + SentBy(ts[1..], u)
  }

  /** Cents received by `u`. */
  function ReceivedBy(ts: seq<Transfer>, u: UserId): int
  {
    if |ts| == 0 then 0 else (if ts[0].to == u then ts[0].amount else 0) + ReceivedBy(ts[1..], u)
  }

  lemma AfterPayingAmounts(ps: seq<Party>, amount: int, u: UserId)
    requires |ps| > 0 && 0 <= amount <= ps[0].1
    requires ps[0].1 - amount < Tolerance ==> ps[0].1 == amount
    ensures AmountFor(AfterPaying(ps, amount), u) == AmountFor(ps, u) - (if ps[0].0 == u then amount else 0)
    ensures Magnitude(AfterPaying(ps, amount)) == Magnitude(ps) - amount
  {
    if ps[0].1 - amount >= Tolerance {
      assert AfterPaying(ps, amount)[1..] == ps[1..];
    }
  }

  /** No one sends more than they owe or receives more than they are owed;
      when debts and credits balance, everyone sends or receives exactly
      their amount. */
  lemma {:induction false} SettleAmounts(ds: seq<Party>, cs: seq<Party>, u: UserId)
    requires AllOutstanding(ds) && AllOutstanding(cs)
    ensures 0 <= SentBy(Settle(ds, cs), u) <= AmountFor(ds, u)
    ensures 0 <= ReceivedBy(Settle(ds, cs), u) <= AmountFor(cs, u)
    ensures Magnitude(ds) == Magnitude(cs) ==>
              SentBy(Settle(ds, cs), u) == AmountFor(ds, u) && ReceivedBy(Settle(ds, cs), u) == AmountFor(cs, u)
    decreases |ds| + |cs|
  {
    if |ds| > 0 && |cs| > 0 {
      var amount := Min(ds[0].1, cs[0].1);
      var ds', cs' := AfterPaying(ds, amount), AfterPaying(cs, amount);
      assert AllOutstanding(ds') && AllOutstanding(cs');
      AfterPayingAmounts(ds, amount, u);
      AfterPayingAmounts(cs, amount, u);
      SettleAmounts(ds', cs', u);
    } else {
      AmountForNonNegative(ds, u);
      AmountForNonNegative(cs, u);
      if Magnitude(ds) == Magnitude(cs) {
        AmountForEmpty(ds, u);
        AmountForEmpty(cs, u);
      }
    }
  }

  lemma {:induction false} AmountForNonNegative(ps: seq<Party>, u: UserId)
    requires AllOutstanding(ps)
    ensures 0 <= AmountFor(ps, u) <= Magnitude(ps)
  {
    if |ps| > 0 {
      AmountForNonNegative(ps[1..], u);
    }
  }

  /** Nothing is listed when the total magnitude is zero. */
  lemma AmountForEmpty(ps: seq<Party>, u: UserId)
    requires AllOutstanding(ps) && Magnitude(ps) <= 0
    ensures AmountFor(ps, u) == 0
  {
    AmountForNonNegative(ps, u);
  }

  // ------------------------------------------------- the whole simplifier

  lemma DebtorsOutstanding(m: BalanceMap)
    ensures AllOutstanding(SortDescending(Debtors(m)))
    ensures AllOutstanding(SortDescending(Creditors(m)))
  {
    SortDescendingOutstanding(Debtors(m));
    SortDescendingOutstanding(Creditors(m));
  }

  /** At most (#debtors + #creditors - 1) transfers, and none when either
      side is empty. */
  lemma SimplifyCount(m: BalanceMap)
    ensures var nd, nc := |Debtors(m)|, |Creditors(m)|;
            && (nd > 0 && nc > 0 ==> |Simplify(m)| <= nd + nc - 1)
            && (nd == 0 || nc == 0 ==> Simplify(m) == [])
  {
    SettleCount(SortDescending(Debtors(m)), SortDescending(Creditors(m)));
  }

  /** Only users more than one cent in debt pay, only users more than one
      cent in credit are paid, and every transfer moves at least a cent; a
      balance within a cent of zero never appears. */
  lemma SimplifyTransfers(m: BalanceMap)
    requires Distinct(m)
    ensures forall t :: t in Simplify(m) ==>
              Get(m, t.from) < -Tolerance && Get(m, t.to) > Tolerance && t.amount >= Tolerance
  {
    var ds, cs := SortDescending(Debtors(m)), SortDescending(Creditors(m));
    DebtorsOutstanding(m);
    SettleTransfers(ds, cs);
    forall t | t in Simplify(m)
      ensures Get(m, t.from) < -Tolerance && Get(m, t.to) > Tolerance
    {
      SortDescendingAmounts(Debtors(m), t.from);
      SortDescendingAmounts(Creditors(m), t.to);
      DebtorsOf(m, t.from);
      CreditorsOf(m, t.to);
    }
  }

  /** When no balance is off by more than a cent there is nothing to do. */
  lemma SimplifyAllSettled(m: BalanceMap)
    requires forall i :: 0 <= i < |m| ==> -Tolerance <= m[i].1 <= Tolerance
    ensures Simplify(m) == []
  {
    NothingOutstanding(m);
  }

  lemma {:induction false} NothingOutstanding(m: BalanceMap)
    requires forall i :: 0 <= i < |m| ==> -Tolerance <= m[i].1 <= Tolerance
    ensures Debtors(m) == [] && Creditors(m) == []
  {
    if |m| > 0 {
      NothingOutstanding(m[1..]);
    }
  }

  /** The balance map after the test suite's check loop: each transfer adds
      its amount to the payer and subtracts it from the receiver. */
  function ApplyTransfers(m: BalanceMap, ts: seq<Transfer>): BalanceMap
    decreases |ts|
  {
    if |ts| == 0 then m
    else ApplyTransfers(Add(Add(m, ts[0].from, ts[0].amount), ts[0].to, -ts[0].amount), ts[1..])
  }

  lemma {:induction false} ApplyTransfersGet(m: BalanceMap, ts: seq<Transfer>, u: UserId)
    ensures Get(ApplyTransfers(m, ts), u) == Get(m, u) + SentBy(ts, u) - ReceivedBy(ts, u)
    decreases |ts|
  {
    if |ts| > 0 {
      var t := ts[0];
      var paid := Add(Add(m, t.from, t.amount), t.to, -t.amount);
      ApplyTransferGet(m, t, u);
      ApplyTransfersGet(paid, ts[1..], u);
    }
  }

  lemma ApplyTransferGet(m: BalanceMap, t: Transfer, u: UserId)
    ensures Get(Add(Add(m, t.from, t.amount), t.to, -t.amount), u) ==
              Get(m, u) + (if t.from == u then t.amount else 0) - (if t.to == u then t.amount else 0)
  {
    var sent := Add(m, t.from, t.amount);
    GetAdd(m, t.from, t.amount, u);
    GetAdd(sent, t.to, -t.amount, u);
  }


  /** No debtor sends more than it owes and no creditor receives more than
      it is owed; settled users neither send nor receive. */
  lemma SimplifyWithinBalances(m: BalanceMap, u: UserId)
    requires Distinct(m)
    ensures 0 <= SentBy(Simplify(m), u) <= (if Get(m, u) < -Tolerance then -Get(m, u) else 0)
    ensures 0 <= ReceivedBy(Simplify(m), u) <= (if Get(m, u) > Tolerance then Get(m, u) else 0)
  {
    DebtorsOutstanding(m);
    SettleAmounts(SortDescending(Debtors(m)), SortDescending(Creditors(m)), u);
    SortDescendingAmounts(Debtors(m), u);
    SortDescendingAmounts(Creditors(m), u);
    DebtorsOf(m, u);
    CreditorsOf(m, u);
  }

  /** When the debts listed equal the credits listed, applying the transfers
      brings every debtor and every creditor to exactly zero and leaves the
      settled balances as they were. */
  lemma SimplifySettlesEveryone(m: BalanceMap, u: UserId)
    requires Distinct(m)
    requires Magnitude(Debtors(m)) == Magnitude(Creditors(m))
    ensures Get(ApplyTransfers(m, Simplify(m)), u) ==
              if -Tolerance <= Get(m, u) <= Tolerance then Get(m, u) else 0
  {
    var ts := Simplify(m);
    SimplifyPaysListed(m, u);
    DebtorsOf(m, u);
    CreditorsOf(m, u);
    ApplyTransfersGet(m, ts, u);
  }

  /** When the debts listed equal the credits listed, every debtor sends
      exactly what it is listed for and every creditor receives exactly
      that. */
  lemma SimplifyPaysListed(m: BalanceMap, u: UserId)
    requires Magnitude(Debtors(m)) == Magnitude(Creditors(m))
    ensures SentBy(Simplify(m), u) == AmountFor(Debtors(m), u)
    ensures ReceivedBy(Simplify(m), u) == AmountFor(Creditors(m), u)
  {
    var ds, cs := SortDescending(Debtors(m)), SortDescending(Creditors(m));
    DebtorsOutstanding(m);
    SortMagnitude(Debtors(m));
    SortMagnitude(Creditors(m));
    SortAmountFor(Debtors(m), u);
    SortAmountFor(Creditors(m), u);
    SettleAmounts(ds, cs, u);
  }


  /** No balance sits at exactly one cent either way: every entry is either
      zero or outstanding. */
  predicate NoStrayCents(m: BalanceMap)
  {
    forall i :: 0 <= i < |m| ==> m[i].1 == 0 || Abs(m[i].1) > Tolerance
  }

  /** Without stray cents, the total of a map is what the creditors are owed
      minus what the debtors owe. */
  lemma {:induction false} TotalIsCreditMinusDebt(m: BalanceMap)
    requires NoStrayCents(m)
    ensures Total(m) == Magnitude(Creditors(m)) - Magnitude(Debtors(m))
  {
    if |m| > 0 {
      TotalIsCreditMinusDebt(m[1..]);
      var d: seq<Party> := if m[0].1 < -Tolerance then [(m[0].0, -m[0].1)] else [];
      var c: seq<Party> := if m[0].1 > Tolerance then [(m[0].0, m[0].1)] else [];
      assert Debtors(m) == d + Debtors(m[1..]);
      assert Creditors(m) == c + Creditors(m[1..]);
      MagnitudeAppend(d, Debtors(m[1..]));
      MagnitudeAppend(c, Creditors(m[1..]));
    }
  }

  lemma {:induction false} MagnitudeAppend(a: seq<Party>, b: seq<Party>)
    ensures Magnitude(a + b) == Magnitude(a) + Magnitude(b)
  {
    if |a| > 0 {
      assert (a + b)[1..] == a[1..] + b;
      MagnitudeAppend(a[1..], b);
    } else {
      assert a + b == b;
    }
  }

  /** A balance map that sums to zero and has no stray cents is settled
      completely: after the transfers every user's balance is exactly zero. */
  lemma SimplifyZeroesZeroSumMap(m: BalanceMap, u: UserId)
    requires Distinct(m) && NoStrayCents(m) && Total(m) == 0
    ensures Get(ApplyTransfers(m, Simplify(m)), u) == 0
  {
    TotalIsCreditMinusDebt(m);
    SimplifySettlesEveryone(m, u);
    if u in Keys(m) {
      var i := KeyIndex(m, u);
      GetItem(m, i);
    } else {
      GetAbsent(m, u);
    }
  }

  // ------------------------------------------------------ the two pointers

  /** The parties still to be matched when the pointer is at `i` and the
      current party has `current` left. */
  function Remaining(ps: seq<Party>, i: int, current: int): seq<Party>
    requires 0 <= i <= |ps|
  {
    if i < |ps| then [(ps[i].0, current)] + ps[i + 1..] else []
  }

  /** Where a pointer stands after `amount` is settled against the current
      party: it moves on once less than a cent is left. */
  function NextIndex(ps: seq<Party>, i: int, current: int, amount: int): int
  {
    if current - amount < Tolerance then i + 1 else i
  }

  /** The current amount after `amount` is settled: the next party's full
      magnitude when the pointer moved on to one, the remainder otherwise. */
  function NextCurrent(ps: seq<Party>, i: int, current: int, amount: int): int
    requires 0 <= i < |ps|
  {
    if current - amount < Tolerance && i + 1 < |ps| then ps[i + 1].1 else current - amount
  }

  lemma AdvancePointer(ps: seq<Party>, i: int, current: int, amount: int)
    requires 0 <= i < |ps|
    ensures 0 <= NextIndex(ps, i, current, amount) <= |ps|
    ensures AfterPaying(Remaining(ps, i, current), amount)
            == Remaining(ps, NextIndex(ps, i, current, amount), NextCurrent(ps, i, current, amount))
  {
    if i + 1 < |ps| {
      assert ps[i + 1..] == [ps[i + 1]] + ps[i + 2..];
    }
  }

  /** The loop invariant survives one iteration: one iteration is one
      unfolding of `Settle`. */
  lemma SweepInvariant(ds: seq<Party>, cs: seq<Party>, i: int, j: int, debt: int, credit: int,
                       i': int, j': int, debt': int, credit': int, done: seq<Transfer>)
    requires 0 <= i < |ds| && 0 <= j < |cs|
    requires i' == NextIndex(ds, i, debt, Min(debt, credit)) && debt' == NextCurrent(ds, i, debt, Min(debt, credit))
    requires j' == NextIndex(cs, j, credit, Min(debt, credit)) && credit' == NextCurrent(cs, j, credit, Min(debt, credit))
    requires done + Settle(Remaining(ds, i, debt), Remaining(cs, j, credit)) == Settle(ds, cs)
    ensures 0 <= i' <= |ds| && 0 <= j' <= |cs|
    ensures (done + [Transfer(ds[i].0, cs[j].0, Min(debt, credit))])
            + Settle(Remaining(ds, i', debt'), Remaining(cs, j', credit')) == Settle(ds, cs)
  {
    var amount := Min(debt, credit);
    AdvancePointer(ds, i, debt, amount);
    AdvancePointer(cs, j, credit, amount);
    var t := Transfer(ds[i].0, cs[j].0, amount);
    var rest := Settle(Remaining(ds, i', debt'), Remaining(cs, j', credit'));
    assert Settle(Remaining(ds, i, debt), Remaining(cs, j, credit)) == [t] + rest;
    assert (done + [t]) + rest == done + ([t] + rest);
  }

  /** One side's bookkeeping after a transfer: the amount is taken off the
      current party, and once less than a cent is left the pointer moves on
      to the next party, whose full magnitude becomes current. */
  method Advance(ps: seq<Party>, i: int, current: int, amount: int) returns (i': int, current': int)
    requires 0 <= i < |ps|
    ensures i' == NextIndex(ps, i, current, amount) && current' == NextCurrent(ps, i, current, amount)
    ensures i' == i || i' == i + 1
  {
    i', current' := i, current - amount;
    if current' < Tolerance {
      i' := i' + 1;
      if i' < |ps| {
        current' := ps[i'].1;
      }
    }
  }

  /** The loop of `simplify_debts`: two indices sweep the sorted lists
      while the current debt and credit are tracked separately. */
  method Sweep(debtors: seq<Party>, creditors: seq<Party>) returns (transactions: seq<Transfer>)
    ensures transactions == Settle(debtors, creditors)
  {
    transactions := [];
    var i, j := 0, 0;
    var currentDebt := if |debtors| > 0 then debtors[0].1 else 0;
    var currentCredit := if |creditors| > 0 then creditors[0].1 else 0;
    assert Remaining(debtors, 0, currentDebt) == debtors;
    assert Remaining(creditors, 0, currentCredit) == creditors;
    assert transactions + Settle(debtors, creditors) == Settle(debtors, creditors);
    while i < |debtors| && j < |creditors|
      invariant 0 <= i <= |debtors| && 0 <= j <= |creditors|
      invariant transactions + Settle(Remaining(debtors, i, currentDebt), Remaining(creditors, j, currentCredit))
                == Settle(debtors, creditors)
      decreases |debtors| - i + |creditors| - j
    {
      ghost var i0, j0, debt0, credit0, done := i, j, currentDebt, currentCredit, transactions;
      var debtor := debtors[i].0;
      var creditor := creditors[j].0;
      var amount := Min(currentDebt, currentCredit);
      transactions := transactions + [Transfer(debtor, creditor, amount)];
      i, currentDebt := Advance(debtors, i, currentDebt, amount);
      j, currentCredit := Advance(creditors, j, currentCredit, amount);
      SweepInvariant(debtors, creditors, i0, j0, debt0, credit0, i, j, currentDebt, currentCredit, done);
    }
    assert Settle(Remaining(debtors, i, currentDebt), Remaining(creditors, j, currentCredit)) == [];
  }

  /** `simplify_debts`: partition, sort both sides largest first, sweep. */
  method SimplifyDebts(m: BalanceMap) returns (transactions: seq<Transfer>)
    ensures transactions == Simplify(m)
    ensures |Debtors(m)| > 0 && |Creditors(m)| > 0 ==>
              |transactions| <= |Debtors(m)| + |Creditors(m)| - 1
    ensures Distinct(m) ==> forall t :: t in transactions ==>
              Get(m, t.from) < -Tolerance && Get(m, t.to) > Tolerance && t.amount >= Tolerance
  {
    var debtors := SortDescending(Debtors(m));
    var creditors := SortDescending(Creditors(m));
    transactions := Sweep(debtors, creditors);
    SimplifyCount(m);
    if Distinct(m) {
      SimplifyTransfers(m);
    }
  }
}
