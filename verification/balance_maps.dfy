/** A Python `dict` from user id to an amount of cents, modelled as the
    sequence of its (key, value) items in insertion order. Assigning to an
    existing key keeps its position; assigning to a new key appends it, so
    iteration order is the order of first appearance. */
module BalanceMaps {
  import opened Money

  type UserId = string

  type BalanceMap = seq<(UserId, int)>

  function Keys(m: BalanceMap): set<UserId>
  {
    if |m| == 0 then {} else {m[0].0} + Keys(m[1..])
  }

  /** No key occurs twice, as in any dictionary. */
  predicate Distinct(m: BalanceMap)
  {
    forall i, j :: 0 <= i < j < |m| ==> m[i].0 != m[j].0
  }

  /** `m.get(k, 0)`: the value stored under the first occurrence of `k`,
      or zero when `k` is absent. */
  function Get(m: BalanceMap, k: UserId): int
  {
    if |m| == 0 then 0
    else if m[0].0 == k then m[0].1
    else Get(m[1..], k)
  }

  /** In a map without repeated keys, looking up the key of an item yields
      that item's value. */
  lemma {:induction false} GetItem(m: BalanceMap, i: int)
    requires Distinct(m) && 0 <= i < |m|
    ensures Get(m, m[i].0) == m[i].1
  {
    if i > 0 {
      GetItem(m[1..], i - 1);
    }
  }

  /** An absent key reads as zero. */
  lemma {:induction false} GetAbsent(m: BalanceMap, k: UserId)
    requires k !in Keys(m)
    ensures Get(m, k) == 0
  {
    if |m| > 0 {
      GetAbsent(m[1..], k);
    }
  }

  /** `m[k] = v`. */
  function Put(m: BalanceMap, k: UserId, v: int): BalanceMap
  {
    if |m| == 0 then [(k, v)]
    else if m[0].0 == k then [(k, v)] + m[1..]
    else [m[0]] + Put(m[1..], k, v)
  }

  /** Assignment adds `k` to the keys; a present key keeps the size and an
      absent one is appended at the end. */
  lemma {:induction false} PutShape(m: BalanceMap, k: UserId, v: int)
    ensures Keys(Put(m, k, v)) == Keys(m) + {k}
    ensures k in Keys(m) ==> |Put(m, k, v)| == |m|
    ensures k !in Keys(m) ==> Put(m, k, v) == m + [(k, v)]
  {
    if |m| > 0 && m[0].0 != k {
      PutShape(m[1..], k, v);
      assert m == [m[0]] + m[1..];
    }
  }

  /** After `m[k] = v`, key `k` reads `v` and every other key reads as
      before. */
  lemma {:induction false} GetPut(m: BalanceMap, k: UserId, v: int, u: UserId)
    ensures Get(Put(m, k, v), u) == if u == k then v else Get(m, u)
  {
    if |m| > 0 && m[0].0 != k {
      GetPut(m[1..], k, v, u);
    }
  }

  /** Assignment never moves or renames an existing item. */
  lemma {:induction false} PutKeepsKeys(m: BalanceMap, k: UserId, v: int)
    ensures |Put(m, k, v)| >= |m|
    ensures forall i :: 0 <= i < |m| ==> Put(m, k, v)[i].0 == m[i].0
    ensures forall i :: |m| <= i < |Put(m, k, v)| ==> Put(m, k, v)[i].0 == k
  {
    if |m| > 0 && m[0].0 != k {
      PutKeepsKeys(m[1..], k, v);
    }
  }

  lemma {:induction false} PutDistinct(m: BalanceMap, k: UserId, v: int)
    requires Distinct(m)
    ensures Distinct(Put(m, k, v))
  {
    if |m| > 0 && m[0].0 != k {
      PutDistinct(m[1..], k, v);
      PutKeepsKeys(m[1..], k, v);
    }
  }

  // ------------------------------------------------------ iteration order

  /** The keys of a map, in iteration order. */
  function KeySeq(m: BalanceMap): (r: seq<UserId>)
    ensures |r| == |m|
    ensures forall i :: 0 <= i < |m| ==> r[i] == m[i].0
  {
    seq(|m|, i requires 0 <= i < |m| => m[i].0)
  }

  lemma {:induction false} KeySeqIn(m: BalanceMap, k: UserId)
    ensures k in Keys(m) <==> k in KeySeq(m)
  {
    if |m| > 0 {
      KeySeqIn(m[1..], k);
      assert KeySeq(m) == [m[0].0] + KeySeq(m[1..]);
    }
  }

  /** Remembers `x` at the end of `seen` unless it is already there. */
  function Note(seen: seq<UserId>, x: UserId): seq<UserId>
  {
    if x in seen then seen else seen + [x]
  }

  /** Notes every element of `xs`, front first: appends the ids of `xs`
      that `seen` lacks, each once, in order of first occurrence. */
  function AppendNew(seen: seq<UserId>, xs: seq<UserId>): seq<UserId>
    decreases |xs|
  {
    if |xs| == 0 then seen else AppendNew(Note(seen, xs[0]), xs[1..])
  }

  lemma AppendNewSingle(seen: seq<UserId>, x: UserId)
    ensures AppendNew(seen, [x]) == Note(seen, x)
  {
  }

  lemma {:induction false} AppendNewConcat(seen: seq<UserId>, xs: seq<UserId>, ys: seq<UserId>)
    ensures AppendNew(seen, xs + ys) == AppendNew(AppendNew(seen, xs), ys)
    decreases |xs|
  {
    if |xs| > 0 {
      var seen' := Note(seen, xs[0]);
      assert (xs + ys)[0] == xs[0];
      assert (xs + ys)[1..] == xs[1..] + ys;
      assert AppendNew(seen, xs + ys) == AppendNew(seen', xs[1..] + ys);
      assert AppendNew(seen, xs) == AppendNew(seen', xs[1..]);
      AppendNewConcat(seen', xs[1..], ys);
    } else {
      assert xs + ys == ys;
    }
  }

  /** `m[k] = m.get(k, 0) + delta`: the update every ledger step performs. */
  function Add(m: BalanceMap, k: UserId, delta: int): BalanceMap
  {
    Put(m, k, Get(m, k) + delta)
  }

  lemma AddKeys(m: BalanceMap, k: UserId, delta: int)
    ensures Keys(Add(m, k, delta)) == Keys(m) + {k}
  {
    PutShape(m, k, Get(m, k) + delta);
  }

  /** Assignment moves no key: a new key joins the iteration order at the
      end, exactly as `Note` records it. */
  lemma {:induction false} PutKeySeq(m: BalanceMap, k: UserId, v: int)
    ensures KeySeq(Put(m, k, v)) == Note(KeySeq(m), k)
  {
    PutShape(m, k, v);
    PutKeepsKeys(m, k, v);
    KeySeqIn(m, k);
    var p := Put(m, k, v);
    if k in Keys(m) {
      assert KeySeq(p) == KeySeq(m);
    } else {
      assert KeySeq(p) == KeySeq(m) + [k];
    }
  }

  /** The same for an update. */
  lemma AddKeySeq(m: BalanceMap, k: UserId, delta: int)
    ensures KeySeq(Add(m, k, delta)) == Note(KeySeq(m), k)
  {
    PutKeySeq(m, k, Get(m, k) + delta);
  }

  /** Adding under `k` changes the reading of `k` by `delta` and nothing
      else. */
  lemma {:induction false} GetAdd(m: BalanceMap, k: UserId, delta: int, u: UserId)
    ensures Get(Add(m, k, delta), u) == Get(m, u) + (if u == k then delta else 0)
  {
    GetPut(m, k, Get(m, k) + delta, u);
  }

  lemma {:induction false} AddDistinct(m: BalanceMap, k: UserId, delta: int)
    requires Distinct(m)
    ensures Distinct(Add(m, k, delta))
  {
    PutDistinct(m, k, Get(m, k) + delta);
  }

  /** `sum(m.values())`. */
  function Total(m: BalanceMap): int
  {
    if |m| == 0 then 0 else m[0].1 + Total(m[1..])
  }

  lemma {:induction false} TotalPut(m: BalanceMap, k: UserId, v: int)
    ensures Total(Put(m, k, v)) == Total(m) - Get(m, k) + v
  {
    if |m| > 0 && m[0].0 != k {
      TotalPut(m[1..], k, v);
    }
  }

  /** Adding `delta` under any key moves the total by exactly `delta`. */
  lemma {:induction false} TotalAdd(m: BalanceMap, k: UserId, delta: int)
    ensures Total(Add(m, k, delta)) == Total(m) + delta
  {
    TotalPut(m, k, Get(m, k) + delta);
  }

  /** The values of a map, in iteration order. */
  function Values(m: BalanceMap): (r: seq<int>)
    ensures |r| == |m|
    ensures forall i :: 0 <= i < |m| ==> r[i] == m[i].1
  {
    seq(|m|, i requires 0 <= i < |m| => m[i].1)
  }

  lemma {:induction false} TotalIsSumOfValues(m: BalanceMap)
    ensures Total(m) == Sum(Values(m))
  {
    if |m| > 0 {
      assert Values(m)[1..] == Values(m[1..]);
      TotalIsSumOfValues(m[1..]);
    }
  }
}
