/**
 * The balance query of the transactions repository: a reduce over every
 * stored transaction into per-type sums, then the total.
 */
module Balances {
  import opened Model

  /** The reduce's accumulator, `{income, outcome}`. */
  datatype Amounts = Amounts(income: int, outcome: int)

  datatype Balance = Balance(income: int, outcome: int, total: int)

  /** One step of the reduce: the value is added to the slot its type names. */
  function Accumulate(acc: Amounts, t: Transaction): Amounts
  {
    match t.kind
    case Income => acc.(income := acc.income + t.value)
    case Outcome => acc.(outcome := acc.outcome + t.value)
  }

  /** The reduce itself: a left fold starting from `{income: 0, outcome: 0}`. */
  function Reduce(ts: seq<Transaction>): Amounts
  {
    if ts == [] then Amounts(0, 0) else Accumulate(Reduce(ts[..|ts| - 1]), ts[|ts| - 1])
  }

  /** Reference definition: the sum of the values of exactly the transactions of type `k`. */
  function SumOf(ts: seq<Transaction>, k: Kind): int
  {
    if ts == [] then 0 else Share(ts[0], k) + SumOf(ts[1..], k)
  }

  lemma {:induction false} SumOfAppend(a: seq<Transaction>, b: seq<Transaction>, k: Kind)
    ensures SumOf(a + b, k) == SumOf(a, k) + SumOf(b, k)
  {
    if a == [] {
      assert a + b == b;
    } else {
      assert (a + b)[1..] == a[1..] + b;
      SumOfAppend(a[1..], b, k);
    }
  }

  /** The fold computes the per-type sums. */
  lemma {:induction false} ReduceIsSum(ts: seq<Transaction>)
    ensures Reduce(ts) == Amounts(SumOf(ts, Income), SumOf(ts, Outcome))
  {
    if ts != [] {
      var init, last := ts[..|ts| - 1], ts[|ts| - 1];
      assert ts == init + [last];
      ReduceIsSum(init);
      SumOfAppend(init, [last], Income);
      SumOfAppend(init, [last], Outcome);
    }
  }

  /** `getBalance`: the per-type sums and `total = income - outcome`; no transactions give zeros. */
  function BalanceOf(ts: seq<Transaction>): (b: Balance)
    ensures b.income == SumOf(ts, Income) && b.outcome == SumOf(ts, Outcome)
    ensures b.total == b.income - b.outcome
    ensures ts == [] ==> b == Balance(0, 0, 0)
  {
    ReduceIsSum(ts);
    var acc := Reduce(ts);
    Balance(acc.income, acc.outcome, acc.income - acc.outcome)
  }

  /** Storing one more transaction moves its own slot and the total by its value, and nothing else. */
  lemma {:induction false} BalanceAppend(ts: seq<Transaction>, t: Transaction)
    ensures t.kind == Income ==>
      BalanceOf(ts + [t]) == Balance(BalanceOf(ts).income + t.value, BalanceOf(ts).outcome, BalanceOf(ts).total + t.value)
    ensures t.kind == Outcome ==>
      BalanceOf(ts + [t]) == Balance(BalanceOf(ts).income, BalanceOf(ts).outcome + t.value, BalanceOf(ts).total - t.value)
  {
    SumOfAppend(ts, [t], Income);
    SumOfAppend(ts, [t], Outcome);
  }

  /** What one transaction adds to the sum of type `k`. */
  function Share(t: Transaction, k: Kind): int
  {
    if t.kind == k then t.value else 0
  }

  lemma SumOfRemove(us: seq<Transaction>, j: nat, k: Kind)
    requires j < |us|
    ensures SumOf(us, k) == Share(us[j], k) + SumOf(us[..j] + us[j + 1..], k)
  {
    var left, right := us[..j], us[j + 1..];
    assert us == left + [us[j]] + right;
    SumOfAppend(left + [us[j]], right, k);
    SumOfAppend(left, [us[j]], k);
    SumOfAppend(left, right, k);
  }

  lemma MultisetRemove(ts: seq<Transaction>, us: seq<Transaction>, j: nat)
    requires multiset(ts) == multiset(us) && ts != [] && j < |us| && us[j] == ts[0]
    ensures multiset(ts[1..]) == multiset(us[..j] + us[j + 1..])
  {
    var left, right := us[..j], us[j + 1..];
    assert us == left + [us[j]] + right;
    assert ts == [ts[0]] + ts[1..];
    calc {
      multiset(left + right);
      multiset(left) + multiset(right);
      multiset(us) - multiset{us[j]};
      multiset(ts) - multiset{ts[0]};
      multiset(ts[1..]);
    }
  }

  lemma {:induction false} SumOfPermutation(ts: seq<Transaction>, us: seq<Transaction>, k: Kind)
    requires multiset(ts) == multiset(us)
    ensures SumOf(ts, k) == SumOf(us, k)
  {
    if ts == [] {
      assert |us| == |multiset(us)| == 0;
    } else {
      assert ts[0] in multiset(us) by { assert ts[0] in multiset(ts); }
      var j :| 0 <= j < |us| && us[j] == ts[0];
      MultisetRemove(ts, us, j);
      SumOfPermutation(ts[1..], us[..j] + us[j + 1..], k);
      SumOfRemove(us, j, k);
    }
  }

  /** The balance does not depend on the order in which the store returns the transactions. */
  lemma BalancePermutation(ts: seq<Transaction>, us: seq<Transaction>)
    requires multiset(ts) == multiset(us)
    ensures BalanceOf(ts) == BalanceOf(us)
  {
    SumOfPermutation(ts, us, Income);
    SumOfPermutation(ts, us, Outcome);
  }
}
