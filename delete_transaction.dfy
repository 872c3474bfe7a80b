/**
 * The delete-transaction service as a function of the ledger state: delete
 * every stored transaction with the identifier, and fail when none was.
 */
module DeleteTransactionService {
  import opened Model

  /** The store's delete by identifier: the stored transactions without that identifier, in order. */
  function Remove(ts: seq<Transaction>, id: nat): seq<Transaction>
  {
    if ts == [] then []
    else if ts[0].id == id then Remove(ts[1..], id)
    else [ts[0]] + Remove(ts[1..], id)
  }

  /**
   * The delete keeps exactly the records with another identifier, and it
   * affects no record exactly when no stored record has the identifier.
   */
  lemma {:induction false} RemoveSpec(ts: seq<Transaction>, id: nat)
    ensures forall t :: t in Remove(ts, id) <==> t in ts && t.id != id
    ensures |Remove(ts, id)| <= |ts|
    ensures |Remove(ts, id)| == |ts| <==> !HasTransaction(ts, id)
    ensures !HasTransaction(ts, id) ==> Remove(ts, id) == ts
  {
    if ts != [] {
      RemoveSpec(ts[1..], id);
      assert ts == [ts[0]] + ts[1..];
      if ts[0].id != id {
        assert HasTransaction(ts, id) ==> HasTransaction(ts[1..], id);
      }
    }
  }

  datatype Step = Step(result: Result<()>, after: LedgerState)

  /** `execute`: the delete runs, and the count it affected decides success. */
  function Execute(s: LedgerState, id: nat): (step: Step)
    ensures step.result.Failure? <==> !HasTransaction(s.transactions, id)
    ensures step.result.Failure? ==> step.result.error == DeleteFailed && step.after == s
    ensures !HasTransaction(step.after.transactions, id)
    ensures forall t :: t in step.after.transactions <==> t in s.transactions && t.id != id
    ensures step.after.categories == s.categories
    ensures step.after.nextTransactionId == s.nextTransactionId
    ensures step.after.nextCategoryId == s.nextCategoryId
  {
    RemoveSpec(s.transactions, id);
    var remaining := Remove(s.transactions, id);
    var affected := |s.transactions| - |remaining|;
    var after := s.(transactions := remaining);
    if affected == 0 then Step(Failure(DeleteFailed), after) else Step(Success(()), after)
  }

  lemma UniqueTail(ts: seq<Transaction>)
    requires ts != [] && UniqueIds(ts)
    ensures UniqueIds(ts[1..]) && !HasTransaction(ts[1..], ts[0].id)
  {
    forall t | t in ts[1..] ensures t.id != ts[0].id {
      var k :| 0 <= k < |ts[1..]| && ts[1..][k] == t;
      assert ts[k + 1] == t;
    }
  }

  /** With unique identifiers, deleting a stored one removes exactly that record and keeps the others in order. */
  lemma {:induction false} RemoveUnique(ts: seq<Transaction>, i: nat)
    requires i < |ts| && UniqueIds(ts)
    ensures Remove(ts, ts[i].id) == ts[..i] + ts[i + 1..]
  {
    UniqueTail(ts);
    if i == 0 {
      RemoveSpec(ts[1..], ts[0].id);
      assert Remove(ts, ts[0].id) == Remove(ts[1..], ts[0].id);
    } else {
      assert ts[0].id != ts[i].id;
      assert ts[1..][i - 1] == ts[i];
      RemoveUnique(ts[1..], i - 1);
      assert Remove(ts, ts[i].id) == [ts[0]] + Remove(ts[1..], ts[i].id);
      assert ts[..i] + ts[i + 1..] == [ts[0]] + (ts[1..][..i - 1] + ts[1..][i..]);
    }
  }

  lemma DeleteRemovesExactlyOne(s: LedgerState, i: nat)
    requires Valid(s) && i < |s.transactions|
    ensures
      var step := Execute(s, s.transactions[i].id);
      step.result.Success? &&
      step.after.transactions == s.transactions[..i] + s.transactions[i + 1..]
  {
    RemoveUnique(s.transactions, i);
  }

  lemma {:induction false} RemoveKeepsUnique(ts: seq<Transaction>, id: nat)
    requires UniqueIds(ts)
    ensures UniqueIds(Remove(ts, id))
  {
    if ts != [] {
      UniqueTail(ts);
      RemoveKeepsUnique(ts[1..], id);
      RemoveSpec(ts[1..], id);
      var rest := Remove(ts[1..], id);
      if ts[0].id != id {
        var r := [ts[0]] + rest;
        forall a, b | 0 <= a < b < |r| ensures r[a].id != r[b].id {
          if a == 0 {
            assert r[b] == rest[b - 1];
            assert r[b] in ts[1..];
          } else {
            assert r[a] == rest[a - 1] && r[b] == rest[b - 1];
          }
        }
      }
    }
  }

  /** Deleting keeps identifiers unique and every category reference valid. */
  lemma DeletePreservesValid(s: LedgerState, id: nat)
    requires Valid(s)
    ensures Valid(Execute(s, id).after)
  {
    RemoveKeepsUnique(s.transactions, id);
  }
}
