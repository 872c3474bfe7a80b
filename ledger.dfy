/**
 * The two stores as mutable state, and the create, delete and balance
 * operations that act on them step by step. Each method is proved to leave
 * exactly the state, and return exactly the result, that the service's
 * function of the ledger state describes.
 */
module LedgerStore {
  import opened Model
  import opened Balances
  import Create = CreateTransactionService
  import Delete = DeleteTransactionService

  class Ledger {
    var transactions: seq<Transaction>
    var categories: seq<Category>
    var nextTransactionId: nat
    var nextCategoryId: nat

    /** The stores as a value. */
    function State(): LedgerState
      reads this
    {
      LedgerState(transactions, categories, nextTransactionId, nextCategoryId)
    }

    constructor ()
      ensures State() == EmptyLedger && Valid(State())
    {
      transactions, categories := [], [];
      nextTransactionId, nextCategoryId := 0, 0;
    }

    /** `getBalance`: reads every stored transaction and changes nothing. */
    method GetBalance() returns (b: Balance)
      ensures b.income == SumOf(transactions, Income) && b.outcome == SumOf(transactions, Outcome)
      ensures b.total == b.income - b.outcome
    {
      b := BalanceOf(transactions);
    }

    /** Create-transaction: nothing is saved unless both checks pass; then the category, then the transaction. */
    method CreateTransaction(req: Create.Request) returns (r: Result<Transaction>)
      requires Valid(State())
      modifies this
      ensures Valid(State())
      ensures Create.Step(r, State()) == Create.Execute(old(State()), req)
    {
      Create.ExecutePreservesValid(State(), req);
      if !(req.value != 0 && (req.kind == "income" || req.kind == "outcome")) {
        return Failure(InvalidData);
      }
      if req.kind == "outcome" {
        var balance := GetBalance();
        if balance.total - req.value < 0 {
          return Failure(InsufficientFunds);
        }
      }
      var category := GetOrCreateCategory(GetOr(req.categoryTitle, Create.DefaultCategoryTitle));
      var t := Transaction(nextTransactionId, GetOr(req.title, Create.DefaultTitle), req.value,
                           Create.KindOf(req.kind), category.id);
      transactions := transactions + [t];
      nextTransactionId := nextTransactionId + 1;
      r := Success(t);
    }

    /** The category lookup by title, and the insert of a new category when none has it. */
    method GetOrCreateCategory(title: string) returns (category: Category)
      modifies this
      ensures Create.Resolution(category, categories, nextCategoryId) ==
        Create.GetOrCreateCategory(old(categories), old(nextCategoryId), title)
      ensures transactions == old(transactions) && nextTransactionId == old(nextTransactionId)
    {
      var found := Create.FindCategory(categories, title);
      if found.None? {
        category := Category(nextCategoryId, title);
        categories := categories + [category];
        nextCategoryId := nextCategoryId + 1;
      } else {
        category := found.value;
      }
    }

    /** Delete-transaction: delete by identifier, then fail if no record was affected. */
    method DeleteTransaction(id: nat) returns (r: Result<()>)
      requires Valid(State())
      modifies this
      ensures Valid(State())
      ensures Delete.Step(r, State()) == Delete.Execute(old(State()), id)
    {
      Delete.DeletePreservesValid(State(), id);
      var before := |transactions|;
      transactions := Delete.Remove(transactions, id);
      var affected := before - |transactions|;
      if affected == 0 {
        return Failure(DeleteFailed);
      }
      r := Success(());
    }
  }
}
