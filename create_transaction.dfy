/**
 * The create-transaction service as a function of the ledger state: it
 * validates the request, checks the balance for an outcome, resolves or
 * creates the category by title, and stores one transaction.
 */
module CreateTransactionService {
  import opened Model
  import opened Balances

  /**
   * The service's request. `title` and `categoryTitle` may be absent (the
   * service then uses its defaults); `kind` is whatever string the caller
   * passed as the type, not yet checked against the two literals.
   */
  datatype Request = Request(title: Option<string>, value: int, kind: string, categoryTitle: Option<string>)

  const DefaultTitle := "untitled"
  const DefaultCategoryTitle := "none"

  /** What the service returns and the ledger it leaves behind. */
  datatype Step = Step(result: Result<Transaction>, after: LedgerState)

  /** The validation check: a truthy value (non-zero) and one of the two type literals. */
  predicate IsValidRequest(req: Request)
  {
    req.value != 0 && (req.kind == "income" || req.kind == "outcome")
  }

  /** The insufficient-funds condition, read against the balance before the new transaction. */
  predicate LacksFunds(s: LedgerState, req: Request)
  {
    req.kind == "outcome" && BalanceOf(s.transactions).total - req.value < 0
  }

  /** The category lookup by exact title: the first stored category with that title, if any. */
  function FindCategory(cs: seq<Category>, title: string): (r: Option<Category>)
    ensures r.Some? ==> r.value in cs && r.value.title == title
    ensures r.None? <==> forall c :: c in cs ==> c.title != title
  {
    if cs == [] then None
    else if cs[0].title == title then Some(cs[0])
    else FindCategory(cs[1..], title)
  }

  /** The type literal of a valid request as a `Kind`. */
  function KindOf(kind: string): Kind
  {
    if kind == "income" then Income else Outcome
  }

  /** The category the service settles on, and the category store and counter afterwards. */
  datatype Resolution = Resolution(category: Category, categories: seq<Category>, nextCategoryId: nat)

  /**
   * Category get-or-create by title: an existing title is reused and nothing
   * is created; otherwise exactly one category with that title is appended.
   */
  function GetOrCreateCategory(cs: seq<Category>, nextId: nat, title: string): (r: Resolution)
    ensures r.category.title == title && r.category in r.categories
    ensures (exists c :: c in cs && c.title == title) ==>
      r.category in cs && r.categories == cs && r.nextCategoryId == nextId
    ensures (forall c :: c in cs ==> c.title != title) ==>
      r.category == Category(nextId, title) && r.categories == cs + [r.category] && r.nextCategoryId == nextId + 1
  {
    match FindCategory(cs, title)
    case Some(c) => Resolution(c, cs, nextId)
    case None => Resolution(Category(nextId, title), cs + [Category(nextId, title)], nextId + 1)
  }

  /** The category store stays consistent when a category is looked up or created. */
  lemma GetOrCreateKeepsIdsValid(cs: seq<Category>, nextId: nat, title: string)
    requires CategoryIdsValid(cs, nextId)
    ensures var r := GetOrCreateCategory(cs, nextId, title);
      CategoryIdsValid(r.categories, r.nextCategoryId) && cs <= r.categories
  {
    var r := GetOrCreateCategory(cs, nextId, title);
    if r.categories != cs {
      var ds := r.categories;
      forall i, j | 0 <= i < j < |ds| ensures ds[i].id != ds[j].id {
        if j == |cs| {
          assert ds[i] in cs;
        } else {
          assert ds[i] == cs[i] && ds[j] == cs[j];
        }
      }
    }
  }

  /** The stored transaction a successful request becomes. */
  function NewTransaction(s: LedgerState, req: Request, category: Category): Transaction
  {
    Transaction(s.nextTransactionId, GetOr(req.title, DefaultTitle), req.value, KindOf(req.kind), category.id)
  }

  /** `execute`: validation, then the balance check, then category get-or-create, then the insert. */
  function Execute(s: LedgerState, req: Request): (step: Step)
    ensures step.result == Failure(InvalidData) <==> !IsValidRequest(req)
    ensures step.result == Failure(InsufficientFunds) <==> IsValidRequest(req) && LacksFunds(s, req)
    ensures step.result.Success? <==> IsValidRequest(req) && !LacksFunds(s, req)
    ensures step.result.Failure? ==> step.after == s
    ensures step.result.Success? ==>
      var t := step.result.value;
      var r := GetOrCreateCategory(s.categories, s.nextCategoryId, GetOr(req.categoryTitle, DefaultCategoryTitle));
      step.after == LedgerState(s.transactions + [t], r.categories, s.nextTransactionId + 1, r.nextCategoryId) &&
      t.id == s.nextTransactionId &&
      t.title == GetOr(req.title, DefaultTitle) &&
      t.value == req.value &&
      KindName(t.kind) == req.kind &&
      t.categoryId == r.category.id
  {
    if !IsValidRequest(req) then Step(Failure(InvalidData), s)
    else if LacksFunds(s, req) then Step(Failure(InsufficientFunds), s)
    else
      var r := GetOrCreateCategory(s.categories, s.nextCategoryId, GetOr(req.categoryTitle, DefaultCategoryTitle));
      var t := NewTransaction(s, req, r.category);
      Step(Success(t), LedgerState(s.transactions + [t], r.categories, s.nextTransactionId + 1, r.nextCategoryId))
  }

  /**
   * Category get-or-create as seen by the caller: an existing title is reused
   * and nothing is created; otherwise exactly one category with that title
   * is appended. Either way the new transaction references a stored category
   * of that title.
   */
  lemma CategoryResolution(s: LedgerState, req: Request)
    requires Execute(s, req).result.Success?
    ensures
      var step := Execute(s, req);
      var title := GetOr(req.categoryTitle, DefaultCategoryTitle);
      var t := step.result.value;
      (exists c :: c in step.after.categories && c.id == t.categoryId && c.title == title) &&
      ((exists c :: c in s.categories && c.title == title) ==>
         step.after.categories == s.categories && step.after.nextCategoryId == s.nextCategoryId &&
         (exists c :: c in s.categories && c.id == t.categoryId && c.title == title)) &&
      ((forall c :: c in s.categories ==> c.title != title) ==>
         step.after.categories == s.categories + [Category(s.nextCategoryId, title)] &&
         step.after.nextCategoryId == s.nextCategoryId + 1 &&
         t.categoryId == s.nextCategoryId)
  {
    var r := GetOrCreateCategory(s.categories, s.nextCategoryId, GetOr(req.categoryTitle, DefaultCategoryTitle));
    assert r.category in Execute(s, req).after.categories;
  }

  /** A valid income request always succeeds: the balance is never consulted for it. */
  lemma IncomeIgnoresBalance(s: LedgerState, s': LedgerState, req: Request)
    requires req.kind == "income" && req.value != 0
    requires s'.categories == s.categories && s'.nextTransactionId == s.nextTransactionId
    requires s'.nextCategoryId == s.nextCategoryId
    ensures Execute(s, req).result.Success?
    ensures Execute(s, req).result == Execute(s', req).result
    ensures Execute(s, req).after.categories == Execute(s', req).after.categories
  {
  }

  /** A successful outcome never leaves the ledger total negative. */
  lemma {:induction false} OutcomeKeepsTotalNonNegative(s: LedgerState, req: Request)
    requires req.kind == "outcome" && Execute(s, req).result.Success?
    ensures BalanceOf(Execute(s, req).after.transactions).total == BalanceOf(s.transactions).total - req.value
    ensures BalanceOf(Execute(s, req).after.transactions).total >= 0
  {
    BalanceAppend(s.transactions, Execute(s, req).result.value);
  }

  /** A successful income raises income and total by its value. */
  lemma {:induction false} IncomeRaisesTotal(s: LedgerState, req: Request)
    requires req.kind == "income" && Execute(s, req).result.Success?
    ensures BalanceOf(Execute(s, req).after.transactions).income == BalanceOf(s.transactions).income + req.value
    ensures BalanceOf(Execute(s, req).after.transactions).total == BalanceOf(s.transactions).total + req.value
  {
    BalanceAppend(s.transactions, Execute(s, req).result.value);
  }

  /**
   * The value check is on truthiness only, so a negative income passes and
   * lowers the total: from an empty ledger an income of -5 leaves a total of -5.
   */
  lemma NegativeIncomeLowersTotal()
    ensures
      var step := Execute(EmptyLedger, Request(Some("refund"), -5, "income", None));
      step.result.Success? && BalanceOf(step.after.transactions).total == -5
  {
    var step := Execute(EmptyLedger, Request(Some("refund"), -5, "income", None));
    BalanceAppend([], step.result.value);
  }

  /**
   * A negative outcome passes validation too. The balance check refuses it
   * exactly when the total is already below its value; once accepted it
   * raises the total.
   */
  lemma {:induction false} NegativeOutcome(s: LedgerState, req: Request)
    requires req.kind == "outcome" && req.value < 0
    ensures Execute(s, req).result == Failure(InsufficientFunds) <==> BalanceOf(s.transactions).total < req.value
    ensures Execute(s, req).result.Success? ==>
      BalanceOf(Execute(s, req).after.transactions).total == BalanceOf(s.transactions).total - req.value &&
      BalanceOf(Execute(s, req).after.transactions).total > BalanceOf(s.transactions).total
  {
    if Execute(s, req).result.Success? {
      BalanceAppend(s.transactions, Execute(s, req).result.value);
    }
  }

  /** A ledger whose only transaction is an income of -10 refuses an outcome of -5. */
  lemma NegativeOutcomeRefused()
    ensures
      var s := LedgerState([Transaction(0, "refund", -10, Income, 0)], [Category(0, "none")], 1, 1);
      Execute(s, Request(Some("rebate"), -5, "outcome", None)) == Step(Failure(InsufficientFunds), s)
  {
    BalanceAppend([], Transaction(0, "refund", -10, Income, 0));
  }

  /** Both stores only grow: no stored transaction or category is altered or removed. */
  lemma StoresOnlyGrow(s: LedgerState, req: Request)
    ensures s.transactions <= Execute(s, req).after.transactions
    ensures s.categories <= Execute(s, req).after.categories
    ensures s.nextCategoryId <= Execute(s, req).after.nextCategoryId
  {
  }

  /** The service keeps identifiers unique and every category reference valid. */
  lemma ExecutePreservesValid(s: LedgerState, req: Request)
    requires Valid(s)
    ensures Valid(Execute(s, req).after)
  {
    var step := Execute(s, req);
    if step.result.Success? {
      var t := step.result.value;
      var ts, cs := step.after.transactions, step.after.categories;
      var r := GetOrCreateCategory(s.categories, s.nextCategoryId, GetOr(req.categoryTitle, DefaultCategoryTitle));
      GetOrCreateKeepsIdsValid(s.categories, s.nextCategoryId, GetOr(req.categoryTitle, DefaultCategoryTitle));
      assert TransactionIdsValid(ts, step.after.nextTransactionId) by {
        forall i, j | 0 <= i < j < |ts| ensures ts[i].id != ts[j].id {
          if j == |s.transactions| {
            assert ts[i] in s.transactions;
          } else {
            assert ts[i] == s.transactions[i] && ts[j] == s.transactions[j];
          }
        }
      }
      assert ReferencesValid(ts, cs) by {
        forall u | u in ts ensures HasCategory(cs, u.categoryId) {
          if u == t {
            assert r.category in cs;
          } else {
            assert u in s.transactions;
            var c :| c in s.categories && c.id == u.categoryId;
            assert c in cs;
          }
        }
      }
    }
  }
}
