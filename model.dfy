/**
 * The entities of the ledger: transactions, categories, the errors the
 * services raise, and the state of the two stores that the database holds.
 */
module Model {

  datatype Option<T> = None | Some(value: T)

  /** The value of an optional field, or the default a destructuring pattern supplies when it is absent. */
  function GetOr<T>(o: Option<T>, default: T): T
  {
    match o
    case Some(v) => v
    case None => default
  }

  /** The two transaction types. */
  datatype Kind = Income | Outcome

  /** The literal that names a transaction type in requests and in CSV rows. */
  function KindName(k: Kind): string
  {
    match k
    case Income => "income"
    case Outcome => "outcome"
  }

  /** A stored transaction; `value` is an amount in the smallest currency unit. */
  datatype Transaction = Transaction(id: nat, title: string, value: int, kind: Kind, categoryId: nat)

  /** A stored category; its title is the natural lookup key. */
  datatype Category = Category(id: nat, title: string)

  /** The application errors: invalid data (400), insufficient funds (403), nothing deleted (400). */
  datatype Error = InvalidData | InsufficientFunds | DeleteFailed

  /** The HTTP status an error carries: 403 for missing funds, otherwise the error class's default of 400. */
  function Status(e: Error): (code: nat)
    ensures code == 403 <==> e == InsufficientFunds
    ensures code != 403 ==> code == 400
  {
    match e
    case InsufficientFunds => 403
    case _ => 400
  }

  datatype Result<T> = Success(value: T) | Failure(error: Error)

  /** Both stores, with the counters that stand for the identifiers the database generates. */
  datatype LedgerState = LedgerState(
    transactions: seq<Transaction>,
    categories: seq<Category>,
    nextTransactionId: nat,
    nextCategoryId: nat)

  const EmptyLedger := LedgerState([], [], 0, 0)

  predicate HasTransaction(ts: seq<Transaction>, id: nat)
  {
    exists t :: t in ts && t.id == id
  }

  predicate HasCategory(cs: seq<Category>, id: nat)
  {
    exists c :: c in cs && c.id == id
  }

  /** No two stored transactions share an identifier. */
  predicate UniqueIds(ts: seq<Transaction>)
  {
    forall i, j :: 0 <= i < j < |ts| ==> ts[i].id != ts[j].id
  }

  /** Transaction identifiers are unique and were all handed out before `next`. */
  predicate TransactionIdsValid(ts: seq<Transaction>, next: nat)
  {
    UniqueIds(ts) && (forall t :: t in ts ==> t.id < next)
  }

  /** No two stored categories share an identifier. */
  predicate CategoryUniqueIds(cs: seq<Category>)
  {
    forall i, j :: 0 <= i < j < |cs| ==> cs[i].id != cs[j].id
  }

  /** Category identifiers are unique and were all handed out before `next`. */
  predicate CategoryIdsValid(cs: seq<Category>, next: nat)
  {
    CategoryUniqueIds(cs) &&
    (forall c :: c in cs ==> c.id < next)
  }

  /** Every transaction references a stored category. */
  predicate ReferencesValid(ts: seq<Transaction>, cs: seq<Category>)
  {
    forall t :: t in ts ==> HasCategory(cs, t.categoryId)
  }

  /**
   * The consistency the database keeps: identifiers are unique and were
   * handed out before, and every transaction references a stored category.
   */
  predicate Valid(s: LedgerState)
  {
    TransactionIdsValid(s.transactions, s.nextTransactionId) &&
    CategoryIdsValid(s.categories, s.nextCategoryId) &&
    ReferencesValid(s.transactions, s.categories)
  }
}
