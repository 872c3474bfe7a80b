/**
 * The CSV import: parsed rows are mapped positionally to records, grouped
 * into an income and an outcome bucket, and fed one at a time to the
 * create-transaction service, every income before any outcome; the file is
 * deleted only when both phases succeed.
 */
module ImportTransactionsService {
  import opened Model
  import opened Balances
  import Create = CreateTransactionService
  import opened LedgerStore

  /** The uploaded file: its rows after CSV parsing (header skipped, fields trimmed), and whether it was unlinked. */
  class CsvFile {
    const rows: seq<seq<string>>
    var deleted: bool

    constructor (rows: seq<seq<string>>)
      ensures this.rows == rows && !deleted
    {
      this.rows := rows;
      deleted := false;
    }
  }

  /** A mapped row; fields past the end of a short row are absent, as array destructuring leaves them undefined. */
  datatype TransactionData = TransactionData(title: Option<string>, kind: Option<string>, value: int, categoryTitle: Option<string>)

  // ---------------------------------------------------------------------------
  // Number(value) on the value field

  predicate IsDigits(s: string)
  {
    |s| > 0 && forall i :: 0 <= i < |s| ==> '0' <= s[i] <= '9'
  }

  function DigitsValue(s: string): nat
    requires IsDigits(s)
  {
    var n := |s| - 1;
    (if n == 0 then 0 else DigitsValue(s[..n]) * 10) + (s[n] as int - '0' as int)
  }

  /**
   * `Number(text)` restricted to integers: an optionally signed run of decimal
   * digits gives its value; an absent field (NaN), the empty string and any
   * other text give 0, which the service rejects as a falsy value.
   */
  function ParseValue(text: Option<string>): int
  {
    match text
    case None => 0
    case Some(s) =>
      if IsDigits(s) then DigitsValue(s)
      else if |s| > 1 && s[0] == '-' && IsDigits(s[1..]) then -(DigitsValue(s[1..]) as int)
      else if |s| > 1 && s[0] == '+' && IsDigits(s[1..]) then DigitsValue(s[1..])
      else 0
  }

  /** Decimal text of a natural number, the form the value column holds. */
  function ShowNat(n: nat): (s: string)
    ensures IsDigits(s)
  {
    var d := ['0' + (n % 10) as char];
    if n < 10 then d else ShowNat(n / 10) + d
  }

  function ShowInt(n: int): string
  {
    if n < 0 then "-" + ShowNat(-n) else ShowNat(n)
  }

  lemma {:induction false} DigitsOfShowNat(n: nat)
    ensures DigitsValue(ShowNat(n)) == n
  {
    var s := ShowNat(n);
    if n >= 10 {
      DigitsOfShowNat(n / 10);
      assert s[..|s| - 1] == ShowNat(n / 10);
    }
  }

  /** Reading back the decimal text of any integer gives that integer. */
  lemma ParseShowInt(n: int)
    ensures ParseValue(Some(ShowInt(n))) == n
  {
    if n < 0 {
      var s := ShowInt(n);
      assert s[1..] == ShowNat(-n);
      DigitsOfShowNat(-n);
    } else {
      DigitsOfShowNat(n);
    }
  }

  // ---------------------------------------------------------------------------
  // rawDataToTransactionData

  function Field(row: seq<string>, i: nat): Option<string>
  {
    if i < |row| then Some(row[i]) else None
  }

  /** One row, taken positionally as title, type, value, category. */
  function ToTransactionData(row: seq<string>): TransactionData
  {
    TransactionData(Field(row, 0), Field(row, 1), ParseValue(Field(row, 2)), Field(row, 3))
  }

  function RawDataToTransactionData(rows: seq<seq<string>>): seq<TransactionData>
  {
    if rows == [] then [] else [ToTransactionData(rows[0])] + RawDataToTransactionData(rows[1..])
  }

  /** The mapping keeps the number and the order of the rows and reads each row's fields by position. */
  lemma {:induction false} RawDataPositional(rows: seq<seq<string>>)
    ensures |RawDataToTransactionData(rows)| == |rows|
    ensures forall i :: 0 <= i < |rows| ==>
      var d := RawDataToTransactionData(rows)[i];
      d.title == Field(rows[i], 0) && d.kind == Field(rows[i], 1) &&
      d.value == ParseValue(Field(rows[i], 2)) && d.categoryTitle == Field(rows[i], 3)
  {
    if rows != [] {
      RawDataPositional(rows[1..]);
      var r := RawDataToTransactionData(rows);
      forall i | 1 <= i < |rows| ensures r[i] == RawDataToTransactionData(rows[1..])[i - 1] && rows[i] == rows[1..][i - 1] {
      }
    }
  }

  // ---------------------------------------------------------------------------
  // groupByTransactionType

  datatype Groups = Groups(income: seq<TransactionData>, outcome: seq<TransactionData>)

  /** One step of the reduce: push onto the bucket the type names, or drop the record. */
  function GroupStep(acc: Groups, d: TransactionData): Groups
  {
    if d.kind == Some("income") then acc.(income := acc.income + [d])
    else if d.kind == Some("outcome") then acc.(outcome := acc.outcome + [d])
    else acc
  }

  /** The reduce, a left fold from two empty buckets. */
  function GroupByTransactionType(data: seq<TransactionData>): Groups
  {
    if data == [] then Groups([], []) else GroupStep(GroupByTransactionType(data[..|data| - 1]), data[|data| - 1])
  }

  /** Reference definition: the in-order filter of the records whose type is the literal `name`. */
  function OfKind(data: seq<TransactionData>, name: string): (r: seq<TransactionData>)
    ensures |r| <= |data|
    ensures forall d :: d in r <==> d in data && d.kind == Some(name)
  {
    if data == [] then []
    else if data[0].kind == Some(name) then [data[0]] + OfKind(data[1..], name)
    else OfKind(data[1..], name)
  }

  lemma {:induction false} OfKindAppend(a: seq<TransactionData>, b: seq<TransactionData>, name: string)
    ensures OfKind(a + b, name) == OfKind(a, name) + OfKind(b, name)
  {
    if a == [] {
      assert a + b == b;
    } else {
      assert (a + b)[1..] == a[1..] + b;
      OfKindAppend(a[1..], b, name);
    }
  }

  /** The grouping is the two in-order filters. */
  lemma {:induction false} GroupIsFilter(data: seq<TransactionData>)
    ensures GroupByTransactionType(data) == Groups(OfKind(data, "income"), OfKind(data, "outcome"))
  {
    if data != [] {
      var init, last := data[..|data| - 1], data[|data| - 1];
      assert data == init + [last];
      GroupIsFilter(init);
      OfKindAppend(init, [last], "income");
      OfKindAppend(init, [last], "outcome");
      assert OfKind([last], "income") == if last.kind == Some("income") then [last] else [];
      assert OfKind([last], "outcome") == if last.kind == Some("outcome") then [last] else [];
    }
  }

  lemma {:induction false} OfKindDisjointSize(data: seq<TransactionData>)
    ensures |OfKind(data, "income")| + |OfKind(data, "outcome")| <= |data|
  {
    if data != [] {
      OfKindDisjointSize(data[1..]);
    }
  }

  /** Records of any other type fall in neither bucket, so the buckets hold at most all the rows. */
  lemma GroupDropsOtherTypes(data: seq<TransactionData>)
    ensures var g := GroupByTransactionType(data);
      (forall d :: d in g.income <==> d in data && d.kind == Some("income")) &&
      (forall d :: d in g.outcome <==> d in data && d.kind == Some("outcome")) &&
      |g.income| + |g.outcome| <= |data|
  {
    GroupIsFilter(data);
    OfKindDisjointSize(data);
  }

  // ---------------------------------------------------------------------------
  // saveTransactions

  /**
   * The request a bucket record becomes. The type is the bucket's literal,
   * not the record's; the category title is passed under a key the service
   * does not read, so the service sees it as absent.
   */
  function ToRequest(d: TransactionData, kind: Kind): Create.Request
  {
    Create.Request(d.title, d.value, KindName(kind), None)
  }

  function Requests(bucket: seq<TransactionData>, kind: Kind): (reqs: seq<Create.Request>)
    ensures |reqs| == |bucket|
    ensures forall i :: 0 <= i < |bucket| ==> reqs[i] == ToRequest(bucket[i], kind)
  {
    if bucket == [] then [] else [ToRequest(bucket[0], kind)] + Requests(bucket[1..], kind)
  }

  /** The created transactions, the error that stopped the run if any, and the ledger afterwards. */
  datatype Batch = Batch(created: seq<Transaction>, failure: Option<Error>, after: LedgerState)

  /** A call of the create-transaction service, as a value. */
  type Service = (LedgerState, Create.Request) -> Create.Step

  /**
   * `saveTransactions` as a function: apply the service to each request in
   * order, stopping at the first error. The import runs it with
   * `Create.Execute`; the general lemmas below rely only on `Appends`.
   */
  function SaveAll(service: Service, s: LedgerState, reqs: seq<Create.Request>): Batch
    decreases reqs
  {
    if reqs == [] then Batch([], None, s)
    else
      var step := service(s, reqs[0]);
      match step.result
      case Failure(e) => Batch([], Some(e), step.after)
      case Success(t) =>
        var rest := SaveAll(service, step.after, reqs[1..]);
        Batch([t] + rest.created, rest.failure, rest.after)
  }

  /** The transaction carries the request's title (or the default), value and type. */
  predicate Carries(t: Transaction, req: Create.Request)
  {
    t.title == GetOr(req.title, Create.DefaultTitle) && t.value == req.value && KindName(t.kind) == req.kind
  }

  /**
   * What a run needs of the service: a success appends exactly the
   * transaction it returns, which carries the request's fields; a failure
   * leaves the ledger as it was.
   */
  ghost predicate Appends(service: Service)
  {
    forall s, req ::
      (service(s, req).result.Success? ==>
         service(s, req).after.transactions == s.transactions + [service(s, req).result.value] &&
         Carries(service(s, req).result.value, req)) &&
      (service(s, req).result.Failure? ==> service(s, req).after == s)
  }

  /** The create-transaction service is such a service. */
  lemma ExecuteAppends()
    ensures Appends(Create.Execute)
  {
    forall s, req ensures
      (Create.Execute(s, req).result.Success? ==>
         Create.Execute(s, req).after.transactions == s.transactions + [Create.Execute(s, req).result.value] &&
         Carries(Create.Execute(s, req).result.value, req)) &&
      (Create.Execute(s, req).result.Failure? ==> Create.Execute(s, req).after == s)
    {
    }
  }

  /** The results of earlier requests ahead of those of a later run. */
  function Prepend(created: seq<Transaction>, b: Batch): Batch
  {
    Batch(created + b.created, b.failure, b.after)
  }

  /** One unfolding of the run: the first request's step, then the rest only after a success. */
  lemma SaveAllStep(service: Service, s: LedgerState, reqs: seq<Create.Request>)
    requires reqs != []
    ensures var step := service(s, reqs[0]);
      SaveAll(service, s, reqs) == if step.result.Failure? then Batch([], Some(step.result.error), step.after)
                                   else Prepend([step.result.value], SaveAll(service, step.after, reqs[1..]))
  {
  }

  lemma PrependTwice(x: seq<Transaction>, y: seq<Transaction>, b: Batch)
    ensures Prepend(x, Prepend(y, b)) == Prepend(x + y, b)
  {
    assert x + (y + b.created) == (x + y) + b.created;
  }

  /** Running two lists of requests is running the first, and the second only if the first did not fail. */
  lemma {:induction false} SaveAllConcat(service: Service, s: LedgerState, a: seq<Create.Request>, b: seq<Create.Request>)
    ensures var first := SaveAll(service, s, a);
      SaveAll(service, s, a + b) == if first.failure.Some? then first else Prepend(first.created, SaveAll(service, first.after, b))
    decreases a
  {
    if a == [] {
      assert a + b == b;
    } else {
      var step := service(s, a[0]);
      assert (a + b)[0] == a[0] && (a + b)[1..] == a[1..] + b;
      SaveAllStep(service, s, a);
      SaveAllStep(service, s, a + b);
      if step.result.Success? {
        var rest := SaveAll(service, step.after, a[1..]);
        SaveAllConcat(service, step.after, a[1..], b);
        if rest.failure.None? {
          PrependTwice([step.result.value], rest.created, SaveAll(service, rest.after, b));
        }
      }
    }
  }

  /**
   * One request of a run, as the loop of `saveTransactions` takes it: after
   * the i-th request the run is settled on a failure, and otherwise carries
   * on with the next request from the new ledger.
   */
  lemma SaveAllAdvance(service: Service, s: LedgerState, reqs: seq<Create.Request>, i: nat,
                       created: seq<Transaction>, before: LedgerState, r: Result<Transaction>, after: LedgerState)
    requires i < |reqs|
    requires SaveAll(service, s, reqs) == Prepend(created, SaveAll(service, before, reqs[i..]))
    requires Create.Step(r, after) == service(before, reqs[i])
    ensures r.Failure? ==> SaveAll(service, s, reqs) == Batch(created, Some(r.error), after)
    ensures r.Success? ==> SaveAll(service, s, reqs) == Prepend(created + [r.value], SaveAll(service, after, reqs[i + 1..]))
  {
    assert reqs[i..][0] == reqs[i] && reqs[i..][1..] == reqs[i + 1..];
    SaveAllStep(service, before, reqs[i..]);
    if r.Success? {
      PrependTwice(created, [r.value], SaveAll(service, after, reqs[i + 1..]));
    }
  }

  /**
   * The run persists what it created and nothing else, one transaction per
   * applied request, and it fails exactly when it stops short of the end.
   */
  lemma {:induction false} SaveAllPersists(service: Service, s: LedgerState, reqs: seq<Create.Request>)
    requires Appends(service)
    ensures var b := SaveAll(service, s, reqs);
      b.after.transactions == s.transactions + b.created &&
      |b.created| <= |reqs| &&
      (b.failure.None? <==> |b.created| == |reqs|)
    decreases reqs
  {
    if reqs != [] {
      SaveAllStep(service, s, reqs);
      var step := service(s, reqs[0]);
      if step.result.Success? {
        SaveAllPersists(service, step.after, reqs[1..]);
        var rest := SaveAll(service, step.after, reqs[1..]);
        assert s.transactions + ([step.result.value] + rest.created) == (s.transactions + [step.result.value]) + rest.created;
      }
    }
  }

  /** The i-th created transaction carries the title, value and type of the i-th request. */
  lemma {:induction false} SaveAllCarries(service: Service, s: LedgerState, reqs: seq<Create.Request>, i: nat)
    requires Appends(service)
    requires i < |SaveAll(service, s, reqs).created|
    ensures i < |reqs| && Carries(SaveAll(service, s, reqs).created[i], reqs[i])
    decreases reqs
  {
    SaveAllStep(service, s, reqs);
    var step := service(s, reqs[0]);
    if i > 0 {
      SaveAllCarries(service, step.after, reqs[1..], i - 1);
      assert reqs[i] == reqs[1..][i - 1];
    }
  }

  /**
   * Abort on the first error: the requests before the failing one were all
   * applied and stay persisted, the failing one changed nothing, and no
   * later request was applied.
   */
  lemma {:induction false} SaveAllAborts(service: Service, s: LedgerState, reqs: seq<Create.Request>)
    requires Appends(service)
    requires SaveAll(service, s, reqs).failure.Some?
    ensures var b := SaveAll(service, s, reqs);
      var k := |b.created|;
      k < |reqs| &&
      SaveAll(service, s, reqs[..k]) == Batch(b.created, None, b.after) &&
      service(b.after, reqs[k]) == Create.Step(Failure(b.failure.value), b.after)
    decreases reqs
  {
    SaveAllStep(service, s, reqs);
    var step := service(s, reqs[0]);
    if step.result.Success? {
      var rest := SaveAll(service, step.after, reqs[1..]);
      SaveAllAborts(service, step.after, reqs[1..]);
      var k := |rest.created|;
      var prefix := reqs[..k + 1];
      assert prefix[0] == reqs[0] && prefix[1..] == reqs[1..][..k];
      SaveAllStep(service, s, prefix);
      assert reqs[k + 1] == reqs[1..][k];
    } else {
      assert reqs[..0] == [];
    }
  }

  /** The file's state after an import run, besides the ledger. */
  datatype ImportRun = ImportRun(result: Result<seq<Transaction>>, after: LedgerState, fileDeleted: bool)

  /** `execute` as a function of the ledger and the parsed rows of a file that exists. */
  function Import(s: LedgerState, rows: seq<seq<string>>): ImportRun
  {
    var groups := GroupByTransactionType(RawDataToTransactionData(rows));
    var incomes := SaveAll(Create.Execute, s, Requests(groups.income, Income));
    if incomes.failure.Some? then ImportRun(Failure(incomes.failure.value), incomes.after, false)
    else
      var outcomes := SaveAll(Create.Execute, incomes.after, Requests(groups.outcome, Outcome));
      if outcomes.failure.Some? then ImportRun(Failure(outcomes.failure.value), outcomes.after, false)
      else ImportRun(Success(incomes.created + outcomes.created), outcomes.after, true)
  }

  /** Every request the import submits, in submission order. */
  function ImportRequests(rows: seq<seq<string>>): seq<Create.Request>
  {
    var groups := GroupByTransactionType(RawDataToTransactionData(rows));
    Requests(groups.income, Income) + Requests(groups.outcome, Outcome)
  }

  /**
   * Every income request comes before any outcome request, each request is
   * typed by one of the two literals, and there is at most one request per row.
   */
  lemma ImportRequestsOrdered(rows: seq<seq<string>>)
    ensures var reqs := ImportRequests(rows);
      |reqs| <= |rows| &&
      (forall i :: 0 <= i < |reqs| ==> reqs[i].kind == "income" || reqs[i].kind == "outcome") &&
      (forall i, j :: 0 <= i < j < |reqs| && reqs[i].kind == "outcome" ==> reqs[j].kind == "outcome")
  {
    var data := RawDataToTransactionData(rows);
    var groups := GroupByTransactionType(data);
    var incomes, outcomes := Requests(groups.income, Income), Requests(groups.outcome, Outcome);
    var reqs := incomes + outcomes;
    assert |reqs| <= |rows| by {
      RawDataPositional(rows);
      GroupDropsOtherTypes(data);
    }
    forall i | 0 <= i < |reqs|
      ensures reqs[i].kind == if i < |incomes| then "income" else "outcome"
    {
      if i < |incomes| {
        assert reqs[i] == incomes[i];
      } else {
        assert reqs[i] == outcomes[i - |incomes|];
      }
    }
  }

  /**
   * The import is one sequential run over its requests: the same error,
   * the same ledger, the created transactions in submission order, and the
   * file deleted exactly when the run completes.
   */
  lemma ImportIsOneRun(s: LedgerState, rows: seq<seq<string>>)
    ensures var run := Import(s, rows);
      var b := SaveAll(Create.Execute, s, ImportRequests(rows));
      run.after == b.after &&
      run.fileDeleted == run.result.Success? &&
      (run.result.Success? <==> b.failure.None?) &&
      (run.result.Success? ==> run.result.value == b.created) &&
      (run.result.Failure? ==> Some(run.result.error) == b.failure)
  {
    var groups := GroupByTransactionType(RawDataToTransactionData(rows));
    SaveAllConcat(Create.Execute, s, Requests(groups.income, Income), Requests(groups.outcome, Outcome));
  }

  /**
   * On success the result is the created incomes followed by the created
   * outcomes, all of them now stored, each typed by its bucket.
   */
  lemma ImportSucceeded(s: LedgerState, rows: seq<seq<string>>)
    requires Import(s, rows).result.Success?
    ensures var run := Import(s, rows);
      var data := RawDataToTransactionData(rows);
      var created := run.result.value;
      var n := |OfKind(data, "income")|;
      run.fileDeleted &&
      run.after.transactions == s.transactions + created &&
      |created| == n + |OfKind(data, "outcome")| &&
      (forall i :: 0 <= i < n ==> created[i].kind == Income) &&
      (forall i :: n <= i < |created| ==> created[i].kind == Outcome)
  {
    var data := RawDataToTransactionData(rows);
    GroupIsFilter(data);
    ImportIsOneRun(s, rows);
    var reqs := ImportRequests(rows);
    ExecuteAppends();
    SaveAllPersists(Create.Execute, s, reqs);
    var n := |OfKind(data, "income")|;
    var created := Import(s, rows).result.value;
    forall i | 0 <= i < |created| ensures created[i].kind == if i < n then Income else Outcome {
      SaveAllCarries(Create.Execute, s, reqs, i);
      assert KindName(created[i].kind) == reqs[i].kind;
    }
  }

  /**
   * On failure the file stays, and the ledger is the one left by the
   * requests submitted before the failing one: those stay persisted, later
   * ones were never applied.
   */
  lemma ImportFailed(s: LedgerState, rows: seq<seq<string>>)
    requires Import(s, rows).result.Failure?
    ensures var run := Import(s, rows);
      var reqs := ImportRequests(rows);
      exists k :: 0 <= k < |reqs| &&
        SaveAll(Create.Execute, s, reqs[..k]).failure.None? &&
        run.after == SaveAll(Create.Execute, s, reqs[..k]).after &&
        !run.fileDeleted &&
        Create.Execute(run.after, reqs[k]) == Create.Step(Failure(run.result.error), run.after)
  {
    ImportIsOneRun(s, rows);
    var reqs := ImportRequests(rows);
    ExecuteAppends();
    SaveAllAborts(Create.Execute, s, reqs);
    var k := |SaveAll(Create.Execute, s, reqs).created|;
    assert SaveAll(Create.Execute, s, reqs[..k]).failure.None?;
  }

  /**
   * As written, every imported transaction references a category titled
   * "none": the category column never reaches the service.
   */
  lemma {:induction false} SaveAllCategoryNone(s: LedgerState, reqs: seq<Create.Request>)
    requires forall i :: 0 <= i < |reqs| ==> reqs[i].categoryTitle.None?
    ensures var b := SaveAll(Create.Execute, s, reqs);
      s.categories <= b.after.categories &&
      forall t :: t in b.created ==> exists c :: c in b.after.categories && c.id == t.categoryId && c.title == "none"
    decreases reqs
  {
    if reqs != [] {
      SaveAllStep(Create.Execute, s, reqs);
      var step := Create.Execute(s, reqs[0]);
      Create.StoresOnlyGrow(s, reqs[0]);
      if step.result.Success? {
        Create.CategoryResolution(s, reqs[0]);
        SaveAllCategoryNone(step.after, reqs[1..]);
        var rest := SaveAll(Create.Execute, step.after, reqs[1..]);
        var t := step.result.value;
        var c :| c in step.after.categories && c.id == t.categoryId && c.title == "none";
        assert c in rest.after.categories;
      }
    }
  }

  lemma ImportedCategoryIsNone(s: LedgerState, rows: seq<seq<string>>)
    requires Import(s, rows).result.Success?
    ensures var run := Import(s, rows);
      forall t :: t in run.result.value ==>
        exists c :: c in run.after.categories && c.id == t.categoryId && c.title == "none"
  {
    ImportIsOneRun(s, rows);
    SaveAllCategoryNone(s, ImportRequests(rows));
  }

  /** Importing keeps identifiers unique and every category reference valid. */
  lemma {:induction false} SaveAllPreservesValid(s: LedgerState, reqs: seq<Create.Request>)
    requires Valid(s)
    ensures Valid(SaveAll(Create.Execute, s, reqs).after)
    decreases reqs
  {
    if reqs != [] {
      SaveAllStep(Create.Execute, s, reqs);
      Create.ExecutePreservesValid(s, reqs[0]);
      var step := Create.Execute(s, reqs[0]);
      if step.result.Success? {
        SaveAllPreservesValid(step.after, reqs[1..]);
      }
    }
  }

  // ---------------------------------------------------------------------------
  // Two concrete files

  const Rent := TransactionData(Some("Rent"), Some("outcome"), 500, Some("Housing"))
  const Salary := TransactionData(Some("Salary"), Some("income"), 1000, Some("Job"))
  const SmallSalary := TransactionData(Some("Salary"), Some("income"), 100, Some("Job"))

  /** The rows of a two-row file that lists an outcome of 500 and an income of 1000, mapped. */
  lemma RentThenSalaryData()
    ensures RawDataToTransactionData([["Rent", "outcome", "500", "Housing"], ["Salary", "income", "1000", "Job"]]) == [Rent, Salary]
  {
    assert DigitsValue("500") == 500;
    assert "1000"[..3] == "100" && "100"[..2] == "10" && "10"[..1] == "1";
    assert DigitsValue("100") == 100;
    assert DigitsValue("1000") == 1000;
  }

  /** Their groups: the income in one bucket, the outcome in the other. */
  lemma RentThenSalaryGroups()
    ensures GroupByTransactionType([Rent, Salary]) == Groups([Salary], [Rent])
  {
    assert [Rent, Salary][..1] == [Rent] && [Rent][..0] == [];
    assert GroupByTransactionType([Rent]) == Groups([], [Rent]);
  }

  /** The income of 1000 on the empty ledger: stored with the first identifiers, under a new "none" category. */
  lemma SalaryFirst()
    ensures Create.Execute(EmptyLedger, ToRequest(Salary, Income)) ==
      Create.Step(Success(Transaction(0, "Salary", 1000, Income, 0)),
                  LedgerState([Transaction(0, "Salary", 1000, Income, 0)], [Category(0, "none")], 1, 1))
  {
  }

  /** The outcome of 500 after that income: the balance covers it, and the "none" category is reused. */
  lemma RentAfterSalary()
    ensures Create.Execute(LedgerState([Transaction(0, "Salary", 1000, Income, 0)], [Category(0, "none")], 1, 1), ToRequest(Rent, Outcome)) ==
      Create.Step(Success(Transaction(1, "Rent", 500, Outcome, 0)),
                  LedgerState([Transaction(0, "Salary", 1000, Income, 0), Transaction(1, "Rent", 500, Outcome, 0)], [Category(0, "none")], 2, 1))
  {
    BalanceAppend([], Transaction(0, "Salary", 1000, Income, 0));
  }

  /** The import of that file: both transactions, income first, and the file deleted. */
  lemma RentThenSalaryImport()
    ensures Import(EmptyLedger, [["Rent", "outcome", "500", "Housing"], ["Salary", "income", "1000", "Job"]]) ==
      ImportRun(Success([Transaction(0, "Salary", 1000, Income, 0), Transaction(1, "Rent", 500, Outcome, 0)]),
                LedgerState([Transaction(0, "Salary", 1000, Income, 0), Transaction(1, "Rent", 500, Outcome, 0)], [Category(0, "none")], 2, 1),
                true)
  {
    var salary := Transaction(0, "Salary", 1000, Income, 0);
    var rent := Transaction(1, "Rent", 500, Outcome, 0);
    var s1 := LedgerState([salary], [Category(0, "none")], 1, 1);
    var s2 := LedgerState([salary, rent], [Category(0, "none")], 2, 1);
    RentThenSalaryData();
    RentThenSalaryGroups();
    assert Requests([Salary], Income) == [ToRequest(Salary, Income)];
    assert Requests([Rent], Outcome) == [ToRequest(Rent, Outcome)];
    assert SaveAll(Create.Execute, EmptyLedger, [ToRequest(Salary, Income)]) == Batch([salary], None, s1) by {
      SalaryFirst();
      SaveAllStep(Create.Execute, EmptyLedger, [ToRequest(Salary, Income)]);
    }
    assert SaveAll(Create.Execute, s1, [ToRequest(Rent, Outcome)]) == Batch([rent], None, s2) by {
      RentAfterSalary();
      SaveAllStep(Create.Execute, s1, [ToRequest(Rent, Outcome)]);
    }
  }

  /**
   * A file that lists the outcome before the income it needs still imports:
   * the income is applied first, so the balance check for the outcome sees it.
   */
  lemma OutcomeListedFirst()
    ensures var run := Import(EmptyLedger, [["Rent", "outcome", "500", "Housing"], ["Salary", "income", "1000", "Job"]]);
      run.result.Success? && run.fileDeleted &&
      |run.result.value| == 2 && run.result.value[0].title == "Salary" && run.result.value[1].title == "Rent" &&
      BalanceOf(run.after.transactions) == Balance(1000, 500, 500)
  {
    var salary := Transaction(0, "Salary", 1000, Income, 0);
    var rent := Transaction(1, "Rent", 500, Outcome, 0);
    RentThenSalaryImport();
    BalanceAppend([], salary);
    assert [salary, rent] == [salary] + [rent];
    BalanceAppend([salary], rent);
  }

  /** The rows of a two-row file that lists an income of 100 and an outcome of 500, mapped. */
  lemma SalaryThenRentData()
    ensures RawDataToTransactionData([["Salary", "income", "100", "Job"], ["Rent", "outcome", "500", "Housing"]]) == [SmallSalary, Rent]
  {
    assert "100"[..2] == "10" && "10"[..1] == "1";
    assert DigitsValue("100") == 100;
    assert DigitsValue("500") == 500;
  }

  /** Their groups: the income in one bucket, the outcome in the other. */
  lemma SalaryThenRentGroups()
    ensures GroupByTransactionType([SmallSalary, Rent]) == Groups([SmallSalary], [Rent])
  {
    assert [SmallSalary, Rent][..1] == [SmallSalary] && [SmallSalary][..0] == [];
    assert GroupByTransactionType([SmallSalary]) == Groups([SmallSalary], []);
  }

  /** The outcome of 500 after an income of 100 only: refused for insufficient funds, nothing changes. */
  lemma RentBeyondSmallSalary()
    ensures var s := LedgerState([Transaction(0, "Salary", 100, Income, 0)], [Category(0, "none")], 1, 1);
      Create.Execute(s, ToRequest(Rent, Outcome)) == Create.Step(Failure(InsufficientFunds), s)
  {
    BalanceAppend([], Transaction(0, "Salary", 100, Income, 0));
  }

  /**
   * An outcome the imported incomes cannot cover aborts the import: the file
   * stays, and only the income applied before it is persisted.
   */
  lemma OutcomeBeyondFunds()
    ensures var run := Import(EmptyLedger, [["Salary", "income", "100", "Job"], ["Rent", "outcome", "500", "Housing"]]);
      run.result == Failure(InsufficientFunds) && !run.fileDeleted &&
      |run.after.transactions| == 1 && run.after.transactions[0].kind == Income
  {
    var salary := Transaction(0, "Salary", 100, Income, 0);
    var s1 := LedgerState([salary], [Category(0, "none")], 1, 1);
    SalaryThenRentData();
    SalaryThenRentGroups();
    assert Requests([SmallSalary], Income) == [ToRequest(SmallSalary, Income)];
    assert Requests([Rent], Outcome) == [ToRequest(Rent, Outcome)];
    assert SaveAll(Create.Execute, EmptyLedger, [ToRequest(SmallSalary, Income)]) == Batch([salary], None, s1) by {
      assert Create.Execute(EmptyLedger, ToRequest(SmallSalary, Income)) == Create.Step(Success(salary), s1);
      SaveAllStep(Create.Execute, EmptyLedger, [ToRequest(SmallSalary, Income)]);
    }
    assert SaveAll(Create.Execute, s1, [ToRequest(Rent, Outcome)]) == Batch([], Some(InsufficientFunds), s1) by {
      RentBeyondSmallSalary();
      SaveAllStep(Create.Execute, s1, [ToRequest(Rent, Outcome)]);
    }
  }

  // ---------------------------------------------------------------------------
  // The imperative service

  method SaveTransactions(ledger: Ledger, kind: Kind, data: seq<TransactionData>)
    returns (created: seq<Transaction>, failure: Option<Error>)
    requires Valid(ledger.State())
    modifies ledger
    ensures Valid(ledger.State())
    ensures Batch(created, failure, ledger.State()) == SaveAll(Create.Execute, old(ledger.State()), Requests(data, kind))
  {
    ghost var reqs := Requests(data, kind);
    created, failure := [], None;
    var i := 0;
    while i < |data|
      invariant 0 <= i <= |data|
      invariant Valid(ledger.State())
      invariant SaveAll(Create.Execute, old(ledger.State()), reqs) == Prepend(created, SaveAll(Create.Execute, ledger.State(), reqs[i..]))
    {
      ghost var before := ledger.State();
      var r := ledger.CreateTransaction(ToRequest(data[i], kind));
      SaveAllAdvance(Create.Execute, old(ledger.State()), reqs, i, created, before, r, ledger.State());
      if r.Failure? {
        failure := Some(r.error);
        return;
      }
      created := created + [r.value];
      i := i + 1;
    }
    assert reqs[i..] == [];
  }

  /** `execute`: read the rows, map, group, save incomes, save outcomes, then delete the file. */
  method Execute(ledger: Ledger, file: CsvFile) returns (r: Result<seq<Transaction>>)
    requires Valid(ledger.State()) && !file.deleted
    modifies ledger, file
    ensures Valid(ledger.State())
    ensures ImportRun(r, ledger.State(), file.deleted) == Import(old(ledger.State()), file.rows)
  {
    var data := RawDataToTransactionData(file.rows);
    var groups := GroupByTransactionType(data);
    var incomes, failure := SaveTransactions(ledger, Income, groups.income);
    if failure.Some? {
      return Failure(failure.value);
    }
    var outcomes, failure' := SaveTransactions(ledger, Outcome, groups.outcome);
    if failure'.Some? {
      return Failure(failure'.value);
    }
    file.deleted := true;
    r := Success(incomes + outcomes);
  }
}
