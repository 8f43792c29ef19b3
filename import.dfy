/** The `import` command (src/commands/import.rs): the importer that
    stores the account and the transaction of each record of a statement,
    the loops over files and records with their line counter, and the
    summary of an import. */
module Import {
  import opened Wrappers
  import Dates
  import opened Values
  import opened Store
  import opened StoreFacts
  import opened SqliteImpl
  import opened Strings
  import opened Numerals
  import opened Statements

  // -----------------------------------------------------------------------
  // Importer

  datatype Format = Aib | Revolut(account: string, product: string)

  /** The bank an importer sets on the accounts it creates. */
  function BankName(format: Format): string {
    match format
    case Aib => "AIB"
    case Revolut(_, _) => "Revolut"
  }

  /** The store and the names of the accounts seen so far. */
  datatype Progress = Progress(store: State, accounts: set<string>)

  datatype Imported<T> = Imported(progress: Progress, result: Result<T>)

  /** `Importer::insert`: the account first (an existing one is fine), then
      the transaction (an existing equal one is fine too). The account name
      is recorded once the account is in the store. */
  function ImporterInsert(p: Progress, t: Transaction): Imported<()>
    requires ValidTransaction(t)
  {
    var a := InsertOrGet(p.store, Accounts, AccountToRow(Account(t.accountName, None, false)));
    if a.result.Err? then Imported(Progress(a.state, p.accounts), Err(a.result.msg))
    else
      var tr := InsertOrGet(a.state, Transactions, TransactionToRow(t));
      Imported(Progress(tr.state, p.accounts + {t.accountName}),
               if tr.result.Err? then Err(tr.result.msg) else Ok(()))
  }

  /** An insert keeps a valid store valid, removes no stored transaction
      and adds at most one; on success the account is recorded and the
      transaction is stored, under the id the store gave it. */
  lemma ImporterInsertEffect(p: Progress, t: Transaction)
    requires Store.Valid(p.store) && ValidTransaction(t)
    ensures var o := ImporterInsert(p, t);
      var before := p.store.tables.transactions;
      var after := o.progress.store.tables.transactions;
      && Store.Valid(o.progress.store)
      && Elems(before) <= Elems(after) && |before| <= |after| <= |before| + 1
      && p.accounts <= o.progress.accounts <= p.accounts + {t.accountName}
      && (o.result.Ok? ==> t.accountName in o.progress.accounts)
      && (o.result.Ok? ==> exists e :: e in after && SameNonKey(e.image, TransactionToRow(t)))
  {
    AccountInsertOrGet(p.store, t.accountName);
    var a := InsertOrGet(p.store, Accounts, AccountToRow(Account(t.accountName, None, false)));
    if a.result.Ok? {
      TransactionInsertOrGet(a.state, t);
    }
  }

  /** Storing the account keeps the store valid and the transactions as
      they were. */
  lemma AccountInsertOrGet(s: State, name: string)
    requires Store.Valid(s)
    ensures var a := InsertOrGet(s, Accounts, AccountToRow(Account(name, None, false)));
      Store.Valid(a.state) && a.state.tables.transactions == s.tables.transactions
  {
    var image := AccountToRow(Account(name, None, false));
    var a := InsertOrGet(s, Accounts, image);
    if a.result.Ok? && a.result.value.New? {
      InsertEffect(s, Accounts, image);
    }
  }

  /** Storing the transaction keeps the store valid, removes no stored
      transaction, adds at most one, and on success one stored transaction
      has its fields. */
  lemma TransactionInsertOrGet(s: State, t: Transaction)
    requires Store.Valid(s) && ValidTransaction(t)
    ensures var tr := InsertOrGet(s, Transactions, TransactionToRow(t));
      var before := s.tables.transactions;
      var after := tr.state.tables.transactions;
      && Store.Valid(tr.state)
      && Elems(before) <= Elems(after) && |before| <= |after| <= |before| + 1
      && (tr.result.Ok? ==> exists e :: e in after && SameNonKey(e.image, TransactionToRow(t)))
  {
    var row := TransactionToRow(t);
    var rows := s.tables.transactions;
    var tr := InsertOrGet(s, Transactions, row);
    if tr.result.Ok? && tr.result.value.New? {
      InsertEffect(s, Transactions, row);
      InsertUnfold(s, Transactions, row);
      var e := Entry(InsertedRowid(s, Transactions, row), Insert(s, Transactions, row).result.value);
      assert e in Elems(tr.state.tables.transactions);
      assert SameNonKey(e.image, row);
    } else if tr.result.Ok? {
      var k := FindNonKey(rows, row).value;
      assert rows[k] in rows && SameNonKey(rows[k].image, row);
    }
  }

  // -----------------------------------------------------------------------
  // Records and their steps

  /** What a record does to the import, whatever line it is on. */
  function RecordStep(format: Format, kv: map<string, string>, parse: string -> Option<real>): (r: RowStep)
    ensures r.Take? ==> ValidTransaction(r.t) && r.t.id.None?
    ensures format.Revolut? && r.Take? ==> r.t.accountName == format.account
    ensures format.Aib? ==> r.Take? || r.Fail?
  {
    match format
    case Aib =>
      (match AibRecord(kv, parse)
       case Ok(t) => Take(t)
       case Err(e) => Fail(e))
    case Revolut(account, product) => RevolutRecord(kv, account, product, parse)
  }

  predicate TakesValid(steps: seq<RowStep>) {
    forall j :: 0 <= j < |steps| && steps[j].Take? ==> ValidTransaction(steps[j].t)
  }

  /** The step of every record of a file, in order. */
  function Steps(format: Format, header: seq<string>, records: seq<seq<string>>, parse: string -> Option<real>)
    : (steps: seq<RowStep>)
    ensures |steps| == |records| && TakesValid(steps)
    ensures forall j :: 0 <= j < |records| ==> steps[j] == RecordStep(format, AsKv(header, records[j]), parse)
  {
    seq(|records|, j requires 0 <= j < |records| => RecordStep(format, AsKv(header, records[j]), parse))
  }

  /** `format!("{path}:{line} {text}")`. */
  function At(path: string, line: nat, text: string): string {
    path + ":" + NatToString(line) + " " + text
  }

  /** An error message that starts with `path:line`. */
  ghost predicate Located(msg: string, path: string, line: nat) {
    exists text :: msg == At(path, line, text)
  }

  /** Importing the steps of one file from record `i` on, record `i` being
      on line `i + 2` (line 1 is the header). Records imported before a
      failing one stay imported. */
  function ImportSteps(p: Progress, path: string, steps: seq<RowStep>, i: nat): Imported<()>
    requires i <= |steps| && TakesValid(steps)
    decreases |steps| - i
  {
    if i == |steps| then Imported(p, Ok(()))
    else
      match steps[i]
      case Skip => ImportSteps(p, path, steps, i + 1)
      case SkipSameLine => ImportSteps(p, path, steps, i + 1)
      case Fail(e) => Imported(p, Err(At(path, i + 2, e)))
      case Take(t) =>
        var o := ImporterInsert(p, t);
        if o.result.Err? then Imported(o.progress, Err(At(path, i + 2, "failed insertion: " + o.result.msg)))
        else ImportSteps(o.progress, path, steps, i + 1)
  }

  /** What one record does to the import: a failing record ends it with the
      record's line, a failing insert ends it after the insert, and any
      other record hands its progress on to the next one. */
  lemma ImportStepsAt(p: Progress, path: string, steps: seq<RowStep>, i: nat)
    requires i < |steps| && TakesValid(steps)
    ensures steps[i].Fail? ==> ImportSteps(p, path, steps, i) == Imported(p, Err(At(path, i + 2, steps[i].msg)))
    ensures steps[i].Take? ==> ValidTransaction(steps[i].t) && var o := ImporterInsert(p, steps[i].t);
      ImportSteps(p, path, steps, i)
        == if o.result.Err? then Imported(o.progress, Err(At(path, i + 2, "failed insertion: " + o.result.msg)))
           else ImportSteps(o.progress, path, steps, i + 1)
    ensures steps[i].Skip? || steps[i].SkipSameLine? ==> ImportSteps(p, path, steps, i) == ImportSteps(p, path, steps, i + 1)
  {
  }

  /** Every transaction stored before is still stored afterwards and the
      store stays valid. */
  lemma {:induction false} ImportStepsEffect(p: Progress, path: string, steps: seq<RowStep>, i: nat)
    requires i <= |steps| && TakesValid(steps) && Store.Valid(p.store)
    ensures var o := ImportSteps(p, path, steps, i);
      && Store.Valid(o.progress.store)
      && Elems(p.store.tables.transactions) <= Elems(o.progress.store.tables.transactions)
      && |p.store.tables.transactions| <= |o.progress.store.tables.transactions|
      && p.accounts <= o.progress.accounts
    decreases |steps| - i
  {
    if i < |steps| && steps[i].Take? {
      ImporterInsertEffect(p, steps[i].t);
      var o := ImporterInsert(p, steps[i].t);
      if o.result.Ok? {
        ImportStepsEffect(o.progress, path, steps, i + 1);
      }
    } else if i < |steps| && !steps[i].Fail? {
      ImportStepsEffect(p, path, steps, i + 1);
    }
  }

  /** Every account reported is one reported before or the account of a
      record taken. */
  lemma {:induction false} ImportStepsAccounts(p: Progress, path: string, steps: seq<RowStep>, i: nat, a: string)
    requires i <= |steps| && TakesValid(steps)
    requires a in ImportSteps(p, path, steps, i).progress.accounts && a !in p.accounts
    ensures exists j :: i <= j < |steps| && steps[j].Take? && steps[j].t.accountName == a
    decreases |steps| - i
  {
    if steps[i].Take? {
      var o := ImporterInsert(p, steps[i].t);
      if a != steps[i].t.accountName {
        assert o.progress.accounts <= p.accounts + {steps[i].t.accountName};
        ImportStepsAccounts(o.progress, path, steps, i + 1, a);
      }
    } else {
      ImportStepsAccounts(p, path, steps, i + 1, a);
    }
  }

  /** Every error names the file and the line of one of the records. */
  lemma {:induction false} ErrorsAreLocated(p: Progress, path: string, steps: seq<RowStep>, i: nat)
    requires i <= |steps| && TakesValid(steps)
    ensures var o := ImportSteps(p, path, steps, i);
      o.result.Err? ==> exists line :: i + 2 <= line < |steps| + 2 && Located(o.result.msg, path, line)
    decreases |steps| - i
  {
    if i < |steps| {
      match steps[i]
      case Skip => ErrorsAreLocated(p, path, steps, i + 1);
      case SkipSameLine => ErrorsAreLocated(p, path, steps, i + 1);
      case Fail(e) => assert Located(At(path, i + 2, e), path, i + 2);
      case Take(t) =>
        var o := ImporterInsert(p, t);
        if o.result.Err? {
          assert Located(At(path, i + 2, "failed insertion: " + o.result.msg), path, i + 2);
        } else {
          ErrorsAreLocated(o.progress, path, steps, i + 1);
        }
    }
  }

  predicate PassedOver(step: RowStep) {
    step.Skip? || step.SkipSameLine?
  }

  /** Records that are all passed over import nothing. */
  lemma {:induction false} SkippedRowsChangeNothing(p: Progress, path: string, steps: seq<RowStep>, i: nat)
    requires i <= |steps| && TakesValid(steps)
    requires forall j :: i <= j < |steps| ==> PassedOver(steps[j])
    ensures ImportSteps(p, path, steps, i) == Imported(p, Ok(()))
    decreases |steps| - i
  {
    if i < |steps| {
      assert PassedOver(steps[i]);
      SkippedRowsChangeNothing(p, path, steps, i + 1);
    }
  }

  /** A failing record after records that are passed over is reported with
      its own line, `k + 2`, and nothing is stored. */
  lemma {:induction false} FailureCarriesLine(p: Progress, path: string, steps: seq<RowStep>, i: nat, k: nat)
    requires i <= k < |steps| && TakesValid(steps)
    requires forall j :: i <= j < k ==> PassedOver(steps[j])
    requires steps[k].Fail?
    ensures ImportSteps(p, path, steps, i) == Imported(p, Err(At(path, k + 2, steps[k].msg)))
    decreases k - i
  {
    if i < k {
      assert PassedOver(steps[i]);
      FailureCarriesLine(p, path, steps, i + 1, k);
    }
  }

  // -----------------------------------------------------------------------
  // Files

  /** The header as read: every name trimmed. */
  function TrimAll(names: seq<string>): (r: seq<string>)
    ensures |r| == |names| && forall i :: 0 <= i < |names| ==> r[i] == Trim(names[i])
  {
    seq(|names|, i requires 0 <= i < |names| => Trim(names[i]))
  }

  /** A file as the CSV reader yields it: the header and the records. */
  datatype StatementFile = StatementFile(path: string, header: seq<string>, records: seq<seq<string>>)

  /** One file: an AIB file must have a "Local Currency" column. */
  function ImportFile(p: Progress, format: Format, f: StatementFile, parse: string -> Option<real>): Imported<()> {
    var header := TrimAll(f.header);
    if format.Aib? && LocalCurrency !in header then Imported(p, Err(f.path + " is not in the right format!"))
    else ImportSteps(p, f.path, Steps(format, header, f.records, parse), 0)
  }

  /** An AIB file without the column is refused before any record is read. */
  lemma AibHeaderChecked(p: Progress, f: StatementFile, parse: string -> Option<real>)
    requires forall i :: 0 <= i < |f.header| ==> Trim(f.header[i]) != LocalCurrency
    ensures ImportFile(p, Aib, f, parse) == Imported(p, Err(f.path + " is not in the right format!"))
  {
    var header := TrimAll(f.header);
    assert LocalCurrency !in header by {
      forall i | 0 <= i < |header| ensures header[i] != LocalCurrency {
        assert header[i] == Trim(f.header[i]);
      }
    }
  }

  /** The files in order, stopping at the first error. */
  function ImportFiles(p: Progress, format: Format, files: seq<StatementFile>, parse: string -> Option<real>)
    : Imported<()>
    decreases |files|
  {
    if |files| == 0 then Imported(p, Ok(()))
    else
      var o := ImportFile(p, format, files[0], parse);
      if o.result.Err? then o else ImportFiles(o.progress, format, files[1..], parse)
  }

  /** Importing files removes no stored transaction and keeps the store
      valid. */
  lemma {:induction false} ImportFilesEffect(p: Progress, format: Format, files: seq<StatementFile>,
                                             parse: string -> Option<real>)
    requires Store.Valid(p.store)
    ensures var o := ImportFiles(p, format, files, parse);
      && Store.Valid(o.progress.store)
      && Elems(p.store.tables.transactions) <= Elems(o.progress.store.tables.transactions)
      && |p.store.tables.transactions| <= |o.progress.store.tables.transactions|
      && p.accounts <= o.progress.accounts
    decreases |files|
  {
    if |files| > 0 {
      var f := files[0];
      var header := TrimAll(f.header);
      if !(format.Aib? && LocalCurrency !in header) {
        ImportStepsEffect(p, f.path, Steps(format, header, f.records, parse), 0);
      }
      var o := ImportFile(p, format, f, parse);
      if o.result.Ok? {
        ImportFilesEffect(o.progress, format, files[1..], parse);
      }
    }
  }

  // -----------------------------------------------------------------------
  // The line counter as written

  /** The line counter of `import_revolut_csv` as written: a record with an
      empty balance is passed over without `line += 1`. */
  function LineAfterAsWritten(step: RowStep, line: nat): nat {
    if step.SkipSameLine? then line else line + 1
  }

  /** Importing from record `i` on with the counter as written. */
  function ImportStepsAsWritten(p: Progress, path: string, steps: seq<RowStep>, i: nat, line: nat): Imported<()>
    requires i <= |steps| && TakesValid(steps)
    decreases |steps| - i
  {
    if i == |steps| then Imported(p, Ok(()))
    else
      match steps[i]
      case Fail(e) => Imported(p, Err(At(path, line, e)))
      case Take(t) =>
        var o := ImporterInsert(p, t);
        if o.result.Err? then Imported(o.progress, Err(At(path, line, "failed insertion: " + o.result.msg)))
        else ImportStepsAsWritten(o.progress, path, steps, i + 1, LineAfterAsWritten(steps[i], line))
      case _ => ImportStepsAsWritten(p, path, steps, i + 1, LineAfterAsWritten(steps[i], line))
  }

  /** Without records whose balance is empty, the counter as written and
      the corrected one agree. */
  lemma {:induction false} AsWrittenAgreesWithoutEmptyBalance(p: Progress, path: string, steps: seq<RowStep>, i: nat)
    requires i <= |steps| && TakesValid(steps)
    requires forall j :: i <= j < |steps| ==> !steps[j].SkipSameLine?
    ensures ImportStepsAsWritten(p, path, steps, i, i + 2) == ImportSteps(p, path, steps, i)
    decreases |steps| - i
  {
    if i < |steps| {
      match steps[i]
      case Skip => AsWrittenAgreesWithoutEmptyBalance(p, path, steps, i + 1);
      case Fail(_) =>
      case Take(t) =>
        var o := ImporterInsert(p, t);
        if o.result.Ok? {
          AsWrittenAgreesWithoutEmptyBalance(o.progress, path, steps, i + 1);
        }
    }
  }

  /** A completed "Current" record with an empty balance is passed over
      without `line += 1`. */
  lemma EmptyBalanceStep(parse: string -> Option<real>)
    ensures RecordStep(Revolut("a", "Current"), AsKv(RevolutHeader, EmptyBalanceRecord), parse) == SkipSameLine
  {
    EmptyBalanceRecordPassedOver(parse);
  }

  /** A record without fields fails. */
  lemma EmptyRecordStep(parse: string -> Option<real>)
    ensures RecordStep(Revolut("a", "Current"), AsKv(RevolutHeader, []), parse) == Fail("has no 'Product' field")
  {
    EmptyRecordFails("a", "Current", parse);
  }

  /** A file whose record on line 2 is passed over without `line += 1`
      (as one with an empty balance is) and whose record on line 3 fails.
      As written the error names line 2; the corrected counter names
      line 3. */
  lemma EmptyBalanceShiftsLinesAsWritten(p: Progress, path: string, steps: seq<RowStep>, msg: string)
    requires steps == [SkipSameLine, Fail(msg)]
    ensures ImportStepsAsWritten(p, path, steps, 0, 2) == Imported(p, Err(At(path, 2, msg)))
    ensures ImportSteps(p, path, steps, 0) == Imported(p, Err(At(path, 3, msg)))
  {
    assert ImportStepsAsWritten(p, path, steps, 0, 2) == ImportStepsAsWritten(p, path, steps, 1, 2);
    assert ImportSteps(p, path, steps, 0) == ImportSteps(p, path, steps, 1);
  }

  // -----------------------------------------------------------------------
  // The summary

  /** Whether `a` is on or before `b`. */
  predicate OnOrBefore(a: Dates.Date, b: Dates.Date) {
    !Dates.Before(b, a)
  }

  /** `max_by_key(|t| t.posted_date)`: the latest posted date. */
  function Latest(ts: seq<Transaction>): (r: Option<Dates.Date>)
    ensures r.None? <==> |ts| == 0
    ensures r.Some? ==> exists i :: 0 <= i < |ts| && ts[i].postedDate == r.value
    ensures r.Some? ==> forall i :: 0 <= i < |ts| ==> OnOrBefore(ts[i].postedDate, r.value)
  {
    if |ts| == 0 then None
    else
      match Latest(ts[1..])
      case None => Some(ts[0].postedDate)
      case Some(d) =>
        assert forall i :: 1 <= i < |ts| ==> ts[i] == ts[1..][i - 1];
        if Dates.Before(d, ts[0].postedDate) then Some(ts[0].postedDate) else Some(d)
  }

  /** The earliest posted date strictly after `bound`. */
  function FirstAfter(ts: seq<Transaction>, bound: Dates.Date): (r: Option<Dates.Date>)
    ensures r.None? <==> forall i :: 0 <= i < |ts| ==> OnOrBefore(ts[i].postedDate, bound)
    ensures r.Some? ==> Dates.Before(bound, r.value)
    ensures r.Some? ==> exists i :: 0 <= i < |ts| && ts[i].postedDate == r.value
    ensures r.Some? ==> forall i :: 0 <= i < |ts| && Dates.Before(bound, ts[i].postedDate) ==> OnOrBefore(r.value, ts[i].postedDate)
  {
    if |ts| == 0 then None
    else
      assert forall i :: 1 <= i < |ts| ==> ts[i] == ts[1..][i - 1];
      var rest := FirstAfter(ts[1..], bound);
      if !Dates.Before(bound, ts[0].postedDate) then rest
      else
        match rest
        case None => Some(ts[0].postedDate)
        case Some(d) => if Dates.Before(ts[0].postedDate, d) then Some(ts[0].postedDate) else Some(d)
  }

  datatype ImportResult = ImportResult(accounts: set<string>, imported: int, before: Option<Dates.Date>, after: Option<Dates.Date>)

  /** The summary of `import`, from the transactions before and after. The
      lower bound when nothing was stored before is `NaiveDate::MIN`. */
  function Summary(accounts: set<string>, before: seq<Transaction>, after: seq<Transaction>): ImportResult {
    var latest := Latest(before);
    ImportResult(accounts, |after| - |before|, latest,
                 FirstAfter(after, if latest.Some? then latest.value else Dates.MinDate))
  }

  /** What reading a column past the end of a row reports. */
  const NoSuchColumn: string := "invalid column index"

  /** `get_all` for transactions: the rows in stored order, failing on the
      first row that does not convert. */
  function TransactionsFrom(rows: seq<Row>): (r: Result<seq<Transaction>>)
    ensures r.Ok? ==> |r.value| == |rows|
    ensures r.Ok? ==> forall i :: 0 <= i < |rows| ==>
      |rows[i]| == TransactionArity && TransactionFromRow(rows[i]) == Ok(r.value[i])
  {
    if |rows| == 0 then Ok([])
    else if |rows[0]| != TransactionArity then Err(NoSuchColumn)
    else
      var t :- TransactionFromRow(rows[0]);
      var rest :- TransactionsFrom(rows[1..]);
      assert forall i :: 1 <= i < |rows| ==> rows[i] == rows[1..][i - 1];
      Ok([t] + rest)
  }

  /** Stored transactions read back as themselves. */
  lemma {:induction false} TransactionsReadBack(ts: seq<Transaction>)
    requires forall i :: 0 <= i < |ts| ==> ValidTransaction(ts[i])
    ensures TransactionsFrom(TransactionRows(ts)) == Ok(ts)
    decreases |ts|
  {
    if |ts| > 0 {
      var rows := TransactionRows(ts);
      TransactionRoundTrip(ts[0]);
      TransactionsReadBack(ts[1..]);
      assert rows[1..] == TransactionRows(ts[1..]);
      TransactionsFromCons(rows, ts[0], ts[1..]);
      assert ts == [ts[0]] + ts[1..];
    }
  }

  /** The rows the transactions are stored as, in order. */
  function TransactionRows(ts: seq<Transaction>): (rows: seq<Row>)
    requires forall i :: 0 <= i < |ts| ==> ValidTransaction(ts[i])
    ensures |rows| == |ts| && forall i :: 0 <= i < |ts| ==> rows[i] == TransactionToRow(ts[i])
  {
    if |ts| == 0 then [] else [TransactionToRow(ts[0])] + TransactionRows(ts[1..])
  }

  lemma TransactionsFromCons(rows: seq<Row>, t: Transaction, rest: seq<Transaction>)
    requires |rows| > 0 && |rows[0]| == TransactionArity && TransactionFromRow(rows[0]) == Ok(t)
    requires TransactionsFrom(rows[1..]) == Ok(rest)
    ensures TransactionsFrom(rows) == Ok([t] + rest)
  {
  }

  /** `import`: the transactions before, the files, the transactions after
      and the summary. The store keeps whatever was imported before an
      error. */
  function ImportCommand(s: State, format: Format, files: seq<StatementFile>, parse: string -> Option<real>)
    : Outcome<ImportResult>
  {
    CommandAround(s, ImportFiles(Progress(s, {}), format, files, parse))
  }

  /** The command around the imports `o` made from `s`: the transactions
      are read before and after, and the summary compares the two. */
  function CommandAround(s: State, o: Imported<()>): Outcome<ImportResult> {
    match TransactionsFrom(SelectAll(s, Transactions))
    case Err(e) => Outcome(s, Err(e))
    case Ok(before) =>
      if o.result.Err? then Outcome(o.progress.store, Err(o.result.msg))
      else
        match TransactionsFrom(SelectAll(o.progress.store, Transactions))
        case Err(e) => Outcome(o.progress.store, Err(e))
        case Ok(after) => Outcome(o.progress.store, Ok(Summary(o.progress.accounts, before, after)))
  }

  /** On a valid store the count of imported transactions is the number of
      rows added, never negative (the `usize` subtraction cannot wrap), and
      no transaction stored before is lost. */
  lemma ImportCounts(s: State, format: Format, files: seq<StatementFile>, parse: string -> Option<real>)
    requires Store.Valid(s)
    ensures var o := ImportCommand(s, format, files, parse);
      && Store.Valid(o.state)
      && Elems(s.tables.transactions) <= Elems(o.state.tables.transactions)
      && (o.result.Ok? ==> o.result.value.imported == |o.state.tables.transactions| - |s.tables.transactions| >= 0)
  {
    ImportFilesEffect(Progress(s, {}), format, files, parse);
    CommandAroundCounts(s, ImportFiles(Progress(s, {}), format, files, parse));
  }

  lemma CommandAroundCounts(s: State, o: Imported<()>)
    requires Store.Valid(o.progress.store)
    requires Elems(s.tables.transactions) <= Elems(o.progress.store.tables.transactions)
    requires |s.tables.transactions| <= |o.progress.store.tables.transactions|
    ensures var c := CommandAround(s, o);
      && (c.state == s || c.state == o.progress.store)
      && (c.result.Ok? ==> c.state == o.progress.store)
      && (c.result.Ok? ==> c.result.value.imported == |o.progress.store.tables.transactions| - |s.tables.transactions| >= 0)
  {
    TransactionsFromCount(s);
    TransactionsFromCount(o.progress.store);
  }

  /** Reading the transactions back yields one per stored row. */
  lemma TransactionsFromCount(s: State)
    ensures var r := TransactionsFrom(SelectAll(s, Transactions));
      r.Ok? ==> |r.value| == |s.tables.transactions|
  {
  }

  // -----------------------------------------------------------------------
  // ensure_bank_is_set, on accounts that carry a bank

  /** An account as the importer's revision of the model has it. */
  datatype BankAccount = BankAccount(name: string, alias: Option<string>, selected: bool, bank: Option<string>)

  predicate NeedsBank(a: BankAccount, name: string) {
    a.name == name && a.bank.None?
  }

  /** The first account called `name` that has no bank. */
  function FirstWithoutBank(accounts: seq<BankAccount>, name: string): (r: Option<nat>)
    ensures r.Some? ==> r.value < |accounts| && NeedsBank(accounts[r.value], name)
    ensures r.Some? ==> forall i :: 0 <= i < r.value ==> !NeedsBank(accounts[i], name)
    ensures r.None? ==> forall i :: 0 <= i < |accounts| ==> !NeedsBank(accounts[i], name)
  {
    if |accounts| == 0 then None
    else if NeedsBank(accounts[0], name) then Some(0)
    else
      var r := FirstWithoutBank(accounts[1..], name);
      if r.Some? then Some(r.value + 1) else None
  }

  /** The accounts after `ensure_bank_is_set(account)`. */
  function WithBankSet(accounts: seq<BankAccount>, account: BankAccount): seq<BankAccount> {
    match FirstWithoutBank(accounts, account.name)
    case None => accounts
    case Some(k) => accounts[k := accounts[k].(bank := account.bank)]
  }

  /** Only the first account with that name and no bank gets the bank;
      every other account, and every other field, is left as it was. */
  lemma WithBankSetChangesOne(accounts: seq<BankAccount>, account: BankAccount)
    ensures var r := WithBankSet(accounts, account);
      && |r| == |accounts|
      && (forall i :: 0 <= i < |r| ==> r[i] == accounts[i].(bank := r[i].bank))
      && (forall i :: 0 <= i < |r| && r[i] != accounts[i] ==>
            NeedsBank(accounts[i], account.name) && r[i].bank == account.bank
            && forall j :: 0 <= j < i ==> !NeedsBank(accounts[j], account.name))
      && ((exists i :: 0 <= i < |accounts| && NeedsBank(accounts[i], account.name)) ==>
            exists i :: 0 <= i < |r| && r[i].name == account.name && r[i].bank == account.bank)
  {
    var r := WithBankSet(accounts, account);
    match FirstWithoutBank(accounts, account.name)
    case None =>
    case Some(k) =>
      assert r[k].name == account.name && r[k].bank == account.bank;
  }

  /** `Importer::ensure_bank_is_set`: the loop over all accounts that stops
      at the first one with that name and no bank. */
  method EnsureBankIsSet(accounts: seq<BankAccount>, account: BankAccount) returns (r: seq<BankAccount>)
    ensures r == WithBankSet(accounts, account)
  {
    r := accounts;
    var i := 0;
    while i < |accounts|
      invariant i <= |accounts| && r == accounts
      invariant forall j :: 0 <= j < i ==> !NeedsBank(accounts[j], account.name)
    {
      var existing := accounts[i];
      if existing.name == account.name && existing.bank.None? {
        existing := existing.(bank := account.bank);
        r := accounts[i := existing];
        assert FirstWithoutBank(accounts, account.name) == Some(i);
        break;
      }
      i := i + 1;
    }
  }

  // -----------------------------------------------------------------------
  // The importer as a class

  class Importer {
    const db: SqliteDatabase
    var accounts: set<string>
    const bank: string

    /** `Importer::new`. */
    constructor (db: SqliteDatabase, format: Format)
      ensures this.db == db && accounts == {} && bank == BankName(format)
    {
      this.db := db;
      accounts := {};
      bank := BankName(format);
    }

    /** `Importer::insert`. */
    method Insert(t: Transaction) returns (r: Result<()>)
      requires ValidTransaction(t)
      modifies this, db
      ensures var o := ImporterInsert(Progress(old(db.Snapshot()), old(accounts)), t);
        Progress(db.Snapshot(), accounts) == o.progress && r == o.result
    {
      var a := db.InsertOrGet(Accounts, AccountToRow(Account(t.accountName, None, false)));
      if a.Err? {
        return Err(a.msg);
      }
      accounts := accounts + {t.accountName};
      var tr := db.InsertOrGet(Transactions, TransactionToRow(t));
      r := if tr.Err? then Err(tr.msg) else Ok(());
    }

    /** The record loop of one file, with the line counter corrected. */
    method ImportRecords(path: string, steps: seq<RowStep>) returns (r: Result<()>)
      requires TakesValid(steps)
      modifies this, db
      ensures var o := ImportSteps(Progress(old(db.Snapshot()), old(accounts)), path, steps, 0);
        Progress(db.Snapshot(), accounts) == o.progress && r == o.result
    {
      var line := 2; // line 1 is the header
      var i := 0;
      ghost var o := ImportSteps(Progress(db.Snapshot(), accounts), path, steps, 0);
      while i < |steps|
        invariant 0 <= i <= |steps| && line == i + 2
        invariant o == ImportSteps(Progress(db.Snapshot(), accounts), path, steps, i)
      {
        ghost var cur := Progress(db.Snapshot(), accounts);
        var step := steps[i];
        ImportStepsAt(cur, path, steps, i);
        if step.Fail? {
          return Err(At(path, line, step.msg));
        }
        if step.Take? {
          var inserted := Insert(step.t);
          if inserted.Err? {
            return Err(At(path, line, "failed insertion: " + inserted.msg));
          }
        }
        line := line + 1;
        i := i + 1;
      }
      r := Ok(());
    }

    method ImportOneFile(format: Format, f: StatementFile, parse: string -> Option<real>) returns (r: Result<()>)
      modifies this, db
      ensures var o := ImportFile(Progress(old(db.Snapshot()), old(accounts)), format, f, parse);
        Progress(db.Snapshot(), accounts) == o.progress && r == o.result
    {
      var header := TrimAll(f.header);
      if format.Aib? && LocalCurrency !in header {
        return Err(f.path + " is not in the right format!");
      }
      r := ImportRecords(f.path, Steps(format, header, f.records, parse));
    }

    /** `import_aib_csv` / `import_revolut_csv`: the files in order. */
    method ImportAll(format: Format, files: seq<StatementFile>, parse: string -> Option<real>) returns (r: Result<()>)
      modifies this, db
      ensures var o := ImportFiles(Progress(old(db.Snapshot()), old(accounts)), format, files, parse);
        Progress(db.Snapshot(), accounts) == o.progress && r == o.result
    {
      var i := 0;
      while i < |files|
        invariant i <= |files|
        invariant ImportFiles(Progress(old(db.Snapshot()), old(accounts)), format, files, parse)
          == ImportFiles(Progress(db.Snapshot(), accounts), format, files[i..], parse)
      {
        var res := ImportOneFile(format, files[i], parse);
        if res.Err? {
          return res;
        }
        assert files[i..][1..] == files[i + 1..];
        i := i + 1;
      }
      r := Ok(());
    }
  }

  /** `import`. */
  method Import(db: SqliteDatabase, format: Format, files: seq<StatementFile>, parse: string -> Option<real>)
    returns (r: Result<ImportResult>)
    modifies db
    ensures var o := ImportCommand(old(db.Snapshot()), format, files, parse);
      db.Snapshot() == o.state && r == o.result
  {
    var importer := new Importer(db, format);
    var rows := db.GetAll(Transactions);
    assert rows == SelectAll(db.Snapshot(), Transactions);
    var before := TransactionsFrom(rows);
    if before.Err? {
      return Err(before.msg);
    }
    var imported := importer.ImportAll(format, files, parse);
    if imported.Err? {
      return Err(imported.msg);
    }
    rows := db.GetAll(Transactions);
    assert rows == SelectAll(db.Snapshot(), Transactions);
    var after := TransactionsFrom(rows);
    if after.Err? {
      return Err(after.msg);
    }
    r := Ok(Summary(importer.accounts, before.value, after.value));
  }
}
