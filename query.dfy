/** `command_query`: the filters handed to the report queries and the shape
    of the table built from their rows. The queries themselves run in SQL
    and are given as functions of the filters. */
module Query {
  import opened Wrappers
  import opened Numerals
  import opened Strings
  import opened Dates
  import opened Values

  /** `QueryFilters`, as `command_query` fills it in. */
  datatype Filters = Filters(
    account: Option<string>,
    tags: seq<string>,
    descriptionContains: Option<string>,
    amountMin: Option<real>,
    amountMax: Option<real>,
    dateFrom: Option<Date>,
    dateTo: Option<Date>,
    transactionTypes: seq<TransactionType>)

  /** The `--type` option of the by-tag report. */
  datatype Direction = DebitDirection | CreditDirection

  datatype PreparedQuery =
    | Debits(showTransactionId: bool)
    | Credits(showTransactionId: bool)
    | ByMonth
    | ByTag(transactionType: Option<Direction>)

  /** `DebitsRow` and `CreditsRow`, which have the same fields. */
  datatype FlowRow = FlowRow(
    accountName: string,
    transactionId: int,
    tags: seq<string>,
    amount: real,
    description: string,
    postedDate: Date,
    cumulative: real,
    pctCumulative: real)

  datatype ByMonthRow = ByMonthRow(
    accountName: string,
    month: Date,
    creditAmount: real,
    debitAmount: real,
    creditMinusDebit: real,
    balance: real,
    creditCumulative: real,
    debitCumulative: real)

  datatype ByTagRow = ByTagRow(tag: string, tagDebit: real, tagDebitPct: real, tagCredit: real, tagCreditPct: real)

  /** The four report queries of the store. */
  datatype Reports = Reports(
    debits: Filters -> Result<seq<FlowRow>>,
    credits: Filters -> Result<seq<FlowRow>>,
    byMonth: Filters -> Result<seq<ByMonthRow>>,
    byTag: Filters -> Result<seq<ByTagRow>>)

  datatype QueryResult = QueryResult(columns: seq<string>, rows: seq<seq<string>>)

  /** Every row has one cell per column. */
  predicate Rectangular(q: QueryResult) {
    forall i :: 0 <= i < |q.rows| ==> |q.rows[i]| == |q.columns|
  }

  /** `Vec::insert`. */
  function InsertAt<T>(s: seq<T>, k: nat, x: T): (r: seq<T>)
    requires k <= |s|
    ensures |r| == |s| + 1 && r[k] == x
    ensures forall i :: 0 <= i < k ==> r[i] == s[i]
    ensures forall i :: k < i < |r| ==> r[i] == s[i - 1]
  {
    s[..k] + [x] + s[k..]
  }

  // -----------------------------------------------------------------------
  // Cell formats (`to_row_format`)

  /** `{:3}` of an `i64`: right-aligned in three columns. */
  function IdCell(id: int): (s: string)
    ensures |s| >= 3 && |s| >= |IntToString(id)| && s[|s| - |IntToString(id)|..] == IntToString(id)
    ensures forall i :: 0 <= i < |s| - |IntToString(id)| ==> s[i] == ' '
  {
    PadLeft(IntToString(id), 3, ' ')
  }

  function TagsCell(tags: seq<string>): string {
    Join(tags, "\n")
  }

  function DateCell(d: Date): string
    requires Valid(d)
  {
    Format(d, '/')
  }

  /** `%Y/%m`. */
  function MonthCell(d: Date): string
    requires Valid(d)
  {
    FormatYear(d.year) + "/" + ZeroPadded(d.month, 2)
  }

  // -----------------------------------------------------------------------
  // Filters

  /** The filters for a query: the command-line filters, with transaction
      types only for the by-tag report. */
  function FiltersFor(q: PreparedQuery, tags: seq<string>, descriptionContains: Option<string>,
                      amountMin: Option<real>, amountMax: Option<real>,
                      from: Option<Date>, to: Option<Date>, account: Option<string>): (f: Filters)
    ensures f.account == account && f.tags == tags && f.descriptionContains == descriptionContains
    ensures f.amountMin == amountMin && f.amountMax == amountMax && f.dateFrom == from && f.dateTo == to
    ensures !q.ByTag? || q.transactionType.None? ==> f.transactionTypes == []
    ensures q.ByTag? && q.transactionType == Some(DebitDirection) ==> f.transactionTypes == [Debit, DirectDebit]
    ensures q.ByTag? && q.transactionType == Some(CreditDirection) ==> f.transactionTypes == [Credit]
  {
    var types :=
      if !q.ByTag? then []
      else match q.transactionType
        case Some(DebitDirection) => [Debit, DirectDebit]
        case Some(CreditDirection) => [Credit]
        case None => [];
    Filters(account, tags, descriptionContains, amountMin, amountMax, from, to, types)
  }

  // -----------------------------------------------------------------------
  // Debits and credits

  const DebitsHeadings: seq<string> := ["Account", "Tag(s)", "Debit Amount \U{2191}", "Description", "Date",
    "Debit (cumulative) \U{2193}", "% (cumulative) \U{2193}"]
  const CreditsHeadings: seq<string> := ["Account", "Tag(s)", "Credit Amount \U{2191}", "Description", "Date",
    "Credit (cumulative) \U{2193}", "% (cumulative) \U{2193}"]

  predicate ValidDates(rows: seq<FlowRow>) {
    forall i :: 0 <= i < |rows| ==> Valid(rows[i].postedDate)
  }

  /** The cells of one debit or credit row; `{:.02}` of an `f64` is `show`. */
  function FlowCells(r: FlowRow, showTransactionId: bool, show: real -> string): (cells: seq<string>)
    requires Valid(r.postedDate)
  {
    var cells := [r.accountName, TagsCell(r.tags), show(r.amount), r.description, DateCell(r.postedDate),
                  show(r.cumulative), show(r.pctCumulative)];
    if showTransactionId then InsertAt(cells, 1, IdCell(r.transactionId)) else cells
  }

  /** The debits or credits table: seven columns, and the transaction id as
      the second one when asked for. */
  function FlowTable(headings: seq<string>, rows: seq<FlowRow>, showTransactionId: bool, show: real -> string): (q: QueryResult)
    requires |headings| == 7 && ValidDates(rows)
    ensures |q.columns| == (if showTransactionId then 8 else 7) && |q.rows| == |rows|
    ensures Rectangular(q)
  {
    var columns := if showTransactionId then InsertAt(headings, 1, "ID") else headings;
    QueryResult(columns, seq(|rows|, i requires 0 <= i < |rows| => FlowCells(rows[i], showTransactionId, show)))
  }

  /** With the transaction id shown, the table is the one without it, with
      "ID" and each row's id spliced in at index 1. */
  lemma IdColumnSplicedIn(headings: seq<string>, rows: seq<FlowRow>, show: real -> string)
    requires |headings| == 7 && ValidDates(rows)
    ensures var with, without := FlowTable(headings, rows, true, show), FlowTable(headings, rows, false, show);
      && with.columns == InsertAt(without.columns, 1, "ID")
      && |with.rows| == |without.rows|
      && forall i :: 0 <= i < |rows| ==> with.rows[i] == InsertAt(without.rows[i], 1, IdCell(rows[i].transactionId))
  {
  }

  // -----------------------------------------------------------------------
  // By month

  const ByMonthHeadings: seq<string> := ["Account", "Month \U{2191}", "Credit Amount", "Debit Amount", "Credit - Debit",
    "Credit (cumulative) \U{2191}", "Debit (cumulative) \U{2191}"]

  /** A running balance only means something when no filter drops
      transactions: no tags, no description, no amount bounds. */
  predicate ShowBalance(tags: seq<string>, descriptionContains: Option<string>, amountMin: Option<real>, amountMax: Option<real>) {
    |tags| == 0 && descriptionContains.None? && amountMin.None? && amountMax.None?
  }

  predicate ValidMonths(rows: seq<ByMonthRow>) {
    forall i :: 0 <= i < |rows| ==> Valid(rows[i].month)
  }

  function ByMonthCells(r: ByMonthRow, showBalance: bool, show: real -> string): seq<string>
    requires Valid(r.month)
  {
    var cells := [r.accountName, MonthCell(r.month), show(r.creditAmount), show(r.debitAmount),
                  show(r.creditMinusDebit), show(r.creditCumulative), show(r.debitCumulative)];
    if showBalance then InsertAt(cells, 5, show(r.balance)) else cells
  }

  function ByMonthTable(rows: seq<ByMonthRow>, showBalance: bool, show: real -> string): (q: QueryResult)
    requires ValidMonths(rows)
    ensures |q.columns| == (if showBalance then 8 else 7) && |q.rows| == |rows|
    ensures Rectangular(q)
  {
    var columns := if showBalance then InsertAt(ByMonthHeadings, 5, "Balance") else ByMonthHeadings;
    QueryResult(columns, seq(|rows|, i requires 0 <= i < |rows| => ByMonthCells(rows[i], showBalance, show)))
  }

  /** "Balance" is a column exactly when it is shown, and then it is the
      sixth column and holds each row's balance; the table is otherwise the
      one without it. */
  lemma BalanceColumn(rows: seq<ByMonthRow>, showBalance: bool, show: real -> string)
    requires ValidMonths(rows)
    ensures var q := ByMonthTable(rows, showBalance, show);
      && ("Balance" in q.columns <==> showBalance)
      && (showBalance ==>
        var without := ByMonthTable(rows, false, show);
        && q.columns[5] == "Balance" && q.columns == InsertAt(without.columns, 5, "Balance")
        && forall i :: 0 <= i < |rows| ==>
             (q.rows[i][5] == show(rows[i].balance) && q.rows[i] == InsertAt(without.rows[i], 5, show(rows[i].balance))))
  {
    var q := ByMonthTable(rows, showBalance, show);
    if !showBalance {
      assert "Balance" !in ByMonthHeadings by {
        forall i | 0 <= i < |ByMonthHeadings| ensures ByMonthHeadings[i] != "Balance" {
          assert |ByMonthHeadings[i]| != 7 || ByMonthHeadings[i][0] != 'B';
        }
      }
    }
  }

  // -----------------------------------------------------------------------
  // By tag

  const ByTagHeadings: seq<string> := ["Tag", "Debit Amount \U{2191}", "Debit Amount %", "Credit Amount", "Credit Amount %"]

  function ByTagTable(rows: seq<ByTagRow>, show: real -> string): (q: QueryResult)
    ensures |q.columns| == 5 && |q.rows| == |rows|
    ensures Rectangular(q)
  {
    QueryResult(ByTagHeadings, seq(|rows|, i requires 0 <= i < |rows| =>
      [rows[i].tag, show(rows[i].tagDebit), show(rows[i].tagDebitPct), show(rows[i].tagCredit), show(rows[i].tagCreditPct)]))
  }

  // -----------------------------------------------------------------------
  // command_query

  /** `command_query`: run the report the query names with the filters
      built from the arguments and shape its rows. */
  function CommandQuery(db: Reports, q: PreparedQuery, tags: seq<string>, descriptionContains: Option<string>,
                        amountMin: Option<real>, amountMax: Option<real>,
                        from: Option<Date>, to: Option<Date>, account: Option<string>,
                        show: real -> string): (r: Result<QueryResult>)
    requires forall f :: db.debits(f).Ok? ==> ValidDates(db.debits(f).value)
    requires forall f :: db.credits(f).Ok? ==> ValidDates(db.credits(f).value)
    requires forall f :: db.byMonth(f).Ok? ==> ValidMonths(db.byMonth(f).value)
    ensures r.Ok? ==> Rectangular(r.value)
  {
    var filters := FiltersFor(q, tags, descriptionContains, amountMin, amountMax, from, to, account);
    match q
    case Debits(showId) =>
      var rows :- db.debits(filters);
      Ok(FlowTable(DebitsHeadings, rows, showId, show))
    case Credits(showId) =>
      var rows :- db.credits(filters);
      Ok(FlowTable(CreditsHeadings, rows, showId, show))
    case ByMonth =>
      var rows :- db.byMonth(filters);
      Ok(ByMonthTable(rows, ShowBalance(tags, descriptionContains, amountMin, amountMax), show))
    case ByTag(_) =>
      var rows :- db.byTag(filters);
      Ok(ByTagTable(rows, show))
  }

  /** A report fails exactly when its query does, and then yields one row
      per query row; the by-tag report asks only for the transaction types
      of its direction, and the by-month report shows a balance exactly when
      no filter drops transactions. */
  lemma CommandQueryMeaning(db: Reports, q: PreparedQuery, tags: seq<string>, descriptionContains: Option<string>,
                            amountMin: Option<real>, amountMax: Option<real>,
                            from: Option<Date>, to: Option<Date>, account: Option<string>,
                            show: real -> string)
    requires forall f :: db.debits(f).Ok? ==> ValidDates(db.debits(f).value)
    requires forall f :: db.credits(f).Ok? ==> ValidDates(db.credits(f).value)
    requires forall f :: db.byMonth(f).Ok? ==> ValidMonths(db.byMonth(f).value)
    ensures var f := FiltersFor(q, tags, descriptionContains, amountMin, amountMax, from, to, account);
      var r := CommandQuery(db, q, tags, descriptionContains, amountMin, amountMax, from, to, account, show);
      && (q.Debits? ==> r.Ok? == db.debits(f).Ok? && (r.Ok? ==> |r.value.rows| == |db.debits(f).value|))
      && (q.Credits? ==> r.Ok? == db.credits(f).Ok? && (r.Ok? ==> |r.value.rows| == |db.credits(f).value|))
      && (q.ByMonth? ==> r.Ok? == db.byMonth(f).Ok? && (r.Ok? ==>
            (|r.value.rows| == |db.byMonth(f).value|
             && ("Balance" in r.value.columns <==> ShowBalance(tags, descriptionContains, amountMin, amountMax)))))
      && (q.ByTag? ==> r.Ok? == db.byTag(f).Ok? && (r.Ok? ==> |r.value.rows| == |db.byTag(f).value| && |r.value.columns| == 5))
  {
    var r := CommandQuery(db, q, tags, descriptionContains, amountMin, amountMax, from, to, account, show);
    if q.ByMonth? && r.Ok? {
      var f := FiltersFor(q, tags, descriptionContains, amountMin, amountMax, from, to, account);
      BalanceColumn(db.byMonth(f).value, ShowBalance(tags, descriptionContains, amountMin, amountMax), show);
    }
  }
}
