/** The report tables of `src/output/table.rs`: the same renderer as
    `src/table.rs` behind a guard that refuses terminals too narrow for the
    columns, and the four report tables shaped by `Query` and rendered with
    it. */
module OutputTable {
  import opened Wrappers
  import opened Numerals
  import opened Table
  import opened Query

  const NotEnoughSpace := "Not enough space to render the table."

  // ---------------------------------------------------------------------
  // The maximum column width and its guard

  /** `usize` subtraction: `None` where Rust's checked arithmetic panics. */
  function UsizeSub(a: nat, b: nat): (r: Option<nat>)
    ensures r.Some? <==> b <= a
    ensures r.Some? ==> r.value + b == a
  {
    if b <= a then Some(a - b) else None
  }

  /** The guard as the program computes it: `(termwidth - 1) / n - 1` in
      `usize`, then an error when that is 0. `None` is a subtraction that
      underflows before the guard is reached. */
  function GuardAsWritten(termwidth: nat, n: nat): (r: Option<Result<nat>>)
    requires 0 < n
    ensures r.None? <==> termwidth <= n
    ensures r == Some(Err(NotEnoughSpace)) <==> n < termwidth <= 2 * n
  {
    match UsizeSub(termwidth, 1)
    case None => None
    case Some(avail) =>
      match UsizeSub(avail / n, 1)
      case None => None
      case Some(w) => Some(if w == 0 then Err(NotEnoughSpace) else Ok(w))
  }

  /** The guard as intended: every terminal too narrow for a column of
      width 1 between borders is refused with the error, however many
      columns there are. */
  function MaxColumnWidthGuard(termwidth: nat, n: nat): (r: Result<nat>)
    requires 0 < n
    ensures r.Ok? <==> 2 * n < termwidth
    ensures r.Err? ==> r.msg == NotEnoughSpace
    ensures r.Ok? ==> 0 < r.value && 1 + n * (r.value + 1) <= termwidth
  {
    if termwidth <= n || (termwidth - 1) / n <= 1 then Err(NotEnoughSpace)
    else
      var w := (termwidth - 1) / n - 1;
      assert n * (w + 1) <= termwidth - 1 by { DivMulBound(termwidth - 1, n); }
      Ok(w)
  }

  lemma DivMulBound(a: nat, n: nat)
    requires 0 < n
    ensures n * (a / n) <= a
  {
  }

  /** Where the program's guard is reached it decides as the intended one
      does and yields the same width; where it is not, the intended guard
      refuses the terminal. */
  lemma GuardAgrees(termwidth: nat, n: nat)
    requires 0 < n
    ensures var g := GuardAsWritten(termwidth, n);
      && (g.Some? ==> g.value == MaxColumnWidthGuard(termwidth, n))
      && (g.None? ==> MaxColumnWidthGuard(termwidth, n) == Err(NotEnoughSpace))
  {
    if n < termwidth {
      assert (termwidth - 1) / n >= 1;
    }
  }

  /** The terminal the program's own tests use is 16 columns wide: eight
      columns get the error, sixteen make the subtraction underflow. */
  lemma NarrowTerminalUnderflows()
    ensures GuardAsWritten(16, 8) == Some(Err(NotEnoughSpace))
    ensures GuardAsWritten(16, 16).None?
    ensures MaxColumnWidthGuard(16, 16) == Err(NotEnoughSpace)
  {
  }

  // ---------------------------------------------------------------------
  // render_table

  /** The footer's row count must fit in the table once the guard passes
      (the program's `table_width - len` is a `usize` subtraction). */
  ghost predicate CounterFits(columns: seq<string>, rows: seq<seq<string>>, termwidth: nat,
                              wrap: (string, nat) -> seq<string>, cw: char -> nat)
    requires 0 < |columns| && WrapFits(wrap, cw)
  {
    2 * |columns| < termwidth ==> |CountText(|rows|)| <= TableWidth(Layout(columns, rows, termwidth, wrap, cw))
  }

  /** A count with no more digits than there are columns plus one always
      fits: the borders alone are that wide. */
  lemma CounterFitsWhenShort(columns: seq<string>, rows: seq<seq<string>>, termwidth: nat,
                             wrap: (string, nat) -> seq<string>, cw: char -> nat)
    requires 0 < |columns| && WrapFits(wrap, cw)
    requires |CountText(|rows|)| <= 1 + |columns|
    ensures CounterFits(columns, rows, termwidth, wrap, cw)
  {
  }

  /** `render_table`: a terminal too narrow for the columns is refused
      before anything is written; otherwise the table is the one `Table`
      renders. */
  method RenderTable(columns: seq<string>, rows: seq<seq<string>>, termwidth: nat,
                     wrap: (string, nat) -> seq<string>, cw: char -> nat)
    returns (out: seq<string>, r: Result<()>)
    requires 0 < |columns| && Shaped(rows, |columns|) && WrapFits(wrap, cw)
    requires CounterFits(columns, rows, termwidth, wrap, cw)
    ensures termwidth <= 2 * |columns| ==> out == [] && r == Err(NotEnoughSpace)
    ensures 2 * |columns| < termwidth ==>
      && (r.Ok? <==> forall i :: 0 <= i < |rows| ==> |rows[i]| > 0)
      && (r.Err? ==> r.msg == RowHeightError)
      && (r.Ok? ==> out == TableOutput(columns, rows, termwidth, wrap, cw))
  {
    var guard := MaxColumnWidthGuard(termwidth, |columns|);
    if guard.Err? {
      return [], Err(guard.msg);
    }
    out, r := Table.RenderTable(columns, rows, termwidth, wrap, cw);
  }

  // ---------------------------------------------------------------------
  // The report tables

  /** Rows of a query result, each with as many cells as there are columns. */
  lemma RectangularShaped(q: QueryResult)
    requires Rectangular(q)
    ensures Shaped(q.rows, |q.columns|)
  {
  }

  /** Rendering a shaped report: refused on a narrow terminal, the rendered
      table otherwise (every row has cells, so no row fails). */
  method RenderReport(q: QueryResult, termwidth: nat, wrap: (string, nat) -> seq<string>, cw: char -> nat)
    returns (out: seq<string>, r: Result<()>)
    requires 0 < |q.columns| && Rectangular(q) && WrapFits(wrap, cw)
    requires CounterFits(q.columns, q.rows, termwidth, wrap, cw)
    ensures r.Ok? <==> 2 * |q.columns| < termwidth
    ensures r.Err? ==> r.msg == NotEnoughSpace && out == []
    ensures r.Ok? ==> out == TableOutput(q.columns, q.rows, termwidth, wrap, cw)
  {
    RectangularShaped(q);
    out, r := RenderTable(q.columns, q.rows, termwidth, wrap, cw);
  }

  /** `render_debits_table`. */
  method RenderDebitsTable(rows: seq<FlowRow>, showTransactionId: bool, show: real -> string,
                           termwidth: nat, wrap: (string, nat) -> seq<string>, cw: char -> nat)
    returns (out: seq<string>, r: Result<()>)
    requires ValidDates(rows) && WrapFits(wrap, cw)
    requires var q := FlowTable(DebitsHeadings, rows, showTransactionId, show);
      CounterFits(q.columns, q.rows, termwidth, wrap, cw)
    ensures var q := FlowTable(DebitsHeadings, rows, showTransactionId, show);
      && (r.Ok? <==> (if showTransactionId then 16 else 14) < termwidth)
      && (r.Err? ==> r.msg == NotEnoughSpace && out == [])
      && (r.Ok? ==> out == TableOutput(q.columns, q.rows, termwidth, wrap, cw))
  {
    var q := FlowTable(DebitsHeadings, rows, showTransactionId, show);
    out, r := RenderReport(q, termwidth, wrap, cw);
  }

  /** `render_credits_table`. */
  method RenderCreditsTable(rows: seq<FlowRow>, showTransactionId: bool, show: real -> string,
                            termwidth: nat, wrap: (string, nat) -> seq<string>, cw: char -> nat)
    returns (out: seq<string>, r: Result<()>)
    requires ValidDates(rows) && WrapFits(wrap, cw)
    requires var q := FlowTable(CreditsHeadings, rows, showTransactionId, show);
      CounterFits(q.columns, q.rows, termwidth, wrap, cw)
    ensures var q := FlowTable(CreditsHeadings, rows, showTransactionId, show);
      && (r.Ok? <==> (if showTransactionId then 16 else 14) < termwidth)
      && (r.Err? ==> r.msg == NotEnoughSpace && out == [])
      && (r.Ok? ==> out == TableOutput(q.columns, q.rows, termwidth, wrap, cw))
  {
    var q := FlowTable(CreditsHeadings, rows, showTransactionId, show);
    out, r := RenderReport(q, termwidth, wrap, cw);
  }

  /** `render_by_month_table`. */
  method RenderByMonthTable(rows: seq<ByMonthRow>, showBalance: bool, show: real -> string,
                            termwidth: nat, wrap: (string, nat) -> seq<string>, cw: char -> nat)
    returns (out: seq<string>, r: Result<()>)
    requires ValidMonths(rows) && WrapFits(wrap, cw)
    requires var q := ByMonthTable(rows, showBalance, show);
      CounterFits(q.columns, q.rows, termwidth, wrap, cw)
    ensures var q := ByMonthTable(rows, showBalance, show);
      && (r.Ok? <==> (if showBalance then 16 else 14) < termwidth)
      && (r.Err? ==> r.msg == NotEnoughSpace && out == [])
      && (r.Ok? ==> out == TableOutput(q.columns, q.rows, termwidth, wrap, cw))
  {
    var q := ByMonthTable(rows, showBalance, show);
    out, r := RenderReport(q, termwidth, wrap, cw);
  }

  /** `render_by_tag_table`. */
  method RenderByTagTable(rows: seq<ByTagRow>, show: real -> string,
                          termwidth: nat, wrap: (string, nat) -> seq<string>, cw: char -> nat)
    returns (out: seq<string>, r: Result<()>)
    requires WrapFits(wrap, cw)
    requires var q := ByTagTable(rows, show); CounterFits(q.columns, q.rows, termwidth, wrap, cw)
    ensures var q := ByTagTable(rows, show);
      && (r.Ok? <==> 10 < termwidth)
      && (r.Err? ==> r.msg == NotEnoughSpace && out == [])
      && (r.Ok? ==> out == TableOutput(q.columns, q.rows, termwidth, wrap, cw))
  {
    var q := ByTagTable(rows, show);
    out, r := RenderReport(q, termwidth, wrap, cw);
  }
}
