/** Text tables for the terminal (src/table.rs): every cell is wrapped at
    the widest a column may be, each column is as wide as its widest line
    plus a little padding, rows are centred between '|' borders, and the
    heading comes back every 20 rows, a dotted row counter every 10.

    The text wrapper (textwrap's `wrap`) and the width of a character on
    the terminal (the Unicode width table) are parameters: `wrap(t, w)` is
    the list of lines `t` is wrapped into at width `w`, `cw(c)` the number
    of columns `c` takes. What is written is modelled as the list of the
    lines written, without their newlines. */
module Table {
  import opened Wrappers
  import opened Numerals

  /** A cell once wrapped: its lines. */
  type Cell = seq<string>

  const RowHeightError := "Failed to compute row height!"

  function Max(a: nat, b: nat): nat { if a < b then b else a }

  // ---------------------------------------------------------------------
  // Display width

  /** textwrap's `display_width`: the columns the characters of `s` take. */
  function DisplayWidth(s: string, cw: char -> nat): nat
  {
    if |s| == 0 then 0 else DisplayWidth(s[..|s| - 1], cw) + cw(s[|s| - 1])
  }

  lemma {:induction false} DisplayWidthAppend(a: string, b: string, cw: char -> nat)
    ensures DisplayWidth(a + b, cw) == DisplayWidth(a, cw) + DisplayWidth(b, cw)
    decreases |b|
  {
    if |b| == 0 {
      assert a + b == a;
    } else {
      assert (a + b)[..|a + b| - 1] == a + b[..|b| - 1];
      DisplayWidthAppend(a, b[..|b| - 1], cw);
    }
  }

  /** A string of one-column characters is as wide as it is long. */
  lemma {:induction false} NarrowWidth(s: string, cw: char -> nat)
    requires forall i :: 0 <= i < |s| ==> cw(s[i]) == 1
    ensures DisplayWidth(s, cw) == |s|
  {
    if |s| > 0 {
      NarrowWidth(s[..|s| - 1], cw);
    }
  }

  /** The characters the table is drawn with are one column wide. */
  predicate Narrow(cw: char -> nat)
  {
    cw(' ') == 1 && cw('|') == 1 && cw(':') == 1 && cw('=') == 1 && cw('.') == 1
    && forall c :: IsDigit(c) ==> cw(c) == 1
  }

  /** `k` copies of `c`; kept apart from Numerals.Repeat so that the
      rendering proofs do not carry its per-character quantifier. */
  function Fill(c: char, k: nat): (s: string)
    ensures |s| == k
  {
    if k == 0 then "" else Fill(c, k - 1) + [c]
  }

  lemma {:induction false} FillWidth(c: char, k: nat, cw: char -> nat)
    requires cw(c) == 1
    ensures DisplayWidth(Fill(c, k), cw) == k
  {
    if k > 0 {
      FillWidth(c, k - 1, cw);
      assert Fill(c, k)[..k - 1] == Fill(c, k - 1);
    }
  }

  // ---------------------------------------------------------------------
  // Wrapping

  /** What the wrapper promises: for a positive width `w`, no line of
      `wrap(t, w)` is wider than `w`. At width 0 nothing is promised: a
      non-empty text still wraps into lines at least one character wide. */
  ghost predicate WrapFits(wrap: (string, nat) -> seq<string>, cw: char -> nat)
  {
    forall t: string, w: nat, j :: 0 < w && 0 <= j < |wrap(t, w)| ==> DisplayWidth(wrap(t, w)[j], cw) <= w
  }

  /** Every text of a row wrapped at `w`. */
  function WrapRow(texts: seq<string>, w: nat, wrap: (string, nat) -> seq<string>): (row: seq<Cell>)
    ensures |row| == |texts|
    ensures forall i :: 0 <= i < |texts| ==> row[i] == wrap(texts[i], w)
  {
    seq(|texts|, i requires 0 <= i < |texts| => wrap(texts[i], w))
  }

  /** Every row wrapped at `w`. */
  function WrapRows(rows: seq<seq<string>>, w: nat, wrap: (string, nat) -> seq<string>): (cells: seq<seq<Cell>>)
    ensures |cells| == |rows|
    ensures forall i :: 0 <= i < |rows| ==> cells[i] == WrapRow(rows[i], w, wrap)
  {
    seq(|rows|, i requires 0 <= i < |rows| => WrapRow(rows[i], w, wrap))
  }

  /** Every line of every cell of `row` fits the width of its column. */
  predicate CellsFit(row: seq<Cell>, widths: seq<nat>, cw: char -> nat)
  {
    |row| <= |widths|
    && forall c, l :: 0 <= c < |row| && 0 <= l < |row[c]| ==> DisplayWidth(row[c][l], cw) <= widths[c]
  }

  /** Every row has at most `n` cells. */
  predicate Shaped(rows: seq<seq<string>>, n: nat)
  {
    forall i :: 0 <= i < |rows| ==> |rows[i]| <= n
  }

  // ---------------------------------------------------------------------
  // Column widths

  /** The widest of `lines`, 0 when there is none. */
  function MaxLineWidth(lines: seq<string>, cw: char -> nat): nat
  {
    if |lines| == 0 then 0
    else Max(MaxLineWidth(lines[..|lines| - 1], cw), DisplayWidth(lines[|lines| - 1], cw))
  }

  predicate LinesFit(lines: seq<string>, cw: char -> nat, bound: nat)
  {
    forall l :: 0 <= l < |lines| ==> DisplayWidth(lines[l], cw) <= bound
  }

  /** MaxLineWidth is the least bound of the widths of the lines. */
  lemma {:induction false} MaxLineWidthIsMax(lines: seq<string>, cw: char -> nat, bound: nat)
    ensures LinesFit(lines, cw, MaxLineWidth(lines, cw))
    ensures LinesFit(lines, cw, bound) ==> MaxLineWidth(lines, cw) <= bound
  {
    if |lines| > 0 {
      var init := lines[..|lines| - 1];
      MaxLineWidthIsMax(init, cw, bound);
      assert forall l :: 0 <= l < |init| ==> init[l] == lines[l];
    }
  }

  /** The lines of column `c`: those of its heading and of its cell in each row. */
  predicate ColumnFits(header: seq<Cell>, rows: seq<seq<Cell>>, c: nat, cw: char -> nat, bound: nat)
    requires c < |header|
  {
    LinesFit(header[c], cw, bound)
    && forall i :: 0 <= i < |rows| && c < |rows[i]| ==> LinesFit(rows[i][c], cw, bound)
  }

  /** The width the lines of column `c` need, over the heading and `rows`. */
  function NaturalWidth(header: seq<Cell>, rows: seq<seq<Cell>>, c: nat, cw: char -> nat): nat
    requires c < |header|
  {
    if |rows| == 0 then MaxLineWidth(header[c], cw)
    else
      var last := rows[|rows| - 1];
      Max(NaturalWidth(header, rows[..|rows| - 1], c, cw), if c < |last| then MaxLineWidth(last[c], cw) else 0)
  }

  /** NaturalWidth is the least bound of the widths of the column's lines. */
  lemma {:induction false} NaturalWidthIsMax(header: seq<Cell>, rows: seq<seq<Cell>>, c: nat, cw: char -> nat, bound: nat)
    requires c < |header|
    ensures ColumnFits(header, rows, c, cw, NaturalWidth(header, rows, c, cw))
    ensures ColumnFits(header, rows, c, cw, bound) ==> NaturalWidth(header, rows, c, cw) <= bound
  {
    var w := NaturalWidth(header, rows, c, cw);
    if |rows| == 0 {
      MaxLineWidthIsMax(header[c], cw, bound);
    } else {
      var init, last := rows[..|rows| - 1], rows[|rows| - 1];
      NaturalWidthIsMax(header, init, c, cw, bound);
      var w0 := NaturalWidth(header, init, c, cw);
      assert forall i :: 0 <= i < |init| ==> init[i] == rows[i];
      if c < |last| {
        MaxLineWidthIsMax(last[c], cw, bound);
      }
      assert LinesFit(header[c], cw, w);
      forall i | 0 <= i < |rows| && c < |rows[i]|
        ensures LinesFit(rows[i][c], cw, w)
      {
        if i < |init| {
          assert LinesFit(init[i][c], cw, w0);
        }
      }
      if ColumnFits(header, rows, c, cw, bound) {
        assert ColumnFits(header, init, c, cw, bound);
      }
    }
  }

  /** Adding a row widens each column to the widest line of its cell there. */
  lemma NaturalWidthStep(header: seq<Cell>, rows: seq<seq<Cell>>, i: nat, c: nat, cw: char -> nat)
    requires i < |rows| && c < |header|
    ensures NaturalWidth(header, rows[..i + 1], c, cw)
      == Max(NaturalWidth(header, rows[..i], c, cw), if c < |rows[i]| then MaxLineWidth(rows[i][c], cw) else 0)
  {
    assert rows[..i + 1][..i] == rows[..i];
  }

  /** The innermost loop: every line of `cell` widens column `c` as needed. */
  method WidenColumn(widths: seq<nat>, c: nat, cell: Cell, cw: char -> nat) returns (widened: seq<nat>)
    requires c < |widths|
    ensures |widened| == |widths|
    ensures widened[c] == Max(widths[c], MaxLineWidth(cell, cw))
    ensures forall k :: 0 <= k < |widths| && k != c ==> widened[k] == widths[k]
  {
    widened := widths;
    var l := 0;
    while l < |cell|
      invariant 0 <= l <= |cell| && |widened| == |widths|
      invariant widened[c] == Max(widths[c], MaxLineWidth(cell[..l], cw))
      invariant forall k :: 0 <= k < |widths| && k != c ==> widened[k] == widths[k]
    {
      assert cell[..l + 1][..l] == cell[..l];
      widened := widened[c := Max(DisplayWidth(cell[l], cw), widened[c])];
      l := l + 1;
    }
    assert cell[..l] == cell;
  }

  /** The column widths before padding: a first pass over the headings,
      then every line of every cell widens its column as needed. */
  method ColumnWidths(header: seq<Cell>, rows: seq<seq<Cell>>, cw: char -> nat) returns (widths: seq<nat>)
    requires forall i :: 0 <= i < |rows| ==> |rows[i]| <= |header|
    ensures |widths| == |header|
    ensures forall c :: 0 <= c < |header| ==> widths[c] == NaturalWidth(header, rows, c, cw)
  {
    widths := seq(|header|, c requires 0 <= c < |header| => MaxLineWidth(header[c], cw));
    var i := 0;
    while i < |rows|
      invariant 0 <= i <= |rows| && |widths| == |header|
      invariant forall c :: 0 <= c < |header| ==> widths[c] == NaturalWidth(header, rows[..i], c, cw)
    {
      var row := rows[i];
      ghost var before := widths;
      var c := 0;
      while c < |row|
        invariant 0 <= c <= |row| && |widths| == |header|
        invariant forall k :: 0 <= k < |header| ==>
          widths[k] == if k < c then Max(before[k], MaxLineWidth(row[k], cw)) else before[k]
      {
        widths := WidenColumn(widths, c, row[c], cw);
        c := c + 1;
      }
      forall k | 0 <= k < |header|
        ensures widths[k] == NaturalWidth(header, rows[..i + 1], k, cw)
      {
        NaturalWidthStep(header, rows, i, k, cw);
      }
      i := i + 1;
    }
    assert rows[..i] == rows;
  }

  // ---------------------------------------------------------------------
  // Padding and the width of the table

  /** A column's width once padded: up to four more columns, never past
      the widest a column may be. */
  function Padded(w: nat, maxWidth: nat): (p: nat)
    requires w <= maxWidth
    ensures w <= p <= maxWidth
    ensures p == maxWidth || p == w + 4
  {
    w + if maxWidth - w < 4 then maxWidth - w else 4
  }

  /** The padding loop, over the widths in place. */
  method AddPadding(widths: seq<nat>, maxWidth: nat) returns (padded: seq<nat>)
    requires forall c :: 0 <= c < |widths| ==> widths[c] <= maxWidth
    ensures |padded| == |widths|
    ensures forall c :: 0 <= c < |widths| ==> padded[c] == Padded(widths[c], maxWidth)
  {
    padded := widths;
    var c := 0;
    while c < |padded|
      invariant 0 <= c <= |padded| == |widths|
      invariant forall k :: 0 <= k < c ==> padded[k] == Padded(widths[k], maxWidth)
      invariant forall k :: c <= k < |padded| ==> padded[k] == widths[k]
    {
      var padding := if maxWidth - padded[c] < 4 then maxWidth - padded[c] else 4;
      padded := padded[c := padded[c] + padding];
      c := c + 1;
    }
  }

  function Sum(s: seq<nat>): nat
  {
    if |s| == 0 then 0 else Sum(s[..|s| - 1]) + s[|s| - 1]
  }

  lemma {:induction false} SumBound(s: seq<nat>, m: nat)
    requires forall i :: 0 <= i < |s| ==> s[i] <= m
    ensures Sum(s) <= |s| * m
  {
    if |s| > 0 {
      SumBound(s[..|s| - 1], m);
    }
  }

  /** The widest a column may be, without its border: what is left of the
      terminal once the left border is taken, shared between the columns,
      each less its right border. */
  function MaxColumnWidth(termwidth: nat, n: nat): (w: nat)
    requires 0 < n < termwidth
    ensures 0 < w <==> 2 * n < termwidth
  {
    (termwidth - 1) / n - 1
  }

  /** Left border, one right border per column, and the columns. */
  function TableWidth(widths: seq<nat>): nat
  {
    1 + |widths| + Sum(widths)
  }

  /** Columns no wider than MaxColumnWidth make a table that fits the terminal. */
  lemma TableFits(termwidth: nat, widths: seq<nat>)
    requires 0 < |widths| < termwidth
    requires forall c :: 0 <= c < |widths| ==> widths[c] <= MaxColumnWidth(termwidth, |widths|)
    ensures TableWidth(widths) <= termwidth
  {
    var n, m := |widths|, MaxColumnWidth(termwidth, |widths|);
    SumBound(widths, m);
    assert n * (m + 1) == n * ((termwidth - 1) / n) <= termwidth - 1;
  }

  // ---------------------------------------------------------------------
  // Rows

  /** The number of lines a row takes: its tallest cell. */
  function RowHeight(row: seq<Cell>): nat
  {
    if |row| == 0 then 0 else Max(RowHeight(row[..|row| - 1]), |row[|row| - 1]|)
  }

  /** RowHeight is the least bound of the heights of the cells. */
  lemma {:induction false} RowHeightIsMax(row: seq<Cell>, bound: nat)
    ensures forall c :: 0 <= c < |row| ==> |row[c]| <= RowHeight(row)
    ensures (forall c :: 0 <= c < |row| ==> |row[c]| <= bound) ==> RowHeight(row) <= bound
  {
    if |row| > 0 {
      var init := row[..|row| - 1];
      RowHeightIsMax(init, bound);
      assert forall c :: 0 <= c < |init| ==> init[c] == row[c];
    }
  }

  function Spaces(k: nat): string { Fill(' ', k) }

  /** Line `k` of a cell centred in `width` columns, or blank when the
      cell has fewer lines. */
  function CellLine(cell: Cell, width: nat, k: nat, cw: char -> nat): string
    requires LinesFit(cell, cw, width)
  {
    if k < |cell| then Centred(cell[k], width, cw) else Spaces(width)
  }

  /** `text` centred in `width` columns, the odd column of padding on the right. */
  function Centred(text: string, width: nat, cw: char -> nat): string
    requires DisplayWidth(text, cw) <= width
  {
    var pad := width - DisplayWidth(text, cw);
    Spaces(pad / 2) + text + Spaces(pad - pad / 2)
  }

  /** The first line of a row is drawn between '|', the others between ':'. */
  function Border(k: nat): char { if k == 0 then '|' else ':' }

  /** The pieces of line `k` of a row: one per cell. */
  function Pieces(row: seq<Cell>, widths: seq<nat>, k: nat, cw: char -> nat): (pieces: seq<string>)
    requires CellsFit(row, widths, cw)
    ensures |pieces| == |row|
  {
    seq(|row|, c requires 0 <= c < |row| && CellsFit(row, widths, cw) => assert LinesFit(row[c], cw, widths[c]); CellLine(row[c], widths[c], k, cw))
  }

  /** The first `c` pieces, each with `b` on its left. */
  function Joined(pieces: seq<string>, b: char, c: nat): string
    requires c <= |pieces|
  {
    if c == 0 then "" else Joined(pieces, b, c - 1) + [b] + pieces[c - 1]
  }

  function RowLine(row: seq<Cell>, widths: seq<nat>, k: nat, cw: char -> nat): string
    requires CellsFit(row, widths, cw)
  {
    Joined(Pieces(row, widths, k, cw), Border(k), |row|) + [Border(k)]
  }

  /** The lines a row is drawn as. */
  function RowLines(row: seq<Cell>, widths: seq<nat>, cw: char -> nat): (lines: seq<string>)
    requires CellsFit(row, widths, cw)
    ensures |lines| == RowHeight(row)
  {
    seq(RowHeight(row), k requires 0 <= k => RowLine(row, widths, k, cw))
  }

  /** Line `k` of a row, written cell by cell. */
  method RenderLine(row: seq<Cell>, widths: seq<nat>, k: nat, cw: char -> nat) returns (line: string)
    requires CellsFit(row, widths, cw)
    ensures line == RowLine(row, widths, k, cw)
  {
    ghost var pieces := Pieces(row, widths, k, cw);
    line := "";
    var c := 0;
    while c < |row|
      invariant 0 <= c <= |row|
      invariant line == Joined(pieces, Border(k), c)
    {
      assert LinesFit(row[c], cw, widths[c]);
      line := line + [Border(k)] + CellLine(row[c], widths[c], k, cw);
      c := c + 1;
    }
    line := line + [Border(k)];
  }

  /** A row with no cell has no height and is refused; otherwise one line
      per line of its tallest cell, cell by cell. */
  method RenderRow(row: seq<Cell>, widths: seq<nat>, cw: char -> nat) returns (r: Result<seq<string>>)
    requires CellsFit(row, widths, cw)
    ensures r.Err? <==> |row| == 0
    ensures r.Err? ==> r.msg == RowHeightError
    ensures r.Ok? ==> r.value == RowLines(row, widths, cw)
  {
    if |row| == 0 {
      return Err(RowHeightError);
    }
    var height := RowHeight(row);
    var lines: seq<string> := [];
    var k := 0;
    while k < height
      invariant 0 <= k <= height && |lines| == k
      invariant forall j :: 0 <= j < k ==> lines[j] == RowLine(row, widths, j, cw)
    {
      var line := RenderLine(row, widths, k, cw);
      lines := lines + [line];
      k := k + 1;
    }
    return Ok(lines);
  }

  /** A rule of '=' across the table, the headings, another rule. */
  function HeaderLines(header: seq<Cell>, widths: seq<nat>, tableWidth: nat, cw: char -> nat): seq<string>
    requires CellsFit(header, widths, cw)
  {
    [Fill('=', tableWidth)] + RowLines(header, widths, cw) + [Fill('=', tableWidth)]
  }

  method RenderHeader(header: seq<Cell>, widths: seq<nat>, tableWidth: nat, cw: char -> nat) returns (lines: seq<string>)
    requires 0 < |header| && CellsFit(header, widths, cw)
    ensures lines == HeaderLines(header, widths, tableWidth, cw)
  {
    var rule := Fill('=', tableWidth);
    var r := RenderRow(header, widths, cw);
    lines := [rule] + r.value + [rule];
  }

  // ---------------------------------------------------------------------
  // Row counter, footer and the schedule of the whole table

  /** A row number as `{:02}` writes it: a '0' before a single digit. */
  function CountText(k: nat): string
  {
    if k < 10 then ['0', DigitChar(k)] else NatToString(k)
  }

  /** CountText is the zero-padded rendering of width 2. */
  lemma CountTextPadded(k: nat)
    ensures CountText(k) == ZeroPadded(k, 2)
    ensures AllDigits(CountText(k)) && DigitsValue(CountText(k)) == k
  {
    if k < 10 {
      assert NatToString(k) == [DigitChar(k)];
      assert Repeat('0', 1) == ['0'];
    }
  }

  lemma {:induction false} NatToStringMonotone(k: nat, n: nat)
    requires k <= n
    ensures |NatToString(k)| <= |NatToString(n)|
  {
    if k >= 10 {
      NatToStringMonotone(k / 10, n / 10);
    }
  }

  lemma CountTextMonotone(k: nat, n: nat)
    requires k <= n
    ensures |CountText(k)| <= |CountText(n)|
  {
    NatToStringMonotone(k, n);
    if k < 10 <= n {
      NatToStringMonotone(10, n);
    }
  }

  /** '.' on even columns and ' ' on odd ones, `n` columns. */
  function Dots(n: nat): (s: string)
    ensures |s| == n
    ensures forall i :: 0 <= i < n ==> s[i] == if i % 2 == 0 then '.' else ' '
  {
    if n == 0 then [] else Dots(n - 1) + [if (n - 1) % 2 == 0 then '.' else ' ']
  }

  /** The loop that writes the dots of a counter line, one column at a time. */
  method DottedLead(n: nat) returns (dots: string)
    ensures dots == Dots(n)
  {
    dots := "";
    var col := 0;
    while col < n
      invariant 0 <= col <= n && dots == Dots(col)
    {
      dots := dots + [if col % 2 == 0 then '.' else ' '];
      col := col + 1;
    }
  }

  /** The dotted line that counts the rows written so far. */
  function CounterLine(k: nat, tableWidth: nat): string
    requires |CountText(k)| <= tableWidth
  {
    Dots(tableWidth - |CountText(k)|) + CountText(k)
  }

  /** The bottom rule, ending with the number of rows. */
  function Footer(total: nat, tableWidth: nat): string
    requires |CountText(total)| <= tableWidth
  {
    Fill('=', tableWidth - |CountText(total)|) + CountText(total)
  }

  /** What follows row `k` (counting from 1) of `total`: nothing after the
      last, the header again every 20 rows, else a counter every 10. */
  function AfterRow(k: nat, total: nat, headerLines: seq<string>, tableWidth: nat): seq<string>
    requires k <= total && |CountText(total)| <= tableWidth
  {
    CountTextMonotone(k, total);
    if k == total then []
    else if k % 20 == 0 then headerLines
    else if k % 10 == 0 then [CounterLine(k, tableWidth)]
    else []
  }

  /** What follows each row of `total`: `Schedule(...)[j]` follows row `j + 1`. */
  function Schedule(total: nat, headerLines: seq<string>, tableWidth: nat): (after: seq<seq<string>>)
    requires |CountText(total)| <= tableWidth
    ensures |after| == total
  {
    ScheduleUpTo(total, total, headerLines, tableWidth)
  }

  /** What follows each of the first `n` rows of `total`. */
  function ScheduleUpTo(n: nat, total: nat, headerLines: seq<string>, tableWidth: nat): (after: seq<seq<string>>)
    requires n <= total && |CountText(total)| <= tableWidth
    ensures |after| == n
  {
    if n == 0 then [] else ScheduleUpTo(n - 1, total, headerLines, tableWidth) + [AfterRow(n, total, headerLines, tableWidth)]
  }

  /** The first `k` rows, each followed by `after` of it. */
  function Body(rowLines: seq<seq<string>>, after: seq<seq<string>>, k: nat): seq<string>
    requires k <= |rowLines| && k <= |after|
  {
    if k == 0 then [] else Body(rowLines, after, k - 1) + rowLines[k - 1] + after[k - 1]
  }

  /** The whole table: header, rows, footer. */
  function TableLines(headerLines: seq<string>, rowLines: seq<seq<string>>, tableWidth: nat): seq<string>
    requires |CountText(|rowLines|)| <= tableWidth
  {
    headerLines + Body(rowLines, Schedule(|rowLines|, headerLines, tableWidth), |rowLines|) + [Footer(|rowLines|, tableWidth)]
  }

  /** What render_table writes after row `k` (counting from 1): nothing
      after the last row, else the header again or the dotted counter. */
  method RenderSchedule(k: nat, total: nat, headerLines: seq<string>, tableWidth: nat) returns (lines: seq<string>)
    requires 0 < k <= total && |CountText(total)| <= tableWidth
    ensures lines == AfterRow(k, total, headerLines, tableWidth)
  {
    CountTextMonotone(k, total);
    lines := [];
    if k == total {
      return;
    }
    if k % 20 == 0 {
      lines := headerLines;
    } else if k % 10 == 0 {
      var number := CountText(k);
      var dots := DottedLead(tableWidth - |number|);
      lines := [dots + number];
    }
  }

  lemma ScheduleAt(total: nat, headerLines: seq<string>, tableWidth: nat, k: nat)
    requires 0 < k <= total && |CountText(total)| <= tableWidth
    ensures Schedule(total, headerLines, tableWidth)[k - 1] == AfterRow(k, total, headerLines, tableWidth)
  {
    ScheduleUpToAt(total, total, headerLines, tableWidth, k);
  }

  lemma {:induction false} ScheduleUpToAt(n: nat, total: nat, headerLines: seq<string>, tableWidth: nat, k: nat)
    requires 0 < k <= n <= total && |CountText(total)| <= tableWidth
    ensures ScheduleUpTo(n, total, headerLines, tableWidth)[k - 1] == AfterRow(k, total, headerLines, tableWidth)
  {
    if k < n {
      ScheduleUpToAt(n - 1, total, headerLines, tableWidth, k);
    }
  }

  /** The first `n` rows all have cells. */
  predicate HaveCells(rows: seq<seq<Cell>>, n: nat)
    requires n <= |rows|
  {
    n == 0 || (HaveCells(rows, n - 1) && |rows[n - 1]| > 0)
  }

  lemma {:induction false} HaveCellsAll(rows: seq<seq<Cell>>, n: nat)
    requires n <= |rows|
    ensures HaveCells(rows, n) <==> forall i :: 0 <= i < n ==> |rows[i]| > 0
  {
    if n > 0 {
      HaveCellsAll(rows, n - 1);
    }
  }

  /** Every row that has cells, drawn. */
  function AllRowLines(rows: seq<seq<Cell>>, widths: seq<nat>, cw: char -> nat): (lines: seq<seq<string>>)
    requires forall i :: 0 <= i < |rows| ==> CellsFit(rows[i], widths, cw)
    ensures |lines| == |rows|
    ensures forall i :: 0 <= i < |rows| ==> lines[i] == RowLines(rows[i], widths, cw)
  {
    seq(|rows|, i requires 0 <= i < |rows| => RowLines(rows[i], widths, cw))
  }

  /** The rows of the table, each followed by what the schedule puts
      after it. A row without cells stops the loop with an error after what
      came before it. */
  method RenderRows(rows: seq<seq<Cell>>, widths: seq<nat>, headerLines: seq<string>, tableWidth: nat, cw: char -> nat)
    returns (body: seq<string>, r: Result<()>)
    requires forall i :: 0 <= i < |rows| ==> CellsFit(rows[i], widths, cw)
    requires |CountText(|rows|)| <= tableWidth
    ensures r.Ok? <==> forall i :: 0 <= i < |rows| ==> |rows[i]| > 0
    ensures r.Ok? ==> body == Body(AllRowLines(rows, widths, cw), Schedule(|rows|, headerLines, tableWidth), |rows|)
    ensures r.Err? ==> r.msg == RowHeightError
    ensures r.Err? ==>
      exists e :: 0 <= e < |rows| && |rows[e]| == 0 && (forall i :: 0 <= i < e ==> |rows[i]| > 0) &&
        body == Body(AllRowLines(rows, widths, cw), Schedule(|rows|, headerLines, tableWidth), e)
  {
    ghost var all := AllRowLines(rows, widths, cw);
    ghost var after := Schedule(|rows|, headerLines, tableWidth);
    body := [];
    var row := 0;
    while row < |rows|
      invariant 0 <= row <= |rows|
      invariant HaveCells(rows, row)
      invariant body == Body(all, after, row)
    {
      var lines := RenderRow(rows[row], widths, cw);
      if lines.Err? {
        HaveCellsAll(rows, row);
        return body, Err(lines.msg);
      }
      body := body + lines.value;
      row := row + 1;
      var extra := RenderSchedule(row, |rows|, headerLines, tableWidth);
      ScheduleAt(|rows|, headerLines, tableWidth, row);
      body := body + extra;
    }
    HaveCellsAll(rows, row);
    r := Ok(());
  }

  /** The output of render_table once the layout is known: the header, the
      rows, the footer. */
  method Render(header: seq<Cell>, rows: seq<seq<Cell>>, widths: seq<nat>, tableWidth: nat, cw: char -> nat)
    returns (out: seq<string>, r: Result<()>)
    requires 0 < |header| && CellsFit(header, widths, cw)
    requires forall i :: 0 <= i < |rows| ==> CellsFit(rows[i], widths, cw)
    requires |CountText(|rows|)| <= tableWidth
    ensures r.Ok? <==> forall i :: 0 <= i < |rows| ==> |rows[i]| > 0
    ensures r.Ok? ==> out == TableLines(HeaderLines(header, widths, tableWidth, cw), AllRowLines(rows, widths, cw), tableWidth)
    ensures r.Err? ==> r.msg == RowHeightError
    ensures r.Err? ==>
      exists e :: 0 <= e < |rows| && |rows[e]| == 0 && (forall i :: 0 <= i < e ==> |rows[i]| > 0) &&
        out == HeaderLines(header, widths, tableWidth, cw)
          + Body(AllRowLines(rows, widths, cw), Schedule(|rows|, HeaderLines(header, widths, tableWidth, cw), tableWidth), e)
  {
    var headerLines := RenderHeader(header, widths, tableWidth, cw);
    var body;
    body, r := RenderRows(rows, widths, headerLines, tableWidth, cw);
    out := headerLines + body;
    if r.Ok? {
      out := out + [Footer(|rows|, tableWidth)];
    }
  }

  /** The column widths render_table settles on: each column's widest
      wrapped line, padded. */
  function LayoutWidths(header: seq<Cell>, rows: seq<seq<Cell>>, maxWidth: nat, cw: char -> nat): (widths: seq<nat>)
    requires forall c :: 0 <= c < |header| ==> ColumnFits(header, rows, c, cw, maxWidth)
    ensures |widths| == |header|
    ensures forall c :: 0 <= c < |header| ==> NaturalWidth(header, rows, c, cw) <= widths[c] <= maxWidth
  {
    seq(|header|, c requires 0 <= c < |header| =>
      NaturalWidthIsMax(header, rows, c, cw, maxWidth);
      Padded(NaturalWidth(header, rows, c, cw), maxWidth))
  }

  /** Every line of the wrapped headings and cells is at most `maxWidth` wide. */
  lemma WrappedFit(columns: seq<string>, rows: seq<seq<string>>, maxWidth: nat, wrap: (string, nat) -> seq<string>, cw: char -> nat)
    requires 0 < maxWidth && WrapFits(wrap, cw)
    ensures forall c :: 0 <= c < |columns| ==>
      ColumnFits(WrapRow(columns, maxWidth, wrap), WrapRows(rows, maxWidth, wrap), c, cw, maxWidth)
  {
  }

  /** The whole layout of render_table for `termwidth` columns of terminal:
      the column widths. It fits the terminal. */
  function Layout(columns: seq<string>, rows: seq<seq<string>>, termwidth: nat, wrap: (string, nat) -> seq<string>, cw: char -> nat): (widths: seq<nat>)
    requires 0 < |columns| && 2 * |columns| < termwidth && WrapFits(wrap, cw)
    ensures |widths| == |columns|
    ensures forall c :: 0 <= c < |columns| ==> widths[c] <= MaxColumnWidth(termwidth, |columns|)
    ensures TableWidth(widths) <= termwidth
  {
    var maxWidth := MaxColumnWidth(termwidth, |columns|);
    WrappedFit(columns, rows, maxWidth, wrap, cw);
    var widths := LayoutWidths(WrapRow(columns, maxWidth, wrap), WrapRows(rows, maxWidth, wrap), maxWidth, cw);
    TableFits(termwidth, widths);
    widths
  }

  /** The padded widths leave room for every line of every cell. */
  lemma LayoutCellsFit(header: seq<Cell>, rows: seq<seq<Cell>>, maxWidth: nat, cw: char -> nat)
    requires forall c :: 0 <= c < |header| ==> ColumnFits(header, rows, c, cw, maxWidth)
    requires forall i :: 0 <= i < |rows| ==> |rows[i]| <= |header|
    ensures CellsFit(header, LayoutWidths(header, rows, maxWidth, cw), cw)
    ensures forall i :: 0 <= i < |rows| ==> CellsFit(rows[i], LayoutWidths(header, rows, maxWidth, cw), cw)
  {
    var widths := LayoutWidths(header, rows, maxWidth, cw);
    forall c | 0 <= c < |header|
      ensures ColumnFits(header, rows, c, cw, widths[c])
    {
      NaturalWidthIsMax(header, rows, c, cw, widths[c]);
      var w := NaturalWidth(header, rows, c, cw);
      assert LinesFit(header[c], cw, w);
      forall i | 0 <= i < |rows| && c < |rows[i]|
        ensures LinesFit(rows[i][c], cw, widths[c])
      {
        assert LinesFit(rows[i][c], cw, w);
      }
    }
  }

  /** What render_table writes when every row has cells. */
  function TableOutput(columns: seq<string>, rows: seq<seq<string>>, termwidth: nat, wrap: (string, nat) -> seq<string>, cw: char -> nat): seq<string>
    requires 0 < |columns| && 2 * |columns| < termwidth && Shaped(rows, |columns|) && WrapFits(wrap, cw)
    requires |CountText(|rows|)| <= TableWidth(Layout(columns, rows, termwidth, wrap, cw))
  {
    var maxWidth := MaxColumnWidth(termwidth, |columns|);
    var header, wrapped := WrapRow(columns, maxWidth, wrap), WrapRows(rows, maxWidth, wrap);
    var widths := Layout(columns, rows, termwidth, wrap, cw);
    LayoutCellsFit(header, wrapped, maxWidth, cw);
    TableLines(HeaderLines(header, widths, TableWidth(widths), cw), AllRowLines(wrapped, widths, cw), TableWidth(widths))
  }

  /** render_table: wrap every heading and cell at the widest a column may
      be, lay the columns out, then write the table. `termwidth` is the
      width of the terminal. */
  method RenderTable(columns: seq<string>, rows: seq<seq<string>>, termwidth: nat, wrap: (string, nat) -> seq<string>, cw: char -> nat)
    returns (out: seq<string>, r: Result<()>)
    requires 0 < |columns| && 2 * |columns| < termwidth && Shaped(rows, |columns|) && WrapFits(wrap, cw)
    requires |CountText(|rows|)| <= TableWidth(Layout(columns, rows, termwidth, wrap, cw))
    ensures r.Ok? <==> forall i :: 0 <= i < |rows| ==> |rows[i]| > 0
    ensures r.Err? ==> r.msg == RowHeightError
    ensures r.Ok? ==> out == TableOutput(columns, rows, termwidth, wrap, cw)
  {
    var maxWidth := (termwidth - 1) / |columns| - 1;
    assert maxWidth == MaxColumnWidth(termwidth, |columns|);
    var wrapped := WrapRows(rows, maxWidth, wrap);
    var header := WrapRow(columns, maxWidth, wrap);
    WrappedFit(columns, rows, maxWidth, wrap, cw);
    var widths := ColumnWidths(header, wrapped, cw);
    forall c | 0 <= c < |widths|
      ensures widths[c] <= maxWidth
    {
      NaturalWidthIsMax(header, wrapped, c, cw, maxWidth);
    }
    widths := AddPadding(widths, maxWidth);
    ghost var layout := Layout(columns, rows, termwidth, wrap, cw);
    assert widths == layout;
    var tableWidth := 1 + |columns| + Sum(widths);
    assert tableWidth == TableWidth(layout);
    LayoutCellsFit(header, wrapped, maxWidth, cw);
    out, r := Render(header, wrapped, widths, tableWidth, cw);
    assert r.Ok? ==> out == TableOutput(columns, rows, termwidth, wrap, cw);
  }
}
