/** What the tables of src/table.rs look like: when every row has a cell
    per column and the characters the frame is drawn with are one column
    wide, every line is exactly as wide as the table; the heading returns
    after every 20th row and a counter after every other 10th; the footer
    counts the rows. */
module TableFacts {
  import opened Numerals
  import opened Table

  /** Every line of `lines` is `w` columns wide. */
  predicate Uniform(lines: seq<string>, cw: char -> nat, w: nat)
  {
    forall l :: 0 <= l < |lines| ==> DisplayWidth(lines[l], cw) == w
  }

  // ---------------------------------------------------------------------
  // Widths of the lines

  lemma Append3Width(a: string, b: string, c: string, cw: char -> nat)
    ensures DisplayWidth(a + b + c, cw) == DisplayWidth(a, cw) + DisplayWidth(b, cw) + DisplayWidth(c, cw)
  {
    DisplayWidthAppend(a, b, cw);
    DisplayWidthAppend(a + b, c, cw);
  }

  /** Centred text fills its width exactly. */
  lemma CentredWidth(text: string, width: nat, cw: char -> nat)
    requires DisplayWidth(text, cw) <= width && cw(' ') == 1
    ensures DisplayWidth(Centred(text, width, cw), cw) == width
  {
    var pad := width - DisplayWidth(text, cw);
    var l, r := pad / 2, pad - pad / 2;
    assert Centred(text, width, cw) == Spaces(l) + text + Spaces(r);
    FillWidth(' ', l, cw);
    FillWidth(' ', r, cw);
    Append3Width(Spaces(l), text, Spaces(r), cw);
  }

  /** A cell line fills its column exactly. */
  lemma CellLineWidth(cell: Cell, width: nat, k: nat, cw: char -> nat)
    requires LinesFit(cell, cw, width) && cw(' ') == 1
    ensures DisplayWidth(CellLine(cell, width, k, cw), cw) == width
  {
    if k < |cell| {
      CentredWidth(cell[k], width, cw);
    } else {
      FillWidth(' ', width, cw);
    }
  }

  lemma {:induction false} JoinedWidth(pieces: seq<string>, b: char, c: nat, widths: seq<nat>, cw: char -> nat)
    requires c <= |pieces| && c <= |widths| && cw(b) == 1
    requires forall i :: 0 <= i < c ==> DisplayWidth(pieces[i], cw) == widths[i]
    ensures DisplayWidth(Joined(pieces, b, c), cw) == c + Sum(widths[..c])
  {
    if c > 0 {
      JoinedWidth(pieces, b, c - 1, widths, cw);
      var init := Joined(pieces, b, c - 1);
      DisplayWidthAppend(init, [b], cw);
      DisplayWidthAppend(init + [b], pieces[c - 1], cw);
      assert DisplayWidth([b], cw) == DisplayWidth([], cw) + cw(b);
      assert widths[..c][..c - 1] == widths[..c - 1];
    }
  }

  /** A line of a row with a cell in every column is as wide as the table. */
  lemma RowLineWidth(row: seq<Cell>, widths: seq<nat>, k: nat, cw: char -> nat)
    requires CellsFit(row, widths, cw) && |row| == |widths| && Narrow(cw)
    ensures DisplayWidth(RowLine(row, widths, k, cw), cw) == TableWidth(widths)
  {
    var pieces := Pieces(row, widths, k, cw);
    forall i | 0 <= i < |row|
      ensures DisplayWidth(pieces[i], cw) == widths[i]
    {
      assert LinesFit(row[i], cw, widths[i]);
      CellLineWidth(row[i], widths[i], k, cw);
    }
    var joined := Joined(pieces, Border(k), |row|);
    JoinedWidth(pieces, Border(k), |row|, widths, cw);
    DisplayWidthAppend(joined, [Border(k)], cw);
    assert DisplayWidth([Border(k)], cw) == DisplayWidth([], cw) + cw(Border(k));
    assert widths[..|row|] == widths;
  }

  lemma RowLinesWidth(row: seq<Cell>, widths: seq<nat>, cw: char -> nat)
    requires CellsFit(row, widths, cw) && |row| == |widths| && Narrow(cw)
    ensures Uniform(RowLines(row, widths, cw), cw, TableWidth(widths))
  {
    var lines := RowLines(row, widths, cw);
    forall l | 0 <= l < |lines|
      ensures DisplayWidth(lines[l], cw) == TableWidth(widths)
    {
      RowLineWidth(row, widths, l, cw);
    }
  }

  /** The header block: rule, headings, rule, all as wide as the table. */
  lemma HeaderLinesWidth(header: seq<Cell>, widths: seq<nat>, cw: char -> nat)
    requires CellsFit(header, widths, cw) && |header| == |widths| && Narrow(cw)
    ensures Uniform(HeaderLines(header, widths, TableWidth(widths), cw), cw, TableWidth(widths))
  {
    FillWidth('=', TableWidth(widths), cw);
    RowLinesWidth(header, widths, cw);
  }

  /** The text of a row number is made of digits. */
  lemma CountTextWidth(k: nat, cw: char -> nat)
    requires Narrow(cw)
    ensures DisplayWidth(CountText(k), cw) == |CountText(k)|
  {
    var text := CountText(k);
    CountTextPadded(k);
    assert forall i :: 0 <= i < |text| ==> IsDigit(text[i]);
    NarrowWidth(text, cw);
  }

  lemma CounterLineWidth(k: nat, tableWidth: nat, cw: char -> nat)
    requires |CountText(k)| <= tableWidth && Narrow(cw)
    ensures DisplayWidth(CounterLine(k, tableWidth), cw) == tableWidth
  {
    var dots := Dots(tableWidth - |CountText(k)|);
    assert forall i :: 0 <= i < |dots| ==> dots[i] == '.' || dots[i] == ' ';
    NarrowWidth(dots, cw);
    CountTextWidth(k, cw);
    DisplayWidthAppend(dots, CountText(k), cw);
  }

  lemma FooterWidth(total: nat, tableWidth: nat, cw: char -> nat)
    requires |CountText(total)| <= tableWidth && Narrow(cw)
    ensures DisplayWidth(Footer(total, tableWidth), cw) == tableWidth
  {
    FillWidth('=', tableWidth - |CountText(total)|, cw);
    CountTextWidth(total, cw);
    DisplayWidthAppend(Fill('=', tableWidth - |CountText(total)|), CountText(total), cw);
  }

  lemma {:induction false} BodyWidth(rowLines: seq<seq<string>>, after: seq<seq<string>>, k: nat, cw: char -> nat, w: nat)
    requires k <= |rowLines| && k <= |after|
    requires forall i :: 0 <= i < k ==> Uniform(rowLines[i], cw, w) && Uniform(after[i], cw, w)
    ensures Uniform(Body(rowLines, after, k), cw, w)
  {
    if k > 0 {
      BodyWidth(rowLines, after, k - 1, cw, w);
      assert Uniform(rowLines[k - 1], cw, w) && Uniform(after[k - 1], cw, w);
    }
  }

  /** Every line of a table whose rows have a cell in every column is
      exactly as wide as the table: the frame is rectangular. */
  lemma TableLinesWidth(header: seq<Cell>, rows: seq<seq<Cell>>, widths: seq<nat>, cw: char -> nat)
    requires Narrow(cw) && |header| == |widths| && CellsFit(header, widths, cw)
    requires forall i :: 0 <= i < |rows| ==> |rows[i]| == |widths| && CellsFit(rows[i], widths, cw)
    requires |CountText(|rows|)| <= TableWidth(widths)
    ensures Uniform(TableLines(HeaderLines(header, widths, TableWidth(widths), cw), AllRowLines(rows, widths, cw), TableWidth(widths)),
                    cw, TableWidth(widths))
  {
    var tw := TableWidth(widths);
    var headerLines := HeaderLines(header, widths, tw, cw);
    var all := AllRowLines(rows, widths, cw);
    var after := Schedule(|rows|, headerLines, tw);
    HeaderLinesWidth(header, widths, cw);
    forall i | 0 <= i < |rows|
      ensures Uniform(all[i], cw, tw) && Uniform(after[i], cw, tw)
    {
      RowLinesWidth(rows[i], widths, cw);
      AfterWidth(|rows|, headerLines, tw, cw, i + 1);
    }
    BodyWidth(all, after, |rows|, cw, tw);
    FooterWidth(|rows|, tw, cw);
  }

  /** What follows a row is as wide as the header. */
  lemma AfterWidth(total: nat, headerLines: seq<string>, tableWidth: nat, cw: char -> nat, k: nat)
    requires 0 < k <= total && |CountText(total)| <= tableWidth && Narrow(cw)
    requires Uniform(headerLines, cw, tableWidth)
    ensures Uniform(Schedule(total, headerLines, tableWidth)[k - 1], cw, tableWidth)
  {
    ScheduleAt(total, headerLines, tableWidth, k);
    CountTextMonotone(k, total);
    if k < total && k % 20 != 0 && k % 10 == 0 {
      CounterLineWidth(k, tableWidth, cw);
    }
  }

  /** What render_table writes, when every row has a cell per column, is
      a rectangle no wider than the terminal. */
  lemma RenderedWidth(columns: seq<string>, rows: seq<seq<string>>, termwidth: nat, wrap: (string, nat) -> seq<string>, cw: char -> nat)
    requires 0 < |columns| && 2 * |columns| < termwidth && WrapFits(wrap, cw) && Narrow(cw)
    requires forall i :: 0 <= i < |rows| ==> |rows[i]| == |columns|
    requires |CountText(|rows|)| <= TableWidth(Layout(columns, rows, termwidth, wrap, cw))
    ensures Shaped(rows, |columns|)
    ensures Uniform(TableOutput(columns, rows, termwidth, wrap, cw), cw, TableWidth(Layout(columns, rows, termwidth, wrap, cw)))
    ensures TableWidth(Layout(columns, rows, termwidth, wrap, cw)) <= termwidth
  {
    var maxWidth := MaxColumnWidth(termwidth, |columns|);
    var header, wrapped := WrapRow(columns, maxWidth, wrap), WrapRows(rows, maxWidth, wrap);
    var widths := Layout(columns, rows, termwidth, wrap, cw);
    WrappedFit(columns, rows, maxWidth, wrap, cw);
    LayoutCellsFit(header, wrapped, maxWidth, cw);
    TableLinesWidth(header, wrapped, widths, cw);
  }

  // ---------------------------------------------------------------------
  // Number of lines

  /** The number of lines in a list of blocks of lines. */
  function LineCount(blocks: seq<seq<string>>): nat
  {
    if |blocks| == 0 then 0 else LineCount(blocks[..|blocks| - 1]) + |blocks[|blocks| - 1]|
  }

  lemma {:induction false} BodyLength(rowLines: seq<seq<string>>, after: seq<seq<string>>, k: nat)
    requires k <= |rowLines| && k <= |after|
    ensures |Body(rowLines, after, k)| == LineCount(rowLines[..k]) + LineCount(after[..k])
  {
    if k > 0 {
      BodyLength(rowLines, after, k - 1);
      assert rowLines[..k][..k - 1] == rowLines[..k - 1];
      assert after[..k][..k - 1] == after[..k - 1];
    }
  }

  lemma LineCountStep(blocks: seq<seq<string>>, k: nat)
    requires 0 < k <= |blocks|
    ensures LineCount(blocks[..k]) == LineCount(blocks[..k - 1]) + |blocks[k - 1]|
  {
    assert blocks[..k][..k - 1] == blocks[..k - 1];
  }

  /** The number of lines that follow row `k` when more rows follow it,
      for a header of `h` lines. */
  function ExtraLines(k: nat, h: nat): nat
  {
    if k % 20 == 0 then h else if k % 10 == 0 then 1 else 0
  }

  lemma ScheduleSize(total: nat, headerLines: seq<string>, tableWidth: nat, k: nat)
    requires 0 < k < total && |CountText(total)| <= tableWidth
    ensures |Schedule(total, headerLines, tableWidth)[k - 1]| == ExtraLines(k, |headerLines|)
  {
    ScheduleAt(total, headerLines, tableWidth, k);
  }

  /** Going from `k - 1` to `k`, the number of multiples of 20 up to it
      moves on exactly at such a multiple; likewise for 10. */
  lemma Multiples(k: nat)
    requires 0 < k
    ensures k / 20 == (k - 1) / 20 + (if k % 20 == 0 then 1 else 0)
    ensures k / 10 == (k - 1) / 10 + (if k % 10 == 0 then 1 else 0)
    ensures k % 20 == 0 ==> k % 10 == 0
  {
    Multiples20(k);
    Multiples10(k);
    if k % 20 == 0 {
      var q := k / 20;
      assert k == 10 * (2 * q);
    }
  }

  lemma Multiples20(k: nat)
    requires 0 < k
    ensures k / 20 == (k - 1) / 20 + (if k % 20 == 0 then 1 else 0)
  {
    var q, r := (k - 1) / 20, (k - 1) % 20;
    if r == 19 {
      assert k == 20 * (q + 1);
    } else {
      assert k == 20 * q + (r + 1);
    }
  }

  lemma Multiples10(k: nat)
    requires 0 < k
    ensures k / 10 == (k - 1) / 10 + (if k % 10 == 0 then 1 else 0)
  {
    var q, r := (k - 1) / 10, (k - 1) % 10;
    if r == 9 {
      assert k == 10 * (q + 1);
    } else {
      assert k == 10 * q + (r + 1);
    }
  }

  lemma ExtraCount(h: nat, k: nat)
    requires 0 < k
    ensures h * ((k - 1) / 20) + ((k - 1) / 10 - (k - 1) / 20) + ExtraLines(k, h) == h * (k / 20) + (k / 10 - k / 20)
  {
    Multiples(k);
    var q := (k - 1) / 20;
    if k % 20 == 0 {
      assert h * (q + 1) == h * q + h;
    }
  }

  /** Before the last row, the first `k` rows are followed by the header
      `k / 20` times and by a counter line at the other multiples of 10. */
  lemma {:induction false} ScheduleLength(total: nat, headerLines: seq<string>, tableWidth: nat, k: nat)
    requires k < total && |CountText(total)| <= tableWidth
    ensures LineCount(Schedule(total, headerLines, tableWidth)[..k]) == |headerLines| * (k / 20) + (k / 10 - k / 20)
  {
    if k > 0 {
      ScheduleLength(total, headerLines, tableWidth, k - 1);
      LineCountStep(Schedule(total, headerLines, tableWidth), k);
      ScheduleSize(total, headerLines, tableWidth, k);
      ExtraCount(|headerLines|, k);
    }
  }

  /** The number of lines of a table of `n > 0` rows: the header, the rows,
      the header again after every 20th row and a counter after every
      other 10th (never after the last row), and the footer. */
  lemma TableLength(headerLines: seq<string>, rowLines: seq<seq<string>>, tableWidth: nat)
    requires 0 < |rowLines| && |CountText(|rowLines|)| <= tableWidth
    ensures var n, h := |rowLines|, |headerLines|;
      |TableLines(headerLines, rowLines, tableWidth)|
        == h + LineCount(rowLines) + h * ((n - 1) / 20) + ((n - 1) / 10 - (n - 1) / 20) + 1
    ensures TableLines(headerLines, rowLines, tableWidth)[|TableLines(headerLines, rowLines, tableWidth)| - 1]
        == Footer(|rowLines|, tableWidth)
  {
    var n := |rowLines|;
    var after := Schedule(n, headerLines, tableWidth);
    BodyLength(rowLines, after, n);
    ScheduleLength(n, headerLines, tableWidth, n - 1);
    ScheduleAt(n, headerLines, tableWidth, n);
    assert |after[n - 1]| == 0;
    LineCountStep(after, n);
    assert rowLines[..n] == rowLines;
    var body := Body(rowLines, after, n);
    assert |body| == LineCount(rowLines) + LineCount(after[..n - 1]);
  }

  /** One line per row when no cell wraps. */
  lemma {:induction false} SingleLineCount(rowLines: seq<seq<string>>)
    requires forall i :: 0 <= i < |rowLines| ==> |rowLines[i]| == 1
    ensures LineCount(rowLines) == |rowLines|
  {
    if |rowLines| > 0 {
      SingleLineCount(rowLines[..|rowLines| - 1]);
    }
  }

  // ---------------------------------------------------------------------
  // Where the counter, the footer and the repeated header fall

  lemma {:induction false} BodyPrefix(rowLines: seq<seq<string>>, after: seq<seq<string>>, k: nat, m: nat)
    requires k <= m <= |rowLines| && m <= |after|
    ensures |Body(rowLines, after, k)| <= |Body(rowLines, after, m)|
    ensures Body(rowLines, after, m)[..|Body(rowLines, after, k)|] == Body(rowLines, after, k)
    decreases m - k
  {
    if k < m {
      BodyPrefix(rowLines, after, k, m - 1);
      var b := Body(rowLines, after, m - 1);
      assert Body(rowLines, after, m) == b + rowLines[m - 1] + after[m - 1];
      assert (b + rowLines[m - 1] + after[m - 1])[..|b|] == b;
    }
  }

  /** Before the 20th row only counters follow the rows. */
  lemma ScheduleBefore20(total: nat, headerLines: seq<string>, tableWidth: nat, k: nat)
    requires k < total && k < 20 && |CountText(total)| <= tableWidth
    ensures LineCount(Schedule(total, headerLines, tableWidth)[..k]) == k / 10
  {
    ScheduleLength(total, headerLines, tableWidth, k);
    assert k / 20 == 0;
    assert |headerLines| * (k / 20) == 0;
  }

  /** With one-line rows, what follows row `k` starts right after it: after
      `k` rows and what followed the rows before. */
  lemma BodyPosition(rowLines: seq<seq<string>>, after: seq<seq<string>>, k: nat, j: nat)
    requires 0 < k <= |rowLines| == |after|
    requires forall i :: 0 <= i < |rowLines| ==> |rowLines[i]| == 1
    requires j < |after[k - 1]|
    ensures k + LineCount(after[..k - 1]) + j < |Body(rowLines, after, |rowLines|)|
    ensures Body(rowLines, after, |rowLines|)[k + LineCount(after[..k - 1]) + j] == after[k - 1][j]
  {
    BodyLength(rowLines, after, k - 1);
    SingleLineCount(rowLines[..k - 1]);
    var before := Body(rowLines, after, k - 1);
    assert |before| == k - 1 + LineCount(after[..k - 1]);
    var body := Body(rowLines, after, k);
    assert body == before + rowLines[k - 1] + after[k - 1];
    var i := |before| + 1 + j;
    assert body[i] == after[k - 1][j];
    BodyPrefix(rowLines, after, k, |rowLines|);
    var all := Body(rowLines, after, |rowLines|);
    assert all[..|body|][i] == all[i];
  }

  /** Line `i` of the body is line `i` of the table after the header. */
  lemma TableBodyLine(headerLines: seq<string>, rowLines: seq<seq<string>>, tableWidth: nat, i: nat)
    requires |CountText(|rowLines|)| <= tableWidth
    requires i < |Body(rowLines, Schedule(|rowLines|, headerLines, tableWidth), |rowLines|)|
    ensures |headerLines| + i < |TableLines(headerLines, rowLines, tableWidth)|
    ensures TableLines(headerLines, rowLines, tableWidth)[|headerLines| + i]
        == Body(rowLines, Schedule(|rowLines|, headerLines, tableWidth), |rowLines|)[i]
  {
  }

  /** With more than ten one-line rows, the line after the tenth row is
      the counter "10". */
  lemma CounterAfterTenthRow(headerLines: seq<string>, rowLines: seq<seq<string>>, tableWidth: nat)
    requires 10 < |rowLines| && |CountText(|rowLines|)| <= tableWidth
    requires forall i :: 0 <= i < |rowLines| ==> |rowLines[i]| == 1
    ensures |headerLines| + 10 < |TableLines(headerLines, rowLines, tableWidth)|
    ensures TableLines(headerLines, rowLines, tableWidth)[|headerLines| + 10] == CounterLine(10, tableWidth)
  {
    var after := Schedule(|rowLines|, headerLines, tableWidth);
    ScheduleBefore20(|rowLines|, headerLines, tableWidth, 9);
    ScheduleAt(|rowLines|, headerLines, tableWidth, 10);
    CountTextMonotone(10, |rowLines|);
    assert after[9] == [CounterLine(10, tableWidth)];
    BodyPosition(rowLines, after, 10, 0);
    TableBodyLine(headerLines, rowLines, tableWidth, 10);
  }

  /** With exactly ten one-line rows there is no counter: the footer
      follows the tenth row and ends the table. */
  lemma FooterAfterTenRows(headerLines: seq<string>, rowLines: seq<seq<string>>, tableWidth: nat)
    requires |rowLines| == 10 && |CountText(10)| <= tableWidth
    requires forall i :: 0 <= i < |rowLines| ==> |rowLines[i]| == 1
    ensures |TableLines(headerLines, rowLines, tableWidth)| == |headerLines| + 11
    ensures TableLines(headerLines, rowLines, tableWidth)[|headerLines| + 10] == Footer(10, tableWidth)
  {
    TableLength(headerLines, rowLines, tableWidth);
    SingleLineCount(rowLines);
  }

  /** With more than twenty one-line rows, the header lines come again
      right after the twentieth row, one line later than without the
      counter after the tenth. */
  lemma HeaderAfterTwentiethRow(headerLines: seq<string>, rowLines: seq<seq<string>>, tableWidth: nat, j: nat)
    requires 20 < |rowLines| && |CountText(|rowLines|)| <= tableWidth && j < |headerLines|
    requires forall i :: 0 <= i < |rowLines| ==> |rowLines[i]| == 1
    ensures |headerLines| + 21 + j < |TableLines(headerLines, rowLines, tableWidth)|
    ensures TableLines(headerLines, rowLines, tableWidth)[|headerLines| + 21 + j] == headerLines[j]
  {
    var after := Schedule(|rowLines|, headerLines, tableWidth);
    ScheduleBefore20(|rowLines|, headerLines, tableWidth, 19);
    ScheduleAt(|rowLines|, headerLines, tableWidth, 20);
    assert after[19] == headerLines;
    BodyPosition(rowLines, after, 20, j);
    assert Body(rowLines, after, |rowLines|)[21 + j] == headerLines[j];
    TableBodyLine(headerLines, rowLines, tableWidth, 21 + j);
  }

  /** The counter and footer lines of the row_count test, at the
      12-column width of its table. */
  lemma CounterAndFooterText()
    ensures CounterLine(10, 12) == ". . . . . 10"
    ensures Footer(12, 12) == "==========12"
    ensures Footer(10, 12) == "==========10"
  {
    assert NatToString(1) == "1" && NatToString(10) == "10";
    assert CountText(10) == "10";
    assert NatToString(12) == "12";
    assert CountText(12) == "12";
    assert Dots(10) == ". . . . . ";
    assert Fill('=', 10) == "==========";
  }
}
