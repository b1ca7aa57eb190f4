/**
 The Markdown the PDF converter builds inside `convert`: one block per page
 with the page's lines, then its tables, after a fixed title.

 The PDF library is outside the model: a page arrives as its extracted text
 and its extracted tables, each of which the library may report as `None`.
 `prev_text`, the last non-blank line, is threaded through every line of
 every page.
 */
module PdfRender {
  import opened Text
  import PdfHeading

  /** A table cell as extracted: its text, or `None` for an empty cell. */
  type Cell = Option<string>
  type Row = seq<Cell>
  type Table = seq<Row>

  /** One page: `extract_text()` and `extract_tables()`, either of which may be `None`. */
  datatype Page = Page(text: Option<string>, tables: Option<seq<Table>>)

  /** Rendered text together with the `prev_text` that follows it. */
  datatype Rendered = Rendered(text: string, prev: string)

  const Title := "# Converted PDF Book\n\n"

  // ---------------------------------------------------------------------------
  // Lines
  // ---------------------------------------------------------------------------

  /**
   One extracted line: blank lines become an empty line and leave `prev_text`
   alone; a heading becomes `### line`; any other line is passed through
   `format_formula` and ends in a Markdown hard break. The stripped line
   becomes the new `prev_text`.
   */
  function RenderLine(line: string, prev: string): (r: Rendered)
    ensures r.prev == if Strip(line) == [] then prev else Strip(line)
  {
    var l := Strip(line);
    if l == [] then Rendered("\n", prev)
    else if PdfHeading.IsHeading(l, prev) then Rendered("### " + l + "\n\n", l)
    else Rendered(PdfHeading.FormatFormula(l) + "  \n", l)
  }

  /**
   The three kinds of rendered line can be told apart by their ending: a
   blank line is a lone newline, a heading ends in a blank line, and any
   other line ends in the two-space hard break, with the formatted line
   before it.
   */
  lemma RenderLineKinds(line: string, prev: string)
    ensures var r := RenderLine(line, prev).text;
      && (r == "\n" <==> Strip(line) == [])
      && (|r| >= 2 && r[|r| - 2..] == "\n\n" <==> Strip(line) != [] && PdfHeading.IsHeading(Strip(line), prev))
      && (|r| >= 2 && r[|r| - 2..] == "\n\n" ==> r == "### " + Strip(line) + "\n\n")
      && (|r| >= 3 && r[|r| - 3..] == "  \n" ==> r[..|r| - 3] == PdfHeading.FormatFormula(Strip(line)))
      && (Strip(line) != [] && !PdfHeading.IsHeading(Strip(line), prev) ==>
            r == PdfHeading.FormatFormula(Strip(line)) + "  \n")
  {
    var l := Strip(line);
    var r := RenderLine(line, prev).text;
    if l != [] && !PdfHeading.IsHeading(l, prev) {
      var f := PdfHeading.FormatFormula(l);
      assert |f| >= |l| >= 1;
      assert r[|r| - 2] == ' ';
      assert r[..|r| - 3] == f;
    } else if l != [] {
      assert r[|r| - 2] == '\n';
    }
  }

  /**
   A loop over lines with a per-line step: each line's output is appended
   and the step's `prev_text` is handed to the next line.
   */
  function FoldLines(step: (string, string) -> Rendered, lines: seq<string>, prev: string): Rendered
    decreases |lines|
  {
    if |lines| == 0 then Rendered([], prev)
    else
      var before := FoldLines(step, lines[..|lines| - 1], prev);
      var last := step(lines[|lines| - 1], before.prev);
      Rendered(before.text + last.text, last.prev)
  }

  /** The loop over a page's lines, from a given `prev_text`. */
  function RenderLines(lines: seq<string>, prev: string): Rendered {
    FoldLines(RenderLine, lines, prev)
  }

  lemma {:induction false} FoldAppend(step: (string, string) -> Rendered, a: seq<string>, b: seq<string>, prev: string)
    ensures var ra := FoldLines(step, a, prev);
      var rb := FoldLines(step, b, ra.prev);
      FoldLines(step, a + b, prev) == Rendered(ra.text + rb.text, rb.prev)
    decreases |b|
  {
    if |b| > 0 {
      var init := b[..|b| - 1];
      FoldAppend(step, a, init, prev);
      assert (a + b)[..|a + b| - 1] == a + init;
      assert (a + b)[|a + b| - 1] == b[|b| - 1];
    } else {
      assert a + b == a;
    }
  }

  /** Rendering two runs of lines one after the other is rendering them together. */
  lemma RenderLinesAppend(a: seq<string>, b: seq<string>, prev: string)
    ensures var ra := RenderLines(a, prev);
      var rb := RenderLines(b, ra.prev);
      RenderLines(a + b, prev) == Rendered(ra.text + rb.text, rb.prev)
  {
    FoldAppend(RenderLine, a, b, prev);
  }

  lemma FoldPrev(step: (string, string) -> Rendered, visible: string -> string,
                 lines: seq<string>, prev: string)
    requires forall x, p :: step(x, p).prev == if visible(x) == [] then p else visible(x)
    ensures (forall j :: 0 <= j < |lines| ==> visible(lines[j]) == []) ==>
      FoldLines(step, lines, prev).prev == prev
    ensures forall j :: 0 <= j < |lines| && visible(lines[j]) != []
                        && (forall m :: j < m < |lines| ==> visible(lines[m]) == []) ==>
      FoldLines(step, lines, prev).prev == visible(lines[j])
  {
    if forall j :: 0 <= j < |lines| ==> visible(lines[j]) == [] {
      FoldPrevBlank(step, visible, lines, prev);
    }
    forall j | 0 <= j < |lines| && visible(lines[j]) != []
               && (forall m :: j < m < |lines| ==> visible(lines[m]) == [])
      ensures FoldLines(step, lines, prev).prev == visible(lines[j])
    {
      FoldPrevLast(step, visible, lines, prev, j);
    }
  }

  /** The fold over lines, unrolled once at the end. */
  lemma FoldLinesSnoc(step: (string, string) -> Rendered, lines: seq<string>, prev: string)
    requires |lines| > 0
    ensures FoldLines(step, lines, prev).prev
            == step(lines[|lines| - 1], FoldLines(step, lines[..|lines| - 1], prev).prev).prev
  {
  }

  /** Blank lines leave `prev_text` as it was. */
  lemma {:induction false} FoldPrevBlank(step: (string, string) -> Rendered, visible: string -> string,
                                         lines: seq<string>, prev: string)
    requires forall x, p :: step(x, p).prev == if visible(x) == [] then p else visible(x)
    requires forall j :: 0 <= j < |lines| ==> visible(lines[j]) == []
    ensures FoldLines(step, lines, prev).prev == prev
    decreases |lines|
  {
    if |lines| > 0 {
      var init := lines[..|lines| - 1];
      assert forall j :: 0 <= j < |init| ==> init[j] == lines[j];
      FoldPrevBlank(step, visible, init, prev);
      FoldLinesSnoc(step, lines, prev);
    }
  }

  /** After the last visible line `j`, `prev_text` is that line's visible text. */
  lemma {:induction false} FoldPrevLast(step: (string, string) -> Rendered, visible: string -> string,
                                        lines: seq<string>, prev: string, j: nat)
    requires forall x, p :: step(x, p).prev == if visible(x) == [] then p else visible(x)
    requires j < |lines| && visible(lines[j]) != []
    requires forall m :: j < m < |lines| ==> visible(lines[m]) == []
    ensures FoldLines(step, lines, prev).prev == visible(lines[j])
    decreases |lines|
  {
    var init := lines[..|lines| - 1];
    FoldLinesSnoc(step, lines, prev);
    if j < |lines| - 1 {
      assert forall m :: j <= m < |init| ==> init[m] == lines[m];
      FoldPrevLast(step, visible, init, prev, j);
    }
  }

  /**
   After a run of lines, `prev_text` is the last non-blank line, stripped,
   or the `prev_text` it started from when every line is blank.
   */
  lemma PrevIsLastVisible(lines: seq<string>, prev: string)
    ensures (forall j :: 0 <= j < |lines| ==> Strip(lines[j]) == []) ==>
      RenderLines(lines, prev).prev == prev
    ensures forall j :: 0 <= j < |lines| && Strip(lines[j]) != []
                        && (forall m :: j < m < |lines| ==> Strip(lines[m]) == []) ==>
      RenderLines(lines, prev).prev == Strip(lines[j])
  {
    FoldPrev(RenderLine, Strip, lines, prev);
  }

  // ---------------------------------------------------------------------------
  // Tables
  // ---------------------------------------------------------------------------

  /** `str(cell or "")`. */
  function CellText(c: Cell): string {
    if c.None? then [] else c.value
  }

  function Cells(row: Row): (cells: seq<string>)
    ensures |cells| == |row|
    ensures forall k :: 0 <= k < |row| ==> cells[k] == CellText(row[k])
  {
    seq(|row|, k requires 0 <= k < |row| => CellText(row[k]))
  }

  /** One Markdown table row: `| a | b | c |` and a newline. */
  function RowLine(cells: seq<string>): string {
    "| " + Join(cells, " | ") + " |\n"
  }

  /** The separator row's cells: one `---` per header cell. */
  function Rule(n: nat): (cells: seq<string>)
    ensures |cells| == n
    ensures forall k :: 0 <= k < n ==> cells[k] == "---"
  {
    seq(n, _ => "---")
  }

  /** One row line per data row, in order. */
  function DataRows(rows: seq<Row>): string
    decreases |rows|
  {
    if |rows| == 0 then [] else DataRows(rows[..|rows| - 1]) + RowLine(Cells(rows[|rows| - 1]))
  }

  /**
   One table: the header row, the separator row of the same width, a line
   per data row, and a blank line. A table with no rows, or whose first row
   has no cells, is skipped.
   */
  function RenderTable(table: Table): (r: Option<string>)
    ensures r.None? <==> |table| == 0 || |table[0]| == 0
  {
    if |table| == 0 || |table[0]| == 0 then None
    else
      var header := Cells(table[0]);
      Some(RowLine(header) + RowLine(Rule(|header|)) + DataRows(table[1..]) + "\n\n")
  }

  /** The rendered tables that are not skipped, in order. */
  function TableBlocks(tables: seq<Table>): string
    decreases |tables|
  {
    if |tables| == 0 then []
    else
      var block := RenderTable(tables[|tables| - 1]);
      TableBlocks(tables[..|tables| - 1]) + (if block.Some? then block.value else [])
  }

  /** `extract_tables() or []`: when the list is not empty the `### Tables` header appears, even if every table is skipped. */
  function TableSection(tables: Option<seq<Table>>): (r: string)
    ensures tables.None? || tables.value == [] ==> r == []
    ensures tables.Some? && tables.value != [] ==> r == "### Tables\n\n" + TableBlocks(tables.value)
  {
    var ts := if tables.None? then [] else tables.value;
    if |ts| == 0 then [] else "### Tables\n\n" + TableBlocks(ts)
  }

  predicate NoChar(cells: seq<string>, c: char) {
    forall k :: 0 <= k < |cells| ==> CountChar(cells[k], c) == 0
  }

  /** A row of `n >= 1` cells free of `|` has `n + 1` pipes, one per column border. */
  lemma RowPipes(cells: seq<string>)
    requires |cells| >= 1 && NoChar(cells, '|')
    ensures CountChar(RowLine(cells), '|') == |cells| + 1
  {
    CountCharJoin(cells, " | ", '|');
    var j := Join(cells, " | ");
    CountCharAppend("| " + j, " |\n", '|');
    CountCharAppend("| ", j, '|');
  }

  /** A row line holds exactly one newline when its cells hold none. */
  lemma RowNewlines(cells: seq<string>)
    requires NoChar(cells, '\n')
    ensures CountChar(RowLine(cells), '\n') == 1
  {
    var j := Join(cells, " | ");
    if |cells| >= 1 {
      CountCharJoin(cells, " | ", '\n');
    }
    CountCharAppend("| " + j, " |\n", '\n');
    CountCharAppend("| ", j, '\n');
  }

  predicate CellsFree(row: Row, c: char) {
    forall k :: 0 <= k < |row| ==> CountChar(CellText(row[k]), c) == 0
  }

  /** The header and separator rows have the same number of columns. */
  lemma HeaderMatchesRule(table: Table)
    requires |table| >= 1 && |table[0]| >= 1 && CellsFree(table[0], '|')
    ensures var header := Cells(table[0]);
      CountChar(RowLine(header), '|') == CountChar(RowLine(Rule(|header|)), '|') == |table[0]| + 1
  {
    var header := Cells(table[0]);
    RowPipes(header);
    var rule := Rule(|header|);
    CountCharAtLeastOne("---", '|');
    RowPipes(rule);
  }

  lemma {:induction false} DataRowNewlines(rows: seq<Row>)
    requires forall i :: 0 <= i < |rows| ==> CellsFree(rows[i], '\n')
    ensures CountChar(DataRows(rows), '\n') == |rows|
    decreases |rows|
  {
    if |rows| > 0 {
      var init := rows[..|rows| - 1];
      DataRowNewlines(init);
      RowNewlines(Cells(rows[|rows| - 1]));
      CountCharAppend(DataRows(init), RowLine(Cells(rows[|rows| - 1])), '\n');
    }
  }

  /**
   A kept table whose cells hold no line breaks renders to one line per row
   plus the separator line, then a blank line: `|table| + 3` newlines.
   */
  lemma TableNewlines(table: Table)
    requires |table| >= 1 && |table[0]| >= 1
    requires forall i :: 0 <= i < |table| ==> CellsFree(table[i], '\n')
    ensures CountChar(RenderTable(table).value, '\n') == |table| + 3
  {
    var header := Cells(table[0]);
    var rule := Rule(|header|);
    RowNewlines(header);
    CountCharAtLeastOne("---", '\n');
    RowNewlines(rule);
    var rows := table[1..];
    assert forall i :: 0 <= i < |rows| ==> rows[i] == table[i + 1];
    DataRowNewlines(rows);
    var a := RowLine(header);
    var b := RowLine(rule);
    var c := DataRows(rows);
    CountCharAppend(a, b, '\n');
    CountCharAppend(a + b, c, '\n');
    CountCharAppend(a + b + c, "\n\n", '\n');
  }

  // ---------------------------------------------------------------------------
  // Pages and the whole document
  // ---------------------------------------------------------------------------

  /** `extract_text() or ""`. */
  function PageText(p: Page): string {
    if p.text.None? then [] else p.text.value
  }

  /** The lines `text.split("\n")` yields for a page. */
  function PageLines(p: Page): (lines: seq<string>)
    ensures |lines| >= 1
    ensures Join(lines, "\n") == PageText(p)
  {
    SplitOnJoin(PageText(p), '\n');
    SplitOn(PageText(p), '\n')
  }

  function PageHeader(n: nat): string {
    "## Page " + NatToString(n) + "\n\n"
  }

  /** Page `n`: its header, its lines, then its tables. */
  function RenderPage(n: nat, p: Page, prev: string): (r: Rendered)
    ensures PageHeader(n) <= r.text
  {
    var header := PageHeader(n);
    var body := RenderLines(PageLines(p), prev);
    var rest := body.text + TableSection(p.tables);
    assert header <= header + rest;
    Rendered(header + rest, body.prev)
  }

  /**
   What page `n` contributes: its header, its rendered lines, then its table
   section, with `prev_text` as the lines leave it.
   */
  lemma RenderPageParts(n: nat, p: Page, prev: string)
    ensures var r := RenderPage(n, p, prev);
      var body := RenderLines(PageLines(p), prev);
      && r.text == PageHeader(n) + body.text + TableSection(p.tables)
      && IsSuffix(TableSection(p.tables), r.text)
      && r.prev == body.prev
  {
    var body := RenderLines(PageLines(p), prev);
    var t := TableSection(p.tables);
    var w := PageHeader(n) + body.text + t;
    assert w[|w| - |t|..] == t;
  }

  /** A loop over pages, numbered from 1, with `prev_text` carried from page to page. */
  function FoldPages(step: (nat, Page, string) -> Rendered, pages: seq<Page>, prev: string): Rendered
    decreases |pages|
  {
    if |pages| == 0 then Rendered([], prev)
    else
      var before := FoldPages(step, pages[..|pages| - 1], prev);
      var page := step(|pages|, pages[|pages| - 1], before.prev);
      Rendered(before.text + page.text, page.prev)
  }

  /** The page loop of `convert`. */
  function RenderPages(pages: seq<Page>, prev: string): Rendered {
    FoldPages(RenderPage, pages, prev)
  }

  /** The Markdown `convert` writes for a document's pages. */
  function Convert(pages: seq<Page>): (r: string)
    ensures Title <= r
  {
    Title + RenderPages(pages, []).text
  }

  /**
   If every page's text starts with its header, then the text of the first
   `k` pages is followed directly by the header of page `k + 1`.
   */
  lemma {:induction false} FoldPagesInOrder(step: (nat, Page, string) -> Rendered, head: nat -> string,
                                            pages: seq<Page>, k: nat, prev: string)
    requires forall n, p, q :: head(n) <= step(n, p, q).text
    requires k < |pages|
    ensures FoldPages(step, pages[..k], prev).text + head(k + 1) <= FoldPages(step, pages, prev).text
    decreases |pages|
  {
    var n := |pages|;
    var init := pages[..n - 1];
    var before := FoldPages(step, init, prev);
    var page := step(n, pages[n - 1], before.prev);
    var whole := FoldPages(step, pages, prev).text;
    FoldPagesSnoc(step, pages, prev);
    if k < n - 1 {
      FoldPagesInOrder(step, head, init, k, prev);
      TakeTake(pages, n - 1, k);
      PrefixTrans(FoldPages(step, pages[..k], prev).text + head(k + 1), before.text, page.text, whole);
    } else {
      assert head(n) <= page.text;
      PrefixAppend(before.text, head(n), page.text, whole);
    }
  }

  /** The fold over pages, unrolled once at the end. */
  lemma FoldPagesSnoc(step: (nat, Page, string) -> Rendered, pages: seq<Page>, prev: string)
    requires |pages| > 0
    ensures var before := FoldPages(step, pages[..|pages| - 1], prev);
      FoldPages(step, pages, prev).text == before.text + step(|pages|, pages[|pages| - 1], before.prev).text
  {
  }

  lemma PrefixTrans(x: string, y: string, z: string, w: string)
    requires x <= y && w == y + z
    ensures x <= w
  {
    assert (y + z)[..|x|] == y[..|x|];
  }

  lemma PrefixAppend(x: string, y: string, z: string, w: string)
    requires y <= z && w == x + z
    ensures x + y <= w
  {
    assert (x + z)[..|x + y|] == x + z[..|y|];
  }

  /**
   The pages appear in order: the output for the first `k` pages is followed
   directly by page `k + 1`'s header.
   */
  lemma PagesInOrder(pages: seq<Page>, k: nat)
    requires k < |pages|
    ensures Convert(pages[..k]) + PageHeader(k + 1) <= Convert(pages)
  {
    forall n, p, q
      ensures PageHeader(n) <= RenderPage(n, p, q).text
    {
    }
    FoldPagesInOrder(RenderPage, PageHeader, pages, k, []);
    var a := RenderPages(pages[..k], []).text;
    var b := RenderPages(pages, []).text;
    PrefixAppend(Title, a + PageHeader(k + 1), b, Convert(pages));
    assert Title + a + PageHeader(k + 1) == Title + (a + PageHeader(k + 1));
  }

  /** Every line of every page, in order. */
  function AllLines(pages: seq<Page>): seq<string>
    decreases |pages|
  {
    if |pages| == 0 then [] else AllLines(pages[..|pages| - 1]) + PageLines(pages[|pages| - 1])
  }

  /**
   `prev_text` is not reset between pages: after any number of pages it is
   what the line loop over all their lines together would leave.
   */
  lemma {:induction false} PrevAcrossPages(pages: seq<Page>, prev: string)
    ensures RenderPages(pages, prev).prev == RenderLines(AllLines(pages), prev).prev
    decreases |pages|
  {
    if |pages| > 0 {
      var init := pages[..|pages| - 1];
      PrevAcrossPages(init, prev);
      RenderLinesAppend(AllLines(init), PageLines(pages[|pages| - 1]), prev);
    }
  }

  /**
   Hence the short-line rule of `is_heading` applies only until the first
   non-blank line of the document: on any later page only upper-case lines
   become headings.
   */
  lemma PrevAfterVisibleLine(pages: seq<Page>, j: nat)
    requires j < |AllLines(pages)| && Strip(AllLines(pages)[j]) != []
    ensures Strip(RenderPages(pages, []).prev) != []
  {
    var lines := AllLines(pages);
    PrevAcrossPages(pages, []);
    PrevIsLastVisible(lines, []);
    var last := LastVisibleIndex(lines, j);
    StripIdempotent(lines[last]);
  }

  /** The last non-blank line at or after a non-blank line `j`. */
  lemma {:induction false} LastVisibleIndex(lines: seq<string>, j: nat) returns (last: nat)
    requires j < |lines| && Strip(lines[j]) != []
    ensures j <= last < |lines| && Strip(lines[last]) != []
    ensures forall m :: last < m < |lines| ==> Strip(lines[m]) == []
    decreases |lines| - j
  {
    if forall m :: j < m < |lines| ==> Strip(lines[m]) == [] {
      last := j;
    } else {
      var m :| j < m < |lines| && Strip(lines[m]) != [];
      last := LastVisibleIndex(lines, m);
    }
  }
}
