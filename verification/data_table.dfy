/** The generic data table's own logic: the CSV export of the filtered rows,
    the placeholder widths of the loading skeleton, and the choice between
    skeleton, "No results found." and data rows. */
module DataTable {
  import opened Optional
  import opened Text

  /** The two column-definition fields the export reads. */
  datatype Column = Column(accessorKey: Option<string>, id: Option<string>)

  /** A row field as the export sees it: a string, a number, or anything
      else (boolean, null, object, absent). */
  datatype Value = StrVal(s: string) | NumVal(n: real) | OtherVal

  type Row = map<string, Value>

  /** `accessorKey || id || ""`: an empty string counts as missing. */
  function ColumnKey(c: Column): (k: string)
    ensures c.accessorKey.Some? && c.accessorKey.value != "" ==> k == c.accessorKey.value
    ensures k != "" ==> c.accessorKey == Some(k) || c.id == Some(k)
    ensures k == "" <==> (c.accessorKey.None? || c.accessorKey.value == "") && (c.id.None? || c.id.value == "")
  {
    if c.accessorKey.Some? && c.accessorKey.value != "" then c.accessorKey.value
    else if c.id.Some? && c.id.value != "" then c.id.value
    else ""
  }

  function ColumnKeys(cols: seq<Column>): (ks: seq<string>)
    ensures |ks| == |cols|
    ensures forall i :: 0 <= i < |cols| ==> ks[i] == ColumnKey(cols[i])
  {
    seq(|cols|, i requires 0 <= i < |cols| => ColumnKey(cols[i]))
  }

  function DropEmpty(ks: seq<string>): (h: seq<string>)
    ensures |h| <= |ks|
    ensures forall i :: 0 <= i < |h| ==> h[i] != ""
    ensures SubseqOf(h, ks)
    ensures forall k :: k in h <==> k in ks && k != ""
    ensures forall k :: multiset(h)[k] == (if k == "" then 0 else multiset(ks)[k])
    ensures (forall i :: 0 <= i < |ks| ==> ks[i] != "") ==> h == ks
  {
    if |ks| == 0 then []
    else
      assert ks == [ks[0]] + ks[1..];
      assert forall k :: k in ks <==> k == ks[0] || k in ks[1..];
      var rest := DropEmpty(ks[1..]);
      if ks[0] == "" then rest else [ks[0]] + rest
  }

  /** The export header: each column's key, in column order, blanks dropped. */
  function Header(cols: seq<Column>): (h: seq<string>)
    ensures forall i :: 0 <= i < |h| ==> h[i] != ""
    ensures SubseqOf(h, ColumnKeys(cols))
    ensures forall k :: k in h <==> k != "" && exists i :: 0 <= i < |cols| && ColumnKey(cols[i]) == k
    ensures forall k :: k != "" ==> multiset(h)[k] == multiset(ColumnKeys(cols))[k]
    ensures (forall i :: 0 <= i < |cols| ==> ColumnKey(cols[i]) != "") ==> h == ColumnKeys(cols)
  {
    var ks := ColumnKeys(cols);
    assert forall k :: k in ks <==> exists i :: 0 <= i < |cols| && ColumnKey(cols[i]) == k;
    DropEmpty(ks)
  }

  /** One exported cell: strings as they are, numbers through the number
      formatting, everything else empty. */
  function Cell(row: Row, key: string, numberText: real -> string): (c: string)
    ensures key in row && row[key].StrVal? ==> c == row[key].s
    ensures key in row && row[key].NumVal? ==> c == numberText(row[key].n)
    ensures key !in row || row[key].OtherVal? ==> c == ""
  {
    if key !in row then ""
    else match row[key]
      case StrVal(s) => s
      case NumVal(n) => numberText(n)
      case OtherVal => ""
  }

  function RowCells(header: seq<string>, row: Row, numberText: real -> string): (cells: seq<string>)
    ensures |cells| == |header|
    ensures forall i :: 0 <= i < |header| ==> cells[i] == Cell(row, header[i], numberText)
  {
    seq(|header|, i requires 0 <= i < |header| => Cell(row, header[i], numberText))
  }

  /** The table the CSV encodes: the header, then one cell row per data row. */
  function Lines(header: seq<string>, rows: seq<Row>, numberText: real -> string): (lines: seq<seq<string>>)
    ensures |lines| == |rows| + 1 && lines[0] == header
    ensures forall i :: 0 <= i < |rows| ==> lines[i + 1] == RowCells(header, rows[i], numberText)
    ensures forall i :: 0 <= i < |lines| ==> |lines[i]| == |header|
  {
    [header] + seq(|rows|, i requires 0 <= i < |rows| => RowCells(header, rows[i], numberText))
  }

  /** Cells joined by commas, lines by newlines, nothing quoted. The text
      starts with the first line's cells and has a newline exactly when there
      is more than one line. */
  function JoinLines(lines: seq<seq<string>>): (csv: string)
    ensures |lines| == 0 ==> csv == ""
    ensures |lines| > 0 ==> StartsWith(csv, Join(lines[0], ','))
    ensures |lines| > 1 ==> '\n' in csv
    ensures |lines| == 1 ==> csv == Join(lines[0], ',')
  {
    var joined := seq(|lines|, i requires 0 <= i < |lines| => Join(lines[i], ','));
    Join(joined, '\n')
  }

  /** The CSV text of the export: the header line first; with no rows, the
      header line alone. */
  function ExportCsv(cols: seq<Column>, rows: seq<Row>, numberText: real -> string): (csv: string)
    ensures StartsWith(csv, Join(Header(cols), ','))
    ensures |rows| == 0 ==> csv == Join(Header(cols), ',')
    ensures |rows| > 0 ==> '\n' in csv
  {
    JoinLines(Lines(Header(cols), rows, numberText))
  }

  /** Reading a CSV back: split into lines, then each line into cells. */
  function ParseCsv(csv: string): (t: seq<seq<string>>)
    ensures |t| == |Split(csv, '\n')|
  {
    var ls := Split(csv, '\n');
    seq(|ls|, i requires 0 <= i < |ls| => Split(ls[i], ','))
  }

  predicate PlainField(s: string) {
    ',' !in s && '\n' !in s
  }

  lemma {:induction false} JoinLinesRoundTrip(lines: seq<seq<string>>)
    requires |lines| > 0
    requires forall i :: 0 <= i < |lines| ==> |lines[i]| > 0
    requires forall i, j :: 0 <= i < |lines| && 0 <= j < |lines[i]| ==> PlainField(lines[i][j])
    ensures ParseCsv(JoinLines(lines)) == lines
  {
    var joined := seq(|lines|, i requires 0 <= i < |lines| => Join(lines[i], ','));
    forall i | 0 <= i < |lines|
      ensures '\n' !in joined[i]
      ensures Split(joined[i], ',') == lines[i]
    {
      JoinAvoids(lines[i], ',', '\n');
      SplitJoin(lines[i], ',');
    }
    SplitJoin(joined, '\n');
  }

  /** When no header key or cell contains a comma or a newline, splitting the
      export on newlines and then commas gives back the header and the rows. */
  lemma ExportCsvRoundTrip(cols: seq<Column>, rows: seq<Row>, numberText: real -> string)
    requires |Header(cols)| > 0
    requires forall i, j :: 0 <= i < |rows| + 1 && 0 <= j < |Header(cols)| ==>
               PlainField(Lines(Header(cols), rows, numberText)[i][j])
    ensures ParseCsv(ExportCsv(cols, rows, numberText)) == Lines(Header(cols), rows, numberText)
  {
    JoinLinesRoundTrip(Lines(Header(cols), rows, numberText));
  }

  /** Without quoting, a comma inside a key is indistinguishable from a column
      boundary: one column keyed "a,b" and two columns keyed "a" and "b"
      export the same text. */
  lemma CommaInKeyIsAmbiguous(numberText: real -> string)
    ensures var one := [Column(Some("a,b"), None)];
            var two := [Column(Some("a"), None), Column(Some("b"), None)];
            && |Header(one)| != |Header(two)|
            && ExportCsv(one, [], numberText) == ExportCsv(two, [], numberText)
  {
    var one := [Column(Some("a,b"), None)];
    var two := [Column(Some("a"), None), Column(Some("b"), None)];
    assert ColumnKeys(one) == ["a,b"];
    assert ColumnKeys(two) == ["a", "b"];
    assert Header(one) == ["a,b"];
    assert Header(two) == ["a", "b"];
    assert Join(["a", "b"], ',') == "a,b";
  }

  // ---------------------------------------------------------------------------
  // Table body

  /** Width, in percent, of the placeholder bar in cell `i` of skeleton row
      `rowIndex`. */
  function SkeletonWidth(rowIndex: nat, i: nat): (w: nat)
    ensures 60 <= w <= 89
  {
    60 + (rowIndex * 7 + i * 13) % 30
  }

  const SkeletonRows: nat := 8

  datatype Body =
    | Skeleton(widths: seq<seq<nat>>)
    | NoResults(colSpan: nat)
    | DataRows(count: nat)

  /** What the table body shows. */
  function BodyFor(isLoading: bool, columnCount: nat, pageRowCount: nat): (b: Body)
    ensures b.Skeleton? <==> isLoading
    ensures b.Skeleton? ==>
              && |b.widths| == SkeletonRows
              && (forall r :: 0 <= r < SkeletonRows ==> |b.widths[r]| == columnCount)
              && (forall r, i :: 0 <= r < SkeletonRows && 0 <= i < columnCount ==>
                    60 <= b.widths[r][i] <= 89 && b.widths[r][i] == SkeletonWidth(r, i))
    ensures !isLoading && pageRowCount == 0 ==> b == NoResults(columnCount)
    ensures !isLoading && pageRowCount > 0 ==> b == DataRows(pageRowCount)
  {
    if isLoading then
      Skeleton(seq(SkeletonRows, r requires 0 <= r < SkeletonRows =>
                 seq(columnCount, i requires 0 <= i < columnCount => SkeletonWidth(r, i))))
    else if pageRowCount == 0 then NoResults(columnCount)
    else DataRows(pageRowCount)
  }
}
