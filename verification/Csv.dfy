// Matrices of numbers as comma-separated text: the writer and its reader.
module Csv {
  import opened Text

  type Matrix = seq<seq<nat>>

  function Fields(row: seq<nat>): seq<string> {
    seq(|row|, i requires 0 <= i < |row| => Decimal(row[i]))
  }

  function Line(row: seq<nat>): string {
    Join(Fields(row), ',')
  }

  /** A number is written with the usual digits, the last one being its remainder by ten. */
  lemma DecimalDigits(n: nat)
    ensures n < 10 ==> Decimal(n) == ["0123456789"[n]]
    ensures n >= 10 ==> Decimal(n) == Decimal(n / 10) + ["0123456789"[n % 10]]
  {
  }

  /** A line is its numbers with commas in between. */
  lemma LineAppend(row: seq<nat>, n: nat)
    ensures Line([n]) == Decimal(n)
    ensures row != [] ==> Line(row + [n]) == Line(row) + "," + Decimal(n)
  {
    assert Fields([n]) == [Decimal(n)];
    if row != [] {
      assert Fields(row + [n]) == Fields(row) + [Decimal(n)];
      JoinAppend(Fields(row), Decimal(n), ',');
    }
  }

  /** One line per row, each ended by a newline. */
  function Print(rows: Matrix): string {
    if rows == [] then "" else Print(rows[..|rows| - 1]) + (Line(rows[|rows| - 1]) + "\n")
  }

  /** What a reader without a header row makes of such a text. */
  function Parse(text: string): Matrix {
    var lines := Split(text, '\n');
    seq(|lines| - 1, i requires 0 <= i < |lines| - 1 => ParseLine(lines[i]))
  }

  function ParseLine(line: string): seq<nat> {
    var fields := Split(line, ',');
    seq(|fields|, i requires 0 <= i < |fields| => ParseDecimal(fields[i]))
  }

  predicate NoEmptyRow(rows: Matrix) {
    forall k | 0 <= k < |rows| :: rows[k] != []
  }

  lemma LineRoundTrip(row: seq<nat>)
    requires row != []
    ensures ParseLine(Line(row)) == row
  {
    var fields := Fields(row);
    assert AllFree(fields, ',');
    SplitJoin(fields, ',');
    forall i | 0 <= i < |row| ensures ParseDecimal(fields[i]) == row[i] { ParseDecimalInverts(row[i]); }
  }

  /** A printed line holds digits and commas only. */
  lemma LineHasNoNewline(row: seq<nat>)
    ensures Free(Line(row), '\n')
  {
    JoinFree(Fields(row), ',', '\n');
  }

  lemma {:induction false} JoinFree(pieces: seq<string>, sep: char, c: char)
    requires AllFree(pieces, c) && c != sep
    ensures Free(Join(pieces, sep), c)
  {
    if |pieces| > 1 { JoinFree(pieces[1..], sep, c); }
  }

  function Lines(rows: Matrix): seq<string> {
    seq(|rows|, i requires 0 <= i < |rows| => Line(rows[i]))
  }

  lemma {:induction false} PrintIsJoin(rows: Matrix)
    ensures Print(rows) == Join(Lines(rows) + [""], '\n')
  {
    if rows != [] {
      var front := rows[..|rows| - 1];
      PrintIsJoin(front);
      JoinAppend(Lines(rows), "", '\n');
      assert Lines(rows) == Lines(front) + [Line(rows[|rows| - 1])];
      if front != [] {
        JoinAppend(Lines(front), "", '\n');
        JoinAppend(Lines(front), Line(rows[|rows| - 1]), '\n');
      }
    }
  }

  /** Reading a printed matrix gives the matrix back. */
  lemma RoundTrip(rows: Matrix)
    requires NoEmptyRow(rows)
    ensures Parse(Print(rows)) == rows
  {
    var lines := Lines(rows) + [""];
    PrintIsJoin(rows);
    forall k | 0 <= k < |lines| ensures Free(lines[k], '\n') {
      if k < |rows| { LineHasNoNewline(rows[k]); }
    }
    SplitJoin(lines, '\n');
    forall i | 0 <= i < |rows| ensures ParseLine(lines[i]) == rows[i] { LineRoundTrip(rows[i]); }
  }

  /** The text grows by one line, ended by a newline, for each row. */
  lemma PrintOneMore(rows: Matrix, row: seq<nat>)
    ensures Print(rows + [row]) == Print(rows) + (Line(row) + "\n")
  {
    assert (rows + [row])[..|rows|] == rows;
  }

  lemma {:induction false} PrintAppend(rows: Matrix, more: Matrix)
    ensures Print(rows + more) == Print(rows) + Print(more)
  {
    if more == [] {
      assert rows + more == rows;
    } else {
      var front, last := more[..|more| - 1], more[|more| - 1];
      calc {
        Print(rows + more);
        { assert rows + more == (rows + front) + [last]; PrintOneMore(rows + front, last); }
        Print(rows + front) + (Line(last) + "\n");
        { PrintAppend(rows, front); }
        Print(rows) + Print(front) + (Line(last) + "\n");
        Print(rows) + (Print(front) + (Line(last) + "\n"));
        { PrintOneMore(front, last); assert front + [last] == more; }
        Print(rows) + Print(more);
      }
    }
  }

  /** Texts appended to one file read as the rows of the first followed by the rows of the second. */
  lemma AppendedTextsConcatenate(rows: Matrix, more: Matrix)
    requires NoEmptyRow(rows) && NoEmptyRow(more)
    ensures Parse(Print(rows) + Print(more)) == rows + more
  {
    PrintAppend(rows, more);
    RoundTrip(rows + more);
  }

  // ----- the writer -----

  class Files {
    var content: map<string, string>

    constructor ()
      ensures content == map[]
    {
      content := map[];
    }
  }

  const UINT32: nat := 0x1_0000_0000

  /** What a file holds before a write that may truncate it. */
  function Kept(content: map<string, string>, filename: string, overwrite: bool): string {
    if overwrite || filename !in content then "" else content[filename]
  }

  /** The files after a text was written to one of them. No file has an empty name: opening it fails, and
      writing to a stream that is not open does nothing. */
  function Saved(content: map<string, string>, filename: string, text: string, overwrite: bool): map<string, string> {
    if filename == "" then content else content[filename := Kept(content, filename, overwrite) + text]
  }

  /** The rows a dump writes; a negative limit, or one past the end, stands for all. The row count is a 32-bit number. */
  function FirstRows(data: Matrix, limit: int): Matrix {
    var count := |data| % UINT32;
    data[..if 0 <= limit < count then limit else count]
  }

  /** The number of columns written in every row: that of the first one, as a 32-bit number. */
  function ColumnCount(data: Matrix): nat {
    if data == [] then 0 else |data[0]| % UINT32
  }

  /** Every row that is written has these columns, and there is one; all else reads past the end of a row. */
  predicate Readable(data: Matrix, limit: int) {
    forall k | 0 <= k < |FirstRows(data, limit)| :: 1 <= ColumnCount(data) <= |data[k]|
  }

  function Columns(rows: Matrix, count: nat): Matrix {
    seq(|rows|, i requires 0 <= i < |rows| => if count <= |rows[i]| then rows[i][..count] else rows[i])
  }

  /** The part of a matrix that a dump writes. */
  function Written(data: Matrix, limit: int): Matrix {
    Columns(FirstRows(data, limit), ColumnCount(data))
  }

  method DumpMatrix(files: Files, filename: string, data: Matrix, limit: int, overwrite: bool)
    requires Readable(data, limit)
    modifies files
    ensures |data| % UINT32 == 0 || filename == "" ==> files.content == old(files.content)
    ensures |data| % UINT32 != 0 && filename != "" ==>
      && files.content.Keys == old(files.content).Keys + {filename}
      && (forall other | other in old(files.content) && other != filename ::
           files.content[other] == old(files.content)[other])
      && files.content[filename]
        == (if overwrite || filename !in old(files.content) then "" else old(files.content)[filename])
           + Print(Written(data, limit))
    ensures |data| % UINT32 != 0 ==>
      files.content == Saved(old(files.content), filename, Print(Written(data, limit)), overwrite)
  {
    var rowCount := |data| % UINT32;
    if rowCount <= 0 {
      return;
    }
    var colCount := |data[0]| % UINT32;
    if limit >= 0 && limit < rowCount {
      rowCount := limit;
    }
    assert FirstRows(data, limit) == data[..rowCount];
    forall k | 0 <= k < rowCount ensures 1 <= colCount <= |data[k]| {
      assert FirstRows(data, limit)[k] == data[k];
    }
    var text := WriteRows(data[..rowCount], colCount);
    if filename != "" {
      files.content := files.content[filename := Kept(files.content, filename, overwrite) + text];
    }
  }

  /** The outer loop of DumpMatrix. */
  method WriteRows(rows: Matrix, colCount: nat) returns (text: string)
    requires forall k | 0 <= k < |rows| :: 1 <= colCount <= |rows[k]|
    ensures text == Print(Columns(rows, colCount))
  {
    text := "";
    var i := 0;
    while i < |rows|
      invariant 0 <= i <= |rows| && text == Print(Columns(rows, colCount)[..i])
    {
      var line := WriteRow(rows[i], colCount);
      text := text + line;
      PrintOneMore(Columns(rows, colCount)[..i], rows[i][..colCount]);
      assert Columns(rows, colCount)[..i + 1] == Columns(rows, colCount)[..i] + [rows[i][..colCount]];
      i := i + 1;
    }
    assert Columns(rows, colCount)[..|rows|] == Columns(rows, colCount);
  }

  /** The inner loop. */
  method WriteRow(row: seq<nat>, colCount: nat) returns (line: string)
    requires 1 <= colCount <= |row|
    ensures line == Line(row[..colCount]) + "\n"
  {
    ghost var fields := Fields(row[..colCount]);
    line := "";
    var j := 0;
    while j < colCount - 1
      invariant 0 <= j <= colCount - 1
      invariant line + Join(fields[j..], ',') == Line(row[..colCount])
    {
      JoinTail(fields, j);
      line := line + Decimal(row[j]) + ",";
      j := j + 1;
    }
    assert fields[colCount - 1..] == [Decimal(row[colCount - 1])];
    line := line + Decimal(row[colCount - 1]) + "\n";
  }

  lemma JoinTail(pieces: seq<string>, j: nat)
    requires j + 1 < |pieces|
    ensures Join(pieces[j..], ',') == pieces[j] + "," + Join(pieces[j + 1..], ',')
  {
    assert pieces[j..][1..] == pieces[j + 1..];
  }

  /** A matrix as it is meant: rows of one length, at least one column, sizes below 2^32. */
  predicate Rectangular(data: Matrix, width: nat) {
    1 <= width < UINT32 && |data| < UINT32 && forall k | 0 <= k < |data| :: |data[k]| == width
  }

  lemma SmallIsItself(n: nat)
    requires n < UINT32
    ensures n % UINT32 == n
  {
  }

  lemma RectangularIsWritten(data: Matrix, width: nat, limit: int)
    requires Rectangular(data, width)
    ensures Readable(data, limit) && NoEmptyRow(data) && Written(data, limit) == FirstRows(data, limit)
    ensures FirstRows(data, limit) == if limit < 0 || limit >= |data| then data else data[..limit]
  {
    var rows := FirstRows(data, limit);
    SmallIsItself(|data|);
    SmallIsItself(width);
    assert forall k | 0 <= k < |rows| :: rows[k] == data[k] && rows[k][..width] == rows[k];
  }

  /** What a dump adds to a file of earlier dumps reads as the first rows of the matrix, all of them for a
      negative limit or one not below the number of rows. */
  lemma DumpReadsBack(before: Matrix, data: Matrix, width: nat, limit: int)
    requires NoEmptyRow(before) && Rectangular(data, width)
    ensures Readable(data, limit)
    ensures Parse(Print(before) + Print(Written(data, limit)))
      == before + if limit < 0 || limit >= |data| then data else data[..limit]
  {
    RectangularIsWritten(data, width, limit);
    AppendedTextsConcatenate(before, Written(data, limit));
  }
}
