/**
 * The textual table as the lookup-table loader sees it: rows of cells, each
 * row being one line of the file with trailing whitespace removed and split
 * at every ';'.  Splitting a string always yields at least one cell, so a
 * row is never empty.
 */
module TableText {
  import opened Wrappers

  /** One line of the file after `rstrip()` and `split(';')`. */
  type Row = cells: seq<string> | |cells| > 0 witness [""]

  /** Python's `row[t]` succeeds when `-len(row) <= t < len(row)`. */
  predicate Indexable(row: Row, t: int)
  {
    -|row| <= t < |row|
  }

  /** Python's `row[t]`, negative indices counting from the end. */
  function At(row: Row, t: int): (cell: string)
    requires Indexable(row, t)
  {
    if t < 0 then row[|row| + t] else row[t]
  }

  /** Every row has a cell at index `t`. */
  predicate ColumnExists(rows: seq<Row>, t: int)
  {
    forall i :: 0 <= i < |rows| ==> Indexable(rows[i], t)
  }

  /** The cells at index `t` of every row, top to bottom. */
  function ColumnCells(rows: seq<Row>, t: int): (cells: seq<string>)
    requires ColumnExists(rows, t)
  {
    seq(|rows|, i requires 0 <= i < |rows| => At(rows[i], t))
  }

  /** The non-empty cells of `cells`, in their original order. */
  function NonEmpty(cells: seq<string>): (kept: seq<string>)
    ensures |kept| <= |cells|
    ensures forall k :: 0 <= k < |kept| ==> kept[k] != ""
  {
    if cells == [] then []
    else
      var last := cells[|cells| - 1];
      NonEmpty(cells[..|cells| - 1]) + (if last == "" then [] else [last])
  }

  /** The number of rows whose cell at index `c` is not the empty string. */
  function NonEmptyCount(rows: seq<Row>, c: nat): (n: nat)
    requires forall i :: 0 <= i < |rows| ==> c < |rows[i]|
    ensures n <= |rows|
  {
    if rows == [] then 0
    else NonEmptyCount(rows[..|rows| - 1], c) + (if rows[|rows| - 1][c] != "" then 1 else 0)
  }

  /** Python's `s[1:]`: everything but the first element, and `[]` for `[]`. */
  function Tail<T>(s: seq<T>): (r: seq<T>)
  {
    if |s| == 0 then [] else s[1..]
  }

  /** Every cell is accepted by `parse` (Python's `float`). */
  predicate AllParse<F>(cells: seq<string>, parse: string -> Option<F>)
  {
    forall k :: 0 <= k < |cells| ==> parse(cells[k]).Some?
  }

  /** The parsed values of `cells`, in order. */
  function ParseAll<F>(cells: seq<string>, parse: string -> Option<F>): (values: seq<F>)
    requires AllParse(cells, parse)
  {
    seq(|cells|, k requires 0 <= k < |cells| => parse(cells[k]).value)
  }

  /** The digit character for `d`. */
  function Digit(d: nat): (c: char)
    requires d < 10
    ensures '0' <= c <= '9'
  {
    (d + '0' as int) as char
  }

  /** Python's `str(n)` for a non-negative integer: decimal, no sign, no padding. */
  function DecimalString(n: nat): (s: string)
    ensures |s| >= 1
    ensures n < 10 <==> |s| == 1
    ensures s[|s| - 1] == Digit(n % 10)
  {
    if n < 10 then [Digit(n)] else DecimalString(n / 10) + [Digit(n % 10)]
  }

  /** Distinct numbers have distinct decimal strings. */
  lemma {:induction false} DecimalStringInjective(a: nat, b: nat)
    requires DecimalString(a) == DecimalString(b)
    ensures a == b
    decreases a
  {
    var s := DecimalString(a);
    if a >= 10 && b >= 10 {
      assert s[..|s| - 1] == DecimalString(a / 10);
      assert s[..|s| - 1] == DecimalString(b / 10);
      DecimalStringInjective(a / 10, b / 10);
    }
  }

  /** The instance numbers a valid header may carry. */
  lemma SmallDecimalStrings()
    ensures DecimalString(1) == "1" && DecimalString(2) == "2"
    ensures DecimalString(3) == "3" && DecimalString(4) == "4"
  {
  }

  /** Counting non-empty rows and filtering the non-empty cells agree. */
  lemma {:induction false} NonEmptyCountIsFilterLength(rows: seq<Row>, c: nat)
    requires forall i :: 0 <= i < |rows| ==> c < |rows[i]|
    ensures ColumnExists(rows, c)
    ensures |NonEmpty(ColumnCells(rows, c))| == NonEmptyCount(rows, c)
  {
    assert ColumnExists(rows, c);
    if rows != [] {
      var front := rows[..|rows| - 1];
      NonEmptyCountIsFilterLength(front, c);
      assert ColumnCells(rows, c)[..|rows| - 1] == ColumnCells(front, c);
    }
  }

  /** A filtered sequence starts with the first cell whenever that cell is kept. */
  lemma {:induction false} NonEmptyKeepsFirst(cells: seq<string>)
    requires |cells| > 0 && cells[0] != ""
    ensures |NonEmpty(cells)| > 0 && NonEmpty(cells)[0] == cells[0]
  {
    if |cells| > 1 {
      NonEmptyKeepsFirst(cells[..|cells| - 1]);
      assert cells[..|cells| - 1][0] == cells[0];
    }
  }

  /** A column has no non-empty cell exactly when its count is zero. */
  lemma {:induction false} NonEmptyCountZero(rows: seq<Row>, c: nat)
    requires forall i :: 0 <= i < |rows| ==> c < |rows[i]|
    ensures NonEmptyCount(rows, c) == 0 <==> forall i :: 0 <= i < |rows| ==> rows[i][c] == ""
  {
    if rows != [] {
      var front := rows[..|rows| - 1];
      NonEmptyCountZero(front, c);
      assert forall i :: 0 <= i < |front| ==> front[i] == rows[i];
    }
  }

  /** Joins chunks back together, in order. */
  function Concat<T>(chunks: seq<seq<T>>): (all: seq<T>)
  {
    if chunks == [] then [] else Concat(chunks[..|chunks| - 1]) + chunks[|chunks| - 1]
  }
}
