/**
 * The lookup-table helper of the MeCom driver: it loads a semicolon-separated
 * table whose first column labels the rows and whose other columns are the
 * samples of up to four table instances, checks its header, pulls out the
 * sample columns and cuts a column into 256-element pieces for transfer.
 */
module LookupTables {
  import opened Wrappers
  import opened TableText

  /** The text the first header cell must hold. */
  const HeaderLabel: string := "Table Instance"

  /** The number of elements in every chunk but the last. */
  const ChunkSize: nat := 256

  /** The only headers `FilePolice` accepts, cut to the column count. */
  const CanonicalHeader: seq<string> := [HeaderLabel, "1", "2", "3", "4"]

  /** Why loading a table fails. */
  datatype LoadError =
    | EmptyFile                          // the file has no line, so there is no header
    | ColumnCountOutOfRange(columns: nat) // the header has fewer than 2 or more than 5 cells
    | MissingCell(column: nat, row: nat)  // a row is too short for data column `column`

  /** Why extracting table instances fails. */
  datatype ExtractError =
    | TooManyInstances(requested: nat, columns: nat) // at least as many instances as columns
    | IndexOutOfRange(instance: int, row: nat)       // the row has no cell at that index
    | NotANumber(instance: int, row: nat)            // the float conversion refused the cell

  /** The rows a table can be built from. */
  predicate Loadable(rows: seq<Row>)
  {
    rows != [] && 2 <= |rows[0]| <= 5 &&
    forall i :: 0 <= i < |rows| ==> |rows[i]| >= |rows[0]|
  }

  /**
   * Row `i` is the first row, in the loader's order (column by column, top
   * to bottom within a column), that lacks the cell of data column `c`.
   */
  predicate FirstMissingCell(rows: seq<Row>, columns: nat, c: nat, i: nat)
  {
    c + 1 < columns && i < |rows| && |rows[i]| <= c + 1 &&
    (forall j :: 0 <= j < i ==> |rows[j]| > c + 1) &&
    (forall j :: 0 <= j < |rows| ==> |rows[j]| > c)
  }

  /**
   * The per-column lengths the loader records: for data column `c`, a
   * one-element list holding the number of rows whose cell `c + 1` is
   * non-empty, minus one for the header.
   */
  function ColumnLengths(rows: seq<Row>, columns: nat): (lengths: seq<seq<int>>)
    requires forall i :: 0 <= i < |rows| ==> |rows[i]| >= columns
  {
    if columns <= 1 then []
    else seq(columns - 1, c requires 0 <= c < columns - 1 => [NonEmptyCount(rows, c + 1) - 1])
  }

  /** What each recorded length says about the column it belongs to. */
  lemma ColumnLengthsMeaning(rows: seq<Row>, columns: nat, c: nat)
    requires forall i :: 0 <= i < |rows| ==> |rows[i]| >= columns
    requires c + 1 < columns
    ensures |ColumnLengths(rows, columns)| == columns - 1
    ensures ColumnExists(rows, c + 1)
    ensures ColumnLengths(rows, columns)[c] == [|NonEmpty(ColumnCells(rows, c + 1))| - 1]
    ensures -1 <= ColumnLengths(rows, columns)[c][0] < |rows|
    ensures ColumnLengths(rows, columns)[c][0] == -1 <==>
              forall i :: 0 <= i < |rows| ==> rows[i][c + 1] == ""
  {
    NonEmptyCountIsFilterLength(rows, c + 1);
    NonEmptyCountZero(rows, c + 1);
  }

  /**
   * The counting loops of the loader: for every data column, count the rows
   * with a non-empty cell there, failing at the first row that is too short.
   */
  method CountColumnLengths(rows: seq<Row>, columns: nat) returns (r: Result<seq<seq<int>>, LoadError>)
    ensures r.Ok? <==> forall i :: 0 <= i < |rows| ==> |rows[i]| >= columns
    ensures r.Ok? ==> r.value == ColumnLengths(rows, columns)
    ensures r.Err? ==> r.error.MissingCell? && FirstMissingCell(rows, columns, r.error.column, r.error.row)
  {
    var lengths: seq<seq<int>> := [];
    var column: nat := 0;
    while column < columns - 1
      invariant column <= if columns == 0 then 0 else columns - 1
      invariant forall j :: 0 <= j < |rows| ==> |rows[j]| > column
      invariant |lengths| == column
      invariant forall c :: 0 <= c < column ==> lengths[c] == [NonEmptyCount(rows, c + 1) - 1]
    {
      var length := 0;
      var i := 0;
      while i < |rows|
        invariant 0 <= i <= |rows|
        invariant forall j :: 0 <= j < i ==> |rows[j]| > column + 1
        invariant length == NonEmptyCount(rows[..i], column + 1)
      {
        var row := rows[i];
        if |row| <= column + 1 {
          return Err(MissingCell(column, i));
        }
        assert rows[..i + 1][..i] == rows[..i];
        if row[column + 1] != "" {
          length := length + 1;
        }
        i := i + 1;
      }
      assert rows[..i] == rows;
      lengths := lengths + [[length - 1]];
      column := column + 1;
    }
    assert |ColumnLengths(rows, columns)| == |lengths|;
    assert forall c :: 0 <= c < |lengths| ==> lengths[c] == ColumnLengths(rows, columns)[c];
    return Ok(lengths);
  }

  /**
   * Python's scan of one column: walk the rows top to bottom, look up cell
   * `t` of each, and convert every non-empty one with `parse`.
   */
  function ScanColumn<F>(rows: seq<Row>, t: int, parse: string -> Option<F>): Result<seq<F>, ExtractError>
  {
    if rows == [] then Ok([])
    else
      match ScanColumn(rows[..|rows| - 1], t, parse)
      case Err(e) => Err(e)
      case Ok(values) =>
        var row := rows[|rows| - 1];
        if !Indexable(row, t) then Err(IndexOutOfRange(t, |rows| - 1))
        else if At(row, t) == "" then Ok(values)
        else
          match parse(At(row, t))
          case None => Err(NotANumber(t, |rows| - 1))
          case Some(v) => Ok(values + [v])
  }

  /** Scanning every requested column in order, keeping each without its header value. */
  function ExtractAll<F>(rows: seq<Row>, instances: seq<int>, parse: string -> Option<F>): Result<seq<seq<F>>, ExtractError>
  {
    if instances == [] then Ok([])
    else
      match ExtractAll(rows, instances[..|instances| - 1], parse)
      case Err(e) => Err(e)
      case Ok(tables) =>
        match ScanColumn(rows, instances[|instances| - 1], parse)
        case Err(e) => Err(e)
        case Ok(values) => Ok(tables + [Tail(values)])
  }

  /** The result of extracting `instances` from a table of `columns` columns. */
  function Extraction<F>(rows: seq<Row>, columns: nat, instances: seq<int>, parse: string -> Option<F>): Result<seq<seq<F>>, ExtractError>
  {
    if columns <= |instances| then Err(TooManyInstances(|instances|, columns))
    else ExtractAll(rows, instances, parse)
  }

  /** Once a scan of a prefix fails, the scan of the whole fails the same way. */
  lemma {:induction false} ScanColumnErrorPersists<F>(rows: seq<Row>, n: nat, t: int, parse: string -> Option<F>)
    requires n <= |rows|
    requires ScanColumn(rows[..n], t, parse).Err?
    ensures ScanColumn(rows, t, parse) == ScanColumn(rows[..n], t, parse)
    decreases |rows| - n
  {
    if n < |rows| {
      assert rows[..n + 1][..n] == rows[..n];
      ScanColumnErrorPersists(rows, n + 1, t, parse);
    } else {
      assert rows[..n] == rows;
    }
  }

  /** Once extracting a prefix of the instances fails, the whole extraction fails the same way. */
  lemma {:induction false} ExtractAllErrorPersists<F>(rows: seq<Row>, instances: seq<int>, n: nat, parse: string -> Option<F>)
    requires n <= |instances|
    requires ExtractAll(rows, instances[..n], parse).Err?
    ensures ExtractAll(rows, instances, parse) == ExtractAll(rows, instances[..n], parse)
    decreases |instances| - n
  {
    if n < |instances| {
      assert instances[..n + 1][..n] == instances[..n];
      ExtractAllErrorPersists(rows, instances, n + 1, parse);
    } else {
      assert instances[..n] == instances;
    }
  }

  /**
   * A column scan succeeds exactly when every row has cell `t` and every
   * non-empty one converts; it then yields the converted non-empty cells in
   * row order.
   */
  lemma {:induction false} ScanColumnMeaning<F>(rows: seq<Row>, t: int, parse: string -> Option<F>)
    ensures ScanColumn(rows, t, parse).Ok? <==>
              ColumnExists(rows, t) && AllParse(NonEmpty(ColumnCells(rows, t)), parse)
    ensures ScanColumn(rows, t, parse).Ok? ==>
              ScanColumn(rows, t, parse).value == ParseAll(NonEmpty(ColumnCells(rows, t)), parse)
  {
    if rows != [] {
      var front := rows[..|rows| - 1];
      var row := rows[|rows| - 1];
      ScanColumnMeaning(front, t, parse);
      if ColumnExists(rows, t) {
        assert ColumnExists(front, t);
        var cells := ColumnCells(rows, t);
        var kept := NonEmpty(ColumnCells(front, t));
        assert cells[..|rows| - 1] == ColumnCells(front, t);
        assert cells[|rows| - 1] == At(row, t);
        var cell := At(row, t);
        if cell == "" {
          assert NonEmpty(cells) == kept;
        } else {
          assert NonEmpty(cells) == kept + [cell];
          if AllParse(kept, parse) && parse(cell).Some? {
            assert ParseAll(kept + [cell], parse) == ParseAll(kept, parse) + [parse(cell).value];
          } else if !AllParse(kept, parse) {
            var k :| 0 <= k < |kept| && parse(kept[k]).None?;
            assert (kept + [cell])[k] == kept[k];
          } else {
            assert (kept + [cell])[|kept|] == cell;
          }
        }
      } else if ColumnExists(front, t) {
        assert !Indexable(row, t);
      } else {
        assert !ColumnExists(front, t);
      }
    }
  }

  /**
   * Extraction succeeds exactly when fewer instances than columns are asked
   * for and every requested column scans; it then gives one table per
   * requested instance, in the order asked, each the converted non-empty
   * cells of that column without the first (the header's).
   */
  lemma {:induction false} ExtractAllMeaning<F>(rows: seq<Row>, instances: seq<int>, parse: string -> Option<F>)
    ensures ExtractAll(rows, instances, parse).Ok? <==>
              forall k :: 0 <= k < |instances| ==> ScanColumn(rows, instances[k], parse).Ok?
    ensures ExtractAll(rows, instances, parse).Ok? ==>
              |ExtractAll(rows, instances, parse).value| == |instances| &&
              forall k :: 0 <= k < |instances| ==>
                ExtractAll(rows, instances, parse).value[k] == Tail(ScanColumn(rows, instances[k], parse).value)
  {
    if instances != [] {
      var front := instances[..|instances| - 1];
      ExtractAllMeaning(rows, front, parse);
      assert forall k :: 0 <= k < |front| ==> front[k] == instances[k];
    }
  }

  /** The extraction, stated on the cells of the file alone. */
  lemma ExtractionMeaning<F>(rows: seq<Row>, columns: nat, instances: seq<int>, parse: string -> Option<F>)
    ensures Extraction(rows, columns, instances, parse).Ok? <==>
              |instances| < columns &&
              forall k :: 0 <= k < |instances| ==>
                ColumnExists(rows, instances[k]) && AllParse(NonEmpty(ColumnCells(rows, instances[k])), parse)
    ensures Extraction(rows, columns, instances, parse).Ok? ==>
              |Extraction(rows, columns, instances, parse).value| == |instances| &&
              forall k :: 0 <= k < |instances| ==>
                ColumnExists(rows, instances[k]) && AllParse(NonEmpty(ColumnCells(rows, instances[k])), parse) &&
                Extraction(rows, columns, instances, parse).value[k] ==
                  Tail(ParseAll(NonEmpty(ColumnCells(rows, instances[k])), parse))
  {
    ExtractAllMeaning(rows, instances, parse);
    forall k | 0 <= k < |instances| {
      ScanColumnMeaning(rows, instances[k], parse);
    }
  }

  /** Loads a table from the rows of its file. */
  method Load(rows: seq<Row>) returns (r: Result<LookupTable, LoadError>)
    ensures r.Ok? <==> Loadable(rows)
    ensures rows == [] ==> r == Err(EmptyFile)
    ensures rows != [] && !(2 <= |rows[0]| <= 5) ==> r == Err(ColumnCountOutOfRange(|rows[0]|))
    ensures rows != [] && 2 <= |rows[0]| <= 5 && r.Err? ==> r.error.MissingCell?
    ensures r.Err? && r.error.MissingCell? ==>
              rows != [] && FirstMissingCell(rows, |rows[0]|, r.error.column, r.error.row)
    ensures r.Ok? ==> fresh(r.value) && r.value.Valid() && r.value.file == rows
    ensures r.Ok? ==> r.value.columns == |rows[0]| && r.value.columnsLength == ColumnLengths(rows, |rows[0]|)
  {
    if rows == [] {
      return Err(EmptyFile);
    }
    var columns := |rows[0]|;
    if !(columns < 6 && columns > 1) {
      return Err(ColumnCountOutOfRange(columns));
    }
    var counted := CountColumnLengths(rows, columns);
    match counted
    case Err(e) =>
      return Err(e);
    case Ok(lengths) =>
      var table := new LookupTable(rows, columns, lengths);
      return Ok(table);
  }

  class LookupTable {
    /** The rows of the file, each split into cells. */
    var file: seq<Row>
    /** The number of cells in the header row. */
    var columns: nat
    /** For each data column, a one-element list with its sample count. */
    var columnsLength: seq<seq<int>>

    /** The state a successful load leaves behind; no method changes it. */
    ghost predicate Valid()
      reads this
    {
      Loadable(file) && columns == |file[0]| &&
      columnsLength == ColumnLengths(file, columns)
    }

    /** Stores the fields computed by `Load`. */
    constructor (file: seq<Row>, columns: nat, columnsLength: seq<seq<int>>)
      requires Loadable(file) && columns == |file[0]|
      requires columnsLength == ColumnLengths(file, columns)
      ensures Valid()
      ensures this.file == file && this.columns == columns && this.columnsLength == columnsLength
    {
      this.file := file;
      this.columns := columns;
      this.columnsLength := columnsLength;
    }

    /**
     * Whether the header is fit for download: the first cell is exactly
     * "Table Instance" and the others are exactly "1", "2", ... in order.
     * The column-count guard can never reject, so the verdict does not
     * depend on `columns`.
     */
    function FilePolice(): (ok: bool)
      reads this
      requires |file| > 0
      ensures ok <==> file[0][0] == HeaderLabel &&
                      forall i :: 1 <= i < |file[0]| ==> file[0][i] == DecimalString(i)
    {
      var headers := seq(|file[0]|, h requires 0 <= h => DecimalString(h));
      assert |headers[1..]| == |file[0][1..]|;
      assert (forall i :: 1 <= i < |file[0]| ==> file[0][i] == DecimalString(i)) <==>
             (forall k :: 0 <= k < |headers[1..]| ==> headers[1..][k] == file[0][1..][k]);
      // each conjunct is one of the checks that return False, in the order `file_police` tests them
      !(columns > 6 && columns < 2) &&
      file[0][0] == HeaderLabel &&
      headers[1..] == file[0][1..]
    }

    /**
     * The non-empty cells of each requested column, converted with `parse`,
     * without each column's first kept cell (the header).
     */
    method ExtractTableInstances<F>(instances: seq<int>, parse: string -> Option<F>)
      returns (r: Result<seq<seq<F>>, ExtractError>)
      ensures r == Extraction(file, columns, instances, parse)
    {
      if !(columns > |instances|) {
        return Err(TooManyInstances(|instances|, columns));
      }
      var tables: seq<seq<F>> := [];
      var k := 0;
      while k < |instances|
        invariant 0 <= k <= |instances|
        invariant ExtractAll(file, instances[..k], parse) == Ok(tables)
      {
        var t := instances[k];
        assert instances[..k + 1][..k] == instances[..k];
        var table: seq<F> := [];
        var i := 0;
        while i < |file|
          invariant 0 <= i <= |file|
          invariant ScanColumn(file[..i], t, parse) == Ok(table)
        {
          var m := file[i];
          assert file[..i + 1][..i] == file[..i];
          if !(-|m| <= t < |m|) {
            ScanColumnErrorPersists(file, i + 1, t, parse);
            ExtractAllErrorPersists(file, instances, k + 1, parse);
            return Err(IndexOutOfRange(t, i));
          }
          var cell := if t < 0 then m[|m| + t] else m[t];
          if cell != "" {
            var value := parse(cell);
            if value.None? {
              ScanColumnErrorPersists(file, i + 1, t, parse);
              ExtractAllErrorPersists(file, instances, k + 1, parse);
              return Err(NotANumber(t, i));
            }
            table := table + [value.value];
          }
          i := i + 1;
        }
        assert file[..i] == file;
        tables := tables + [Tail(table)];
        k := k + 1;
      }
      assert instances[..k] == instances;
      return Ok(tables);
    }

    /**
     * Cuts `table` into pieces of 256 elements and a final remainder, which
     * is empty when the length is a multiple of 256.
     */
    static method ChunkSplitter<T>(table: seq<T>) returns (chunks: seq<seq<T>>)
      ensures |chunks| == |table| / ChunkSize + 1
      ensures forall k :: 0 <= k < |chunks| - 1 ==> |chunks[k]| == ChunkSize
      ensures |chunks[|chunks| - 1]| == |table| % ChunkSize
      ensures Concat(chunks) == table
    {
      chunks := [];
      var totalBytes := |table|;
      var subLists := totalBytes / ChunkSize;
      var n := 0;
      while n < subLists
        invariant 0 <= n <= subLists
        invariant |chunks| == n
        invariant forall k :: 0 <= k < n ==> |chunks[k]| == ChunkSize
        invariant Concat(chunks) == table[..n * ChunkSize]
      {
        var piece := table[n * ChunkSize..(n + 1) * ChunkSize];
        assert (chunks + [piece])[..n] == chunks;
        assert table[..(n + 1) * ChunkSize] == table[..n * ChunkSize] + piece;
        chunks := chunks + [piece];
        n := n + 1;
      }
      var rest := table[subLists * ChunkSize..];
      assert (chunks + [rest])[..n] == chunks;
      assert table == table[..n * ChunkSize] + rest;
      chunks := chunks + [rest];
    }
  }

  /** On a loaded table `FilePolice` accepts exactly the canonical header of its width. */
  lemma FilePoliceAcceptsExactly(table: LookupTable)
    requires table.Valid()
    ensures table.FilePolice() <==> table.file[0] == CanonicalHeader[..table.columns]
  {
    var header := table.file[0];
    var canonical := CanonicalHeader[..table.columns];
    SmallDecimalStrings();
    assert forall i :: 1 <= i < |header| ==> canonical[i] == DecimalString(i);
    if table.FilePolice() {
      assert forall i :: 0 <= i < |header| ==> header[i] == canonical[i];
    }
  }

  /** A header naming the same instance twice is rejected. */
  lemma FilePoliceRejectsDuplicate(table: LookupTable, i: nat, j: nat)
    requires |table.file| > 0
    requires 1 <= i < j < |table.file[0]| && table.file[0][i] == table.file[0][j]
    ensures !table.FilePolice()
  {
    if table.FilePolice() {
      DecimalStringInjective(i, j);
    }
  }

  /**
   * The header line the waveform generators write, "Table Instance ; 1",
   * splits into cells padded with spaces, and `FilePolice` rejects it.
   */
  lemma FilePoliceRejectsPaddedHeader(table: LookupTable)
    requires |table.file| > 0 && table.file[0] == ["Table Instance ", " 1"]
    ensures !table.FilePolice()
  {
    assert table.file[0][0] != HeaderLabel;
  }

  /**
   * When a requested data column has a non-empty header cell, the table
   * extracted for it is exactly as long as the length the loader recorded.
   */
  lemma ExtractedLengthMatchesColumnsLength<F>(table: LookupTable, instances: seq<int>, parse: string -> Option<F>, k: nat)
    requires table.Valid()
    requires Extraction(table.file, table.columns, instances, parse).Ok?
    requires k < |instances| && 1 <= instances[k] < table.columns
    requires table.file[0][instances[k]] != ""
    ensures |Extraction(table.file, table.columns, instances, parse).value| == |instances|
    ensures |Extraction(table.file, table.columns, instances, parse).value[k]| ==
              table.columnsLength[instances[k] - 1][0]
  {
    var rows, t := table.file, instances[k];
    ExtractionMeaning(rows, table.columns, instances, parse);
    ColumnLengthsMeaning(rows, table.columns, t - 1);
    var cells := ColumnCells(rows, t);
    assert cells[0] == rows[0][t];
    NonEmptyKeepsFirst(cells);
  }
}
