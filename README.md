# Lookup-table helper of the MeCom laser-driver tools

This project models `Lookup_Table`, the helper class that prepares a lookup
table for download to a Meerstetter laser-diode driver. A lookup table is a
semicolon-separated text file. Its first column labels the rows. Each further
column holds the samples of one table instance (at most four). The class:

- loads the file into rows of cells, checks that the header has 2 to 5 cells,
  and records for every data column how many of its cells are non-empty,
  minus one for the header (`Load`, `CountColumnLengths`, the class
  `LookupTable`);
- checks the header (`FilePolice`): the first cell must be exactly
  `Table Instance` and the others exactly `1`, `2`, … in order;
- extracts the requested columns (`ExtractTableInstances`): the non-empty
  cells of each, converted to numbers, without the header cell;
- cuts a sequence into pieces of 256 elements and a final remainder
  (`ChunkSplitter`).

Files:

- `wrappers.dfy` — `Option` and `Result`, standing for the exceptions the
  source raises.
- `table_text.dfy` — rows and cells (`Row`, Python indexing `At`, columns,
  the non-empty filter, counts, `str()` of an integer) and their lemmas.
- `lookup_table.dfy` — the class, the loader, the specification functions of
  the extraction (`ScanColumn`, `ExtractAll`, `Extraction`) and the lemmas
  about them.

Modelling choices:

- The file is given as its rows, already stripped of trailing whitespace and
  split at `;`. A `Row` is a non-empty sequence of strings because
  splitting a string always yields at least one cell.
- Where the source raises an exception, the model returns an error value:
  `EmptyFile` (indexing the first row of an empty file), `ColumnCountOutOfRange`
  (the assertion on the header width), `MissingCell` (a row too short for a
  data column, reported at the first such cell in the loader's loop order),
  `TooManyInstances` (the assertion in the extraction), `IndexOutOfRange`
  and `NotANumber` (the row index and float conversion in the extraction,
  reported at the first failing row of the first failing instance).
- Python's `float()` is the parameter `parse: string -> Option<F>` of the
  extraction; `None` stands for the `ValueError`. No floating-point
  semantics is assumed.
- Instance numbers are Python integers, so the model keeps Python's
  negative indexing: instance `-1` reads the last cell of every row, and
  instance `0` reads the label column.
- The source sets the class's state once, in the constructor, and
  never changes it. The model keeps that state in `var` fields, and
  `Valid()` states what loading establishes.

The code has these quirks, and the model keeps them:

- The header ids are not read as integers in [1,4] in any order. They must be
  exactly the strings `1`, `2`, … in order, so a permutation, a duplicate or
  a padded id is rejected (`FilePoliceAcceptsExactly`,
  `FilePoliceRejectsDuplicate`).
- Cells are not trimmed, so the header `Table Instance ; 1` written by
  `pulses/pulses.py:21` is rejected (`FilePoliceRejectsPaddedHeader`).
- Rows may be longer than the header. A row shorter than the header fails with
  an index error, not a row-length error.
- There is no end-of-column detection and no sample-count limit. The
  16300-sample check is commented out at `mecom/lookup_table.py:27-29`. An empty
  cell is skipped wherever it is.
- The column-count guard of `file_police` (`columns > 6 and columns < 2`) can
  never be true. `FilePolice`'s contract therefore does not mention
  `columns`.
- If a column's header cell is empty, the first sample is dropped as if it
  were the header. Its recorded length is its number of non-empty cells
  minus one, which is -1 for an all-empty column (`ColumnLengthsMeaning`).

## Model

| member | source | states |
|---|---|---|
| `LookupTables.Load` | mecom/lookup_table.py:6-16 | loading succeeds exactly when the file has a header row of 2 to 5 cells and no row is shorter than the header; an empty file gives `EmptyFile`, a bad width `ColumnCountOutOfRange` with the width, and any other failure (a short row) is `MissingCell` at the first missing cell in the loops' order; on success the table holds the rows, the header width and the recorded lengths |
| `LookupTables.CountColumnLengths` | mecom/lookup_table.py:11-16 | succeeds exactly when every row has at least `columns` cells, then returns `ColumnLengths`; otherwise reports the first missing cell in the loops' order (column by column, row by row) |
| `LookupTables.ColumnLengthsMeaning` | mecom/lookup_table.py:11-16 | there are `columns - 1` entries; entry `c` is a one-element list holding the number of non-empty cells of column `c + 1` minus one, lies in [-1, rows - 1] and is -1 exactly when the whole column is empty |
| `LookupTables.LookupTable.constructor` | mecom/lookup_table.py:8-16 | stores the rows, the header width and the lengths computed by `Load`, establishing `Valid()` |
| `LookupTables.LookupTable.FilePolice` | mecom/lookup_table.py:19-40 | true exactly when the first header cell is `Table Instance` and header cell `i` is the decimal string of `i` for every later `i`; the width guard never rejects |
| `LookupTables.FilePoliceAcceptsExactly` | mecom/lookup_table.py:31-40 | on a loaded table `FilePolice` accepts exactly the header `Table Instance`, `1`, … cut to the table's width |
| `LookupTables.FilePoliceRejectsDuplicate` | mecom/lookup_table.py:35-38 | a header with the same id in two columns is rejected |
| `LookupTables.FilePoliceRejectsPaddedHeader` | mecom/lookup_table.py:31-33 | the space-padded header `Table Instance ; 1` is rejected |
| `TableText.DecimalStringInjective` | mecom/lookup_table.py:35 | distinct column numbers have distinct expected header strings |
| `LookupTables.LookupTable.ExtractTableInstances` | mecom/lookup_table.py:42-51 | returns exactly `Extraction` of the table's rows and width: `TooManyInstances` unless fewer instances than columns are requested, else the first index or conversion failure, else the extracted tables |
| `LookupTables.ScanColumnMeaning` | mecom/lookup_table.py:46-48 | scanning a column succeeds exactly when every row has that cell and every non-empty one converts, and then yields the converted non-empty cells in row order |
| `LookupTables.ExtractAllMeaning` | mecom/lookup_table.py:45-51 | extraction of several instances succeeds exactly when each column scans, and then gives one table per requested instance in the order requested, each its column's scan without the first value |
| `LookupTables.ExtractionMeaning` | mecom/lookup_table.py:42-51 | the whole extraction in terms of the file's cells: success exactly when fewer instances than columns are requested, every requested column exists in every row and all its non-empty cells convert; then table `k` is the converted non-empty cells of column `instances[k]` without the first |
| `LookupTables.ScanColumnErrorPersists` | mecom/lookup_table.py:47-48 | a failure on some row ends the column scan with that failure |
| `LookupTables.ExtractAllErrorPersists` | mecom/lookup_table.py:45-49 | a failure in one instance ends the extraction with that failure |
| `LookupTables.ExtractedLengthMatchesColumnsLength` | mecom/lookup_table.py:45-49 | for a data column with a non-empty header cell, the extracted table is as long as the length the loader recorded for it |
| `TableText.NonEmptyCountIsFilterLength` | mecom/lookup_table.py:14-15 | counting rows whose cell is non-empty equals the length of the column's non-empty cells |
| `TableText.NonEmptyCountZero` | mecom/lookup_table.py:14-15 | the count is zero exactly when every cell of the column is empty |
| `TableText.NonEmptyKeepsFirst` | mecom/lookup_table.py:48-49 | when the header cell is non-empty it is the first kept cell, so it is the one dropped |
| `LookupTables.LookupTable.ChunkSplitter` | mecom/lookup_table.py:54-64 | returns `len / 256 + 1` chunks; every chunk but the last has 256 elements; the last has `len % 256` (possibly none); joining the chunks in order gives back the input |

## Left out

- Opening and reading the file (`mecom/lookup_table.py:7-8`): the rows are the input.
- The float conversion (`mecom/lookup_table.py:48`): it is the `parse` parameter, with no floating-point semantics.
- The console messages of `file_police`: they are output only.
- The exception types: each exception is an error value of `LoadError` or `ExtractError`.
- Reassignment of the table's fields by outside code: the source never does it, and `FilePolice` relies on `Valid()` only where a lemma needs it.
- `LDD_control.py`, `sequence.py` and `mecom/__init__.py`: device-session calls, serial connections, logging and re-exports, with no local logic to model.
- `pulses/pulses.py`: waveform generation with numpy, plotting and CSV writing. Only the header line it writes appears, in `FilePoliceRejectsPaddedHeader`.
- The CRC-32 engine, the binary frame encoder and the chunked-download state machine (`LT_download_manager`, `mecom/mecom.py`): that code is not part of this model.
