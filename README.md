# Spreadsheet value extraction and a falling-block playfield, in Dafny

This project models the two pieces of real logic in the repository.

**Header-directed value extraction** (`extract_values_from_file` and the loops around it).

- A worksheet is loaded as a grid of loosely-typed cells. The grid is scanned in row-major order.
- For every cell whose text equals the item name:
  - in row 0, the int, float and bool cells below it are appended;
  - in column 0, the int, float and bool cells to its right are appended.
- The command-line tool runs this over every file matched by a glob. Each value is tagged with the file's base name, and the records are saved as CSV.
- The upload web page does the same for uploaded files, under a button/upload/item guard. It shows a table or a "not found" warning.

**The playfield of the falling-block game** (`tetris.js`).

- The field is a ROWS x COLS matrix of colour indices, and there is an active piece.
- The game logic covers:
  - the collision test;
  - merging a landed piece into the field;
  - rotation;
  - clearing full rows;
  - the key handler, which undoes any move that would collide;
  - the lock step of the frame update.

Files:

- `extraction.dfy` (module `Extraction`):
  - the cell and frame model;
  - the declarative description of the result, `Extract`: the row-major concatenation of the runs of all header matches;
  - the shared scanning loop `ScanFrame`, proved equal to `Extract`;
  - the batch records;
  - the facts proved about all of these.
- `extract_excel_values.dfy` (module `ExtractExcelValues`): the command-line copy of `extract_values_from_file`, with its console notices, and the `main` batch.
- `extract_excel_webapp.dfy` (module `ExtractExcelWebapp`):
  - the web copy of `extract_values_from_file`, with its page warnings;
  - a proof that both copies return the same values;
  - the guarded batch of the page.
- `tetris.dfy` (module `Tetris`): the constants and shapes, the pure rules, and the class `Game` holding `field`, `piece` and `gameOver`.

Modelling choices:

- **Cells.** A cell is `Int | Float | Bool | Text | Missing | Other`.
  - `Missing` is whatever `dropna` removes.
  - A float is an opaque bit pattern.
  - `isinstance(v, (int, float))` is `IsNumber`. It accepts `Bool` because Python's `bool` is a subclass of `int`.
- **`str(cell)`** is the parameter `render`: matching depends only on it.
- **Loading.** `pd.read_excel` is replaced by its outcome, `Loaded = Sheet(frame) | LoadError(message)`. A frame is rectangular by its type.
- **Tetris randomness and timing.** `Math.random` becomes the parameter `roll` (0..6, piece type `roll + 1`). The millisecond drop counter becomes a `tick` flag.
- **Tetris data.** Shapes and the field are `seq<seq<int>>` values. Methods that change the game reassign the fields of `Game`.

Booleans count as numbers. The code's `isinstance(val, (int, float))` test (extract_excel_values.py:33 and :39, extract_excel_webapp.py:39 and :45) accepts `True` and `False`, so the model collects `Bool` cells.

## Model

| member | source | states |
|---|---|---|
| Extraction.KeepMember | extract_excel_values.py:32-34 | a value survives the filter exactly when it occurs in the series and passes the test |
| Extraction.KeepAppend | extract_excel_values.py:32-34 | filtering distributes over concatenation, so the relative order of kept values is the series order |
| Extraction.KeepKeep | extract_excel_values.py:31-34 | filtering by one test and then another equals filtering once by their conjunction |
| Extraction.KeepLength | extract_excel_values.py:31-34 | filtering never lengthens a series |
| Extraction.KeepOne | extract_excel_values.py:33-34 | a single cell is kept exactly when it passes the test |
| Extraction.CollectedIsNumbers | extract_excel_values.py:31-34 | `dropna` followed by the `isinstance` test keeps exactly the int/float/bool cells: because NaN is modelled as `Missing`, not `Float`, the `isinstance` test alone already excludes what `dropna` removes |
| Extraction.CollectedMember | extract_excel_values.py:31-34 | a value is collected from a series iff it occurs in it and is an int, float or bool |
| Extraction.ColumnRunMember | extract_excel_values.py:29-34 | a row-0 match collects exactly the numeric cells of its column in rows 1..end; the header cell is excluded |
| Extraction.RowRunMember | extract_excel_values.py:36-40 | a column-0 match collects exactly the numeric cells of its row in columns 1..end; the header cell is excluded |
| Extraction.AppendNumbers | extract_excel_values.py:32-34 | the inner append loop adds exactly the numeric cells of the series, in order |
| Extraction.AppendHeaderRuns | extract_excel_values.py:29-40 | a match appends the column run when in row 0, then the row run when in column 0 |
| Extraction.ScanFrame | extract_excel_values.py:23-40 | the nested scan returns exactly `Extract`: the row-major concatenation of every match's runs |
| Extraction.RowMajorPrefix | extract_excel_values.py:23-24 | what is appended up to one scan position is a prefix of what is appended up to any later one |
| Extraction.RowMajorMember | extract_excel_values.py:23-26 | a value is appended before a position iff the run of some earlier position holds it |
| Extraction.RowMajorAllEmpty | extract_excel_values.py:23-26 | positions that all contribute nothing give an empty result |
| Extraction.RowMajorFirstOnly | extract_excel_values.py:23-24 | a row whose positions after column 0 contribute nothing adds only its first position's run |
| Extraction.ContributionNumbers | extract_excel_values.py:31-40 | a matching cell contributes only int, float or bool cells |
| Extraction.CellRunsMember | extract_excel_values.py:26-40 | a cell contributes v iff it matches and v is in its column run (row 0) or its row run (column 0) |
| Extraction.ExtractMember | extract_excel_values.py:23-40 | v is in the result iff some matching row-0 cell has v below it or some matching column-0 cell has v to its right; other matches add nothing |
| Extraction.ExtractNumbers | extract_excel_values.py:31-40 | every returned value is an int, float or bool cell; text, other and missing cells never appear |
| Extraction.NoMatchNoValues | extract_excel_values.py:23-26 | when no cell's text equals the item, the result is empty |
| Extraction.CornerMatchOpensResult | extract_excel_values.py:29-40 | a match at (0,0) fires both branches: column run then row run, undeduplicated, open the result |
| Extraction.BodyRowAddsRowRun | extract_excel_values.py:36-40 | a row below the header adds exactly its row run when its column-0 cell matches, and nothing otherwise |
| Extraction.BodyRowsQuiet | extract_excel_values.py:36-40 | when no column-0 cell below the header matches, the result is what the header row adds |
| Extraction.SalesExample | extract_excel_values.py:23-41 | a label at (0,2) above 10, "x", 20 and an empty cell gives exactly [10, 20], for every rendering (Python's `str()` among them) under which only the label cell shows as "sales" |
| Extraction.SalesColumnRun | extract_excel_values.py:31-34 | in that example the column run drops the text and the empty cell and keeps 10, 20 in order |
| Extraction.Tagged | extract_excel_values.py:56-57 | one record per value, in order, each carrying the file label, the item and that value |
| Extraction.RecordsAppend | extract_excel_values.py:54-57 | the records of consecutive groups of files follow one another: file order is kept |
| Extraction.RecordsCount | extract_excel_values.py:54-57 | there is exactly one record per extracted value over all files |
| Extraction.FailedFileAddsNothing | extract_excel_values.py:17-21 | a file that fails to load adds no records and does not affect the records of the others |
| Extraction.RecordsFromFiles | extract_excel_values.py:54-57 | every record carries the item and the label of one of the files, and a value that file's extraction returned |
| Extraction.RecordsSameLabels | extract_excel_values.py:54-57 | labellings that agree on every file name give the same records |
| Extraction.AppendRecords | extract_excel_values.py:56-57 | the record loop appends the tagged values of one file to the results |
| ExtractExcelValues.BasenameIsLastComponent | extract_excel_values.py:57 | the base name is a suffix of the path without '/', preceded by '/' whenever it is not the whole path |
| ExtractExcelValues.BasenameOfPlainName | extract_excel_values.py:57 | a name without '/' is its own base name |
| ExtractExcelValues.NoticesNameFailedFiles | extract_excel_values.py:17-21 | every printed notice names a file of the batch and repeats the error its loading raised |
| ExtractExcelValues.NoFailureNoNotice | extract_excel_values.py:17-21 | a batch whose files all load prints no notice |
| ExtractExcelValues.ExtractValuesFromFile | extract_excel_values.py:15-41 | a loaded sheet gives `Extract` and no notice; a load failure gives no values and exactly one notice with path and error |
| ExtractExcelValues.RunBatch | extract_excel_values.py:49-64 | no matched file: "no files" and nothing saved; otherwise every file's records by base name, saved unless empty, with one notice per unreadable file |
| ExtractExcelValues.SavedRecordsCount | extract_excel_values.py:53-57 | the saved records number exactly the values extracted over all files |
| ExtractExcelWebapp.ExtractValuesFromFile | extract_excel_webapp.py:24-47 | a loaded upload gives `Extract` and no warning; a load failure gives no values and exactly one warning with the error |
| ExtractExcelWebapp.SameAsCommandLine | extract_excel_webapp.py:24-47 | both copies of `extract_values_from_file` return the same values; they differ only in the failure channel, and report the same error once |
| ExtractExcelWebapp.FailedUploadOneWarning | extract_excel_webapp.py:26-30 | a failed upload adds exactly one warning and leaves the warnings of the other uploads as they are |
| ExtractExcelWebapp.LoadWarningsAppend | extract_excel_webapp.py:51-52 | the warnings of consecutive groups of uploads follow one another in upload order |
| ExtractExcelWebapp.OnExtract | extract_excel_webapp.py:49-66 | nothing happens unless the button, uploads and item name are all present; then the records by upload name are shown as a table, or the "not found" warning follows the load warnings |
| ExtractExcelWebapp.SameRecordsAsCommandLine | extract_excel_webapp.py:50-54 | for bare file names the page builds the same records the command-line tool saves |
| Tetris.CreateMatrix | tetris.js:24-28 | `rows` rows of `cols` cells each, all EMPTY |
| Tetris.SpawnPiece | tetris.js:32-41 | type roll+1 in 1..7, shape SHAPES[type], top row, centred and inside the columns, well formed |
| Tetris.Collide | tetris.js:48-59 | true iff some non-empty shape cell is below the floor, beside the walls, or on an occupied cell at or below the top row |
| Tetris.SpawnFits | tetris.js:32-41 | a new piece never collides when the two top rows are empty |
| Tetris.MergedStampsPiece | tetris.js:61-70 | merging a non-colliding piece writes its type under every non-empty cell at or below the top row, and leaves every other cell as it was |
| Tetris.MergedColours | tetris.js:61-70 | merging keeps every field cell a colour index 0..7 |
| Tetris.Rotate | tetris.js:72-74 | an h x w shape becomes w x h with out[i][j] = shape[h-1-j][i] |
| Tetris.RotatedWellFormed | tetris.js:72-74 | a rotated piece keeps a rectangular shape whose cells are 0 or its type |
| Tetris.QuarterTurnTwice | tetris.js:72-74 | two quarter turns are a half turn |
| Tetris.HalfTurn | tetris.js:72-74 | rotating twice turns a shape half around |
| Tetris.HalfTurnTwice | tetris.js:72-74 | two half turns give back the shape |
| Tetris.RotateFourTimes | tetris.js:72-74 | four rotations give back the original shape |
| Tetris.RotateKeepsCells | tetris.js:72-74 | rotation keeps the multiset of cells, so the number of non-empty cells is unchanged |
| Tetris.RowIsFull | tetris.js:79 | the inner scan of `sweep` reports a row full iff it has no empty cell |
| Tetris.KeptRowsCount | tetris.js:76-86 | every row is either kept or counted as full |
| Tetris.KeptRowsMember | tetris.js:76-86 | a row survives iff it is a row of the field and is not full |
| Tetris.KeptRowsAppend | tetris.js:76-86 | surviving rows keep their relative order |
| Tetris.KeptRowsNoneFull | tetris.js:76-86 | without a full row nothing is removed |
| Tetris.SweptField | tetris.js:76-86 | after clearing: still ROWS x COLS colour indices, no full row, the top `lines` rows empty, the remaining rows the original non-full rows in order |
| Tetris.SweptIdempotent | tetris.js:76-86 | clearing a cleared field changes nothing |
| Tetris.LockedField | tetris.js:113-116 | merging then clearing leaves a ROWS x COLS field of colour indices |
| Tetris.SweepRows | tetris.js:76-86 | the bottom-up splice/unshift loop, re-examining the same row index, yields the cleared field and counts the full rows |
| Tetris.LeftThenRight | tetris.js:132-137 | a step left that succeeded is undone by a step right |
| Tetris.Game.constructor | tetris.js:29-46 | an empty field, a first piece of type roll+1, not over, collision-free |
| Tetris.Game.Merge | tetris.js:61-70 | from a valid game, the field becomes the merged field and stays ROWS x COLS colour indices with a well-formed piece; piece and game state untouched |
| Tetris.Game.Sweep | tetris.js:76-86 | the field becomes the cleared field and stays ROWS x COLS colour indices, the count of full rows is returned; piece and game state untouched |
| Tetris.Game.KeyDown | tetris.js:130-146 | a move or turn that collides is undone, otherwise kept; nothing changes once the game is over; the piece stays collision-free |
| Tetris.Game.Update | tetris.js:106-128 | without a tick or once over nothing changes; a free drop moves down; a blocked drop merges, clears, spawns, and ends the game iff the new piece collides |

## Left out

- Workbook loading (`pd.read_excel`), `glob`, `argparse`, CSV writing (`to_csv`, the `utf-8-sig` encoding) and all Streamlit widgets. These are I/O. The model takes what loading gave, the matched paths, the button state and the uploads as inputs, and returns the notices, warnings, outcome and display.
- The concrete text of Python's `str()` on cells (such as "5.0", "nan", "None") and pandas' rules for what `dropna` drops. They are the `render` parameter and the `Missing` cell.
- Float values. Float cells are opaque bit patterns because extraction only copies them.
- The exact console and page messages. They become the `Outcome`, `Notice`, `Warning` and `Display` constructors.
- `ExtractExcelValues.Basename`: models `os.path.basename` on POSIX ('/' only). The Windows separator '\\' is not modelled.
- Tetris drawing (`draw`, `drawMatrix`, `COLORS`), `requestAnimationFrame`, the `dropCounter`/`dropInterval` arithmetic, `alert` and the DOM event wiring. The preserved `IsColours` invariant is what makes `COLORS[v]` defined when drawing.
- The fresh copy made by `randomPiece` and in-place mutation of the field's row arrays. Shapes and rows are values here, so aliasing and in-place update are not captured. `sweep`'s splice/unshift runs on a sequence copy that `Game.Sweep` assigns back.
- Tetris.Game.Merge: requires the piece not to collide. The source writes without checking, but its only caller (the lock step) passes the reverted, collision-free piece, and `Game.Valid` guarantees that. It requires `Game.Valid` too, which holds at that call.
- excel_analyzer/analyze_excel.py is not part of this model. Its statistics are floating-point computations delegated to pandas.
- The slide-generation script is not part of this model.
