# Directory report to a spreadsheet

A Dafny model of a small .NET console program. The program shows a terminal
form with three text fields: where to save the workbook, which directory to
scan, and how deep to scan. It checks those inputs in a fixed order. Then it
walks the directory tree up to that depth and writes a two-sheet workbook:

- "Struktura katalogu" is an outlined listing of directories and files.
- "Statystyki" holds the ten largest files and a per-extension table of
  counts and sizes. Two pie charts are drawn from that table.

The model follows `ConsoleApp1/Program.cs`. Its modules:

- `FileTree` models the scanned file system. It is a finite tree value: a
  directory has files and subdirectories, in the order the system lists them.
  A file has a full name, extension, length and attribute flags. `Visited`
  gives the files the walk visits within a depth budget. `Fresh` says those
  files can all be added to the path dictionary without repeating a key.
- `Sheets` models a worksheet as a class. It has a map of cells and a map of
  row outline levels, and methods assign to both.
- `Listing` describes the rows the walk writes as a sequence of lines. A
  directory line is the directory's path with its outline level. A file line
  is the file's four cells. The module also proves what writing those lines
  from a given row does to a sheet.
- `ExtensionTally` models the per-extension dictionary: the effect of one
  file (`Record`), of a sequence of files (`Tally`), and the order in which
  extensions are first seen (`Order`). .NET leaves a dictionary's enumeration
  order undefined. The model assumes first-seen order, which is what the
  implementation gives when keys are only added and never removed.
- `Ranking` models the path-to-size dictionary as its entries in insertion
  order, under the same assumption. `SortDescending` is a stable descending
  sort by size, which is what `OrderByDescending` does.
- `Report` holds `Program`, a class with the two dictionaries as fields. The
  source creates them once for the whole process. Its imperative methods
  mirror the source's functions:
  - `PrintDirectories` walks the tree recursively, with its file loop split
    out as `PrintFiles` and its subdirectory loop as `PrintSubdirectories`.
  - `Print10Biggest` writes the top-10 table.
  - `AddDiagrams` writes the extension table.
  - `CreateExcel` runs all three.

  Each method is proved against the functions above. An exception that ends
  a run is a `false` flag or an `Aborted` outcome:
  - a repeated dictionary key (`Dictionary.Add`);
  - reading past the end of the sorted entries when there are fewer than ten.
- `Form` covers the form:
  - the `String.Split(".")` rule that decides whether ".xlsx" is appended;
  - the first-failure-wins validation as a pure `Validate`, with the exact
    status messages;
  - `MainWindow`, a class with the four text fields. Its `StartExecution` is
    the submit handler: it normalises the save field in place, sets the
    status label and calls `Program.CreateExcel`.

The machine the form asks about is an `Environment` value, which the handler
takes as a parameter:

- which paths are existing files;
- which are existing directories, with the tree under each;
- which carry the directory attribute;
- how a depth text parses (an abstract partial function standing for
  `Int32.TryParse`);
- which save paths may be written.

Two behaviours of the code are worth stating up front:

- With fewer than ten files the top-10 loop indexes past the end of the
  sorted entries. The model reproduces that as `Aborted(FewerThanTenFiles)`
  (see Findings).
- The code accepts exactly a last segment equal to "xlsx", case-sensitively.
  So a path that is exactly "xlsx" gets no extension, and one ending in
  ".XLSX" gets ".xlsx" appended (`Form.WithXlsxCases`).

## Model

| member | source | states |
|---|---|---|
| Report.Program.constructor | ConsoleApp1/Program.cs:13-14 | Both dictionaries start empty and consistent. |
| Report.Program.PrintDirectories | ConsoleApp1/Program.cs:95-139 | The walk succeeds exactly when no visited path repeats a dictionary key or another visited path. When it succeeds: the sheet's cells and outline levels are those of writing `Layout(dir, col, depth, maxDepth)` from `row`; the result is the next free row; `fileSizes` gains one entry per visited file, in visiting order; the extension statistics and their order are those of recording the visited files one by one. |
| Report.Program.PrintFiles | ConsoleApp1/Program.cs:102-128 | The loop over one directory's files succeeds exactly when their paths are fresh. Each file gets the next row and is recorded in both dictionaries. Outline levels are untouched. |
| Report.Program.WriteFileRow | ConsoleApp1/Program.cs:104-107 | Full name, extension, length and attributes go into four consecutive cells of one row. |
| Report.Program.RecordFile | ConsoleApp1/Program.cs:109-125 | Adds path to length. A first sighting of an extension creates count 1 with the file's length. A later sighting adds one to the count and the length to the size. A new extension is appended to the enumeration order. |
| Report.Program.FilesRecorded | ConsoleApp1/Program.cs:109-125 | Recording fresh files keeps both dictionaries consistent: keys are distinct, and the extension order lists each key once. |
| Report.Program.PrintSubdirectories | ConsoleApp1/Program.cs:130-136 | Walks the subdirectories one after another, each from the row the previous one returned. The end result is that of writing and recording their layouts and files in order. |
| Report.Program.Print10Biggest | ConsoleApp1/Program.cs:55-63 | Rows 1 to 10 receive the sorted entries (path in column 1, size in column 2); this succeeds exactly when there are at least ten entries. With fewer, the rows present are written and the run throws. |
| Report.Program.AddDiagrams | ConsoleApp1/Program.cs:66-78 | One row per extension from row 1, in the dictionary's order: extension in column 4, count in 5, size in 6. The three chart ranges run from row 1 to the number of extensions. |
| Report.Program.CreateExcel | ConsoleApp1/Program.cs:16-53 | Creates the two named sheets and walks from column 1, row 1 with the full budget. The outcome is `RunOutcome` of the old dictionary: a repeated path, then fewer than ten paths in all, throw; otherwise the save succeeds or is refused. A successful walk leaves the listing, the dictionaries and the statistics sheet as the specification functions say. |
| Report.RepeatedRunAborts | ConsoleApp1/Program.cs:109 | After a first run over a non-empty tree has saved or been refused (so it recorded the tree), a second run over the same tree throws on a repeated path, whatever the second save permission. |
| Report.SmallTreeAborts | ConsoleApp1/Program.cs:58-62 | A first run over a directory of three files throws in the top-10 table. |
| Report.Program.PrintBiggest | ConsoleApp1/Program.cs:55-63 | Corrected top table: `min(10, n)` rows of the sorted entries, and it never throws. |
| Report.Program.CreateFreshExcel | ConsoleApp1/Program.cs:16-53 | Corrected run: starts from empty dictionaries and uses the capped top table. Only a path repeated inside the tree aborts it. The dictionaries, the listing and the statistics sheet then describe exactly this tree. |
| Report.SmallTreeReport | ConsoleApp1/Program.cs:57 | For three files of 100, 50 and 10 bytes, the sorted entries are largest first. The statistics are ".txt" with 2 files and 150 bytes, and ".log" with 1 file and 10 bytes, in first-seen order. |
| Report.TopTableCells | ConsoleApp1/Program.cs:58-62 | Cell (r, 1) of the top table holds the path of the r-th sorted entry and (r, 2) its size, for each written row r. Every other cell is unchanged. |
| Report.ExtensionTableCells | ConsoleApp1/Program.cs:69-75 | Row r of columns 4 to 6 holds the r-th extension, its count and its size. Every other cell is unchanged. |
| Listing.LayoutContents | ConsoleApp1/Program.cs:95-139 | The file lines of the layout are exactly the visited files, in visiting order. There is one directory line per visited directory. |
| Listing.RowCount | ConsoleApp1/Program.cs:99-127 | The walk uses one row per visited directory plus one per visited file. |
| Listing.NoBudget | ConsoleApp1/Program.cs:130 | With a budget of 0 or less there is no recursion. The walk writes the directory's row and its own files' rows, and visits only those files. |
| Listing.DirectoryLevels | ConsoleApp1/Program.cs:97-100 | Each directory line's outline level minus its column is the same as the root's. Its column lies between the start column and the start column plus the budget. |
| Listing.TopLevelOutline | ConsoleApp1/Program.cs:97 | In the report's walk every directory row's outline level equals its column. The levels run from 1 for the root up to the depth plus 1. |
| Listing.FileColumns | ConsoleApp1/Program.cs:100-107 | Every file row sits one column right of its directory. It lies directly below the directory's row or below a sibling file in the same column. |
| Listing.PaintConcat | ConsoleApp1/Program.cs:134 | Writing two line sequences one after the other equals writing the first from `row` and the second from the row after it, for cells and outline levels alike. This is the row threading of the recursive call. |
| Listing.PaintRow | ConsoleApp1/Program.cs:98-127 | Row `row + k` ends up holding exactly what line `k` writes. No two lines share a row. |
| Listing.OutlineRow | ConsoleApp1/Program.cs:97 | Only directory rows get an outline level. File rows and rows outside the range keep theirs. |
| ExtensionTally.Record | ConsoleApp1/Program.cs:111-125 | One file's update of the statistics: a new extension gets count 1 and the file's length; a known one gets one more file and the length added to its size. Its contract is stated by `RecordEffect`. |
| ExtensionTally.RecordEffect | ConsoleApp1/Program.cs:111-125 | Recording a file adds its extension to the keys. That extension's count goes up by one and its size by the file's length, each starting from zero when absent. Every other extension keeps its statistics. |
| ExtensionTally.TallyHolds | ConsoleApp1/Program.cs:111-125 | After recording a sequence of files, an extension's count and size are what it held before plus the number and total length of the recorded files with that extension. It is present exactly when it was before or one such file exists. |
| ExtensionTally.ScanStatistics | ConsoleApp1/Program.cs:111-125 | Starting from empty statistics, an extension is present exactly when some file has it. Its count and size are then the number and total length of those files. |
| ExtensionTally.OrderTracksKeys | ConsoleApp1/Program.cs:111-125 | The enumeration order keeps listing every key exactly once. It only grows at the end. |
| ExtensionTally.OrderLength | ConsoleApp1/Program.cs:69-76 | The extension table has as many rows as the dictionary has keys. |
| Ranking.SortDescending | ConsoleApp1/Program.cs:57 | The `OrderByDescending(x => x.Value)` of the path-to-size entries, as an insertion sort that puts each entry below every entry of equal size already placed. Its properties are stated by `SortedPermutation`, `SortStable` and `RankedAbove`. |
| Ranking.SortedPermutation | ConsoleApp1/Program.cs:57 | The sort is non-increasing by size and a permutation of the entries. |
| Ranking.SortStable | ConsoleApp1/Program.cs:57 | Entries of equal size keep their dictionary order. |
| Ranking.RankedAbove | ConsoleApp1/Program.cs:57-62 | The i-th sorted entry is an entry of the dictionary. Every strictly larger entry stands above it. |
| FileTree.FreshSplit | ConsoleApp1/Program.cs:109 | Adding `a + b` without a repeated key is adding `a` without one and then `b` without one. |
| FileTree.FreshStep | ConsoleApp1/Program.cs:109 | Adding one more file succeeds exactly when its path is not yet a key. |
| Form.Split | ConsoleApp1/Program.cs:203 | `String.Split(".")` gives at least one part. |
| Form.SplitParts | ConsoleApp1/Program.cs:203 | The parts contain no '.', and joining them with '.' gives the string back. |
| Form.JoinSplit | ConsoleApp1/Program.cs:203 | Splitting the join of dot-free parts gives those parts back. |
| Form.LastSegmentTail | ConsoleApp1/Program.cs:206 | The last part is the longest dot-free tail of the string. |
| Form.LastSegmentXlsx | ConsoleApp1/Program.cs:206 | The last part is "xlsx" exactly when the path is "xlsx" or ends in ".xlsx". |
| Form.WithXlsx | ConsoleApp1/Program.cs:206-209 | The save-path rule: ".xlsx" is appended unless the last `Split(".")` part is "xlsx". Its meaning is stated by `WithXlsxCases` and `WithXlsxIdempotent`. |
| Form.WithXlsxCases | ConsoleApp1/Program.cs:206-209 | ".xlsx" is appended exactly when the path is neither "xlsx" nor ends in ".xlsx". |
| Form.WithXlsxIdempotent | ConsoleApp1/Program.cs:206-209 | The result's last part is "xlsx". Applying the rule again changes nothing. |
| Form.Validate | ConsoleApp1/Program.cs:197-238 | The handler's checks as one decision: a rejection reason, or a run with the normalised save path, the directory's tree and the parsed depth. Its meaning is stated by `FirstFailureWins` and `RunTarget`. |
| Form.FirstFailureWins | ConsoleApp1/Program.cs:197-239 | Each rejection happens exactly when every earlier check passed and it fails. The order is: missing input, existing output, missing directory, not a directory, unparsable depth. The report runs exactly when all pass, with the normalised path, that directory's tree and the parsed depth. |
| Form.RunTarget | ConsoleApp1/Program.cs:206-216 | A run writes to a path that ends in ".xlsx" (or is "xlsx"). The path does not already exist and starts with what the user typed. |
| Form.MainWindow.constructor | ConsoleApp1/Program.cs:168-191 | All three text fields and the status label start empty. |
| Form.MainWindow.RunReport | ConsoleApp1/Program.cs:239-243 | The outcome is `RunOutcome` of the dictionary before the run. A save shows the success message with the save field's path, and a refused save shows the access-denied message. A thrown exception is returned with the label unchanged. After a successful walk the dictionaries have grown by the visited files. |
| Form.MainWindow.StartExecution | ConsoleApp1/Program.cs:193-245 | The save field is replaced by its normalised form once all three fields are filled, even if a later check fails. A rejection shows its message and leaves the dictionaries alone. A run shows the success or access-denied message, with the normalised path. If the report throws, the reason is returned and the label is untouched. After a successful walk the dictionaries grow as `CreateExcel` says. |

## Left out

- Workbook properties, column auto-fit, and the charts' titles, positions and sizes (lines 20-22, 29-39, 80-91) are not modelled. Saving through EPPlus is reduced to a yes/no "may be written" fact about the save path. The charts' data ranges are modelled (`AddDiagrams`).
- Terminal.Gui windows, labels and layout (lines 140-191, 251-260) are left out. So is the button wiring (247-249). The model keeps only the four text values the handler reads and writes.
- `FileInfo`, `DirectoryInfo` and `File.GetAttributes` are replaced by the `Environment` value and the tree datatype. On a real system an existing directory always has the directory attribute, so the "To plik, a nie katalog!" branch cannot be reached there. The model keeps it, behind an independent fact.
- `Int32.TryParse` is an abstract partial function (`Environment.parse`). Its whitespace, sign and range rules are not modelled.
- Form.MainWindow.StartExecution and Report.Program.CreateExcel: after an exception escapes, nothing is stated about the partly filled dictionaries or sheets. Nothing in the source catches it (the handler at lines 239-243, the button lambda at 249, `Application.Run()` at 260), so it ends the program. A `StartExecution` called after one returned `escaped != None` therefore models nothing in the source.
- `GetFiles()` (line 102) and `GetDirectories()` (line 132) can throw `UnauthorizedAccessException` or `DirectoryNotFoundException` in the middle of a walk, after earlier rows and dictionary entries were written. Those failures are not modelled: the tree datatype always lists a directory's files and subdirectories, so it cannot express a directory that refuses to be listed.
- `long` sizes and `int` rows, counts and outline levels are unbounded integers. Overflow needs sizes past 2^63 or trees of 2^31 rows.
- The `ExtensionStats` struct is declared in a file that is not part of this model. It is modelled as a record of count and size, which is how lines 111-125 use it.
- The commented-out code and the unused `doNotExecute` local in the handler are not modelled.
- Duplicate full paths inside one tree cannot occur on a real file system. The model still allows them and treats them as the `Dictionary.Add` exception they would cause.

## Findings

| source | as written | input that shows it | evidently intended | confidence | as-written member | corrected member |
|---|---|---|---|---|---|---|
| ConsoleApp1/Program.cs:13-14 | The two dictionaries are created once per process and never cleared. Each submission adds to what earlier submissions left. | A directory of ten or more files, submitted twice in one session with two different save paths. The first run saves or is refused. The second walk's `Add` at line 109 throws on the first file's path, and nothing catches it | Each submission reports only the directory it scans | medium, not executed | Report.RepeatedRunAborts | Report.Program.CreateFreshExcel |
| ConsoleApp1/Program.cs:58-62 | The top-10 loop always reads ten sorted entries | A directory of three files at depth 0: reading entry 4 runs off the end and the run throws before saving | A table of `min(10, n)` rows | high, not executed | Report.SmallTreeAborts | Report.Program.PrintBiggest |
