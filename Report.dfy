/**
 The report builder: the program's two accumulators (the path-to-size
 dictionary and the per-extension statistics), the directory walk that fills
 them while writing the listing, the top-10 table, the extension table the
 charts are drawn from, and the pipeline that runs the three.
 */
module Report {
  import opened FileTree
  import opened Sheets
  import opened Listing
  import opened ExtensionTally
  import opened Ranking

  /** The top-10 table after writing rows 1 to `n`: row `i` holds the path of
      the `i`-th sorted entry in column 1 and its size in column 2. */
  function PaintTop(cells: Cells, sorted: seq<SizeEntry>, n: nat): Cells
    requires n <= |sorted|
  {
    if n == 0 then cells
    else PaintTop(cells, sorted, n - 1)[(n, 1) := Text(sorted[n - 1].path)][(n, 2) := Number(sorted[n - 1].size)]
  }

  /** The extension table after writing rows 1 to `n`: row `i` holds the
      `i`-th extension in column 4, its count in column 5 and its size in column 6. */
  function PaintExtensions(cells: Cells, order: seq<string>, stats: StatsMap, n: nat): Cells
    requires n <= |order|
    requires forall i :: 0 <= i < |order| ==> order[i] in stats
  {
    if n == 0 then cells
    else
      var e := order[n - 1];
      PaintExtensions(cells, order, stats, n - 1)[(n, 4) := Text(e)][(n, 5) := Number(stats[e].count)][(n, 6) := Number(stats[e].size)]
  }

  /** Row `r` of the top-10 table, for `1 <= r <= n`, holds the `r`-th sorted
      entry; every other cell is as it was. */
  lemma {:induction false} TopTableCells(cells: Cells, sorted: seq<SizeEntry>, n: nat, r: int, c: int)
    requires n <= |sorted|
    ensures var out := PaintTop(cells, sorted, n);
      if 1 <= r <= n && c == 1 then (r, c) in out && out[(r, c)] == Text(sorted[r - 1].path)
      else if 1 <= r <= n && c == 2 then (r, c) in out && out[(r, c)] == Number(sorted[r - 1].size)
      else ((r, c) in out <==> (r, c) in cells) && ((r, c) in cells ==> out[(r, c)] == cells[(r, c)])
    decreases n
  {
    if n > 0 {
      TopTableCells(cells, sorted, n - 1, r, c);
    }
  }

  /** Row `r` of the extension table, for `1 <= r <= n`, describes the `r`-th
      extension; every other cell is as it was. */
  lemma {:induction false} ExtensionTableCells(cells: Cells, order: seq<string>, stats: StatsMap, n: nat, r: int, c: int)
    requires n <= |order|
    requires forall i :: 0 <= i < |order| ==> order[i] in stats
    ensures var out := PaintExtensions(cells, order, stats, n);
      if 1 <= r <= n && 4 <= c <= 6 then
        (r, c) in out && out[(r, c)] == [Text(order[r - 1]), Number(stats[order[r - 1]].count), Number(stats[order[r - 1]].size)][c - 4]
      else ((r, c) in out <==> (r, c) in cells) && ((r, c) in cells ==> out[(r, c)] == cells[(r, c)])
    decreases n
  {
    if n > 0 {
      ExtensionTableCells(cells, order, stats, n - 1, r, c);
    }
  }

  datatype Abort = DuplicatePath | FewerThanTenFiles

  /** How a run of the pipeline ends: the workbook saved, the save refused for
      lack of access, or an exception that escapes and ends the run. */
  datatype Outcome = Saved | AccessDenied | Aborted(reason: Abort)

  /** How a run over `directory` ends when the path dictionary holds `sizes`
      beforehand: a repeated path throws during the walk; otherwise fewer than
      ten paths in all throw in the top-10 table; otherwise the save decides. */
  function RunOutcome(sizes: seq<SizeEntry>, directory: Directory, maxDepth: int, saveAllowed: bool): Outcome
  {
    if !Fresh(Keys(sizes), Visited(directory, maxDepth)) then Aborted(DuplicatePath)
    else if |sizes| + |Visited(directory, maxDepth)| < 10 then Aborted(FewerThanTenFiles)
    else if saveAllowed then Saved
    else AccessDenied
  }

  /** The dictionaries outlive a run. A first run that got past the walk and
      the top-10 table (it saved or was refused) has added the tree's paths, so
      a second run over the same tree finds its first path already present and
      throws, whatever the second save permission. */
  lemma RepeatedRunAborts(sizes: seq<SizeEntry>, directory: Directory, maxDepth: int, firstSaveAllowed: bool, saveAllowed: bool)
    requires Visited(directory, maxDepth) != []
    requires !RunOutcome(sizes, directory, maxDepth, firstSaveAllowed).Aborted?
    ensures RunOutcome(sizes + Entries(Visited(directory, maxDepth)), directory, maxDepth, saveAllowed) == Aborted(DuplicatePath)
  {
    var fs := Visited(directory, maxDepth);
    var keys := Keys(sizes + Entries(fs));
    EntriesConcat(sizes, fs, []);
    NamesIndexed(fs);
    assert keys[|sizes|] == fs[0].fullName;
    var s := keys + Names(fs);
    assert s[|sizes|] == s[|keys|];
  }

  /** A directory holding three files and no subdirectories. */
  function ThreeFiles(): Directory
  {
    Directory("/d", [FileEntry("/d/a.txt", ".txt", 100, 0), FileEntry("/d/b.txt", ".txt", 50, 0),
                     FileEntry("/d/c.log", ".log", 10, 0)], [])
  }

  /** With fewer than ten files in the tree the top-10 table runs off the end
      of the sorted dictionary, so even a first run over a small directory
      ends in an exception. */
  lemma SmallTreeAborts(saveAllowed: bool)
    ensures RunOutcome([], ThreeFiles(), 0, saveAllowed) == Aborted(FewerThanTenFiles)
  {
    var fs := ThreeFiles().files;
    assert Visited(ThreeFiles(), 0) == fs;
    assert Names(fs) == ["/d/a.txt", "/d/b.txt", "/d/c.log"] by {
      assert fs[..2] == fs[..|fs| - 1] && fs[..2][..1] == [fs[0]];
    }
    assert Keys([]) == [];
    assert Distinct(Keys([]) + Names(fs));
  }

  /** The same directory through the corrected top table: three rows, largest
      first, and the extension statistics count two ".txt" files of 150 bytes
      and one ".log" file of 10. */
  lemma SmallTreeReport()
    ensures var fs := Visited(ThreeFiles(), 0);
      && SortDescending(Entries(fs)) == [SizeEntry("/d/a.txt", 100), SizeEntry("/d/b.txt", 50), SizeEntry("/d/c.log", 10)]
      && Tally(map[], fs) == map[".txt" := ExtensionStats(2, 150), ".log" := ExtensionStats(1, 10)]
      && Order([], fs) == [".txt", ".log"]
  {
    var fs := ThreeFiles().files;
    assert Visited(ThreeFiles(), 0) == fs;
    assert fs[..|fs| - 1] == fs[..2] && fs[..2][..1] == [fs[0]] && fs[..2][..1][..0] == [];
    var a, b, c := SizeEntry("/d/a.txt", 100), SizeEntry("/d/b.txt", 50), SizeEntry("/d/c.log", 10);
    assert Entries(fs) == [a, b, c];
    assert [a, b, c][..2] == [a, b] && [a, b][..1] == [a] && [a][..0] == [];
    assert [a][1..] == [] && [a, b][1..] == [b] && [b][1..] == [];
    assert SortDescending([a]) == Insert(a, []) == [a];
    assert Insert(b, [a]) == [a] + Insert(b, []) == [a, b];
    assert SortDescending([a, b]) == Insert(b, [a]);
    assert Insert(c, [a, b]) == [a] + Insert(c, [b]) == [a] + ([b] + Insert(c, []));
    assert SortDescending([a, b, c]) == Insert(c, SortDescending([a, b]));
    var t1 := map[".txt" := ExtensionStats(1, 100)];
    assert Tally(map[], fs[..1]) == Record(map[], fs[0]) == t1;
    assert Tally(map[], fs[..2]) == Record(t1, fs[1]) == map[".txt" := ExtensionStats(2, 150)];
    assert Order([], fs[..1]) == [".txt"];
    assert Order([], fs[..2]) == [".txt"];
  }

  /** The program's state: the two dictionaries the walk fills, which live as
      long as the program and are never cleared. */
  class Program {
    /** Path to length, in insertion order. */
    var fileSizes: seq<SizeEntry>
    /** Extension to (count, size) ... */
    var extensionsStats: StatsMap
    /** ... and the order the extensions were first seen in. */
    var extensionOrder: seq<string>

    ghost predicate Valid()
      reads this
    {
      Distinct(Keys(fileSizes)) && KeysInOrder(extensionsStats, extensionOrder)
    }

    constructor ()
      ensures Valid() && fileSizes == [] && extensionsStats == map[] && extensionOrder == []
    {
      fileSizes, extensionsStats, extensionOrder := [], map[], [];
    }

    /** Writes directory `dir` at (`row`, `col`), its files one column further
        right, and, while `depth` is positive, its subdirectories; records every
        file in the two dictionaries; returns the next free row.  `ok` is false
        when a path repeats a key of `fileSizes`, where the dictionary throws
        and the run ends. */
    method PrintDirectories(sheet: Worksheet, col: int, row: int, depth: int, dir: Directory, maxDepth: int)
      returns (next: int, ok: bool)
      requires Valid()
      modifies this, sheet
      ensures Valid()
      ensures ok <==> Fresh(Keys(old(fileSizes)), Visited(dir, depth))
      ensures ok ==> next == row + |Layout(dir, col, depth, maxDepth)|
      ensures ok ==> sheet.cells == PaintCells(old(sheet.cells), Layout(dir, col, depth, maxDepth), row)
      ensures ok ==> sheet.outlineLevels == PaintOutline(old(sheet.outlineLevels), Layout(dir, col, depth, maxDepth), row)
      ensures ok ==> fileSizes == old(fileSizes) + Entries(Visited(dir, depth))
      ensures ok ==> extensionsStats == Tally(old(extensionsStats), Visited(dir, depth))
      ensures ok ==> extensionOrder == Order(old(extensionOrder), Visited(dir, depth))
      decreases dir, 1
    {
      ghost var cells0, levels0 := sheet.cells, sheet.outlineLevels;
      ghost var sizes0, stats0, order0 := fileSizes, extensionsStats, extensionOrder;
      ghost var keys0 := Keys(fileSizes);
      sheet.outlineLevels := sheet.outlineLevels[row := maxDepth - depth + 1];
      sheet.cells := sheet.cells[(row, col) := Text(dir.fullName)];
      var r, filesOk := PrintFiles(sheet, col + 1, row + 1, dir.files);
      WalkFresh(dir, depth, keys0, sizes0);
      if !filesOk {
        return r, false;
      }
      ghost var cells1, levels1, mid := sheet.cells, sheet.outlineLevels, r;
      ghost var sizes1, stats1, order1 := fileSizes, extensionsStats, extensionOrder;
      assert Keys(sizes1) == keys0 + Names(dir.files);
      if depth > 0 {
        var subOk;
        r, subOk := PrintSubdirectories(sheet, col + 1, r, depth - 1, dir, maxDepth);
        if !subOk {
          return r, false;
        }
      }
      WalkCells(dir, col, depth, maxDepth, row, cells0, levels0, cells1, levels1, mid, sheet.cells, sheet.outlineLevels, r);
      WalkRecords(dir, depth, sizes0, stats0, order0, sizes1, stats1, order1, fileSizes, extensionsStats, extensionOrder);
      next, ok := r, true;
    }

    /** Freshness of the whole walk splits into that of the directory's own
        files and that of its subdirectories' files after them. */
    static lemma WalkFresh(dir: Directory, depth: int, keys: seq<string>, sizes0: seq<SizeEntry>)
      requires keys == Keys(sizes0)
      ensures Keys(sizes0 + Entries(dir.files)) == keys + Names(dir.files)
      ensures Fresh(keys, Visited(dir, depth)) <==>
        Fresh(keys, dir.files) && (depth > 0 ==> Fresh(keys + Names(dir.files), VisitedFrom(dir, 0, depth - 1)))
    {
      EntriesConcat(sizes0, dir.files, []);
      if depth > 0 {
        FreshSplit(keys, dir.files, VisitedFrom(dir, 0, depth - 1));
      } else {
        AppendEmpty(dir.files);
      }
    }

    /** The rows of the walk compose: the directory's row, its files' rows,
        then its subdirectories' rows when the budget is positive. */
    static lemma WalkCells(dir: Directory, col: int, depth: int, maxDepth: int, row: int,
                           cells0: Cells, levels0: map<int, int>, cells1: Cells, levels1: map<int, int>, mid: int,
                           cells2: Cells, levels2: map<int, int>, next: int)
      requires cells1 == PaintCells(cells0[(row, col) := Text(dir.fullName)], FileLines(dir.files, col + 1), row + 1)
      requires levels1 == levels0[row := maxDepth - depth + 1]
      requires mid == row + 1 + |dir.files|
      requires depth > 0 ==>
        && cells2 == PaintCells(cells1, LayoutFrom(dir, 0, col + 1, depth - 1, maxDepth), mid)
        && levels2 == PaintOutline(levels1, LayoutFrom(dir, 0, col + 1, depth - 1, maxDepth), mid)
        && next == mid + |LayoutFrom(dir, 0, col + 1, depth - 1, maxDepth)|
      requires depth <= 0 ==> cells2 == cells1 && levels2 == levels1 && next == mid
      ensures next == row + |Layout(dir, col, depth, maxDepth)|
      ensures cells2 == PaintCells(cells0, Layout(dir, col, depth, maxDepth), row)
      ensures levels2 == PaintOutline(levels0, Layout(dir, col, depth, maxDepth), row)
    {
      var head: seq<Line> := [DirLine(col, dir.fullName, maxDepth - depth + 1)];
      var files := FileLines(dir.files, col + 1);
      assert head[..0] == [];
      PaintConcat(cells0, levels0, head, files, row);
      PaintOutlineFiles(levels1, dir.files, col + 1, row + 1);
      if depth > 0 {
        var rest := LayoutFrom(dir, 0, col + 1, depth - 1, maxDepth);
        PaintConcat(cells0, levels0, head + files, rest, row);
      } else {
        AppendEmpty(head + files);
      }
    }

    /** The records of the walk compose the same way. */
    static lemma WalkRecords(dir: Directory, depth: int,
                             sizes0: seq<SizeEntry>, stats0: StatsMap, order0: seq<string>,
                             sizes1: seq<SizeEntry>, stats1: StatsMap, order1: seq<string>,
                             sizes2: seq<SizeEntry>, stats2: StatsMap, order2: seq<string>)
      requires sizes1 == sizes0 + Entries(dir.files) && stats1 == Tally(stats0, dir.files) && order1 == Order(order0, dir.files)
      requires depth > 0 ==>
        && sizes2 == sizes1 + Entries(VisitedFrom(dir, 0, depth - 1))
        && stats2 == Tally(stats1, VisitedFrom(dir, 0, depth - 1))
        && order2 == Order(order1, VisitedFrom(dir, 0, depth - 1))
      requires depth <= 0 ==> sizes2 == sizes1 && stats2 == stats1 && order2 == order1
      ensures sizes2 == sizes0 + Entries(Visited(dir, depth))
      ensures stats2 == Tally(stats0, Visited(dir, depth))
      ensures order2 == Order(order0, Visited(dir, depth))
    {
      if depth > 0 {
        var sub := VisitedFrom(dir, 0, depth - 1);
        EntriesConcat(sizes0, dir.files, sub);
        Assoc(sizes0, Entries(dir.files), Entries(sub));
        TallyConcat(stats0, order0, dir.files, sub);
      } else {
        AppendEmpty(dir.files);
      }
    }

    /** The loop over a directory's files: each gets a row of four cells from
        column `col` and is recorded in both dictionaries. */
    method PrintFiles(sheet: Worksheet, col: int, row: int, files: seq<FileEntry>) returns (next: int, ok: bool)
      requires Valid()
      modifies this, sheet
      ensures Valid()
      ensures ok <==> Fresh(Keys(old(fileSizes)), files)
      ensures ok ==> next == row + |files|
      ensures ok ==> sheet.cells == PaintCells(old(sheet.cells), FileLines(files, col), row)
      ensures sheet.outlineLevels == old(sheet.outlineLevels)
      ensures ok ==> fileSizes == old(fileSizes) + Entries(files)
      ensures ok ==> extensionsStats == Tally(old(extensionsStats), files)
      ensures ok ==> extensionOrder == Order(old(extensionOrder), files)
    {
      ghost var cells0 := sheet.cells;
      ghost var sizes0, stats0, order0 := fileSizes, extensionsStats, extensionOrder;
      ghost var done: seq<FileEntry> := [];
      var r := row;
      var j := 0;
      while j < |files|
        invariant 0 <= j <= |files| && done == files[..j]
        invariant r == row + |done|
        invariant sheet.cells == PaintCells(cells0, FileLines(done, col), row)
        invariant sheet.outlineLevels == old(sheet.outlineLevels)
        invariant Fresh(Keys(sizes0), done)
        invariant fileSizes == sizes0 + Entries(done)
        invariant extensionsStats == Tally(stats0, done)
        invariant extensionOrder == Order(order0, done)
      {
        var file := files[j];
        FileStepCells(cells0, done, file, row, col);
        FileStepRecords(sizes0, stats0, order0, done, file);
        FreshStep(Keys(sizes0), done, file);
        WriteFileRow(sheet, r, col, file);
        if file.fullName in Keys(fileSizes) {
          // Dictionary.Add throws on a key it already holds
          FreshPrefix(Keys(sizes0), files, j);
          FilesRecorded(sizes0, stats0, order0, done);
          return r, false;
        }
        RecordFile(file);
        TakeOneMore(files, j);
        done := done + [file];
        r := r + 1;
        j := j + 1;
      }
      assert done == files;
      FilesRecorded(sizes0, stats0, order0, files);
      next, ok := r, true;
    }

    /** Writes a file's full name, extension, length and attributes in four
        consecutive cells of row `r` from column `col`. */
    static method WriteFileRow(sheet: Worksheet, r: int, col: int, file: FileEntry)
      modifies sheet
      ensures sheet.cells == PaintLine(old(sheet.cells), FileLine(col, file), r)
      ensures sheet.outlineLevels == old(sheet.outlineLevels)
    {
      sheet.cells := sheet.cells[(r, col) := Text(file.fullName)][(r, col + 1) := Text(file.extension)]
                                [(r, col + 2) := Number(file.length)][(r, col + 3) := Flags(file.attributes)];
    }

    /** Records a file whose path is new: path to length in `fileSizes`, and
        one more file of its extension, created with count 1 on first sighting. */
    method RecordFile(file: FileEntry)
      requires KeysInOrder(extensionsStats, extensionOrder)
      modifies this
      ensures fileSizes == old(fileSizes) + [SizeEntry(file.fullName, file.length)]
      ensures extensionsStats == Record(old(extensionsStats), file)
      ensures extensionOrder == if file.extension in old(extensionOrder) then old(extensionOrder)
                                else old(extensionOrder) + [file.extension]
    {
      fileSizes := fileSizes + [SizeEntry(file.fullName, file.length)];
      if file.extension in extensionsStats {
        var stats := extensionsStats[file.extension];
        stats := stats.(count := stats.count + 1, size := stats.size + file.length);
        extensionsStats := extensionsStats[file.extension := stats];
      } else {
        extensionsStats := extensionsStats[file.extension := ExtensionStats(1, file.length)];
        extensionOrder := extensionOrder + [file.extension];
      }
    }

    /** Recording fresh files from a valid state gives a valid state. */
    static lemma FilesRecorded(sizes0: seq<SizeEntry>, stats0: StatsMap, order0: seq<string>, files: seq<FileEntry>)
      requires KeysInOrder(stats0, order0)
      requires Fresh(Keys(sizes0), files)
      ensures Distinct(Keys(sizes0 + Entries(files)))
      ensures KeysInOrder(Tally(stats0, files), Order(order0, files))
    {
      EntriesConcat(sizes0, files, []);
      OrderTracksKeys(stats0, order0, files);
    }

    /** One step of the loop over files writes file `f`'s row below those
        already written. */
    static lemma FileStepCells(cells0: Cells, done: seq<FileEntry>, f: FileEntry, row: int, col: int)
      ensures PaintCells(cells0, FileLines(done + [f], col), row)
           == PaintLine(PaintCells(cells0, FileLines(done, col), row), FileLine(col, f), row + |done|)
    {
      DropLast(done, f);
      assert FileLines(done + [f], col) == FileLines(done, col) + [FileLine(col, f)];
      PaintSnoc(cells0, FileLines(done, col), FileLine(col, f), row);
    }

    /** One step of the loop over files records file `f` after those already
        recorded. */
    static lemma FileStepRecords(sizes0: seq<SizeEntry>, stats0: StatsMap, order0: seq<string>, done: seq<FileEntry>, f: FileEntry)
      requires KeysInOrder(stats0, order0)
      ensures KeysInOrder(Tally(stats0, done), Order(order0, done))
      ensures Keys(sizes0 + Entries(done)) == Keys(sizes0) + Names(done)
      ensures sizes0 + Entries(done + [f]) == (sizes0 + Entries(done)) + [SizeEntry(f.fullName, f.length)]
      ensures Tally(stats0, done + [f]) == Record(Tally(stats0, done), f)
      ensures Order(order0, done + [f]) ==
        var before := Order(order0, done);
        if f.extension in before then before else before + [f.extension]
    {
      DropLast(done, f);
      EntriesConcat(sizes0, done, [f]);
      Assoc(sizes0, Entries(done), Entries([f]));
      OrderTracksKeys(stats0, order0, done);
    }

    /** A repeated path among the first `j + 1` files is a repeated path among all of them. */
    static lemma FreshPrefix(keys: seq<string>, files: seq<FileEntry>, j: nat)
      requires j < |files|
      ensures !Fresh(keys, files[..j] + [files[j]]) ==> !Fresh(keys, files)
    {
      TakeOneMore(files, j);
      SplitAt(files, j + 1);
      FreshSplit(keys, files[..j + 1], files[j + 1..]);
    }

    /** The loop over the subdirectories `dir.subdirs`, each walked from
        column `col` with budget `depth`, one after the other from `row`. */
    method PrintSubdirectories(sheet: Worksheet, col: int, row: int, depth: int, dir: Directory, maxDepth: int)
      returns (next: int, ok: bool)
      requires Valid()
      modifies this, sheet
      ensures Valid()
      ensures ok <==> Fresh(Keys(old(fileSizes)), VisitedFrom(dir, 0, depth))
      ensures ok ==> next == row + |LayoutFrom(dir, 0, col, depth, maxDepth)|
      ensures ok ==> sheet.cells == PaintCells(old(sheet.cells), LayoutFrom(dir, 0, col, depth, maxDepth), row)
      ensures ok ==> sheet.outlineLevels == PaintOutline(old(sheet.outlineLevels), LayoutFrom(dir, 0, col, depth, maxDepth), row)
      ensures ok ==> fileSizes == old(fileSizes) + Entries(VisitedFrom(dir, 0, depth))
      ensures ok ==> extensionsStats == Tally(old(extensionsStats), VisitedFrom(dir, 0, depth))
      ensures ok ==> extensionOrder == Order(old(extensionOrder), VisitedFrom(dir, 0, depth))
      decreases dir, 0
    {
      ghost var cells0, levels0 := sheet.cells, sheet.outlineLevels;
      ghost var sizes0, stats0, order0 := fileSizes, extensionsStats, extensionOrder;
      ghost var written: seq<Line> := [];
      ghost var visited: seq<FileEntry> := [];
      var subdirs := dir.subdirs;
      var r := row;
      var i := 0;
      while i < |subdirs|
        invariant 0 <= i <= |subdirs|
        invariant Valid()
        invariant LayoutFrom(dir, 0, col, depth, maxDepth) == written + LayoutFrom(dir, i, col, depth, maxDepth)
        invariant VisitedFrom(dir, 0, depth) == visited + VisitedFrom(dir, i, depth)
        invariant r == row + |written|
        invariant sheet.cells == PaintCells(cells0, written, row)
        invariant sheet.outlineLevels == PaintOutline(levels0, written, row)
        invariant Fresh(Keys(sizes0), visited)
        invariant fileSizes == sizes0 + Entries(visited)
        invariant extensionsStats == Tally(stats0, visited)
        invariant extensionOrder == Order(order0, visited)
      {
        var sub := subdirs[i];
        ghost var subLines, subFiles := Layout(sub, col, depth, maxDepth), Visited(sub, depth);
        SubdirAdvance(dir, i, col, depth, maxDepth, sizes0, stats0, order0, cells0, levels0, written, visited, row);
        var subOk;
        r, subOk := PrintDirectories(sheet, col, r, depth, sub, maxDepth);
        SubdirStep(Keys(sizes0), visited, subFiles, VisitedFrom(dir, i + 1, depth));
        if !subOk {
          return r, false;
        }
        written := written + subLines;
        visited := visited + subFiles;
        i := i + 1;
      }
      assert LayoutFrom(dir, i, col, depth, maxDepth) == [] && VisitedFrom(dir, i, depth) == [];
      AppendEmpty(written);
      AppendEmpty(visited);
      next, ok := r, true;
    }

    /** The facts behind one step of the loop over subdirectories: walking
        subdirectory `i` after the earlier ones is walking them all. */
    static lemma SubdirAdvance(dir: Directory, i: nat, col: int, depth: int, maxDepth: int,
                               sizes0: seq<SizeEntry>, stats0: StatsMap, order0: seq<string>,
                               cells0: Cells, levels0: map<int, int>,
                               written: seq<Line>, visited: seq<FileEntry>, row: int)
      requires i < |dir.subdirs|
      ensures var lines := Layout(dir.subdirs[i], col, depth, maxDepth);
        && written + LayoutFrom(dir, i, col, depth, maxDepth) == (written + lines) + LayoutFrom(dir, i + 1, col, depth, maxDepth)
        && PaintCells(PaintCells(cells0, written, row), lines, row + |written|) == PaintCells(cells0, written + lines, row)
        && PaintOutline(PaintOutline(levels0, written, row), lines, row + |written|) == PaintOutline(levels0, written + lines, row)
      ensures var files := Visited(dir.subdirs[i], depth);
        && visited + VisitedFrom(dir, i, depth) == (visited + files) + VisitedFrom(dir, i + 1, depth)
        && (sizes0 + Entries(visited)) + Entries(files) == sizes0 + Entries(visited + files)
        && Tally(Tally(stats0, visited), files) == Tally(stats0, visited + files)
        && Order(Order(order0, visited), files) == Order(order0, visited + files)
      ensures Keys(sizes0 + Entries(visited)) == Keys(sizes0) + Names(visited)
    {
      var lines := Layout(dir.subdirs[i], col, depth, maxDepth);
      var files := Visited(dir.subdirs[i], depth);
      Assoc(written, lines, LayoutFrom(dir, i + 1, col, depth, maxDepth));
      Assoc(visited, files, VisitedFrom(dir, i + 1, depth));
      PaintConcat(cells0, levels0, written, lines, row);
      EntriesConcat(sizes0, visited, files);
      Assoc(sizes0, Entries(visited), Entries(files));
      TallyConcat(stats0, order0, visited, files);
    }

    /** The freshness facts behind one step of the loop over subdirectories. */
    static lemma SubdirStep(keys: seq<string>, visited: seq<FileEntry>, sub: seq<FileEntry>, later: seq<FileEntry>)
      requires Fresh(keys, visited)
      ensures Fresh(keys, visited + sub) <==> Fresh(keys + Names(visited), sub)
      ensures !Fresh(keys + Names(visited), sub) ==> !Fresh(keys, visited + (sub + later))
    {
      FreshSplit(keys, visited, sub);
      FreshSplit(keys, visited, sub + later);
      FreshSplit(keys + Names(visited), sub, later);
    }

    /** Writes the ten largest files, largest first: path in column 1, size in
        column 2, rows 1 to 10.  With fewer than ten entries the rows present
        are written and then the indexing throws (`ok` is false). */
    method Print10Biggest(sheet: Worksheet) returns (ok: bool)
      requires Valid()
      modifies sheet
      ensures ok <==> |fileSizes| >= 10
      ensures |SortDescending(fileSizes)| == |fileSizes|
      ensures sheet.cells == PaintTop(old(sheet.cells), SortDescending(fileSizes), if ok then 10 else |fileSizes|)
      ensures sheet.outlineLevels == old(sheet.outlineLevels)
    {
      var sorted := SortDescending(fileSizes);
      SortedPermutation(fileSizes);
      var i := 1;
      while i <= 10
        invariant 1 <= i <= 11 && i - 1 <= |sorted|
        invariant sheet.cells == PaintTop(old(sheet.cells), sorted, i - 1)
        invariant sheet.outlineLevels == old(sheet.outlineLevels)
      {
        if i - 1 >= |sorted| {
          // sorted.ToArray()[i - 1] is out of range
          return false;
        }
        sheet.cells := sheet.cells[(i, 1) := Text(sorted[i - 1].path)][(i, 2) := Number(sorted[i - 1].size)];
        i := i + 1;
      }
      ok := true;
    }

    /** Writes one row per extension, in the dictionary's order, from row 1:
        extension in column 4, count in column 5, size in column 6; returns
        the three column ranges the charts are drawn from. */
    method AddDiagrams(sheet: Worksheet) returns (extensionsAdd: Address, countsAdd: Address, sizesAdd: Address)
      requires Valid()
      modifies sheet
      ensures sheet.cells == PaintExtensions(old(sheet.cells), extensionOrder, extensionsStats, |extensionOrder|)
      ensures sheet.outlineLevels == old(sheet.outlineLevels)
      ensures |extensionOrder| == |extensionsStats|
      ensures extensionsAdd == Address(1, 4, |extensionsStats|, 4)
      ensures countsAdd == Address(1, 5, |extensionsStats|, 5)
      ensures sizesAdd == Address(1, 6, |extensionsStats|, 6)
    {
      OrderLength(extensionsStats, extensionOrder);
      var row := 0;
      while row < |extensionOrder|
        invariant 0 <= row <= |extensionOrder|
        invariant sheet.cells == PaintExtensions(old(sheet.cells), extensionOrder, extensionsStats, row)
        invariant sheet.outlineLevels == old(sheet.outlineLevels)
      {
        var extension := extensionOrder[row];
        row := row + 1;
        sheet.cells := sheet.cells[(row, 4) := Text(extension)][(row, 5) := Number(extensionsStats[extension].count)]
                                  [(row, 6) := Number(extensionsStats[extension].size)];
      }
      extensionsAdd := Address(1, 4, row, 4);
      countsAdd := Address(1, 5, row, 5);
      sizesAdd := Address(1, 6, row, 6);
    }

    /** The whole report: the listing sheet, the top-10 table, the extension
        table, then the save, whose refusal for lack of access is `saveAllowed`
        being false. */
    method CreateExcel(directory: Directory, maxDepth: int, saveAllowed: bool)
      returns (outcome: Outcome, structure: Worksheet, statistics: Worksheet)
      requires Valid()
      modifies this
      ensures Valid() && fresh(structure) && fresh(statistics)
      ensures structure.name == "Struktura katalogu" && statistics.name == "Statystyki"
      ensures outcome == RunOutcome(old(fileSizes), directory, maxDepth, saveAllowed)
      ensures Fresh(Keys(old(fileSizes)), Visited(directory, maxDepth)) ==>
        && fileSizes == old(fileSizes) + Entries(Visited(directory, maxDepth))
        && extensionsStats == Tally(old(extensionsStats), Visited(directory, maxDepth))
        && extensionOrder == Order(old(extensionOrder), Visited(directory, maxDepth))
        && structure.cells == PaintCells(map[], Layout(directory, 1, maxDepth, maxDepth), 1)
        && structure.outlineLevels == PaintOutline(map[], Layout(directory, 1, maxDepth, maxDepth), 1)
      ensures outcome == Saved || outcome == AccessDenied ==>
        |SortDescending(fileSizes)| >= 10 &&
        statistics.cells == PaintExtensions(PaintTop(map[], SortDescending(fileSizes), 10), extensionOrder, extensionsStats, |extensionOrder|)
    {
      structure := new Worksheet("Struktura katalogu");
      statistics := new Worksheet("Statystyki");
      var _, walked := PrintDirectories(structure, 1, 1, maxDepth, directory, maxDepth);
      if !walked {
        return Aborted(DuplicatePath), structure, statistics;
      }
      var listed := Print10Biggest(statistics);
      if !listed {
        return Aborted(FewerThanTenFiles), structure, statistics;
      }
      var _, _, _ := AddDiagrams(statistics);
      outcome := if saveAllowed then Saved else AccessDenied;
    }

    /** The top table as evidently intended: the largest entries, largest
        first, one row per entry up to ten rows, without running off the end
        of a shorter dictionary. */
    method PrintBiggest(sheet: Worksheet)
      requires Valid()
      modifies sheet
      ensures |SortDescending(fileSizes)| == |fileSizes|
      ensures sheet.cells == PaintTop(old(sheet.cells), SortDescending(fileSizes), if |fileSizes| < 10 then |fileSizes| else 10)
      ensures sheet.outlineLevels == old(sheet.outlineLevels)
    {
      var sorted := SortDescending(fileSizes);
      SortedPermutation(fileSizes);
      var rows := if |sorted| < 10 then |sorted| else 10;
      var i := 1;
      while i <= rows
        invariant 1 <= i <= rows + 1
        invariant sheet.cells == PaintTop(old(sheet.cells), sorted, i - 1)
        invariant sheet.outlineLevels == old(sheet.outlineLevels)
      {
        sheet.cells := sheet.cells[(i, 1) := Text(sorted[i - 1].path)][(i, 2) := Number(sorted[i - 1].size)];
        i := i + 1;
      }
    }

    /** The run as evidently intended: both dictionaries emptied first, so
        that the report covers `directory` alone, and the top table capped at
        the number of files.  Only a path repeated inside the tree ends the
        run early. */
    method CreateFreshExcel(directory: Directory, maxDepth: int, saveAllowed: bool)
      returns (outcome: Outcome, structure: Worksheet, statistics: Worksheet)
      modifies this
      ensures Valid() && fresh(structure) && fresh(statistics)
      ensures structure.name == "Struktura katalogu" && statistics.name == "Statystyki"
      ensures outcome == if !Distinct(Names(Visited(directory, maxDepth))) then Aborted(DuplicatePath)
                         else if saveAllowed then Saved else AccessDenied
      ensures Distinct(Names(Visited(directory, maxDepth))) ==>
        && fileSizes == Entries(Visited(directory, maxDepth))
        && extensionsStats == Tally(map[], Visited(directory, maxDepth))
        && extensionOrder == Order([], Visited(directory, maxDepth))
        && structure.cells == PaintCells(map[], Layout(directory, 1, maxDepth, maxDepth), 1)
        && structure.outlineLevels == PaintOutline(map[], Layout(directory, 1, maxDepth, maxDepth), 1)
        && |SortDescending(fileSizes)| == |Visited(directory, maxDepth)|
        && statistics.cells ==
             PaintExtensions(PaintTop(map[], SortDescending(fileSizes), if |fileSizes| < 10 then |fileSizes| else 10),
                             extensionOrder, extensionsStats, |extensionOrder|)
    {
      fileSizes, extensionsStats, extensionOrder := [], map[], [];
      assert Keys(fileSizes) + Names(Visited(directory, maxDepth)) == Names(Visited(directory, maxDepth));
      structure := new Worksheet("Struktura katalogu");
      statistics := new Worksheet("Statystyki");
      var _, walked := PrintDirectories(structure, 1, 1, maxDepth, directory, maxDepth);
      if !walked {
        return Aborted(DuplicatePath), structure, statistics;
      }
      PrintBiggest(statistics);
      var _, _, _ := AddDiagrams(statistics);
      outcome := if saveAllowed then Saved else AccessDenied;
    }
  }
}
