/**
 The directory listing the walk writes to the "Struktura katalogu" sheet,
 described as a sequence of lines, one per written row, and the effect of
 writing such a sequence from a given row on.
 */
module Listing {
  import opened FileTree
  import opened Sheets

  /** One written row: a directory's path at column `col` with the row's
      outline level, or a file's four cells starting at column `col`. */
  datatype Line = DirLine(col: int, path: string, level: int) | FileLine(col: int, file: FileEntry)

  /** The lines the walk writes for directory `d` entered at column `col` with
      depth budget `depth`: the directory's own line, one line per file one
      column further right, then (only when the budget is positive) the lines
      of each subdirectory, entered one column further right with one less. */
  function Layout(d: Directory, col: int, depth: int, maxDepth: int): seq<Line>
    decreases d, |d.subdirs| + 1
  {
    [DirLine(col, d.fullName, maxDepth - depth + 1)] + FileLines(d.files, col + 1)
    + (if depth > 0 then LayoutFrom(d, 0, col + 1, depth - 1, maxDepth) else [])
  }

  /** The lines of the subdirectories `d.subdirs[i..]`, one after the other. */
  function LayoutFrom(d: Directory, i: nat, col: int, depth: int, maxDepth: int): seq<Line>
    requires i <= |d.subdirs|
    decreases d, |d.subdirs| - i
  {
    if i == |d.subdirs| then []
    else Layout(d.subdirs[i], col, depth, maxDepth) + LayoutFrom(d, i + 1, col, depth, maxDepth)
  }

  function FileLines(fs: seq<FileEntry>, col: int): (r: seq<Line>)
    ensures |r| == |fs|
  {
    if fs == [] then [] else FileLines(fs[..|fs| - 1], col) + [FileLine(col, fs[|fs| - 1])]
  }

  /** Line `i` is the line of file `i`. */
  lemma {:induction false} FileLinesIndexed(fs: seq<FileEntry>, col: int)
    ensures forall i :: 0 <= i < |fs| ==> FileLines(fs, col)[i] == FileLine(col, fs[i])
    decreases |fs|
  {
    if fs != [] {
      FileLinesIndexed(fs[..|fs| - 1], col);
    }
  }

  /** The files of the file lines, in order. */
  function Files(lines: seq<Line>): seq<FileEntry>
  {
    if lines == [] then []
    else
      var last := lines[|lines| - 1];
      Files(lines[..|lines| - 1]) + (if last.FileLine? then [last.file] else [])
  }

  /** The number of directory lines. */
  function DirLines(lines: seq<Line>): nat
  {
    if lines == [] then 0
    else DirLines(lines[..|lines| - 1]) + (if lines[|lines| - 1].DirLine? then 1 else 0)
  }

  /** The cells after writing one line at row `row`: a directory line writes
      its path; a file line writes full name, extension, length and attributes
      in four consecutive columns. */
  function PaintLine(cells: Cells, line: Line, row: int): Cells
  {
    match line
    case DirLine(c, p, _) => cells[(row, c) := Text(p)]
    case FileLine(c, f) =>
      cells[(row, c) := Text(f.fullName)][(row, c + 1) := Text(f.extension)]
           [(row, c + 2) := Number(f.length)][(row, c + 3) := Flags(f.attributes)]
  }

  /** The cells after writing `lines` one per row, the first at row `row`. */
  function PaintCells(cells: Cells, lines: seq<Line>, row: int): Cells
  {
    if lines == [] then cells
    else PaintLine(PaintCells(cells, lines[..|lines| - 1], row), lines[|lines| - 1], row + |lines| - 1)
  }

  /** The outline levels after writing `lines` from row `row`: only a
      directory line sets its row's level. */
  function PaintOutline(levels: map<int, int>, lines: seq<Line>, row: int): map<int, int>
  {
    if lines == [] then levels
    else
      var before := PaintOutline(levels, lines[..|lines| - 1], row);
      var last := lines[|lines| - 1];
      if last.DirLine? then before[row + |lines| - 1 := last.level] else before
  }

  /** Each file line follows either a file line of the same column (a sibling
      file) or the line of its directory, one column to the left. */
  ghost predicate FilesUnderTheirDirectory(lines: seq<Line>)
  {
    forall k :: 0 < k < |lines| && lines[k].FileLine? ==>
      (lines[k - 1].FileLine? && lines[k - 1].col == lines[k].col)
      || (lines[k - 1].DirLine? && lines[k - 1].col == lines[k].col - 1)
  }

  // ---------------------------------------------------------------------------
  // Counting: what the walk writes is what it visits.

  lemma {:induction false} FilesConcat(a: seq<Line>, b: seq<Line>)
    ensures Files(a + b) == Files(a) + Files(b)
    ensures DirLines(a + b) == DirLines(a) + DirLines(b)
    decreases |b|
  {
    if b == [] {
      assert a + b == a;
    } else {
      var b' := b[..|b| - 1];
      assert (a + b)[..|a + b| - 1] == a + b';
      assert (a + b)[|a + b| - 1] == b[|b| - 1];
      FilesConcat(a, b');
    }
  }

  lemma {:induction false} FileLinesContents(fs: seq<FileEntry>, col: int)
    ensures Files(FileLines(fs, col)) == fs
    ensures DirLines(FileLines(fs, col)) == 0
    decreases |fs|
  {
    if fs != [] {
      var init := fs[..|fs| - 1];
      FileLinesContents(init, col);
      FilesConcat(FileLines(init, col), [FileLine(col, fs[|fs| - 1])]);
      assert FileLines(fs, col) == FileLines(init, col) + [FileLine(col, fs[|fs| - 1])];
      assert [FileLine(col, fs[|fs| - 1])][..0] == [];
      assert init + [fs[|fs| - 1]] == fs;
    }
  }

  /** The file lines of the layout are exactly the visited files, in visiting
      order, and there is one directory line per visited directory. */
  lemma {:induction false} LayoutContents(d: Directory, col: int, depth: int, maxDepth: int)
    ensures Files(Layout(d, col, depth, maxDepth)) == Visited(d, depth)
    ensures DirLines(Layout(d, col, depth, maxDepth)) == DirCount(d, depth)
    decreases d, |d.subdirs| + 1
  {
    var head: seq<Line> := [DirLine(col, d.fullName, maxDepth - depth + 1)];
    var files := FileLines(d.files, col + 1);
    var rest := if depth > 0 then LayoutFrom(d, 0, col + 1, depth - 1, maxDepth) else [];
    assert Layout(d, col, depth, maxDepth) == head + files + rest;
    DirLineContents(head[0]);
    FileLinesContents(d.files, col + 1);
    FilesConcat(head, files);
    FilesConcat(head + files, rest);
    assert Files(head + files) == d.files && DirLines(head + files) == 1;
    if depth > 0 {
      LayoutFromContents(d, 0, col + 1, depth - 1, maxDepth);
      assert Files(rest) == VisitedFrom(d, 0, depth - 1);
    } else {
      assert rest == [];
    }
  }

  lemma DirLineContents(l: Line)
    requires l.DirLine?
    ensures Files([l]) == [] && DirLines([l]) == 1
  {
    assert [l][..0] == [];
  }

  lemma {:induction false} LayoutFromContents(d: Directory, i: nat, col: int, depth: int, maxDepth: int)
    requires i <= |d.subdirs|
    ensures Files(LayoutFrom(d, i, col, depth, maxDepth)) == VisitedFrom(d, i, depth)
    ensures DirLines(LayoutFrom(d, i, col, depth, maxDepth)) == DirCountFrom(d, i, depth)
    decreases d, |d.subdirs| - i
  {
    if i < |d.subdirs| {
      LayoutContents(d.subdirs[i], col, depth, maxDepth);
      LayoutFromContents(d, i + 1, col, depth, maxDepth);
      FilesConcat(Layout(d.subdirs[i], col, depth, maxDepth), LayoutFrom(d, i + 1, col, depth, maxDepth));
    }
  }

  lemma {:induction false} LinesSplit(lines: seq<Line>)
    ensures |lines| == |Files(lines)| + DirLines(lines)
    decreases |lines|
  {
    if lines != [] {
      LinesSplit(lines[..|lines| - 1]);
    }
  }

  /** The walk writes one row per visited directory (the root counts) plus one
      row per visited file. */
  lemma RowCount(d: Directory, col: int, depth: int, maxDepth: int)
    ensures |Layout(d, col, depth, maxDepth)| == DirCount(d, depth) + |Visited(d, depth)|
  {
    LayoutContents(d, col, depth, maxDepth);
    LinesSplit(Layout(d, col, depth, maxDepth));
  }

  /** With no budget left the walk writes the directory's row and its own
      files' rows and nothing for its subdirectories. */
  lemma NoBudget(d: Directory, col: int, depth: int, maxDepth: int)
    requires depth <= 0
    ensures Layout(d, col, depth, maxDepth) == [DirLine(col, d.fullName, maxDepth - depth + 1)] + FileLines(d.files, col + 1)
    ensures Visited(d, depth) == d.files && DirCount(d, depth) == 1
    ensures |Layout(d, col, depth, maxDepth)| == 1 + |d.files|
  {
  }

  // ---------------------------------------------------------------------------
  // Columns and outline levels.

  /** Every directory line lies between `col` and `col + depth` (just `col` when
      the budget is not positive), and its outline level exceeds its column by
      the same amount as the root's: a level deeper means a column further right. */
  lemma {:induction false} DirectoryLevels(d: Directory, col: int, depth: int, maxDepth: int)
    ensures forall k :: 0 <= k < |Layout(d, col, depth, maxDepth)| && Layout(d, col, depth, maxDepth)[k].DirLine? ==>
      var l := Layout(d, col, depth, maxDepth)[k];
      && l.level - l.col == maxDepth - depth + 1 - col
      && col <= l.col <= col + (if depth > 0 then depth else 0)
    decreases d, |d.subdirs| + 1
  {
    var L := Layout(d, col, depth, maxDepth);
    var n := 1 + |d.files|;
    FileLinesIndexed(d.files, col + 1);
    if depth > 0 {
      DirectoryLevelsFrom(d, 0, col + 1, depth - 1, maxDepth);
      forall k | 0 <= k < |L| && L[k].DirLine?
        ensures L[k].level - L[k].col == maxDepth - depth + 1 - col
        ensures col <= L[k].col <= col + depth
      {
        if k >= n {
          assert L[k] == LayoutFrom(d, 0, col + 1, depth - 1, maxDepth)[k - n];
        }
      }
    }
  }

  lemma {:induction false} DirectoryLevelsFrom(d: Directory, i: nat, col: int, depth: int, maxDepth: int)
    requires i <= |d.subdirs|
    ensures forall k :: 0 <= k < |LayoutFrom(d, i, col, depth, maxDepth)| && LayoutFrom(d, i, col, depth, maxDepth)[k].DirLine? ==>
      var l := LayoutFrom(d, i, col, depth, maxDepth)[k];
      && l.level - l.col == maxDepth - depth + 1 - col
      && col <= l.col <= col + (if depth > 0 then depth else 0)
    decreases d, |d.subdirs| - i
  {
    if i < |d.subdirs| {
      DirectoryLevels(d.subdirs[i], col, depth, maxDepth);
      DirectoryLevelsFrom(d, i + 1, col, depth, maxDepth);
      var A := Layout(d.subdirs[i], col, depth, maxDepth);
      var B := LayoutFrom(d, i + 1, col, depth, maxDepth);
      var L: seq<Line> := A + B;
      forall k | 0 <= k < |L| && L[k].DirLine?
        ensures L[k].level - L[k].col == maxDepth - depth + 1 - col
        ensures col <= L[k].col <= col + (if depth > 0 then depth else 0)
      {
        if k >= |A| {
          assert L[k] == B[k - |A|];
        }
      }
    }
  }

  /** For the walk as the report starts it (column 1, the whole budget), every
      directory row's outline level equals its column: 1 for the root, one more
      per level of nesting, at most `maxDepth + 1`. */
  lemma TopLevelOutline(d: Directory, maxDepth: int)
    ensures forall k :: 0 <= k < |Layout(d, 1, maxDepth, maxDepth)| && Layout(d, 1, maxDepth, maxDepth)[k].DirLine? ==>
      var l := Layout(d, 1, maxDepth, maxDepth)[k];
      l.level == l.col && 1 <= l.level <= (if maxDepth > 0 then maxDepth else 0) + 1
    ensures Layout(d, 1, maxDepth, maxDepth)[0] == DirLine(1, d.fullName, 1)
  {
    DirectoryLevels(d, 1, maxDepth, maxDepth);
  }

  lemma FileLinesNested(fs: seq<FileEntry>, col: int, head: Line)
    requires head.DirLine? && head.col == col - 1
    ensures FilesUnderTheirDirectory([head] + FileLines(fs, col))
  {
    var L := [head] + FileLines(fs, col);
    FileLinesIndexed(fs, col);
    forall k | 0 < k < |L| && L[k].FileLine?
      ensures (L[k - 1].FileLine? && L[k - 1].col == L[k].col) || (L[k - 1].DirLine? && L[k - 1].col == L[k].col - 1)
    {
      if k > 1 {
        assert L[k - 1] == FileLines(fs, col)[k - 2];
      }
    }
  }

  /** Every file row of the listing is written one column right of its
      directory's path: directly below the directory's row, or below a sibling
      file's row in the same column. */
  lemma {:induction false} FileColumns(d: Directory, col: int, depth: int, maxDepth: int)
    ensures |Layout(d, col, depth, maxDepth)| > 0 && Layout(d, col, depth, maxDepth)[0].DirLine?
    ensures FilesUnderTheirDirectory(Layout(d, col, depth, maxDepth))
    decreases d, |d.subdirs| + 1
  {
    var head := DirLine(col, d.fullName, maxDepth - depth + 1);
    var A := [head] + FileLines(d.files, col + 1);
    FileLinesNested(d.files, col + 1, head);
    if depth > 0 {
      FileColumnsFrom(d, 0, col + 1, depth - 1, maxDepth);
      var B := LayoutFrom(d, 0, col + 1, depth - 1, maxDepth);
      NestedConcat(A, B);
    } else {
      assert Layout(d, col, depth, maxDepth) == A;
    }
  }

  lemma {:induction false} FileColumnsFrom(d: Directory, i: nat, col: int, depth: int, maxDepth: int)
    requires i <= |d.subdirs|
    ensures FilesUnderTheirDirectory(LayoutFrom(d, i, col, depth, maxDepth))
    ensures |LayoutFrom(d, i, col, depth, maxDepth)| > 0 ==> LayoutFrom(d, i, col, depth, maxDepth)[0].DirLine?
    decreases d, |d.subdirs| - i
  {
    if i < |d.subdirs| {
      FileColumns(d.subdirs[i], col, depth, maxDepth);
      FileColumnsFrom(d, i + 1, col, depth, maxDepth);
      NestedConcat(Layout(d.subdirs[i], col, depth, maxDepth), LayoutFrom(d, i + 1, col, depth, maxDepth));
    }
  }

  lemma NestedConcat(a: seq<Line>, b: seq<Line>)
    requires FilesUnderTheirDirectory(a) && FilesUnderTheirDirectory(b)
    requires |b| > 0 ==> b[0].DirLine?
    ensures FilesUnderTheirDirectory(a + b)
  {
    var L := a + b;
    forall k | 0 < k < |L| && L[k].FileLine?
      ensures (L[k - 1].FileLine? && L[k - 1].col == L[k].col) || (L[k - 1].DirLine? && L[k - 1].col == L[k].col - 1)
    {
      if k > |a| {
        assert L[k] == b[k - |a|] && L[k - 1] == b[k - 1 - |a|];
      }
    }
  }

  // ---------------------------------------------------------------------------
  // Writing lines row by row.

  lemma {:induction false} PaintConcat(cells: Cells, levels: map<int, int>, a: seq<Line>, b: seq<Line>, row: int)
    ensures PaintCells(cells, a + b, row) == PaintCells(PaintCells(cells, a, row), b, row + |a|)
    ensures PaintOutline(levels, a + b, row) == PaintOutline(PaintOutline(levels, a, row), b, row + |a|)
    decreases |b|
  {
    if b == [] {
      assert a + b == a;
    } else {
      var b' := b[..|b| - 1];
      assert (a + b)[..|a + b| - 1] == a + b';
      assert (a + b)[|a + b| - 1] == b[|b| - 1];
      PaintConcat(cells, levels, a, b', row);
    }
  }

  /** File lines leave the outline levels alone. */
  lemma {:induction false} PaintOutlineFiles(levels: map<int, int>, fs: seq<FileEntry>, col: int, row: int)
    ensures PaintOutline(levels, FileLines(fs, col), row) == levels
    decreases |fs|
  {
    if fs != [] {
      var init := fs[..|fs| - 1];
      assert FileLines(fs, col)[..|fs| - 1] == FileLines(init, col);
      PaintOutlineFiles(levels, init, col, row);
    }
  }

  lemma PaintSnoc(cells: Cells, lines: seq<Line>, line: Line, row: int)
    ensures PaintCells(cells, lines + [line], row) == PaintLine(PaintCells(cells, lines, row), line, row + |lines|)
  {
    assert (lines + [line])[..|lines|] == lines;
  }

  lemma PaintLineElsewhere(cells: Cells, line: Line, row: int, r: int)
    requires r != row
    ensures SameRow(PaintLine(cells, line, row), cells, r)
  {
  }

  lemma PaintLineOver(a: Cells, b: Cells, line: Line, row: int)
    requires SameRow(a, b, row)
    ensures SameRow(PaintLine(a, line, row), PaintLine(b, line, row), row)
  {
  }

  /** Writing lines from `row` leaves every row before `row` and from
      `row + |lines|` on as it was. */
  lemma {:induction false} PaintOutside(cells: Cells, lines: seq<Line>, row: int, r: int)
    requires r < row || row + |lines| <= r
    ensures SameRow(PaintCells(cells, lines, row), cells, r)
    decreases |lines|
  {
    if lines != [] {
      PaintOutside(cells, lines[..|lines| - 1], row, r);
      PaintLineElsewhere(PaintCells(cells, lines[..|lines| - 1], row), lines[|lines| - 1], row + |lines| - 1, r);
    }
  }

  /** Row `row + k` ends up holding exactly what line `k` writes over the
      original row: the rows of different lines never overlap. */
  lemma {:induction false} PaintRow(cells: Cells, lines: seq<Line>, row: int, k: int)
    requires 0 <= k < |lines|
    ensures SameRow(PaintCells(cells, lines, row), PaintLine(cells, lines[k], row + k), row + k)
    decreases |lines|
  {
    var init := lines[..|lines| - 1];
    var before := PaintCells(cells, init, row);
    if k == |lines| - 1 {
      PaintOutside(cells, init, row, row + k);
      PaintLineOver(before, cells, lines[k], row + k);
    } else {
      PaintRow(cells, init, row, k);
      PaintLineElsewhere(before, lines[|lines| - 1], row + |lines| - 1, row + k);
    }
  }

  /** Outline levels: a directory line's row gets its level, a file line's row
      and every row outside the written range keep theirs. */
  lemma {:induction false} OutlineRow(levels: map<int, int>, lines: seq<Line>, row: int, r: int)
    ensures var out := PaintOutline(levels, lines, row);
      if row <= r < row + |lines| && lines[r - row].DirLine? then r in out && out[r] == lines[r - row].level
      else (r in out <==> r in levels) && (r in levels ==> out[r] == levels[r])
    decreases |lines|
  {
    if lines != [] {
      OutlineRow(levels, lines[..|lines| - 1], row, r);
    }
  }
}
