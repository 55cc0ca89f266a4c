/**
 The scanned file system as a finite tree value.  A directory lists its files
 and its immediate subdirectories in the order the operating system reports
 them; a file carries the four facts the walk reads from it.
 */
module FileTree {

  /** A file as the walk sees it: full path, extension (with its leading dot,
      or empty), length in bytes and an opaque attribute flag set. */
  datatype FileEntry = FileEntry(fullName: string, extension: string, length: nat, attributes: nat)

  datatype Directory = Directory(fullName: string, files: seq<FileEntry>, subdirs: seq<Directory>)

  /** The files the walk from `d` visits with depth budget `depth`, in visiting
      order: the directory's own files, then (only when the budget is positive)
      the files of each subdirectory, visited with one less. */
  function Visited(d: Directory, depth: int): seq<FileEntry>
    decreases d, |d.subdirs| + 1
  {
    d.files + (if depth > 0 then VisitedFrom(d, 0, depth - 1) else [])
  }

  /** The files visited in the subdirectories `d.subdirs[i..]`, each with budget `depth`. */
  function VisitedFrom(d: Directory, i: nat, depth: int): seq<FileEntry>
    requires i <= |d.subdirs|
    decreases d, |d.subdirs| - i
  {
    if i == |d.subdirs| then [] else Visited(d.subdirs[i], depth) + VisitedFrom(d, i + 1, depth)
  }

  /** The number of directories the walk visits, the root included. */
  function DirCount(d: Directory, depth: int): nat
    decreases d, |d.subdirs| + 1
  {
    1 + (if depth > 0 then DirCountFrom(d, 0, depth - 1) else 0)
  }

  function DirCountFrom(d: Directory, i: nat, depth: int): nat
    requires i <= |d.subdirs|
    decreases d, |d.subdirs| - i
  {
    if i == |d.subdirs| then 0 else DirCount(d.subdirs[i], depth) + DirCountFrom(d, i + 1, depth)
  }

  /** The full paths of a sequence of files, in order. */
  function Names(fs: seq<FileEntry>): (r: seq<string>)
    ensures |r| == |fs|
  {
    if fs == [] then [] else Names(fs[..|fs| - 1]) + [fs[|fs| - 1].fullName]
  }

  /** Entry `i` of the names is the name of file `i`. */
  lemma {:induction false} NamesIndexed(fs: seq<FileEntry>)
    ensures forall i :: 0 <= i < |fs| ==> Names(fs)[i] == fs[i].fullName
    decreases |fs|
  {
    if fs != [] {
      NamesIndexed(fs[..|fs| - 1]);
    }
  }

  /** Concatenation is associative. */
  lemma Assoc<T>(a: seq<T>, b: seq<T>, c: seq<T>)
    ensures (a + b) + c == a + (b + c)
  {
  }

  /** The empty sequence is neutral for concatenation. */
  lemma AppendEmpty<T>(a: seq<T>)
    ensures a + [] == a && [] + a == a
  {
  }

  /** A sequence is its prefix of length `k` followed by the rest. */
  lemma SplitAt<T>(s: seq<T>, k: nat)
    requires k <= |s|
    ensures s == s[..k] + s[k..]
  {
  }

  /** The prefix of length `k + 1` extends the prefix of length `k` by element `k`. */
  lemma TakeOneMore<T>(s: seq<T>, k: nat)
    requires k < |s|
    ensures s[..k + 1] == s[..k] + [s[k]]
  {
  }

  /** Removing the last element undoes appending it. */
  lemma DropLast<T>(s: seq<T>, x: T)
    ensures (s + [x])[..|s|] == s
  {
  }

  lemma {:induction false} NamesConcat(a: seq<FileEntry>, b: seq<FileEntry>)
    ensures Names(a + b) == Names(a) + Names(b)
  {
    NamesIndexed(a + b);
    NamesIndexed(a);
    NamesIndexed(b);
    assert |Names(a + b)| == |Names(a) + Names(b)|;
    forall i | 0 <= i < |a + b|
      ensures Names(a + b)[i] == (Names(a) + Names(b))[i]
    {
    }
  }

  /** No string occurs twice. */
  predicate Distinct(s: seq<string>)
  {
    forall i, j :: 0 <= i < j < |s| ==> s[i] != s[j]
  }

  /** The walk can add every file of `fs` to a dictionary already holding the
      keys `keys`: no path repeats, in `fs` or against `keys`. */
  predicate Fresh(keys: seq<string>, fs: seq<FileEntry>)
  {
    Distinct(keys + Names(fs))
  }

  /** Adding `a + b` succeeds exactly when adding `a` succeeds and then adding `b` does. */
  lemma FreshSplit(keys: seq<string>, a: seq<FileEntry>, b: seq<FileEntry>)
    ensures Fresh(keys, a + b) <==> Fresh(keys, a) && Fresh(keys + Names(a), b)
  {
    NamesConcat(a, b);
    var s := keys + Names(a);
    assert keys + Names(a + b) == s + Names(b);
    if Distinct(s + Names(b)) {
      assert s == (s + Names(b))[..|s|];
      forall i, j | 0 <= i < j < |s| ensures s[i] != s[j] {
        assert s[i] == (s + Names(b))[i] && s[j] == (s + Names(b))[j];
      }
    }
  }

  /** Adding one more file succeeds exactly when its path is new. */
  lemma FreshStep(keys: seq<string>, fs: seq<FileEntry>, f: FileEntry)
    ensures Fresh(keys, fs + [f]) <==> Fresh(keys, fs) && f.fullName !in keys + Names(fs)
  {
    FreshSplit(keys, fs, [f]);
    assert Names([f]) == [f.fullName] by {
      assert [f][..0] == [];
    }
    var s := keys + Names(fs);
    if f.fullName in s {
      var k :| 0 <= k < |s| && s[k] == f.fullName;
      assert (s + [f.fullName])[k] == (s + [f.fullName])[|s|];
    }
  }
}
