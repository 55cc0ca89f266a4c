/**
 The per-extension statistics the walk accumulates: for each extension seen,
 how many files had it and their total length, kept with the order in which
 the extensions were first seen. The model takes that order as the
 dictionary's enumeration order: .NET leaves it undefined, and first-seen
 order is what the implementation gives when keys are only added and updated
 through the indexer, never removed.
 */
module ExtensionTally {
  import opened FileTree

  datatype ExtensionStats = ExtensionStats(count: nat, size: nat)

  type StatsMap = map<string, ExtensionStats>

  /** The entry for one more file: a first sighting creates count 1 and the
      file's length; a later one adds 1 to the count and the length to the size. */
  function Record(m: StatsMap, f: FileEntry): StatsMap
  {
    if f.extension in m
    then m[f.extension := ExtensionStats(m[f.extension].count + 1, m[f.extension].size + f.length)]
    else m[f.extension := ExtensionStats(1, f.length)]
  }

  /** Recording a file adds its extension to the keys, counts it once more
      with its length (from zero when absent), and leaves every other
      extension alone. */
  lemma RecordEffect(m: StatsMap, f: FileEntry, e: string)
    ensures Record(m, f).Keys == m.Keys + {f.extension}
    ensures Held(Record(m, f), e) ==
      if e == f.extension then ExtensionStats(Held(m, e).count + 1, Held(m, e).size + f.length) else Held(m, e)
  {
  }

  /** The statistics after recording the files `fs` in order. */
  function Tally(m: StatsMap, fs: seq<FileEntry>): StatsMap
  {
    if fs == [] then m else Record(Tally(m, fs[..|fs| - 1]), fs[|fs| - 1])
  }

  /** The enumeration order after recording `fs`: an extension is appended
      when it is first seen. */
  function Order(order: seq<string>, fs: seq<FileEntry>): seq<string>
  {
    if fs == [] then order
    else
      var before := Order(order, fs[..|fs| - 1]);
      var e := fs[|fs| - 1].extension;
      if e in before then before else before + [e]
  }

  /** How many of the files have extension `e`. */
  function CountOf(fs: seq<FileEntry>, e: string): nat
  {
    if fs == [] then 0 else CountOf(fs[1..], e) + (if fs[0].extension == e then 1 else 0)
  }

  /** The total length of the files with extension `e`. */
  function SizeOf(fs: seq<FileEntry>, e: string): nat
  {
    if fs == [] then 0 else SizeOf(fs[1..], e) + (if fs[0].extension == e then fs[0].length else 0)
  }

  /** The statistics held for `e`, taking an absent entry as zero files. */
  function Held(m: StatsMap, e: string): ExtensionStats
  {
    if e in m then m[e] else ExtensionStats(0, 0)
  }

  /** The order lists each key of the dictionary exactly once. */
  ghost predicate KeysInOrder(m: StatsMap, order: seq<string>)
  {
    Distinct(order) && (forall e :: e in m <==> e in order)
  }

  lemma {:induction false} CountSizeConcat(a: seq<FileEntry>, b: seq<FileEntry>, e: string)
    ensures CountOf(a + b, e) == CountOf(a, e) + CountOf(b, e)
    ensures SizeOf(a + b, e) == SizeOf(a, e) + SizeOf(b, e)
    decreases |a|
  {
    if a == [] {
      assert a + b == b;
    } else {
      assert (a + b)[1..] == a[1..] + b;
      CountSizeConcat(a[1..], b, e);
    }
  }

  lemma {:induction false} TallyConcat(m: StatsMap, order: seq<string>, a: seq<FileEntry>, b: seq<FileEntry>)
    ensures Tally(m, a + b) == Tally(Tally(m, a), b)
    ensures Order(order, a + b) == Order(Order(order, a), b)
    decreases |b|
  {
    if b == [] {
      assert a + b == a;
    } else {
      var b' := b[..|b| - 1];
      assert (a + b)[..|a + b| - 1] == a + b';
      assert (a + b)[|a + b| - 1] == b[|b| - 1];
      TallyConcat(m, order, a, b');
    }
  }

  /** After the files `fs`, the entry for `e` exists exactly when it did before
      or some file has extension `e`, and it holds the earlier count plus the
      number of such files and the earlier size plus the sum of their lengths.
      In particular an extension no file has keeps its entry unchanged. */
  lemma {:induction false} TallyHolds(m: StatsMap, fs: seq<FileEntry>, e: string)
    ensures e in Tally(m, fs) <==> e in m || CountOf(fs, e) > 0
    ensures Held(Tally(m, fs), e) == ExtensionStats(Held(m, e).count + CountOf(fs, e), Held(m, e).size + SizeOf(fs, e))
    decreases |fs|
  {
    if fs != [] {
      var init := fs[..|fs| - 1];
      var f := fs[|fs| - 1];
      TallyHolds(m, init, e);
      assert init + [f] == fs;
      CountSizeConcat(init, [f], e);
      assert [f][1..] == [];
    }
  }

  /** Started from an empty dictionary, as at program start, the entry for `e`
      exists exactly when some file has extension `e`, and then counts those
      files and sums their lengths. */
  lemma ScanStatistics(fs: seq<FileEntry>, e: string)
    ensures e in Tally(map[], fs) <==> CountOf(fs, e) > 0
    ensures e in Tally(map[], fs) ==> Tally(map[], fs)[e] == ExtensionStats(CountOf(fs, e), SizeOf(fs, e))
  {
    TallyHolds(map[], fs, e);
  }

  /** Recording files keeps the order a duplicate-free listing of the keys. */
  lemma {:induction false} OrderTracksKeys(m: StatsMap, order: seq<string>, fs: seq<FileEntry>)
    requires KeysInOrder(m, order)
    ensures KeysInOrder(Tally(m, fs), Order(order, fs))
    ensures order <= Order(order, fs)
    decreases |fs|
  {
    if fs != [] {
      OrderTracksKeys(m, order, fs[..|fs| - 1]);
      var before := Order(order, fs[..|fs| - 1]);
      var e := fs[|fs| - 1].extension;
      if e !in before {
        forall i, j | 0 <= i < j < |before + [e]| ensures (before + [e])[i] != (before + [e])[j] {
          if j == |before| {
            assert (before + [e])[i] == before[i];
          } else {
            assert (before + [e])[i] == before[i] && (before + [e])[j] == before[j];
          }
        }
      }
    }
  }

  lemma {:induction false} DistinctCardinality(s: seq<string>)
    requires Distinct(s)
    ensures |set x | x in s| == |s|
    decreases |s|
  {
    if s != [] {
      var init := s[..|s| - 1];
      assert Distinct(init) by {
        forall i, j | 0 <= i < j < |init| ensures init[i] != init[j] {
          assert init[i] == s[i] && init[j] == s[j];
        }
      }
      DistinctCardinality(init);
      assert (set x | x in s) == (set x | x in init) + {s[|s| - 1]};
      assert s[|s| - 1] !in init;
    }
  }

  /** The order has as many entries as the dictionary has keys. */
  lemma OrderLength(m: StatsMap, order: seq<string>)
    requires KeysInOrder(m, order)
    ensures |order| == |m|
  {
    DistinctCardinality(order);
    assert m.Keys == set x | x in order;
  }
}
