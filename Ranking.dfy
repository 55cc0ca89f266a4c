/**
 The path-to-size dictionary the walk fills, kept as its entries in insertion
 order, and the stable descending sort by size that the top-10 table is taken
 from. .NET leaves a dictionary's enumeration order undefined; the model
 assumes insertion order, which is what the implementation gives when entries
 are only added and never removed.
 */
module Ranking {
  import opened FileTree

  datatype SizeEntry = SizeEntry(path: string, size: nat)

  /** The keys of the dictionary, in enumeration order. */
  function Keys(es: seq<SizeEntry>): (r: seq<string>)
    ensures |r| == |es|
  {
    if es == [] then [] else Keys(es[..|es| - 1]) + [es[|es| - 1].path]
  }

  /** Key `i` is the path of entry `i`. */
  lemma {:induction false} KeysIndexed(es: seq<SizeEntry>)
    ensures forall i :: 0 <= i < |es| ==> Keys(es)[i] == es[i].path
    decreases |es|
  {
    if es != [] {
      KeysIndexed(es[..|es| - 1]);
    }
  }

  /** The entries the walk adds for the files `fs`: path to length, in order. */
  function Entries(fs: seq<FileEntry>): (r: seq<SizeEntry>)
    ensures |r| == |fs|
  {
    if fs == [] then [] else Entries(fs[..|fs| - 1]) + [SizeEntry(fs[|fs| - 1].fullName, fs[|fs| - 1].length)]
  }

  /** Entry `i` maps the path of file `i` to its length. */
  lemma {:induction false} EntriesIndexed(fs: seq<FileEntry>)
    ensures forall i :: 0 <= i < |fs| ==> Entries(fs)[i] == SizeEntry(fs[i].fullName, fs[i].length)
    decreases |fs|
  {
    if fs != [] {
      EntriesIndexed(fs[..|fs| - 1]);
    }
  }

  lemma EntriesConcat(es: seq<SizeEntry>, a: seq<FileEntry>, b: seq<FileEntry>)
    ensures Entries(a + b) == Entries(a) + Entries(b)
    ensures Keys(es + Entries(a)) == Keys(es) + Names(a)
  {
    EntriesIndexed(a + b);
    EntriesIndexed(a);
    EntriesIndexed(b);
    KeysIndexed(es + Entries(a));
    KeysIndexed(es);
    NamesIndexed(a);
    assert Entries(a + b) == Entries(a) + Entries(b) by {
      assert |Entries(a + b)| == |Entries(a) + Entries(b)|;
      forall i | 0 <= i < |a + b| ensures Entries(a + b)[i] == (Entries(a) + Entries(b))[i] {
      }
    }
    assert |Keys(es + Entries(a))| == |Keys(es) + Names(a)|;
    forall i | 0 <= i < |es| + |a| ensures Keys(es + Entries(a))[i] == (Keys(es) + Names(a))[i] {
    }
  }

  /** Sizes never increase from one entry to the next. */
  predicate NonIncreasing(s: seq<SizeEntry>)
  {
    forall i, j :: 0 <= i < j < |s| ==> s[i].size >= s[j].size
  }

  /** The entries of size `v`, in order. */
  function WithSize(s: seq<SizeEntry>, v: nat): seq<SizeEntry>
  {
    if s == [] then [] else (if s[0].size == v then [s[0]] else []) + WithSize(s[1..], v)
  }

  /** Places `x` after every leading entry at least as large as it: in a
      non-increasing sequence, after all entries of its own size. */
  function Insert(x: SizeEntry, t: seq<SizeEntry>): seq<SizeEntry>
  {
    if t == [] then [x]
    else if t[0].size >= x.size then [t[0]] + Insert(x, t[1..])
    else [x] + t
  }

  /** The dictionary's entries ordered by size, largest first; entries of equal
      size keep their enumeration order. */
  function SortDescending(s: seq<SizeEntry>): seq<SizeEntry>
  {
    if s == [] then [] else Insert(s[|s| - 1], SortDescending(s[..|s| - 1]))
  }

  /** Every entry has size at most `b`. */
  predicate AtMost(s: seq<SizeEntry>, b: nat)
  {
    forall i :: 0 <= i < |s| ==> s[i].size <= b
  }

  lemma SortedTail(t: seq<SizeEntry>)
    requires NonIncreasing(t) && t != []
    ensures NonIncreasing(t[1..]) && AtMost(t[1..], t[0].size)
  {
    var t' := t[1..];
    forall i, j | 0 <= i < j < |t'| ensures t'[i].size >= t'[j].size {
      assert t'[i] == t[i + 1] && t'[j] == t[j + 1];
    }
    forall i | 0 <= i < |t'| ensures t'[i].size <= t[0].size {
      assert t'[i] == t[i + 1];
    }
  }

  lemma SortedCons(h: SizeEntry, r: seq<SizeEntry>)
    requires NonIncreasing(r) && AtMost(r, h.size)
    ensures NonIncreasing([h] + r)
  {
    forall i, j | 0 <= i < j < |[h] + r| ensures ([h] + r)[i].size >= ([h] + r)[j].size {
      assert ([h] + r)[j] == r[j - 1];
      if i > 0 {
        assert ([h] + r)[i] == r[i - 1];
      }
    }
  }

  /** Inserting keeps every entry and adds `x`. */
  lemma {:induction false} InsertKeeps(x: SizeEntry, t: seq<SizeEntry>)
    ensures multiset(Insert(x, t)) == multiset(t) + multiset{x}
    ensures |Insert(x, t)| == |t| + 1
    decreases |t|
  {
    if t != [] && t[0].size >= x.size {
      InsertKeeps(x, t[1..]);
      assert t == [t[0]] + t[1..];
    }
  }

  /** Inserting an entry no larger than a bound keeps every entry under it. */
  lemma {:induction false} InsertBound(x: SizeEntry, t: seq<SizeEntry>, b: nat)
    requires AtMost(t, b) && x.size <= b
    ensures AtMost(Insert(x, t), b)
    decreases |t|
  {
    if t != [] && t[0].size >= x.size {
      var t' := t[1..];
      assert AtMost(t', b) by {
        forall i | 0 <= i < |t'| ensures t'[i].size <= b {
          assert t'[i] == t[i + 1];
        }
      }
      InsertBound(x, t', b);
      var r := Insert(x, t');
      forall i | 0 <= i < |[t[0]] + r| ensures ([t[0]] + r)[i].size <= b {
        if i > 0 {
          assert ([t[0]] + r)[i] == r[i - 1];
        }
      }
    }
  }

  lemma {:induction false} InsertSorted(x: SizeEntry, t: seq<SizeEntry>)
    requires NonIncreasing(t)
    ensures NonIncreasing(Insert(x, t))
    decreases |t|
  {
    if t == [] {
    } else if t[0].size >= x.size {
      var t' := t[1..];
      SortedTail(t);
      InsertSorted(x, t');
      InsertBound(x, t', t[0].size);
      SortedCons(t[0], Insert(x, t'));
    } else {
      assert AtMost(t, x.size) by {
        forall i | 0 <= i < |t| ensures t[i].size <= x.size {
          assert i == 0 || t[0].size >= t[i].size;
        }
      }
      SortedCons(x, t);
    }
  }

  /** The sort orders by size, largest first, and keeps every entry: it is a
      permutation of the dictionary's entries. */
  lemma {:induction false} SortedPermutation(s: seq<SizeEntry>)
    ensures NonIncreasing(SortDescending(s))
    ensures multiset(SortDescending(s)) == multiset(s)
    ensures |SortDescending(s)| == |s|
    decreases |s|
  {
    if s != [] {
      var init := s[..|s| - 1];
      SortedPermutation(init);
      InsertSorted(s[|s| - 1], SortDescending(init));
      InsertKeeps(s[|s| - 1], SortDescending(init));
      assert init + [s[|s| - 1]] == s;
    }
  }

  /** Row `i` of the sorted entries is the `i`-th largest: an entry larger than
      it stands above it. */
  lemma RankedAbove(s: seq<SizeEntry>, i: nat)
    requires i < |s|
    ensures |SortDescending(s)| == |s| && SortDescending(s)[i] in s
    ensures forall e :: e in s && e.size > SortDescending(s)[i].size ==> e in SortDescending(s)[..i]
  {
    SortedPermutation(s);
    var r := SortDescending(s);
    assert r[i] in multiset(r);
    forall e | e in s && e.size > r[i].size ensures e in r[..i] {
      assert e in multiset(s);
      var k :| 0 <= k < |r| && r[k] == e;
      assert r[..i][k] == e;
    }
  }

  lemma {:induction false} WithSizeConcat(a: seq<SizeEntry>, b: seq<SizeEntry>, v: nat)
    ensures WithSize(a + b, v) == WithSize(a, v) + WithSize(b, v)
    decreases |a|
  {
    if a == [] {
      assert a + b == b;
    } else {
      assert (a + b)[1..] == a[1..] + b && (a + b)[0] == a[0];
      WithSizeConcat(a[1..], b, v);
      Assoc(if a[0].size == v then [a[0]] else [], WithSize(a[1..], v), WithSize(b, v));
    }
  }

  lemma {:induction false} NoneOfSize(t: seq<SizeEntry>, v: nat)
    requires NonIncreasing(t)
    requires t != [] ==> t[0].size < v
    ensures WithSize(t, v) == []
    decreases |t|
  {
    if t != [] {
      var t' := t[1..];
      assert NonIncreasing(t') by {
        forall i, j | 0 <= i < j < |t'| ensures t'[i].size >= t'[j].size {
          assert t'[i] == t[i + 1] && t'[j] == t[j + 1];
        }
      }
      if t' != [] {
        assert t'[0] == t[1];
      }
      NoneOfSize(t', v);
    }
  }

  lemma {:induction false} InsertStable(x: SizeEntry, t: seq<SizeEntry>, v: nat)
    requires NonIncreasing(t)
    ensures WithSize(Insert(x, t), v) == if x.size == v then WithSize(t, v) + [x] else WithSize(t, v)
    decreases |t|
  {
    if t == [] {
      assert [x][1..] == [];
    } else if t[0].size >= x.size {
      var t' := t[1..];
      assert NonIncreasing(t') by {
        forall i, j | 0 <= i < j < |t'| ensures t'[i].size >= t'[j].size {
          assert t'[i] == t[i + 1] && t'[j] == t[j + 1];
        }
      }
      InsertStable(x, t', v);
      WithSizeConcat([t[0]], Insert(x, t'), v);
      WithSizeConcat([t[0]], t', v);
      assert [t[0]] + t' == t;
      assert WithSize([t[0]], v) == (if t[0].size == v then [t[0]] else []) by {
        assert [t[0]][1..] == [];
      }
    } else {
      WithSizeConcat([x], t, v);
      assert WithSize([x], v) == (if x.size == v then [x] else []) by {
        assert [x][1..] == [];
      }
      if x.size == v {
        NoneOfSize(t, v);
      }
    }
  }

  /** The sort is stable: for every size, the entries of that size appear in
      the sorted sequence in the same order as in the dictionary. */
  lemma {:induction false} SortStable(s: seq<SizeEntry>, v: nat)
    ensures WithSize(SortDescending(s), v) == WithSize(s, v)
    decreases |s|
  {
    if s != [] {
      var init := s[..|s| - 1];
      var x := s[|s| - 1];
      var sortedInit := SortDescending(init);
      assert SortDescending(s) == Insert(x, sortedInit);
      SortedPermutation(init);
      SortStable(init, v);
      InsertStable(x, sortedInit, v);
      TakeOneMore(s, |s| - 1);
      assert s[..|s|] == s;
      WithSizeConcat(init, [x], v);
      WithSizeSingle(x, v);
    }
  }

  lemma WithSizeSingle(x: SizeEntry, v: nat)
    ensures WithSize([x], v) == if x.size == v then [x] else []
  {
    assert [x][1..] == [];
  }
}
