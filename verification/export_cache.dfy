/** The selection rule of `check_cache_size`: with more than 50 files in the
    compiler cache, sort them by modification time and delete all but the
    last 50. Listing the directory, reading times and deleting are I/O and
    are left to the caller; the rule decides which names go. */
module ExportCache {

  /** A file of the cache directory and its modification time. */
  datatype CacheFile = CacheFile(name: string, mtime: int)

  /** How many files the cache keeps. */
  const CacheLimit: nat := 50

  predicate SortedByMtime(files: seq<CacheFile>) {
    forall i, j | 0 <= i < j < |files| :: files[i].mtime <= files[j].mtime
  }

  /** The files with modification time `t`, in their order. */
  function WithMtime(files: seq<CacheFile>, t: int): (r: seq<CacheFile>)
    ensures forall k | 0 <= k < |r| :: r[k].mtime == t
  {
    if files == [] then []
    else (if files[0].mtime == t then [files[0]] else []) + WithMtime(files[1..], t)
  }

  lemma {:induction false} WithMtimeAppend(a: seq<CacheFile>, b: seq<CacheFile>, t: int)
    ensures WithMtime(a + b, t) == WithMtime(a, t) + WithMtime(b, t)
    decreases |a|
  {
    if a == [] {
      assert a + b == b;
    } else {
      assert (a + b)[1..] == a[1..] + b;
      WithMtimeAppend(a[1..], b, t);
    }
  }

  /** `f` placed in front of the first file that is not older than it. */
  function InsertByMtime(f: CacheFile, sorted: seq<CacheFile>): (r: seq<CacheFile>)
    requires SortedByMtime(sorted)
    ensures SortedByMtime(r)
    ensures multiset(r) == multiset(sorted) + multiset{f}
    ensures |r| == |sorted| + 1
    ensures r[0] == f || (sorted != [] && r[0] == sorted[0])
  {
    if sorted == [] || f.mtime <= sorted[0].mtime then
      ConsSorted(f, sorted);
      var r := [f] + sorted;
      assert multiset(r) == multiset{f} + multiset(sorted);
      r
    else
      TailSorted(sorted);
      var rest := InsertByMtime(f, sorted[1..]);
      assert sorted == [sorted[0]] + sorted[1..];
      assert multiset(sorted) == multiset{sorted[0]} + multiset(sorted[1..]);
      ConsSorted(sorted[0], rest);
      var r := [sorted[0]] + rest;
      assert multiset(r) == multiset{sorted[0]} + multiset(rest);
      r
  }

  lemma TailSorted(files: seq<CacheFile>)
    requires SortedByMtime(files) && files != []
    ensures SortedByMtime(files[1..])
  {
    var t := files[1..];
    forall i, j | 0 <= i < j < |t| ensures t[i].mtime <= t[j].mtime {
      assert t[i] == files[i + 1] && t[j] == files[j + 1];
    }
  }

  /** A file no newer than the head of a sorted list extends it at the front. */
  lemma ConsSorted(x: CacheFile, rest: seq<CacheFile>)
    requires SortedByMtime(rest)
    requires rest == [] || x.mtime <= rest[0].mtime
    ensures SortedByMtime([x] + rest)
  {
    var r := [x] + rest;
    forall i, j | 0 <= i < j < |r| ensures r[i].mtime <= r[j].mtime {
      if i > 0 {
        assert r[i] == rest[i - 1] && r[j] == rest[j - 1];
      } else {
        assert r[j] == rest[j - 1];
      }
    }
  }

  /** `files.sort(key=mtime)`, an insertion sort standing for Python's stable sort. */
  function SortByMtime(files: seq<CacheFile>): (r: seq<CacheFile>)
    ensures SortedByMtime(r)
    ensures multiset(r) == multiset(files)
    ensures |r| == |files|
  {
    if files == [] then []
    else
      assert files == [files[0]] + files[1..];
      InsertByMtime(files[0], SortByMtime(files[1..]))
  }

  /** Inserting `f` puts it before every file of equal time. */
  lemma {:induction false} InsertKeepsTies(f: CacheFile, sorted: seq<CacheFile>, t: int)
    requires SortedByMtime(sorted)
    ensures WithMtime(InsertByMtime(f, sorted), t) == (if f.mtime == t then [f] else []) + WithMtime(sorted, t)
    decreases |sorted|
  {
    var mine := if f.mtime == t then [f] else [];
    InsertStep(f, sorted);
    if sorted == [] || f.mtime <= sorted[0].mtime {
      WithMtimeCons(f, sorted, t);
    } else {
      var rest := InsertByMtime(f, sorted[1..]);
      var head := if sorted[0].mtime == t then [sorted[0]] else [];
      var tail := WithMtime(sorted[1..], t);
      InsertKeepsTies(f, sorted[1..], t);
      WithMtimeCons(sorted[0], rest, t);
      WithMtimeCons(sorted[0], sorted[1..], t);
      assert sorted == [sorted[0]] + sorted[1..];
      SwapEmpty(head, mine, tail);
    }
  }

  lemma {:induction false} SwapEmpty(a: seq<CacheFile>, b: seq<CacheFile>, c: seq<CacheFile>)
    requires a == [] || b == []
    ensures a + (b + c) == b + (a + c)
  {
  }

  /** One step of the insertion. */
  lemma {:induction false} InsertStep(f: CacheFile, sorted: seq<CacheFile>)
    requires SortedByMtime(sorted)
    ensures sorted == [] || f.mtime <= sorted[0].mtime ==> InsertByMtime(f, sorted) == [f] + sorted
    ensures sorted != [] && sorted[0].mtime < f.mtime ==>
      SortedByMtime(sorted[1..]) && InsertByMtime(f, sorted) == [sorted[0]] + InsertByMtime(f, sorted[1..])
  {
    if sorted != [] {
      TailSorted(sorted);
    }
  }

  lemma {:induction false} WithMtimeCons(x: CacheFile, rest: seq<CacheFile>, t: int)
    ensures WithMtime([x] + rest, t) == (if x.mtime == t then [x] else []) + WithMtime(rest, t)
  {
    assert ([x] + rest)[1..] == rest;
  }

  /** The sort is stable: files with the same time keep their listing order. */
  lemma {:induction false} SortIsStable(files: seq<CacheFile>, t: int)
    ensures WithMtime(SortByMtime(files), t) == WithMtime(files, t)
    decreases |files|
  {
    if files != [] {
      SortIsStable(files[1..], t);
      InsertKeepsTies(files[0], SortByMtime(files[1..]), t);
    }
  }

  /** The files to delete and the files that stay. */
  datatype Eviction = Eviction(deleted: seq<CacheFile>, kept: seq<CacheFile>)

  /** `check_cache_size`'s choice: nothing with at most 50 files; otherwise
      the oldest `len(files) - 50` in sorted order, deleted oldest first. */
  function SelectEvictions(files: seq<CacheFile>): (e: Eviction)
    ensures |files| <= CacheLimit ==> e.deleted == [] && e.kept == files
    ensures |files| > CacheLimit ==> |e.deleted| == |files| - CacheLimit && |e.kept| == CacheLimit
    ensures multiset(e.deleted) + multiset(e.kept) == multiset(files)
    ensures SortedByMtime(e.deleted)
    ensures forall i, j | 0 <= i < |e.deleted| && 0 <= j < |e.kept| :: e.deleted[i].mtime <= e.kept[j].mtime
  {
    if |files| <= CacheLimit then Eviction([], files)
    else
      var sorted := SortByMtime(files);
      var cut := |files| - CacheLimit;
      assert sorted == sorted[..cut] + sorted[cut..];
      Eviction(sorted[..cut], sorted[cut..])
  }

  /** Among files with the same time, the ones listed first are deleted first:
      for every time, the deleted files followed by the kept ones are the
      listing's files of that time in listing order. */
  lemma EvictionKeepsListingOrder(files: seq<CacheFile>, t: int)
    requires |files| > CacheLimit
    ensures var e := SelectEvictions(files);
            WithMtime(e.deleted, t) + WithMtime(e.kept, t) == WithMtime(files, t)
  {
    var sorted := SortByMtime(files);
    var cut := |files| - CacheLimit;
    assert sorted == sorted[..cut] + sorted[cut..];
    WithMtimeAppend(sorted[..cut], sorted[cut..], t);
    SortIsStable(files, t);
  }
}
