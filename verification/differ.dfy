/**
 * The differ: `check_children_of_dir` re-lists one directory and reconciles
 * the store with what it finds. It locates the directory's entry and the
 * depth-bounded range after it, marks the child-depth entries the listing
 * still names, scans child directories the range does not know, sets the
 * directory's own size, tombstones every unmarked child together with the
 * deeper entries after it, and compacts.
 *
 * The range is computed from depths alone over `strcmp` order, so it is the
 * run of entries deeper than the parent that follows it, which need not be
 * exactly the parent's descendants; everything here is stated against that
 * computed range.
 */
module Differ {
  import opened Options
  import opened CStrings
  import opened Files
  import opened DirStore
  import opened Scanner

  /** The end of the range after entry `k`: the first later entry no deeper than it, or `|s|`. */
  function RangeEnd(s: seq<DirItem>, k: nat): (e: nat)
    requires k < |s|
    ensures k < e <= |s|
    ensures forall j :: k < j < e ==> s[j].depth > s[k].depth
    ensures e < |s| ==> s[e].depth <= s[k].depth
  {
    RunStop(s, k + 1, s[k].depth)
  }

  /** The search for a listed path: the first live entry in `[lo, hi)` of that name at `depth`, or `hi`. */
  function FindIn(s: seq<DirItem>, lo: nat, hi: nat, depth: int, name: Path): (i: nat)
    requires lo <= hi <= |s|
    ensures lo <= i <= hi
    ensures i < hi ==> Named(s[i], name) && s[i].depth == depth
    ensures forall j :: lo <= j < i ==> !(Named(s[j], name) && s[j].depth == depth)
    decreases hi - lo
  {
    if lo == hi then hi
    else if Named(s[lo], name) && s[lo].depth == depth then lo
    else FindIn(s, lo + 1, hi, depth, name)
  }

  /** `t` agrees with `s` on names and depths over `[0, n)`. */
  predicate SameShape(s: seq<DirItem>, t: seq<DirItem>, n: nat)
    requires n <= |s| && n <= |t|
  {
    forall i :: 0 <= i < n ==> t[i].name == s[i].name && t[i].depth == s[i].depth
  }

  /** The search reads only names and depths. */
  lemma {:induction false} FindInSameShape(s: seq<DirItem>, t: seq<DirItem>, lo: nat, hi: nat, depth: int, name: Path)
    requires lo <= hi <= |s| && hi <= |t| && SameShape(s, t, hi)
    ensures FindIn(t, lo, hi, depth, name) == FindIn(s, lo, hi, depth, name)
    decreases hi - lo
  {
    if lo < hi {
      FindInSameShape(s, t, lo + 1, hi, depth, name);
    }
  }

  /**
   * The listing loop over `es[..n]`, on the range `[k, hi)` of a parent at
   * depth `cd`: for every entry other than `.` and `..`, flag the first live
   * range entry at depth `cd + 1` with that path; when there is none and
   * `lstat` reports a directory, run `iterate_subdirs(path, 1, 1, cd + 1)`.
   */
  function MarkEntries(fs: FileSystem, s: seq<DirItem>, dirname: Path, es: seq<DirEntry>, n: nat,
                       k: nat, hi: nat, cd: int): (t: seq<DirItem>)
    requires n <= |es| && k <= hi <= |s|
    ensures |s| <= |t| && SameShape(s, t, |s|)
    ensures forall i :: 0 <= i < |s| && !(k <= i < hi) ==> t[i].state == s[i].state
    ensures forall i :: |s| <= i < |t| ==> Live(t[i]) && t[i].state == 0
  {
    if n == 0 then s
    else
      var prev := MarkEntries(fs, s, dirname, es, n - 1, k, hi, cd);
      var en := es[n - 1];
      if Skipped(en) then prev
      else
        var path := Join(dirname, en.name);
        var i := FindIn(prev, k, hi, cd + 1, path);
        var marked := if i < hi then prev[i := prev[i].(state := 1)] else prev;
        if en.stat.Stat? && en.stat.isDir && i >= hi then Scan(fs, marked, path, true, true, cd + 1).items
        else marked
  }

  /** Some entry among `es[..n]` other than `.` and `..` finds range entry `j` in `s`. */
  predicate Listed(s: seq<DirItem>, dirname: Path, es: seq<DirEntry>, n: nat, k: nat, hi: nat, cd: int, j: nat)
    requires n <= |es| && k <= hi <= |s|
  {
    exists m :: 0 <= m < n && !Skipped(es[m]) && FindIn(s, k, hi, cd + 1, Join(dirname, es[m].name)) == j
  }

  /** The latest index in `(k, j]` at depth `cd + 1`, or `k`: the child whose subtree entry `j` trails. */
  function Head(s: seq<DirItem>, k: nat, j: nat, cd: int): (h: nat)
    requires k <= j < |s|
    ensures k <= h <= j
    ensures h > k ==> s[h].depth == cd + 1
    ensures forall x :: h < x <= j ==> s[x].depth != cd + 1
    decreases j - k
  {
    if j == k then k
    else if s[j].depth == cd + 1 then j
    else Head(s, k, j - 1, cd)
  }

  /**
   * The sweep's effect on range entry `j`: when its child-depth head is a
   * live, unflagged entry, `j` is tombstoned if live; otherwise an entry at
   * child depth has its flag cleared and a deeper one is left alone.
   */
  function SweepAt(s: seq<DirItem>, k: nat, j: nat, cd: int): DirItem
    requires k <= j < |s|
  {
    var h := Head(s, k, j, cd);
    if h > k && Live(s[h]) && s[h].state == 0 then
      (if Live(s[j]) then Tombstoned(s[j]) else s[j])
    else if s[j].depth == cd + 1 then s[j].(state := 0)
    else s[j]
  }

  function SweepSpec(s: seq<DirItem>, k: nat, hi: nat, cd: int): (t: seq<DirItem>)
    requires k <= hi <= |s|
    ensures |t| == |s|
  {
    seq(|s|, j requires 0 <= j < |s| => if k <= j < hi then SweepAt(s, k, j, cd) else s[j])
  }

  /** What the ENOENT branch leaves: zero sizes over `[k, hi)`, nothing else touched. */
  function ZeroRange(s: seq<DirItem>, k: nat, hi: nat): (t: seq<DirItem>)
    requires k <= hi <= |s|
    ensures |t| == |s|
  {
    seq(|s|, j requires 0 <= j < |s| => if k <= j < hi then s[j].(size := 0) else s[j])
  }

  /**
   * The entries after a successful listing, before the final compaction:
   * marking and scanning, the parent's size set to the listing's size, then
   * the sweep.
   */
  function Diffed(fs: FileSystem, s: seq<DirItem>, dirname: Path): (t: seq<DirItem>)
    requires HasLive(s, dirname) && OpenDir(fs, dirname).Opened?
    ensures |s| <= |t|
  {
    var es := OpenDir(fs, dirname).entries;
    var k := FirstLive(s, dirname);
    var hi := RangeEnd(s, k);
    var cd := s[k].depth;
    var marked := MarkEntries(fs, s, dirname, es, |es|, k, hi, cd);
    SweepSpec(marked[k := marked[k].(size := ListingSize(es))], k, hi, cd)
  }

  // ---------------------------------------------------------------------------
  // What the diff does to each entry
  // ---------------------------------------------------------------------------

  /** A range entry ends the listing loop flagged exactly when a listed path found it. */
  lemma {:induction false} MarkedState(fs: FileSystem, s: seq<DirItem>, dirname: Path, es: seq<DirEntry>, n: nat,
                                       k: nat, hi: nat, cd: int, j: nat)
    requires n <= |es| && k <= j < hi <= |s|
    ensures MarkEntries(fs, s, dirname, es, n, k, hi, cd)[j].state ==
            if Listed(s, dirname, es, n, k, hi, cd, j) then 1 else s[j].state
  {
    if n > 0 {
      MarkedState(fs, s, dirname, es, n - 1, k, hi, cd, j);
      var prev := MarkEntries(fs, s, dirname, es, n - 1, k, hi, cd);
      var en := es[n - 1];
      var path := Join(dirname, en.name);
      FindInSameShape(s, prev, k, hi, cd + 1, path);
      if Listed(s, dirname, es, n, k, hi, cd, j) && !Listed(s, dirname, es, n - 1, k, hi, cd, j) {
        var m :| 0 <= m < n && !Skipped(es[m]) && FindIn(s, k, hi, cd + 1, Join(dirname, es[m].name)) == j;
        assert m == n - 1;
      }
      if !Skipped(en) && FindIn(s, k, hi, cd + 1, path) == j {
        assert Listed(s, dirname, es, n, k, hi, cd, j);
      }
    }
  }

  /**
   * How the listing loop discovers a subdirectory: a listed directory with
   * no live entry at child depth in the range is scanned with
   * `iterate_subdirs(path, 1, 1, cd + 1)`, and then has an entry.
   */
  lemma MarkEntriesDiscovers(fs: FileSystem, s: seq<DirItem>, dirname: Path, es: seq<DirEntry>, n: nat,
                             k: nat, hi: nat, cd: int)
    requires 0 < n <= |es| && k <= hi <= |s|
    ensures var prev := MarkEntries(fs, s, dirname, es, n - 1, k, hi, cd);
            var en := es[n - 1];
            var path := Join(dirname, en.name);
            var t := MarkEntries(fs, s, dirname, es, n, k, hi, cd);
            !Skipped(en) && en.stat.Stat? && en.stat.isDir && FindIn(prev, k, hi, cd + 1, path) >= hi ==>
              t == Scan(fs, prev, path, true, true, cd + 1).items && HasLive(t, path)
  {
    var prev := MarkEntries(fs, s, dirname, es, n - 1, k, hi, cd);
    var path := Join(dirname, es[n - 1].name);
    ScanRecordsSize(fs, prev, path, true, true, cd + 1);
  }

  /**
   * `t` has a live entry called `path` that the sweep of `[k, hi)` spares:
   * outside the range, or inside it at child depth and flagged.
   */
  ghost predicate Kept(t: seq<DirItem>, path: Path, k: nat, hi: nat, cd: int) {
    exists j :: 0 <= j < |t| && Named(t[j], path) && (k <= j < hi ==> t[j].depth == cd + 1 && t[j].state == 1)
  }

  /** Keeping names and depths and never clearing a flag keeps a kept entry kept. */
  lemma KeptStep(t: seq<DirItem>, u: seq<DirItem>, path: Path, k: nat, hi: nat, cd: int)
    requires |t| <= |u| && Kept(t, path, k, hi, cd)
    requires forall i :: 0 <= i < |t| ==>
               u[i].name == t[i].name && u[i].depth == t[i].depth && (t[i].state == 1 ==> u[i].state == 1)
    ensures Kept(u, path, k, hi, cd)
  {
    var j :| 0 <= j < |t| && Named(t[j], path) && (k <= j < hi ==> t[j].depth == cd + 1 && t[j].state == 1);
    assert Named(u[j], path);
  }

  /** Flagging the entry a listed path found keeps kept entries kept and makes that path kept. */
  lemma KeptMark(prev: seq<DirItem>, p: Path, path: Path, k: nat, hi: nat, cd: int)
    requires k <= hi <= |prev| && (Kept(prev, path, k, hi, cd) || path == p)
    ensures var i := FindIn(prev, k, hi, cd + 1, p);
            var marked := if i < hi then prev[i := prev[i].(state := 1)] else prev;
            Kept(marked, path, k, hi, cd) || (i >= hi && path == p)
  {
    var i := FindIn(prev, k, hi, cd + 1, p);
    var marked := if i < hi then prev[i := prev[i].(state := 1)] else prev;
    if Kept(prev, path, k, hi, cd) {
      KeptStep(prev, marked, path, k, hi, cd);
    } else if i < hi {
      assert Named(marked[i], path) && marked[i].depth == cd + 1 && marked[i].state == 1;
    }
  }

  /** The scan of a new subdirectory keeps kept entries kept and makes the subdirectory kept. */
  lemma KeptScan(fs: FileSystem, marked: seq<DirItem>, p: Path, path: Path, k: nat, hi: nat, cd: int)
    requires hi <= |marked| && (Kept(marked, path, k, hi, cd) || path == p)
    ensures Kept(Scan(fs, marked, p, true, true, cd + 1).items, path, k, hi, cd)
  {
    var r := Scan(fs, marked, p, true, true, cd + 1).items;
    if Kept(marked, path, k, hi, cd) {
      KeptStep(marked, r, path, k, hi, cd);
    } else {
      ScanKeepsAdded(fs, marked, p, true, cd + 1);
      assert Named(r[|marked|], path);
    }
  }

  /** One step of the listing loop: earlier kept entries stay kept, and a listed directory becomes kept. */
  lemma MarkEntriesKeepsStep(fs: FileSystem, s: seq<DirItem>, dirname: Path, es: seq<DirEntry>, n: nat,
                             k: nat, hi: nat, cd: int, path: Path)
    requires 0 < n <= |es| && k <= hi <= |s|
    requires Kept(MarkEntries(fs, s, dirname, es, n - 1, k, hi, cd), path, k, hi, cd) ||
             (path == Join(dirname, es[n - 1].name) && !Skipped(es[n - 1]) && es[n - 1].stat.Stat? && es[n - 1].stat.isDir)
    ensures Kept(MarkEntries(fs, s, dirname, es, n, k, hi, cd), path, k, hi, cd)
  {
    var prev := MarkEntries(fs, s, dirname, es, n - 1, k, hi, cd);
    var en := es[n - 1];
    if !Skipped(en) {
      var p := Join(dirname, en.name);
      KeptMark(prev, p, path, k, hi, cd);
      var i := FindIn(prev, k, hi, cd + 1, p);
      var marked := if i < hi then prev[i := prev[i].(state := 1)] else prev;
      if en.stat.Stat? && en.stat.isDir && i >= hi {
        KeptScan(fs, marked, p, path, k, hi, cd);
      }
    }
  }

  /** After the listing loop over `es[..n]`, every listed directory is kept. */
  lemma {:induction false} MarkEntriesKeepsDirs(fs: FileSystem, s: seq<DirItem>, dirname: Path, es: seq<DirEntry>, n: nat,
                                                k: nat, hi: nat, cd: int, m: nat)
    requires n <= |es| && k <= hi <= |s| && m < n
    requires !Skipped(es[m]) && es[m].stat.Stat? && es[m].stat.isDir
    ensures Kept(MarkEntries(fs, s, dirname, es, n, k, hi, cd), Join(dirname, es[m].name), k, hi, cd)
  {
    if m < n - 1 {
      MarkEntriesKeepsDirs(fs, s, dirname, es, n - 1, k, hi, cd, m);
    }
    MarkEntriesKeepsStep(fs, s, dirname, es, n, k, hi, cd, Join(dirname, es[m].name));
  }

  /** The sweep spares a kept entry: it is still live after `Diffed`. */
  lemma DiffedKeepsDirs(fs: FileSystem, s: seq<DirItem>, dirname: Path, m: nat)
    requires HasLive(s, dirname) && OpenDir(fs, dirname).Opened?
    requires var es := OpenDir(fs, dirname).entries;
             m < |es| && !Skipped(es[m]) && es[m].stat.Stat? && es[m].stat.isDir
    ensures HasLive(Diffed(fs, s, dirname), Join(dirname, OpenDir(fs, dirname).entries[m].name))
  {
    var es, k := OpenDir(fs, dirname).entries, FirstLive(s, dirname);
    var hi, cd := RangeEnd(s, k), s[k].depth;
    var path := Join(dirname, es[m].name);
    MarkEntriesKeepsDirs(fs, s, dirname, es, |es|, k, hi, cd, m);
    var marked := MarkEntries(fs, s, dirname, es, |es|, k, hi, cd);
    var sized := marked[k := marked[k].(size := ListingSize(es))];
    var j :| 0 <= j < |marked| && Named(marked[j], path) && (k <= j < hi ==> marked[j].depth == cd + 1 && marked[j].state == 1);
    if k <= j < hi {
      assert j != k;
      assert Head(sized, k, j, cd) == j;
    }
    assert Named(Diffed(fs, s, dirname)[j], path);
    HasLiveIff(Diffed(fs, s, dirname), path);
  }

  /**
   * After a diff that listed the directory, every listed subdirectory has a
   * live entry: an existing child entry was flagged and spared, and a new
   * one was added by its scan.
   */
  lemma DiffKeepsListedDirs(fs: FileSystem, s: seq<DirItem>, t: seq<DirItem>, dirname: Path, r: int, m: nat)
    requires HasLive(s, dirname) && OpenDir(fs, dirname).Opened? && DiffOutcome(fs, s, t, dirname, r)
    requires var es := OpenDir(fs, dirname).entries;
             m < |es| && !Skipped(es[m]) && es[m].stat.Stat? && es[m].stat.isDir
    ensures HasLive(t, Join(dirname, OpenDir(fs, dirname).entries[m].name))
  {
    var d := Diffed(fs, s, dirname);
    var path := Join(dirname, OpenDir(fs, dirname).entries[m].name);
    DiffedKeepsDirs(fs, s, dirname, m);
    HasLiveIff(d, path);
    var j :| 0 <= j < |d| && Named(d[j], path);
    assert d[j] in multiset(d);
    assert multiset(t)[d[j]] > 0;
    HasLiveIff(t, path);
  }

  /** In `s`, no range entry lies outside the range's depth bound. */
  predicate RangeDeeper(s: seq<DirItem>, k: nat, hi: nat, cd: int)
    requires k <= hi <= |s|
  {
    forall j :: k < j < hi ==> s[j].depth > cd
  }

  /**
   * The fate of a live, unflagged child entry of the directory: it survives
   * the diff exactly when some listed name found it, and then unflagged.
   */
  lemma DiffChildFate(fs: FileSystem, s: seq<DirItem>, dirname: Path, j: nat)
    requires HasLive(s, dirname) && OpenDir(fs, dirname).Opened?
    requires FirstLive(s, dirname) < j < RangeEnd(s, FirstLive(s, dirname))
    requires Live(s[j]) && s[j].depth == s[FirstLive(s, dirname)].depth + 1 && s[j].state == 0
    ensures var es, k := OpenDir(fs, dirname).entries, FirstLive(s, dirname);
            && (Live(Diffed(fs, s, dirname)[j]) <==>
                  Listed(s, dirname, es, |es|, k, RangeEnd(s, k), s[k].depth, j))
            && Diffed(fs, s, dirname)[j].state == 0
  {
    var es, k := OpenDir(fs, dirname).entries, FirstLive(s, dirname);
    var hi, cd := RangeEnd(s, k), s[k].depth;
    MarkedState(fs, s, dirname, es, |es|, k, hi, cd, j);
    var marked := MarkEntries(fs, s, dirname, es, |es|, k, hi, cd);
    var sized := marked[k := marked[k].(size := ListingSize(es))];
    assert Head(sized, k, j, cd) == j;
  }

  /**
   * The fate of a live entry deeper than child depth in the range: it
   * survives exactly when the child entry it trails survives, or when no
   * child entry precedes it in the range.
   */
  lemma DiffDeeperFate(fs: FileSystem, s: seq<DirItem>, dirname: Path, j: nat)
    requires HasLive(s, dirname) && OpenDir(fs, dirname).Opened? && Clean(s)
    requires FirstLive(s, dirname) < j < RangeEnd(s, FirstLive(s, dirname))
    requires s[j].depth > s[FirstLive(s, dirname)].depth + 1
    ensures var es, k := OpenDir(fs, dirname).entries, FirstLive(s, dirname);
            var h := Head(s, k, j, s[k].depth);
            && (Live(Diffed(fs, s, dirname)[j]) <==>
                  h == k || Listed(s, dirname, es, |es|, k, RangeEnd(s, k), s[k].depth, h))
            && Diffed(fs, s, dirname)[j].state == 0
  {
    var es, k := OpenDir(fs, dirname).entries, FirstLive(s, dirname);
    var hi, cd := RangeEnd(s, k), s[k].depth;
    var marked := MarkEntries(fs, s, dirname, es, |es|, k, hi, cd);
    var sized := marked[k := marked[k].(size := ListingSize(es))];
    HeadSameShape(s, sized, k, j, cd);
    var h := Head(s, k, j, cd);
    if h > k {
      MarkedState(fs, s, dirname, es, |es|, k, hi, cd, h);
    }
    MarkedState(fs, s, dirname, es, |es|, k, hi, cd, j);
  }

  lemma {:induction false} HeadSameShape(s: seq<DirItem>, t: seq<DirItem>, k: nat, j: nat, cd: int)
    requires k <= j < |s| && j < |t| && SameShape(s, t, j + 1)
    ensures Head(t, k, j, cd) == Head(s, k, j, cd)
    decreases j - k
  {
    if k < j {
      HeadSameShape(s, t, k, j - 1, cd);
    }
  }

  /** The directory's own entry keeps its name, depth and flag and takes the listing's size. */
  lemma DiffParentSize(fs: FileSystem, s: seq<DirItem>, dirname: Path)
    requires HasLive(s, dirname) && OpenDir(fs, dirname).Opened?
    ensures var k := FirstLive(s, dirname);
            Diffed(fs, s, dirname)[k] == s[k].(size := ListingSize(OpenDir(fs, dirname).entries))
  {
    var es, k := OpenDir(fs, dirname).entries, FirstLive(s, dirname);
    var hi, cd := RangeEnd(s, k), s[k].depth;
    var marked := MarkEntries(fs, s, dirname, es, |es|, k, hi, cd);
    MarkedState(fs, s, dirname, es, |es|, k, hi, cd, k);
    forall m | 0 <= m < |es| ensures FindIn(s, k, hi, cd + 1, Join(dirname, es[m].name)) != k {
    }
  }

  /**
   * Between top-level operations every counted entry is live and unflagged;
   * a diff keeps every entry it leaves live unflagged, so the compaction
   * that follows restores that state.
   */
  lemma DiffKeepsClean(fs: FileSystem, s: seq<DirItem>, dirname: Path)
    requires HasLive(s, dirname) && OpenDir(fs, dirname).Opened? && Clean(s)
    ensures forall j :: 0 <= j < |Diffed(fs, s, dirname)| && Live(Diffed(fs, s, dirname)[j]) ==>
              Diffed(fs, s, dirname)[j].state == 0
  {
    var es, k := OpenDir(fs, dirname).entries, FirstLive(s, dirname);
    var hi, cd := RangeEnd(s, k), s[k].depth;
    var t := Diffed(fs, s, dirname);
    forall j | 0 <= j < |t| && Live(t[j]) ensures t[j].state == 0 {
      if k <= j < hi && j < |s| {
        MarkedState(fs, s, dirname, es, |es|, k, hi, cd, j);
      }
    }
  }

  /**
   * What `check_children_of_dir(dirname)` answers and leaves, from `s` to
   * `t`: -1 and nothing changed when no live entry has the name; after
   * ENOENT, 0 and zero sizes over the range; after a listing, 0 and the
   * compacted diff.
   */
  ghost predicate DiffOutcome(fs: FileSystem, s: seq<DirItem>, t: seq<DirItem>, dirname: Path, r: int)
    requires HasLive(s, dirname) ==> !OpenDir(fs, dirname).OpenFailed?
  {
    if !HasLive(s, dirname) then r == -1 && t == s
    else
      var k := FirstLive(s, dirname);
      && r == 0
      && match OpenDir(fs, dirname)
         case NoEntry => t == ZeroRange(s, k, RangeEnd(s, k))
         case Opened(_) => Sorted(t) && AllLive(t) && SameLive(t, Diffed(fs, s, dirname))
  }

  /** A diff started between top-level operations ends in that state too. */
  lemma DiffOutcomeKeepsClean(fs: FileSystem, s: seq<DirItem>, t: seq<DirItem>, dirname: Path, r: int)
    requires HasLive(s, dirname) ==> !OpenDir(fs, dirname).OpenFailed?
    requires DiffOutcome(fs, s, t, dirname, r) && Clean(s)
    ensures Clean(t)
  {
    if HasLive(s, dirname) && OpenDir(fs, dirname).Opened? {
      DiffKeepsClean(fs, s, dirname);
      SameLiveClean(t, Diffed(fs, s, dirname));
    }
  }

  // ---------------------------------------------------------------------------
  // The methods
  // ---------------------------------------------------------------------------

  /** The first live entry called `name`: the parent search of `check_children_of_dir`. */
  method FindParent(store: ItemStore, name: Path) returns (i: nat)
    requires store.Valid()
    ensures i == FirstLive(store.Contents(), name)
  {
    i := 0;
    while i < store.count
      invariant i <= store.count
      invariant forall j :: 0 <= j < i ==> !Named(store.items[j], name)
    {
      if store.items[i].name == Some(name) {
        return;
      }
      i := i + 1;
    }
  }

  /** The range scan: from `k + 1`, stop at the first entry no deeper than entry `k`. */
  method FindRangeEnd(store: ItemStore, k: nat) returns (e: nat)
    requires store.Valid() && k < store.count
    ensures e == RangeEnd(store.Contents(), k)
  {
    ghost var s := store.Contents();
    var depth := store.items[k].depth;
    e := k + 1;
    while e < store.count
      invariant k < e <= store.count
      invariant RunStop(s, e, depth) == RunStop(s, k + 1, depth)
    {
      if store.items[e].depth <= depth {
        break;
      }
      e := e + 1;
    }
  }

  /** The inner search of the listing loop. */
  method SearchRange(store: ItemStore, lo: nat, hi: nat, depth: int, name: Path) returns (i: nat)
    requires store.Valid() && lo <= hi <= store.count
    ensures i == FindIn(store.Contents(), lo, hi, depth, name)
  {
    ghost var s := store.Contents();
    i := lo;
    while i < hi
      invariant lo <= i <= hi
      invariant FindIn(s, i, hi, depth, name) == FindIn(s, lo, hi, depth, name)
    {
      if store.items[i].name != None && store.items[i].depth == depth && store.items[i].name == Some(name) {
        return;
      }
      i := i + 1;
    }
  }

  /** The listing loop: flag what is still there, scan what is new, sum the sizes. */
  method MarkListing(store: ItemStore, fs: FileSystem, dirname: Path, es: seq<DirEntry>, k: nat, hi: nat, cd: int)
    returns (size: int)
    requires store.Valid() && k <= hi <= store.count
    modifies store, store.items
    ensures store.Valid() && (store.items == old(store.items) || fresh(store.items))
    ensures store.Contents() == MarkEntries(fs, old(store.Contents()), dirname, es, |es|, k, hi, cd)
    ensures size == ListingSize(es)
  {
    ghost var s := store.Contents();
    size := 0;
    var n := 0;
    while n < |es|
      invariant n <= |es|
      invariant store.Valid() && (store.items == old(store.items) || fresh(store.items))
      invariant hi <= |s| <= store.count
      invariant store.Contents() == MarkEntries(fs, s, dirname, es, n, k, hi, cd)
      invariant size == ListingSize(es[..n])
    {
      ListingSizeStep(es, n);
      var d := MarkEntry(store, fs, dirname, es, n, k, hi, cd, s);
      size := size + d;
      n := n + 1;
    }
    assert es[..|es|] == es;
  }

  /** One entry of the listing loop: flag its range entry, or scan it when it is a new directory. */
  method MarkEntry(store: ItemStore, fs: FileSystem, dirname: Path, es: seq<DirEntry>, n: nat, k: nat, hi: nat, cd: int,
                   ghost s: seq<DirItem>)
    returns (d: int)
    requires n < |es| && k <= hi <= |s|
    requires store.Valid() && store.Contents() == MarkEntries(fs, s, dirname, es, n, k, hi, cd)
    modifies store, store.items
    ensures store.Valid() && (store.items == old(store.items) || fresh(store.items))
    ensures store.Contents() == MarkEntries(fs, s, dirname, es, n + 1, k, hi, cd)
    ensures d == EntrySize(es[n])
  {
    var en := es[n];
    d := 0;
    if !Skipped(en) {
      var path := Join(dirname, en.name);
      var i := SearchRange(store, k, hi, cd + 1, path);
      if i < hi {
        store.items[i] := store.items[i].(state := 1);
      }
      if en.stat.Stat? {
        if en.stat.isDir && i >= hi {
          var _ := IterateSubdirs(store, fs, path, true, true, cd + 1);
        }
        d := en.stat.size;
      }
    }
  }

  /** The sweep after the outer loop has passed `[k, i)`: every entry whose head lies before `i` is swept. */
  ghost function SweptUpTo(s: seq<DirItem>, k: nat, hi: nat, cd: int, i: nat): (t: seq<DirItem>)
    requires k <= hi <= |s|
    ensures |t| == |s|
  {
    seq(|s|, j requires 0 <= j < |s| => if k <= j < hi && Head(s, k, j, cd) < i then SweepAt(s, k, j, cd) else s[j])
  }

  /** The sweep in the middle of the inner loop for the child at `i`, which has passed `[i, j)`. */
  ghost function SweptRun(s: seq<DirItem>, k: nat, hi: nat, cd: int, i: nat, j: nat): (t: seq<DirItem>)
    requires k <= hi <= |s|
    ensures |t| == |s|
  {
    seq(|s|, x requires 0 <= x < |s| =>
      if k <= x < hi && (Head(s, k, x, cd) < i || i <= x < j) then SweepAt(s, k, x, cd) else s[x])
  }

  lemma SweptStart(s: seq<DirItem>, k: nat, hi: nat, cd: int)
    requires k <= hi <= |s|
    ensures SweptUpTo(s, k, hi, cd, k) == s
  {
  }

  lemma SweptEnd(s: seq<DirItem>, k: nat, hi: nat, cd: int)
    requires k <= hi <= |s|
    ensures SweptUpTo(s, k, hi, cd, hi) == SweepSpec(s, k, hi, cd)
  {
  }

  /** The outer loop passes an entry that is not at child depth. */
  lemma SweptSkip(s: seq<DirItem>, k: nat, hi: nat, cd: int, i: nat)
    requires k <= i < hi <= |s| && s[k].depth == cd && s[i].depth != cd + 1
    ensures SweptUpTo(s, k, hi, cd, i + 1) == SweptUpTo(s, k, hi, cd, i)
  {
  }

  /** The outer loop reaches a child entry untouched. */
  lemma SweptAtChild(s: seq<DirItem>, k: nat, hi: nat, cd: int, i: nat)
    requires k < i < hi <= |s| && s[i].depth == cd + 1
    ensures SweptUpTo(s, k, hi, cd, i)[i] == s[i]
  {
  }

  /** The outer loop clears the flag of a child it keeps. */
  lemma SweptReset(s: seq<DirItem>, k: nat, hi: nat, cd: int, i: nat)
    requires k < i < hi <= |s| && s[i].depth == cd + 1 && !(Live(s[i]) && s[i].state == 0)
    ensures SweptUpTo(s, k, hi, cd, i)[i := s[i].(state := 0)] == SweptUpTo(s, k, hi, cd, i + 1)
  {
  }

  lemma SweptRunStart(s: seq<DirItem>, k: nat, hi: nat, cd: int, i: nat)
    requires k <= i <= hi <= |s|
    ensures SweptRun(s, k, hi, cd, i, i) == SweptUpTo(s, k, hi, cd, i)
  {
  }

  /** The inner loop tombstones an entry that trails the unflagged child at `i`. */
  lemma SweptRunStep(s: seq<DirItem>, k: nat, hi: nat, cd: int, i: nat, j: nat)
    requires k < i <= j < hi <= |s| && s[i].depth == cd + 1 && Live(s[i]) && s[i].state == 0
    requires forall x :: i < x <= j ==> s[x].depth != cd + 1
    ensures SweptRun(s, k, hi, cd, i, j)[j] == s[j]
    ensures SweptRun(s, k, hi, cd, i, j)[j := if Live(s[j]) then Tombstoned(s[j]) else s[j]] ==
            SweptRun(s, k, hi, cd, i, j + 1)
  {
    assert Head(s, k, j, cd) == i;
  }

  /** The inner loop stops at the next child or at the end of the range. */
  lemma SweptRunEnd(s: seq<DirItem>, k: nat, hi: nat, cd: int, i: nat, j: nat)
    requires k < i < j <= hi <= |s| && s[i].depth == cd + 1
    requires forall x :: i < x < j ==> s[x].depth != cd + 1
    requires j < hi ==> s[j].depth == cd + 1
    ensures SweptRun(s, k, hi, cd, i, j) == SweptUpTo(s, k, hi, cd, i + 1)
  {
    forall x | k <= x < hi
      ensures (Head(s, k, x, cd) < i || i <= x < j) == (Head(s, k, x, cd) < i + 1)
    {
      if i <= x < j {
        assert Head(s, k, x, cd) == i;
      } else if j <= x {
        assert Head(s, k, x, cd) >= j;
      }
    }
  }

  /** The sweep over the range: tombstone unflagged children with their trailing deeper entries. */
  method Sweep(store: ItemStore, k: nat, hi: nat, cd: int)
    requires store.Valid() && k < hi <= store.count && RangeDeeper(store.Contents(), k, hi, cd)
    requires store.items[k].depth == cd
    modifies store.items
    ensures store.Valid()
    ensures store.Contents() == SweepSpec(old(store.Contents()), k, hi, cd)
  {
    ghost var s := store.Contents();
    SweptStart(s, k, hi, cd);
    var i := k;
    while i < hi
      invariant k <= i <= hi
      invariant store.Valid() && store.count == |s|
      invariant store.Contents() == SweptUpTo(s, k, hi, cd, i)
    {
      SweepEntry(store, s, k, hi, cd, i);
      i := i + 1;
    }
    SweptEnd(s, k, hi, cd);
  }

  /** One step of the outer loop of the sweep, at range entry `i`. */
  method SweepEntry(store: ItemStore, ghost s: seq<DirItem>, k: nat, hi: nat, cd: int, i: nat)
    requires store.Valid() && k <= i < hi <= store.count == |s| && RangeDeeper(s, k, hi, cd) && s[k].depth == cd
    requires store.Contents() == SweptUpTo(s, k, hi, cd, i)
    modifies store.items
    ensures store.Contents() == SweptUpTo(s, k, hi, cd, i + 1)
  {
    if store.items[i].depth == cd + 1 {
      assert i > k;
      SweptAtChild(s, k, hi, cd, i);
      if store.items[i].name != None && store.items[i].state == 0 {
        SweptRunStart(s, k, hi, cd, i);
        SweepChild(store, s, k, hi, cd, i);
      } else {
        SweptReset(s, k, hi, cd, i);
        store.items[i] := store.items[i].(state := 0);
        assert store.Contents() == SweptUpTo(s, k, hi, cd, i)[i := s[i].(state := 0)];
      }
    } else {
      SweptSkip(s, k, hi, cd, i);
    }
  }

  /** The inner loop of the sweep, for a live unflagged child at `i`. */
  method SweepChild(store: ItemStore, ghost s: seq<DirItem>, k: nat, hi: nat, cd: int, i: nat)
    requires store.Valid() && k < i < hi <= store.count == |s| && RangeDeeper(s, k, hi, cd)
    requires s[i].depth == cd + 1 && Live(s[i]) && s[i].state == 0
    requires store.Contents() == SweptRun(s, k, hi, cd, i, i)
    modifies store.items
    ensures store.Contents() == SweptUpTo(s, k, hi, cd, i + 1)
  {
    var j := i;
    while j < hi && (j == i || store.items[j].depth > cd + 1)
      invariant i <= j <= hi
      invariant forall x :: i < x < j ==> s[x].depth != cd + 1
      invariant store.Contents() == SweptRun(s, k, hi, cd, i, j)
    {
      SweptRunDepth(s, k, hi, cd, i, j, j);
      SweepRunEntry(store, s, k, hi, cd, i, j);
      j := j + 1;
    }
    if j < hi {
      SweptRunDepth(s, k, hi, cd, i, j, j);
    }
    SweptRunEnd(s, k, hi, cd, i, j);
  }

  /** The sweep keeps every entry's depth. */
  lemma SweptRunDepth(s: seq<DirItem>, k: nat, hi: nat, cd: int, i: nat, j: nat, x: nat)
    requires k <= hi <= |s| && x < |s|
    ensures SweptRun(s, k, hi, cd, i, j)[x].depth == s[x].depth
  {
  }

  /** One step of the inner loop: tombstone entry `j` if it is live. */
  method SweepRunEntry(store: ItemStore, ghost s: seq<DirItem>, k: nat, hi: nat, cd: int, i: nat, j: nat)
    requires store.Valid() && k < i <= j < hi <= store.count == |s|
    requires s[i].depth == cd + 1 && Live(s[i]) && s[i].state == 0
    requires forall x :: i < x <= j ==> s[x].depth != cd + 1
    requires store.Contents() == SweptRun(s, k, hi, cd, i, j)
    modifies store.items
    ensures store.Contents() == SweptRun(s, k, hi, cd, i, j + 1)
  {
    SweptRunStep(s, k, hi, cd, i, j);
    if store.items[j].name != None {
      store.items[j] := Tombstoned(store.items[j]);
    } else {
      assert SweptRun(s, k, hi, cd, i, j)[j := s[j]] == SweptRun(s, k, hi, cd, i, j);
    }
  }

  /** The ENOENT branch: zero the sizes over the range. */
  method ZeroSizes(store: ItemStore, k: nat, hi: nat)
    requires store.Valid() && k <= hi <= store.count
    modifies store.items
    ensures store.Valid()
    ensures store.Contents() == ZeroRange(old(store.Contents()), k, hi)
  {
    ghost var s := store.Contents();
    var i := k;
    while i < hi
      invariant k <= i <= hi
      invariant forall j :: 0 <= j < store.count ==> store.items[j] == if k <= j < i then s[j].(size := 0) else s[j]
    {
      store.items[i] := store.items[i].(size := 0);
      i := i + 1;
    }
    assert store.Contents() == ZeroRange(s, k, hi);
  }

  /**
   * `check_children_of_dir`. An `opendir` failure other than ENOENT, for a
   * directory the store knows, is excluded: the source then reads from a
   * NULL directory stream.
   */
  method CheckChildrenOfDir(store: ItemStore, fs: FileSystem, dirname: Path) returns (r: int)
    requires store.Valid()
    requires HasLive(store.Contents(), dirname) ==> !OpenDir(fs, dirname).OpenFailed?
    modifies store, store.items
    ensures store.Valid() && (store.items == old(store.items) || fresh(store.items))
    ensures DiffOutcome(fs, old(store.Contents()), store.Contents(), dirname, r)
  {
    ghost var s := store.Contents();
    var k := FindParent(store, dirname);
    if k >= store.count {
      return -1;
    }
    var cd := store.items[k].depth;
    var hi := FindRangeEnd(store, k);
    match OpenDir(fs, dirname)
    case NoEntry =>
      ZeroSizes(store, k, hi);
      return 0;
    case OpenFailed =>
      assert false;
    case Opened(es) =>
      var size := MarkListing(store, fs, dirname, es, k, hi, cd);
      store.items[k] := store.items[k].(size := size);
      Sweep(store, k, hi, cd);
      assert store.Contents() == Diffed(fs, s, dirname);
      store.Cleanup();
      return 0;
  }
}
