/**
 * The scanner: `iterate_subdirs` lists a directory, sums the `st_size` of
 * its entries into that directory's item, and descends into subdirectories;
 * `scan_directory` runs it and re-sorts the store.
 *
 * `Scan` and `ScanEntries` state what `iterate_subdirs` does to the counted
 * entries, step for step; `IterateSubdirs` is proved to do exactly that.
 */
module Scanner {
  import opened Options
  import opened CStrings
  import opened Files
  import opened DirStore

  datatype ScanOut = ScanOut(items: seq<DirItem>, size: int)

  /** Entries already present keep their name, depth and seen-flag; new ones are appended live and unmarked. */
  predicate Extends(s: seq<DirItem>, t: seq<DirItem>) {
    && |s| <= |t|
    && (forall i :: 0 <= i < |s| ==> t[i].name == s[i].name && t[i].depth == s[i].depth && t[i].state == s[i].state)
    && (forall i :: |s| <= i < |t| ==> Live(t[i]) && t[i].state == 0)
  }

  /** Whatever changed or was added between `s` and `t` is named at or under `p`. */
  predicate ConfinedTo(s: seq<DirItem>, t: seq<DirItem>, p: Path)
    requires Extends(s, t)
  {
    && (forall i :: 0 <= i < |s| && t[i] != s[i] ==> Live(s[i]) && AtOrUnder(s[i].name.value, p))
    && (forall i :: |s| <= i < |t| ==> AtOrUnder(t[i].name.value, p))
  }

  /** Whatever changed or was added between `s` and `t` is named strictly under `p`. */
  predicate ConfinedBelow(s: seq<DirItem>, t: seq<DirItem>, p: Path)
    requires Extends(s, t)
  {
    && (forall i :: 0 <= i < |s| && t[i] != s[i] ==> Live(s[i]) && IsUnder(s[i].name.value, p))
    && (forall i :: |s| <= i < |t| ==> IsUnder(t[i].name.value, p))
  }

  /** What `iterate_subdirs` returns, which depends on the filesystem alone. */
  function ScanResult(fs: FileSystem, dirname: Path): int {
    match OpenDir(fs, dirname)
    case Opened(es) => ListingSize(es)
    case NoEntry => 0
    case OpenFailed => -1
  }

  /**
   * `iterate_subdirs(dirname, add, recursive, depth)` on the counted entries
   * `s`: register `dirname` when `add`; take the depth from the store when
   * `depth` is 0; on ENOENT zero the existing entry and answer 0; on any
   * other open failure answer -1; otherwise process the listing and leave
   * its size in the first live entry called `dirname`, appending one if
   * there is none.
   */
  function Scan(fs: FileSystem, s: seq<DirItem>, dirname: Path, add: bool, recursive: bool, depth: int): (r: ScanOut)
    ensures Extends(s, r.items) && ConfinedTo(s, r.items, dirname)
    ensures r.size == ScanResult(fs, dirname)
    decreases Rank(fs, dirname), 1
  {
    var s1 := if add then Appended(s, dirname, 0, depth) else s;
    AppendedConfined(s, dirname, 0, depth);
    var d := if depth == 0 then DepthOf(s1, dirname) else depth;
    match OpenDir(fs, dirname)
    case NoEntry =>
      var t := UpdateFirst(s1, dirname, 0);
      UpdateFirstConfined(s1, dirname, 0);
      ConfinedChain(s, s1, t, dirname);
      ScanOut(t, 0)
    case OpenFailed => ScanOut(s1, -1)
    case Opened(es) =>
      var listed := ScanEntries(fs, s1, dirname, es, |es|, add, recursive, d);
      assert es[..|es|] == es;
      BelowIsTo(s1, listed.items, dirname);
      ConfinedChain(s, s1, listed.items, dirname);
      var t := if HasLive(listed.items, dirname) then UpdateFirst(listed.items, dirname, listed.size)
               else Appended(listed.items, dirname, listed.size, d);
      UpdateFirstConfined(listed.items, dirname, listed.size);
      AppendedConfined(listed.items, dirname, listed.size, d);
      ConfinedChain(s, listed.items, t, dirname);
      ScanOut(t, listed.size)
  }

  /**
   * The `readdir` loop of `iterate_subdirs` over `es[..k]`: skip `.`, `..`
   * and entries `lstat` fails on; add every other `st_size`; descend into a
   * directory when `recursive` is set or `dir_does_not_exist` holds for it.
   */
  function ScanEntries(fs: FileSystem, s: seq<DirItem>, dirname: Path, es: seq<DirEntry>, k: nat,
                       add: bool, recursive: bool, d: int): (r: ScanOut)
    requires dirname in fs.dirs && k <= |es|
    ensures Extends(s, r.items) && ConfinedBelow(s, r.items, dirname)
    ensures r.size == ListingSize(es[..k])
    decreases Rank(fs, dirname), 0, k
  {
    if k == 0 then ScanOut(s, 0)
    else
      var prev := ScanEntries(fs, s, dirname, es, k - 1, add, recursive, d);
      var e := es[k - 1];
      assert es[..k][..k - 1] == es[..k - 1];
      if !Counted(e) then prev
      else
        var child := Join(dirname, e.name);
        var t := if e.stat.isDir && (recursive || NoSizedEntry(prev.items, child)) then
                   RankDecreases(fs, dirname, child);
                   var sub := Scan(fs, prev.items, child, add, true, d + 1).items;
                   ConfinedChild(s, prev.items, sub, dirname, e.name);
                   sub
                 else prev.items;
        ScanOut(t, prev.size + e.stat.size)
  }

  lemma AppendedConfined(s: seq<DirItem>, name: Path, size: int, depth: int)
    ensures Extends(s, Appended(s, name, size, depth)) && ConfinedTo(s, Appended(s, name, size, depth), name)
  {
  }

  lemma UpdateFirstConfined(s: seq<DirItem>, name: Path, size: int)
    ensures Extends(s, UpdateFirst(s, name, size)) && ConfinedTo(s, UpdateFirst(s, name, size), name)
  {
  }

  lemma BelowIsTo(s: seq<DirItem>, t: seq<DirItem>, p: Path)
    requires Extends(s, t) && ConfinedBelow(s, t, p)
    ensures ConfinedTo(s, t, p)
  {
  }

  lemma ConfinedChain(s: seq<DirItem>, t: seq<DirItem>, u: seq<DirItem>, p: Path)
    requires Extends(s, t) && ConfinedTo(s, t, p)
    requires Extends(t, u) && ConfinedTo(t, u, p)
    ensures Extends(s, u) && ConfinedTo(s, u, p)
  {
  }

  lemma ConfinedChild(s: seq<DirItem>, t: seq<DirItem>, u: seq<DirItem>, p: Path, name: string)
    requires Extends(s, t) && ConfinedBelow(s, t, p)
    requires Extends(t, u) && ConfinedTo(t, u, Join(p, name))
    ensures Extends(s, u) && ConfinedBelow(s, u, p)
  {
    forall i | 0 <= i < |u| && (i >= |t| || u[i] != t[i]) && (i < |t| ==> Live(t[i]))
      ensures IsUnder((if i < |t| then t[i] else u[i]).name.value, p)
    {
      UnderChild((if i < |t| then t[i] else u[i]).name.value, p, name);
    }
  }

  // ---------------------------------------------------------------------------
  // What a scan leaves behind
  // ---------------------------------------------------------------------------

  /** No live entry is named at or under `p`. */
  predicate ClearOf(s: seq<DirItem>, p: Path) {
    forall i :: 0 <= i < |s| && Live(s[i]) ==> !AtOrUnder(s[i].name.value, p)
  }

  /**
   * After a scan that opened `dirname` the store has a live entry of that
   * name, and the first one holds the size the scan returned; after ENOENT
   * any such entry holds 0; after `add` the entry is there whatever happened.
   */
  lemma ScanRecordsSize(fs: FileSystem, s: seq<DirItem>, dirname: Path, add: bool, recursive: bool, depth: int)
    ensures var r := Scan(fs, s, dirname, add, recursive, depth);
            && (OpenDir(fs, dirname).Opened? || add ==> HasLive(r.items, dirname))
            && (HasLive(r.items, dirname) && !OpenDir(fs, dirname).OpenFailed? ==>
                  r.items[FirstLive(r.items, dirname)].size == r.size)
  {
    var r := Scan(fs, s, dirname, add, recursive, depth);
    var s1 := if add then Appended(s, dirname, 0, depth) else s;
    if add {
      AppendedFinds(s, dirname, 0, depth);
    }
    match OpenDir(fs, dirname)
    case NoEntry =>
      assert r.items == UpdateFirst(s1, dirname, 0);
      UpdateFirstFinds(s1, dirname, 0);
    case OpenFailed =>
      assert r.items == s1;
    case Opened(es) =>
      var d := if depth == 0 then DepthOf(s1, dirname) else depth;
      var listed := ScanEntries(fs, s1, dirname, es, |es|, add, recursive, d);
      if HasLive(listed.items, dirname) {
        assert r.items == UpdateFirst(listed.items, dirname, listed.size);
        UpdateFirstFinds(listed.items, dirname, listed.size);
      } else {
        assert r.items == Appended(listed.items, dirname, listed.size, d);
        AppendedFinds(listed.items, dirname, listed.size, d);
      }
  }

  /**
   * The descent rule of the `readdir` loop: a counted directory entry is
   * scanned (recursively, at the next depth) exactly when the scan is
   * recursive or the store has no sized entry for it, and when the scan
   * adds, the child is then registered; any other entry leaves the store
   * as it was.
   */
  lemma ScanEntriesDescends(fs: FileSystem, s: seq<DirItem>, dirname: Path, es: seq<DirEntry>, k: nat,
                            add: bool, recursive: bool, d: int)
    requires dirname in fs.dirs && 0 < k <= |es|
    ensures var prev := ScanEntries(fs, s, dirname, es, k - 1, add, recursive, d).items;
            var e := es[k - 1];
            var child := Join(dirname, e.name);
            var items := ScanEntries(fs, s, dirname, es, k, add, recursive, d).items;
            && (Counted(e) && e.stat.isDir && (recursive || NoSizedEntry(prev, child)) ==>
                  items == Scan(fs, prev, child, add, true, d + 1).items && (add ==> HasLive(items, child)))
            && (!(Counted(e) && e.stat.isDir && (recursive || NoSizedEntry(prev, child))) ==> items == prev)
  {
    var prev := ScanEntries(fs, s, dirname, es, k - 1, add, recursive, d).items;
    var e := es[k - 1];
    var child := Join(dirname, e.name);
    if Counted(e) && e.stat.isDir && (recursive || NoSizedEntry(prev, child)) {
      RankDecreases(fs, dirname, child);
      ScanRecordsSize(fs, prev, child, add, true, d + 1);
    }
  }

  /** With `add`, the entry `iterate_subdirs` appends first stays in place, under the directory's name. */
  lemma ScanKeepsAdded(fs: FileSystem, s: seq<DirItem>, dirname: Path, recursive: bool, depth: int)
    ensures var r := Scan(fs, s, dirname, true, recursive, depth).items;
            |s| < |r| && Named(r[|s|], dirname)
  {
    var s1 := Appended(s, dirname, 0, depth);
    var d := if depth == 0 then DepthOf(s1, dirname) else depth;
    assert Named(s1[|s|], dirname);
    match OpenDir(fs, dirname)
    case NoEntry =>
      UpdateFirstConfined(s1, dirname, 0);
    case OpenFailed =>
    case Opened(es) =>
      var listed := ScanEntries(fs, s1, dirname, es, |es|, true, recursive, d);
      UpdateFirstConfined(listed.items, dirname, listed.size);
      AppendedConfined(listed.items, dirname, listed.size, d);
  }

  /** After `update_dir_item` the first entry of the name, if there is one, holds the new size. */
  lemma UpdateFirstFinds(s: seq<DirItem>, name: Path, size: int)
    ensures var t := UpdateFirst(s, name, size);
            && (HasLive(t, name) <==> HasLive(s, name))
            && (HasLive(s, name) ==> t[FirstLive(t, name)].size == size)
  {
    var t := UpdateFirst(s, name, size);
    var k := FirstLive(s, name);
    if k < |s| {
      FirstLiveAt(t, name, k);
    } else {
      assert t == s;
    }
  }

  /** After `add_dir_item` the name has a live entry, and when it had none before, the new one holds the size. */
  lemma AppendedFinds(s: seq<DirItem>, name: Path, size: int, depth: int)
    ensures var t := Appended(s, name, size, depth);
            && HasLive(t, name)
            && (!HasLive(s, name) ==> t[FirstLive(t, name)].size == size)
  {
    var t := Appended(s, name, size, depth);
    if HasLive(s, name) {
      FirstLiveAt(t, name, FirstLive(s, name));
    } else {
      FirstLiveAt(t, name, |s|);
    }
  }

  /** An index whose entry is named, with no named entry before it, is the first live one. */
  lemma FirstLiveAt(s: seq<DirItem>, name: Path, k: nat)
    requires k < |s| && Named(s[k], name)
    requires forall i :: 0 <= i < k ==> !Named(s[i], name)
    ensures FirstLive(s, name) == k
  {
  }

  /** A scan beside a sibling directory leaves that sibling's subtree as clear as it was. */
  lemma SiblingScanKeepsClear(s: seq<DirItem>, t: seq<DirItem>, p: Path, n: string, m: string)
    requires Extends(s, t) && ConfinedTo(s, t, Join(p, n))
    requires n != m && '/' !in n && '/' !in m
    requires ClearOf(s, Join(p, m))
    ensures ClearOf(t, Join(p, m))
  {
    forall i | 0 <= i < |t| && Live(t[i]) ensures !AtOrUnder(t[i].name.value, Join(p, m)) {
      if i >= |s| || t[i] != s[i] {
        SiblingsDisjoint(t[i].name.value, p, n, m);
      }
    }
  }

  /**
   * A full scan (`add` and `recursive` set) of a directory the store knows
   * nothing at or under adds exactly the recursive size of its tree to the
   * total `get_total_size` reports.
   */
  lemma {:induction false} ScanAddsTreeSize(fs: FileSystem, s: seq<DirItem>, p: Path, depth: int)
    requires WellFormed(fs) && ClearOf(s, p)
    ensures LiveTotal(Scan(fs, s, p, true, true, depth).items) == LiveTotal(s) + TreeSize(fs, p)
    decreases Rank(fs, p), 1
  {
    var s1 := Appended(s, p, 0, depth);
    LiveTotalAppended(s, p, 0, depth);
    assert Named(s1[|s|], p);
    assert forall i :: 0 <= i < |s| ==> !Named(s1[i], p);
    assert FirstLive(s1, p) == |s|;
    var d := if depth == 0 then DepthOf(s1, p) else depth;
    match OpenDir(fs, p)
    case NoEntry =>
      LiveTotalUpdateFirst(s1, p, 0);
    case OpenFailed =>
    case Opened(es) =>
      forall m | 0 <= m < |es| ensures ClearOf(s1, Join(p, es[m].name)) {
        forall i | 0 <= i < |s1| && Live(s1[i]) ensures !AtOrUnder(s1[i].name.value, Join(p, es[m].name)) {
          if AtOrUnder(s1[i].name.value, Join(p, es[m].name)) {
            UnderChild(s1[i].name.value, p, es[m].name);
          }
        }
      }
      ScanEntriesAddSubtrees(fs, s1, p, es, |es|, d);
      var listed := ScanEntries(fs, s1, p, es, |es|, true, true, d);
      assert es[..|es|] == es;
      var t := listed.items;
      assert t[|s|] == s1[|s|];
      assert forall i :: 0 <= i < |s| ==> !Named(t[i], p);
      assert FirstLive(t, p) == |s|;
      LiveTotalUpdateFirst(t, p, listed.size);
  }

  /** The `readdir` loop of a full scan adds the recursive sizes of the subdirectories it has passed. */
  lemma {:induction false} ScanEntriesAddSubtrees(fs: FileSystem, s: seq<DirItem>, p: Path, es: seq<DirEntry>, k: nat, d: int)
    requires WellFormed(fs) && p in fs.dirs && fs.dirs[p] == Entries(es) && k <= |es|
    requires forall m :: 0 <= m < |es| ==> ClearOf(s, Join(p, es[m].name))
    ensures var t := ScanEntries(fs, s, p, es, k, true, true, d).items;
            && LiveTotal(t) == LiveTotal(s) + SubtreeSizes(fs, p, es, k)
            && forall m :: k <= m < |es| ==> ClearOf(t, Join(p, es[m].name))
    decreases Rank(fs, p), 0, k
  {
    if k > 0 {
      ScanEntriesAddSubtrees(fs, s, p, es, k - 1, d);
      var prev := ScanEntries(fs, s, p, es, k - 1, true, true, d).items;
      var e := es[k - 1];
      if Counted(e) && e.stat.isDir {
        var c := Join(p, e.name);
        RankDecreases(fs, p, c);
        ScanAddsTreeSize(fs, prev, c, d + 1);
        var t := Scan(fs, prev, c, true, true, d + 1).items;
        forall m | k <= m < |es| ensures ClearOf(t, Join(p, es[m].name)) {
          SiblingScanKeepsClear(prev, t, p, e.name, es[m].name);
        }
      }
    }
  }

  /** The initial scan of the watched root, on an empty store, totals the whole tree. */
  lemma InitialScanTotal(fs: FileSystem, root: Path)
    requires WellFormed(fs)
    ensures LiveTotal(Scan(fs, [], root, true, true, 0).items) == TreeSize(fs, root)
  {
    ScanAddsTreeSize(fs, [], root, 0);
  }

  // ---------------------------------------------------------------------------
  // The methods
  // ---------------------------------------------------------------------------

  /** `iterate_subdirs` on the store. */
  method IterateSubdirs(store: ItemStore, fs: FileSystem, dirname: Path, add: bool, recursive: bool, depth: int)
    returns (size: int)
    requires store.Valid()
    modifies store, store.items
    ensures store.Valid() && (store.items == old(store.items) || fresh(store.items))
    ensures store.Contents() == Scan(fs, old(store.Contents()), dirname, add, recursive, depth).items
    ensures size == ScanResult(fs, dirname)
    decreases Rank(fs, dirname), 3
  {
    if add {
      store.AddDirItem(dirname, 0, depth);
    }
    var d := depth;
    if d == 0 {
      d := store.GetDirDepth(dirname);
    }
    match OpenDir(fs, dirname)
    case NoEntry =>
      var _ := store.UpdateDirItem(dirname, 0);
      return 0;
    case OpenFailed =>
      return -1;
    case Opened(es) =>
      size := ListDirectory(store, fs, dirname, es, add, recursive, d);
  }

  /** The listing branch of `iterate_subdirs`: the `readdir` loop, then the directory's own entry. */
  method ListDirectory(store: ItemStore, fs: FileSystem, dirname: Path, es: seq<DirEntry>,
                       add: bool, recursive: bool, d: int) returns (size: int)
    requires store.Valid() && OpenDir(fs, dirname) == Opened(es)
    modifies store, store.items
    ensures store.Valid() && (store.items == old(store.items) || fresh(store.items))
    ensures var listed := ScanEntries(fs, old(store.Contents()), dirname, es, |es|, add, recursive, d);
            && size == listed.size
            && store.Contents() == if HasLive(listed.items, dirname) then UpdateFirst(listed.items, dirname, size)
                                   else Appended(listed.items, dirname, size, d)
    decreases Rank(fs, dirname), 2
  {
    size := IterateEntries(store, fs, dirname, es, add, recursive, d);
    var err := store.UpdateDirItem(dirname, size);
    if err == ENOENT {
      store.AddDirItem(dirname, size, d);
    }
  }

  /** The `readdir` loop of `iterate_subdirs`, over the listing `es` of `dirname`. */
  method IterateEntries(store: ItemStore, fs: FileSystem, dirname: Path, es: seq<DirEntry>,
                        add: bool, recursive: bool, d: int) returns (size: int)
    requires store.Valid() && dirname in fs.dirs
    modifies store, store.items
    ensures store.Valid() && (store.items == old(store.items) || fresh(store.items))
    ensures ScanOut(store.Contents(), size) == ScanEntries(fs, old(store.Contents()), dirname, es, |es|, add, recursive, d)
    decreases Rank(fs, dirname), 1
  {
    ghost var s1 := store.Contents();
    size := 0;
    var k := 0;
    while k < |es|
      invariant 0 <= k <= |es|
      invariant store.Valid() && (store.items == old(store.items) || fresh(store.items))
      invariant ScanOut(store.Contents(), size) == ScanEntries(fs, s1, dirname, es, k, add, recursive, d)
    {
      size := IterateEntry(store, fs, dirname, es, k, add, recursive, d, size, s1);
      k := k + 1;
    }
  }

  /** One pass of the `readdir` loop, for entry `es[k]`. */
  method IterateEntry(store: ItemStore, fs: FileSystem, dirname: Path, es: seq<DirEntry>, k: nat,
                      add: bool, recursive: bool, d: int, size: int, ghost s1: seq<DirItem>) returns (size': int)
    requires store.Valid() && dirname in fs.dirs && k < |es|
    requires ScanOut(store.Contents(), size) == ScanEntries(fs, s1, dirname, es, k, add, recursive, d)
    modifies store, store.items
    ensures store.Valid() && (store.items == old(store.items) || fresh(store.items))
    ensures ScanOut(store.Contents(), size') == ScanEntries(fs, s1, dirname, es, k + 1, add, recursive, d)
    decreases Rank(fs, dirname), 0
  {
    size' := size;
    var e := es[k];
    if !Skipped(e) && e.stat.Stat? {
      size' := size + e.stat.size;
      if e.stat.isDir {
        var child := Join(dirname, e.name);
        var descend := recursive;
        if !descend {
          descend := store.DirDoesNotExist(child);
        }
        if descend {
          RankDecreases(fs, dirname, child);
          var _ := IterateSubdirs(store, fs, child, add, true, d + 1);
        }
      }
    }
  }

  /** `scan_directory`: `iterate_subdirs`, then `qsort` of the counted entries (no compaction). */
  method ScanDirectory(store: ItemStore, fs: FileSystem, dirname: Path, add: bool, recursive: bool, depth: int)
    requires store.Valid()
    modifies store, store.items
    ensures store.Valid() && (store.items == old(store.items) || fresh(store.items))
    ensures Sorted(store.Contents())
    ensures multiset(store.Contents()) == multiset(Scan(fs, old(store.Contents()), dirname, add, recursive, depth).items)
  {
    var _ := IterateSubdirs(store, fs, dirname, add, recursive, depth);
    store.Sort();
  }
}
