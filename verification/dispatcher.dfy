/**
 * The per-event body of `fsevents_callback`: strip one trailing '/', read
 * the event flags in priority order, and route the event to nothing, to
 * discarding the store, to a rescan of a subtree, or to a diff of one
 * directory.
 */
module Dispatcher {
  import opened Options
  import opened CStrings
  import opened Files
  import opened DirStore
  import opened Scanner
  import opened Differ

  // The event flags, as FSEvents.h defines them.
  const MustScanSubDirs: bv32 := 0x0000_0001
  const UserDropped: bv32 := 0x0000_0002
  const KernelDropped: bv32 := 0x0000_0004
  const HistoryDone: bv32 := 0x0000_0010
  const RootChanged: bv32 := 0x0000_0020

  /** What an event leads to. */
  datatype Route =
    | Skip               // HistoryDone: nothing changes
    | Discard            // RootChanged, and the root no longer exists
    | Rescan(target: Path)
    | Diff(target: Path)

  /** The copy of the event path with at most one trailing '/' chopped off. */
  function StripTrailingSlash(p: Path): (q: Path)
    requires p != []
    ensures p == q || p == q + "/"
    ensures p[|p| - 1] == '/' <==> p == q + "/"
  {
    if p[|p| - 1] == '/' then p[..|p| - 1] else p
  }

  /**
   * The flag tests of `fsevents_callback`, in their order: HistoryDone
   * first, then RootChanged (with `stat` of the watched root), then
   * MustScanSubDirs, which retargets to the root when events were dropped
   * in user space or in the kernel. A rescan or diff otherwise acts on the
   * stripped event path.
   */
  function Classify(flags: bv32, rootExists: bool, eventPath: Path, root: Path): (r: Route)
    requires eventPath != []
    ensures r.Skip? <==> flags & HistoryDone != 0
    ensures r.Discard? <==> flags & HistoryDone == 0 && flags & RootChanged != 0 && !rootExists
    ensures r.Diff? <==> flags & (HistoryDone | RootChanged | MustScanSubDirs) == 0
    ensures (r.Rescan? || r.Diff?) ==> r.target == root || r.target == StripTrailingSlash(eventPath)
  {
    var path := StripTrailingSlash(eventPath);
    if flags & HistoryDone != 0 then Skip
    else if flags & RootChanged != 0 then
      if rootExists then Rescan(path) else Discard
    else if flags & MustScanSubDirs != 0 then
      if flags & UserDropped != 0 || flags & KernelDropped != 0 then Rescan(root) else Rescan(path)
    else Diff(path)
  }

  /** HistoryDone overrides every other flag. */
  lemma HistoryDoneFirst(flags: bv32, rootExists: bool, eventPath: Path, root: Path)
    requires eventPath != []
    ensures Classify(flags | HistoryDone, rootExists, eventPath, root) == Skip
  {
  }

  /** Without HistoryDone, RootChanged decides alone: the scan and drop flags make no difference. */
  lemma RootChangedBeforeMustScan(flags: bv32, rootExists: bool, eventPath: Path, root: Path)
    requires eventPath != [] && flags & HistoryDone == 0
    ensures Classify(flags | RootChanged, rootExists, eventPath, root) ==
            Classify((flags & !(MustScanSubDirs | UserDropped | KernelDropped)) | RootChanged, rootExists, eventPath, root)
  {
  }

  /** The drop flags only retarget a MustScanSubDirs event; on their own they change nothing. */
  lemma DroppedOnlyWithMustScan(flags: bv32, rootExists: bool, eventPath: Path, root: Path)
    requires eventPath != [] && flags & MustScanSubDirs == 0
    ensures Classify(flags | UserDropped | KernelDropped, rootExists, eventPath, root) ==
            Classify(flags, rootExists, eventPath, root)
  {
  }

  /** A MustScanSubDirs event with events dropped rescans the whole watched tree. */
  lemma DroppedRescansRoot(flags: bv32, rootExists: bool, eventPath: Path, root: Path)
    requires eventPath != [] && flags & (HistoryDone | RootChanged) == 0 && flags & MustScanSubDirs != 0
    requires flags & (UserDropped | KernelDropped) != 0
    ensures Classify(flags, rootExists, eventPath, root) == Rescan(root)
  {
  }

  /**
   * What `remove_dir_and_children(target)` leaves of `s` (as `mid`): when a
   * live entry has the name, the sorted, compacted live entries of `s`
   * (nothing is tombstoned, see `RunFromMatchIsEmpty`); otherwise `s`.
   */
  ghost predicate Removed(s: seq<DirItem>, mid: seq<DirItem>, target: Path) {
    && (HasLive(s, target) ==> Sorted(mid) && AllLive(mid) && SameLive(mid, s))
    && (!HasLive(s, target) ==> mid == s)
  }

  /**
   * What handling one event does to the counted entries, from `s` to `t`:
   * nothing for HistoryDone; an empty store when the root is gone; for a
   * rescan, `remove_dir_and_children` and then `scan_directory(target, 1, 1,
   * 0)`; for a diff, `check_children_of_dir(target)`. The rescan is stated
   * up to the order `qsort` gives entries that compare equal.
   */
  ghost predicate EventOutcome(fs: FileSystem, root: Path, path: Path, flags: bv32, s: seq<DirItem>, t: seq<DirItem>)
    requires path != []
  {
    match Classify(flags, Exists(fs, root), path, root)
    case Skip => t == s
    case Discard => t == []
    case Rescan(target) =>
      exists mid :: Removed(s, mid, target) && Sorted(t) && multiset(t) == multiset(Scan(fs, mid, target, true, true, 0).items)
    case Diff(target) =>
      && (HasLive(s, target) ==> !OpenDir(fs, target).OpenFailed?)
      && exists answer :: DiffOutcome(fs, s, t, target, answer)
  }

  /** Every route keeps the store clean: its counted entries live and unflagged. */
  lemma EventOutcomeKeepsClean(fs: FileSystem, root: Path, path: Path, flags: bv32, s: seq<DirItem>, t: seq<DirItem>)
    requires path != [] && EventOutcome(fs, root, path, flags, s, t) && Clean(s)
    ensures Clean(t)
  {
    match Classify(flags, Exists(fs, root), path, root)
    case Skip =>
    case Discard =>
    case Rescan(target) =>
      var mid :| Removed(s, mid, target) && Sorted(t) && multiset(t) == multiset(Scan(fs, mid, target, true, true, 0).items);
      if HasLive(s, target) {
        SameLiveClean(mid, s);
      }
      CleanPermutation(Scan(fs, mid, target, true, true, 0).items, t);
    case Diff(target) =>
      var answer :| DiffOutcome(fs, s, t, target, answer);
      DiffOutcomeKeepsClean(fs, s, t, target, answer);
  }

  /**
   * The rescan route on a store that knows `/w/sub` after `/w/sub` has
   * vanished: `remove_dir_and_children("/w")` may leave the store as it is
   * (it is already sorted), and the scan then appends a second `/w` entry,
   * zeroes the first, and keeps the vanished child with its size, so the
   * total goes from 150 to 50, the vanished child's old size, while the
   * tree's size is 0.
   */
  lemma RescanKeepsVanishedChild()
    ensures var fs := FileSystem(map["/w" := Entries([])]);
            var s := [DirItem(Some("/w"), 0, 0, 100), DirItem(Some("/w/sub"), 1, 0, 50)];
            var t := Scan(fs, s, "/w", true, true, 0).items;
            && Removed(s, s, "/w")
            && t == [DirItem(Some("/w"), 0, 0, 0), DirItem(Some("/w/sub"), 1, 0, 50), DirItem(Some("/w"), 0, 0, 0)]
            && LiveTotal(t) == 50
            && TreeSize(fs, "/w") == 0
  {
    var s := [DirItem(Some("/w"), 0, 0, 100), DirItem(Some("/w/sub"), 1, 0, 50)];
    assert StrCmp("/w", "/w/sub") < 0;
    assert Sorted(s);
    ScanOfVanishedChild();
    var t := [DirItem(Some("/w"), 0, 0, 0), DirItem(Some("/w/sub"), 1, 0, 50), DirItem(Some("/w"), 0, 0, 0)];
    assert t[..2][..1] == [t[0]] && [t[0]][..0] == [];
    assert LiveTotal([t[0]]) == 0;
    assert LiveTotal(t[..2]) == 50;
    assert t[..|t| - 1] == t[..2];
  }

  /** The scan step of `RescanKeepsVanishedChild`. */
  lemma ScanOfVanishedChild()
    ensures var fs := FileSystem(map["/w" := Entries([])]);
            var s := [DirItem(Some("/w"), 0, 0, 100), DirItem(Some("/w/sub"), 1, 0, 50)];
            && Scan(fs, s, "/w", true, true, 0).items == [DirItem(Some("/w"), 0, 0, 0), DirItem(Some("/w/sub"), 1, 0, 50), DirItem(Some("/w"), 0, 0, 0)]
            && TreeSize(fs, "/w") == 0
  {
    var fs := FileSystem(map["/w" := Entries([])]);
    var s := [DirItem(Some("/w"), 0, 0, 100), DirItem(Some("/w/sub"), 1, 0, 50)];
    var s1 := Appended(s, "/w", 0, 0);
    assert FirstLive(s1, "/w") == 0;
    assert OpenDir(fs, "/w") == Opened([]);
    assert ScanEntries(fs, s1, "/w", [], 0, true, true, 0) == ScanOut(s1, 0);
  }

  /**
   * The handling of one event. An empty event path is excluded (the source
   * then reads before its buffer), and so is a diff of a known directory
   * that fails to open for a reason other than ENOENT (see
   * `CheckChildrenOfDir`).
   */
  method HandleEvent(store: ItemStore, fs: FileSystem, root: Path, eventPath: Path, flags: bv32)
    requires store.Valid() && eventPath != []
    requires var r := Classify(flags, Exists(fs, root), eventPath, root);
             r.Diff? && HasLive(store.Contents(), r.target) ==> !OpenDir(fs, r.target).OpenFailed?
    modifies store, store.items
    ensures store.Valid() && (store.items == old(store.items) || fresh(store.items))
    ensures EventOutcome(fs, root, eventPath, flags, old(store.Contents()), store.Contents())
    ensures Clean(old(store.Contents())) ==> Clean(store.Contents())
  {
    ghost var s := store.Contents();
    var route := Classify(flags, Exists(fs, root), eventPath, root);
    match route {
      case Skip =>
      case Discard =>
        store.DiscardAll();
      case Rescan(target) =>
        var _ := store.RemoveDirAndChildren(target);
        ghost var mid := store.Contents();
        assert Removed(s, mid, target);
        ScanDirectory(store, fs, target, true, true, 0);
      case Diff(target) =>
        var answer := CheckChildrenOfDir(store, fs, target);
    }
    if Clean(s) {
      EventOutcomeKeepsClean(fs, root, eventPath, flags, s, store.Contents());
    }
  }

  /** No event of the batch diffs a directory that fails to open for a reason other than ENOENT. */
  predicate DiffTargetsOpen(fs: FileSystem, root: Path, paths: seq<Path>, flags: seq<bv32>)
    requires |paths| == |flags| && forall i :: 0 <= i < |paths| ==> paths[i] != []
  {
    forall i :: 0 <= i < |paths| ==>
      var r := Classify(flags[i], Exists(fs, root), paths[i], root);
      r.Diff? ==> !OpenDir(fs, r.target).OpenFailed?
  }

  /**
   * `fsevents_callback`: the events of one callback, handled in order.
   * `states` are the counted entries before the first event and after each
   * one; each step is that event's outcome.
   */
  method HandleEvents(store: ItemStore, fs: FileSystem, root: Path, paths: seq<Path>, flags: seq<bv32>)
    returns (ghost states: seq<seq<DirItem>>)
    requires store.Valid() && |paths| == |flags|
    requires forall i :: 0 <= i < |paths| ==> paths[i] != []
    requires DiffTargetsOpen(fs, root, paths, flags)
    modifies store, store.items
    ensures store.Valid() && (store.items == old(store.items) || fresh(store.items))
    ensures |states| == |paths| + 1 && states[0] == old(store.Contents()) && states[|paths|] == store.Contents()
    ensures forall k :: 0 <= k < |paths| ==> EventOutcome(fs, root, paths[k], flags[k], states[k], states[k + 1])
    ensures Clean(old(store.Contents())) ==> Clean(store.Contents())
  {
    states := [store.Contents()];
    var i := 0;
    while i < |paths|
      invariant 0 <= i <= |paths|
      invariant store.Valid() && (store.items == old(store.items) || fresh(store.items))
      invariant |states| == i + 1 && states[0] == old(store.Contents()) && states[i] == store.Contents()
      invariant forall k :: 0 <= k < i ==> EventOutcome(fs, root, paths[k], flags[k], states[k], states[k + 1])
      invariant Clean(old(store.Contents())) ==> Clean(store.Contents())
    {
      HandleEvent(store, fs, root, paths[i], flags[i]);
      states := states + [store.Contents()];
      i := i + 1;
    }
  }
}
