/**
 * The directory-item store: the global array `dir_items` with its counts
 * `num_dir_items` and `max_dir_items`, and the routines that add, update,
 * compact, remove, discard and total its entries.
 *
 * An entry records one directory: its path, its depth below the watched
 * root, a transient seen-flag (`state`) and its size, the `st_size` sum of
 * the entries directly inside it. A tombstone is an entry whose name has
 * been freed (`dirname == NULL`), here `name == None`.
 */
module DirStore {
  import opened Options
  import opened CStrings

  const ENOENT: int := 2

  /** The step by which `add_dir_item` grows the array. */
  const DIR_ITEM_INCR: nat := 128

  datatype DirItem = DirItem(name: Option<Path>, depth: int, state: int, size: int)

  predicate Live(it: DirItem) {
    it.name.Some?
  }

  /** `dirname != NULL && strcmp(name, dirname) == 0` (see CStrings.StrCmpZero). */
  predicate Named(it: DirItem, name: Path) {
    it.name == Some(name)
  }

  /** What `free(dirname); dirname = NULL; size = 0` leaves of an entry. */
  function Tombstoned(it: DirItem): DirItem {
    it.(name := None, size := 0)
  }

  // ---------------------------------------------------------------------------
  // Ordering: compare_dir_items
  // ---------------------------------------------------------------------------

  /** `compare_dir_items`: `strcmp` order on names, every tombstone after every name. */
  function CompareDirItems(a: DirItem, b: DirItem): (r: int)
    ensures r == 0 <==> a.name == b.name
    ensures Live(a) && !Live(b) ==> r < 0
    ensures !Live(a) && Live(b) ==> r > 0
  {
    if a.name.None? then
      if b.name.None? then 0 else 1
    else if b.name.None? then -1
    else
      StrCmpZero(a.name.value, b.name.value);
      StrCmp(a.name.value, b.name.value)
  }

  predicate ItemLeq(a: DirItem, b: DirItem) {
    CompareDirItems(a, b) <= 0
  }

  lemma CompareFlip(a: DirItem, b: DirItem)
    ensures CompareDirItems(b, a) == -CompareDirItems(a, b)
  {
    if a.name.Some? && b.name.Some? {
      StrCmpFlip(a.name.value, b.name.value);
    }
  }

  lemma CompareTransitive(a: DirItem, b: DirItem, c: DirItem)
    requires ItemLeq(a, b) && ItemLeq(b, c)
    ensures ItemLeq(a, c)
  {
    if a.name.Some? && b.name.Some? && c.name.Some? {
      StrCmpTransitive(a.name.value, b.name.value, c.name.value);
    }
  }

  /** Non-decreasing in `compare_dir_items` order: what `qsort` leaves. */
  predicate Sorted(s: seq<DirItem>) {
    forall i, j :: 0 <= i < j < |s| ==> ItemLeq(s[i], s[j])
  }

  predicate AllLive(s: seq<DirItem>) {
    forall i :: 0 <= i < |s| ==> Live(s[i])
  }

  /** The state between two top-level operations: every counted entry is live and unmarked. */
  predicate Clean(s: seq<DirItem>) {
    forall i :: 0 <= i < |s| ==> Live(s[i]) && s[i].state == 0
  }

  /** `t` holds exactly the live entries of `s`, with their multiplicities, and nothing else. */
  ghost predicate SameLive(t: seq<DirItem>, s: seq<DirItem>) {
    forall x :: multiset(t)[x] == if Live(x) then multiset(s)[x] else 0
  }

  /** Compacting entries whose live ones are all unflagged leaves the store live and unflagged. */
  lemma SameLiveClean(t: seq<DirItem>, s: seq<DirItem>)
    requires SameLive(t, s)
    requires forall i :: 0 <= i < |s| && Live(s[i]) ==> s[i].state == 0
    ensures Clean(t)
  {
    forall i | 0 <= i < |t| ensures Live(t[i]) && t[i].state == 0 {
      var x := t[i];
      assert x in multiset(t);
      assert Live(x) && x in multiset(s);
    }
  }

  /** Reordering keeps the store live and unflagged. */
  lemma CleanPermutation(s: seq<DirItem>, t: seq<DirItem>)
    requires multiset(t) == multiset(s) && Clean(s)
    ensures Clean(t)
  {
    forall i | 0 <= i < |t| ensures Live(t[i]) && t[i].state == 0 {
      assert t[i] in multiset(s);
    }
  }

  // ---------------------------------------------------------------------------
  // Lookups, as functions of the counted entries
  // ---------------------------------------------------------------------------

  /** The index of the first live entry called `name` (the one every lookup acts on), or `|s|`. */
  function FirstLive(s: seq<DirItem>, name: Path): (k: nat)
    ensures k <= |s|
    ensures k < |s| ==> Named(s[k], name)
    ensures forall i :: 0 <= i < k ==> !Named(s[i], name)
  {
    if s == [] then 0
    else if Named(s[0], name) then 0
    else 1 + FirstLive(s[1..], name)
  }

  predicate HasLive(s: seq<DirItem>, name: Path) {
    FirstLive(s, name) < |s|
  }

  lemma HasLiveIff(s: seq<DirItem>, name: Path)
    ensures HasLive(s, name) <==> exists i :: 0 <= i < |s| && Named(s[i], name)
  {
    if exists i :: 0 <= i < |s| && Named(s[i], name) {
      var i :| 0 <= i < |s| && Named(s[i], name);
      assert FirstLive(s, name) <= i;
    }
  }

  /** The entries after `update_dir_item(name, size)`. */
  function UpdateFirst(s: seq<DirItem>, name: Path, size: int): seq<DirItem> {
    var k := FirstLive(s, name);
    if k < |s| then s[k := s[k].(size := size)] else s
  }

  /** The entries after `add_dir_item(name, size, depth)`. */
  function Appended(s: seq<DirItem>, name: Path, size: int, depth: int): seq<DirItem> {
    s + [DirItem(Some(name), depth, 0, size)]
  }

  /** What `get_dir_depth(name)` answers. */
  function DepthOf(s: seq<DirItem>, name: Path): int {
    var k := FirstLive(s, name);
    if k < |s| then s[k].depth else 0
  }

  /** What `dir_does_not_exist(name)` answers: no live entry of that name has a nonzero size. */
  predicate NoSizedEntry(s: seq<DirItem>, name: Path) {
    forall i :: 0 <= i < |s| ==> !(Named(s[i], name) && s[i].size != 0)
  }

  function Weight(it: DirItem): int {
    if Live(it) then it.size else 0
  }

  /** What `get_total_size` answers: the sum of the sizes of the live entries. */
  function LiveTotal(s: seq<DirItem>): int {
    if s == [] then 0 else LiveTotal(s[..|s| - 1]) + Weight(s[|s| - 1])
  }

  // ---------------------------------------------------------------------------
  // Facts about the total
  // ---------------------------------------------------------------------------

  lemma {:induction false} LiveTotalConcat(a: seq<DirItem>, b: seq<DirItem>)
    ensures LiveTotal(a + b) == LiveTotal(a) + LiveTotal(b)
    decreases |b|
  {
    if b != [] {
      assert (a + b)[..|a + b| - 1] == a + b[..|b| - 1];
      LiveTotalConcat(a, b[..|b| - 1]);
    } else {
      assert a + b == a;
    }
  }

  lemma {:induction false} LiveTotalNoLive(s: seq<DirItem>)
    requires forall i :: 0 <= i < |s| ==> !Live(s[i])
    ensures LiveTotal(s) == 0
  {
    if s != [] {
      LiveTotalNoLive(s[..|s| - 1]);
    }
  }

  /** Only the live multiset of a sequence decides its total. */
  lemma {:induction false} LiveTotalPermutation(s: seq<DirItem>, t: seq<DirItem>)
    requires multiset(s) == multiset(t)
    ensures LiveTotal(s) == LiveTotal(t)
    decreases |s|
  {
    if s != [] {
      var x := s[|s| - 1];
      assert x in multiset(t) by { assert x in multiset(s); }
      var i :| 0 <= i < |t| && t[i] == x;
      var t' := t[..i] + t[i + 1..];
      assert t == t[..i] + [x] + t[i + 1..];
      assert s == s[..|s| - 1] + [x];
      assert multiset(t) == multiset(t[..i]) + multiset([x]) + multiset(t[i + 1..]);
      assert multiset(s) == multiset(s[..|s| - 1]) + multiset([x]);
      assert multiset(t') == multiset(t[..i]) + multiset(t[i + 1..]);
      assert multiset(s[..|s| - 1]) == multiset(s) - multiset([x]);
      assert multiset(t') == multiset(t) - multiset([x]);
      LiveTotalPermutation(s[..|s| - 1], t');
      LiveTotalConcat(t[..i] + [x], t[i + 1..]);
      LiveTotalConcat(t[..i], t[i + 1..]);
      LiveTotalConcat(t[..i], [x]);
      assert LiveTotal([x]) == Weight(x) by { assert [x][..0] == []; }
    }
  }

  lemma LiveTotalAppended(s: seq<DirItem>, name: Path, size: int, depth: int)
    ensures LiveTotal(Appended(s, name, size, depth)) == LiveTotal(s) + size
  {
    assert Appended(s, name, size, depth)[..|s|] == s;
  }

  lemma {:induction false} LiveTotalUpdateAt(s: seq<DirItem>, k: nat, v: DirItem)
    requires k < |s|
    ensures LiveTotal(s[k := v]) == LiveTotal(s) - Weight(s[k]) + Weight(v)
    decreases |s|
  {
    var t := s[k := v];
    if k < |s| - 1 {
      assert t[..|t| - 1] == s[..|s| - 1][k := v];
      LiveTotalUpdateAt(s[..|s| - 1], k, v);
    } else {
      assert t[..|t| - 1] == s[..|s| - 1];
    }
  }

  /** `update_dir_item` changes the total by the difference it makes to one live size. */
  lemma LiveTotalUpdateFirst(s: seq<DirItem>, name: Path, size: int)
    ensures LiveTotal(UpdateFirst(s, name, size)) ==
            if HasLive(s, name) then LiveTotal(s) - s[FirstLive(s, name)].size + size else LiveTotal(s)
  {
    var k := FirstLive(s, name);
    if k < |s| {
      LiveTotalUpdateAt(s, k, s[k].(size := size));
    }
  }

  // ---------------------------------------------------------------------------
  // Facts about sorting and compaction
  // ---------------------------------------------------------------------------

  /** The index of the first tombstone, or `|s|`. */
  function FirstTombstone(s: seq<DirItem>): (b: nat)
    ensures b <= |s|
    ensures forall i :: 0 <= i < b ==> Live(s[i])
    ensures b < |s| ==> !Live(s[b])
  {
    if s == [] || !Live(s[0]) then 0 else 1 + FirstTombstone(s[1..])
  }

  /** In a sorted sequence the tombstones form a suffix. */
  lemma TombstonesLast(s: seq<DirItem>)
    requires Sorted(s)
    ensures forall i :: FirstTombstone(s) <= i < |s| ==> !Live(s[i])
  {
    var b := FirstTombstone(s);
    forall i | b <= i < |s| ensures !Live(s[i]) {
      if b < i {
        assert ItemLeq(s[b], s[i]);
      }
    }
  }

  /** Dropping a suffix of tombstones from a permutation of `s` leaves the live entries of `s`. */
  lemma LivePrefix(s: seq<DirItem>, t: seq<DirItem>, b: nat)
    requires multiset(t) == multiset(s) && b <= |t|
    requires forall i :: 0 <= i < b ==> Live(t[i])
    requires forall i :: b <= i < |t| ==> !Live(t[i])
    ensures SameLive(t[..b], s)
    ensures LiveTotal(t[..b]) == LiveTotal(s)
  {
    assert t == t[..b] + t[b..];
    forall x ensures multiset(t[..b])[x] == if Live(x) then multiset(s)[x] else 0 {
      if Live(x) {
        assert x !in t[b..];
      } else {
        assert x !in t[..b];
      }
    }
    LiveTotalConcat(t[..b], t[b..]);
    LiveTotalNoLive(t[b..]);
    LiveTotalPermutation(s, t);
  }

  // ---------------------------------------------------------------------------
  // The tombstone loop of remove_dir_and_children
  // ---------------------------------------------------------------------------

  /** The first index at or after `from` whose depth is at most `d`, or `|s|`. */
  function RunStop(s: seq<DirItem>, from: nat, d: int): (r: nat)
    requires from <= |s|
    ensures from <= r <= |s|
    ensures forall j :: from <= j < r ==> s[j].depth > d
    ensures r < |s| ==> s[r].depth <= d
    decreases |s| - from
  {
    if from == |s| || s[from].depth <= d then from else RunStop(s, from + 1, d)
  }

  /** The entries after tombstoning `[from, RunStop(from, d))`. */
  function RunTombstoned(s: seq<DirItem>, from: nat, d: int): (t: seq<DirItem>)
    requires from <= |s|
    ensures |t| == |s|
  {
    var stop := RunStop(s, from, d);
    seq(|s|, j requires 0 <= j < |s| => if from <= j < stop then Tombstoned(s[j]) else s[j])
  }

  /** Started on the matched entry with its own depth, the run is empty: nothing is tombstoned. */
  lemma RunFromMatchIsEmpty(s: seq<DirItem>, k: nat)
    requires k < |s|
    ensures RunTombstoned(s, k, s[k].depth) == s
  {
    assert RunStop(s, k, s[k].depth) == k;
  }

  // ---------------------------------------------------------------------------
  // The store
  // ---------------------------------------------------------------------------

  class ItemStore {
    /** `dir_items`; its length is `max_dir_items`. */
    var items: array<DirItem>
    /** `num_dir_items` */
    var count: nat

    ghost predicate Valid()
      reads this
    {
      count <= items.Length
    }

    /** The counted entries `dir_items[0 .. num_dir_items)`. */
    ghost function Contents(): seq<DirItem>
      reads this, items
      requires Valid()
    {
      items[..count]
    }

    /** The empty store the program starts with. */
    constructor ()
      ensures Valid() && Contents() == [] && fresh(items)
    {
      items := new DirItem[0];
      count := 0;
    }

    /**
     * `add_dir_item`: append a live, unmarked entry at index `num_dir_items`,
     * without looking for an existing entry of that name; the array grows by
     * DIR_ITEM_INCR slots when fewer than two are free.
     */
    method AddDirItem(name: Path, size: int, depth: int)
      requires Valid()
      modifies this, items
      ensures Valid() && (items == old(items) || fresh(items))
      ensures count < items.Length
      ensures old(count) + 1 >= old(items.Length) ==> fresh(items) && items.Length == old(items.Length) + DIR_ITEM_INCR
      ensures old(count) + 1 < old(items.Length) ==> items == old(items)
      ensures Contents() == Appended(old(Contents()), name, size, depth)
    {
      if count + 1 >= items.Length {
        var grown := new DirItem[items.Length + DIR_ITEM_INCR];
        forall i | 0 <= i < items.Length {
          grown[i] := items[i];
        }
        items := grown;
      }
      items[count] := DirItem(Some(name), depth, 0, size);
      count := count + 1;
    }

    /** `discard_all_dir_items`: tombstone every counted entry and empty the store. */
    method DiscardAll()
      requires Valid()
      modifies this, items
      ensures Valid() && items == old(items)
      ensures Contents() == []
      ensures forall i :: 0 <= i < old(count) ==> items[i] == Tombstoned(old(items[i]))
    {
      var i := 0;
      while i < count
        invariant items == old(items) && count == old(count) && Valid()
        invariant 0 <= i <= count
        invariant forall j :: 0 <= j < i ==> items[j] == Tombstoned(old(items[j]))
        invariant forall j :: i <= j < items.Length ==> items[j] == old(items[j])
      {
        items[i] := Tombstoned(items[i]);
        i := i + 1;
      }
      count := 0;
    }

    /** `update_dir_item`: overwrite the size of the first live entry called `name`. */
    method UpdateDirItem(name: Path, size: int) returns (err: int)
      requires Valid()
      modifies items
      ensures Valid()
      ensures err == (if HasLive(old(Contents()), name) then 0 else ENOENT)
      ensures Contents() == UpdateFirst(old(Contents()), name, size)
    {
      var i := 0;
      while i < count
        invariant 0 <= i <= count
        invariant forall j :: 0 <= j < i ==> !Named(items[j], name)
        invariant items[..count] == old(items[..count])
      {
        if items[i].name == Some(name) {
          items[i] := items[i].(size := size);
          return 0;
        }
        i := i + 1;
      }
      return ENOENT;
    }

    /** `get_total_size` */
    method GetTotalSize() returns (size: int)
      requires Valid()
      ensures size == LiveTotal(Contents())
    {
      size := 0;
      var i := 0;
      while i < count
        invariant 0 <= i <= count
        invariant size == LiveTotal(items[..i])
      {
        assert items[..i + 1][..i] == items[..i];
        if items[i].name.Some? {
          size := size + items[i].size;
        }
        i := i + 1;
      }
      assert items[..count] == Contents();
    }

    /** `dir_does_not_exist`: true unless some live entry called `name` has a nonzero size. */
    method DirDoesNotExist(name: Path) returns (absent: bool)
      requires Valid()
      ensures absent <==> NoSizedEntry(Contents(), name)
    {
      var i := 0;
      while i < count
        invariant 0 <= i <= count
        invariant forall j :: 0 <= j < i ==> !(Named(items[j], name) && items[j].size != 0)
      {
        if items[i].name == Some(name) && items[i].size != 0 {
          return false;
        }
        i := i + 1;
      }
      return true;
    }

    /** `get_dir_depth`: the depth of the first live entry called `name`, 0 if there is none. */
    method GetDirDepth(name: Path) returns (depth: int)
      requires Valid()
      ensures depth == DepthOf(Contents(), name)
      ensures !HasLive(Contents(), name) ==> depth == 0
    {
      var i := 0;
      while i < count
        invariant 0 <= i <= count
        invariant forall j :: 0 <= j < i ==> !Named(items[j], name)
      {
        if items[i].name == Some(name) {
          return items[i].depth;
        }
        i := i + 1;
      }
      return 0;
    }

    /** The index of a least entry of `[from, num_dir_items)`. */
    method LeastFrom(from: nat) returns (m: nat)
      requires Valid() && from < count
      ensures from <= m < count
      ensures forall q :: from <= q < count ==> ItemLeq(items[m], items[q])
    {
      m := from;
      var j := from + 1;
      while j < count
        invariant from <= m < j <= count
        invariant forall q :: from <= q < j ==> ItemLeq(items[m], items[q])
      {
        if CompareDirItems(items[j], items[m]) < 0 {
          forall q | from <= q < j
            ensures ItemLeq(items[j], items[q])
          {
            CompareTransitive(items[j], items[m], items[q]);
          }
          m := j;
        } else {
          CompareFlip(items[j], items[m]);
        }
        j := j + 1;
      }
    }

    /**
     * `qsort(dir_items, num_dir_items, sizeof(dir_item), compare_dir_items)`:
     * the counted entries are permuted into `compare_dir_items` order. Like
     * `qsort`, it promises nothing about the relative order of entries that
     * compare equal.
     */
    method Sort()
      requires Valid()
      modifies items
      ensures Valid()
      ensures Sorted(Contents())
      ensures multiset(Contents()) == multiset(old(Contents()))
    {
      var i := 0;
      while i < count
        invariant 0 <= i <= count
        invariant forall p, q :: 0 <= p < q < i ==> ItemLeq(items[p], items[q])
        invariant forall p, q :: 0 <= p < i <= q < count ==> ItemLeq(items[p], items[q])
        invariant multiset(items[..count]) == multiset(old(items[..count]))
      {
        var m := LeastFrom(i);
        items[i], items[m] := items[m], items[i];
        i := i + 1;
      }
    }

    /**
     * `cleanup_dir_items`: sort, which puts every tombstone after every live
     * entry, then drop one counted slot per tombstone.
     */
    method Cleanup()
      requires Valid()
      modifies this, items
      ensures Valid() && items == old(items)
      ensures Sorted(Contents()) && AllLive(Contents())
      ensures SameLive(Contents(), old(Contents()))
      ensures LiveTotal(Contents()) == LiveTotal(old(Contents()))
    {
      Sort();
      ghost var sorted := Contents();
      DropTombstones();
      assert Contents() == sorted[..FirstTombstone(sorted)];
      TombstonesLast(sorted);
      LivePrefix(old(Contents()), sorted, FirstTombstone(sorted));
    }

    /** The backward loop of `cleanup_dir_items`: one counted slot less per tombstone. */
    method DropTombstones()
      requires Valid() && Sorted(Contents())
      modifies this`count
      ensures Valid()
      ensures count == FirstTombstone(old(Contents()))
    {
      ghost var sorted := Contents();
      ghost var b := FirstTombstone(sorted);
      TombstonesLast(sorted);
      var i: int := count - 1;
      while i >= 0
        invariant -1 <= i < |sorted|
        invariant count == if i + 1 >= b then i + 1 else b
      {
        assert items[i] == sorted[i];
        if items[i].name.None? {
          count := count - 1;
        }
        i := i - 1;
      }
    }

    /** The loop of `remove_dir_and_children` that tombstones from `from` while the depth exceeds `startDepth`. */
    method TombstoneRun(from: nat, startDepth: int)
      requires Valid() && from <= count
      modifies items
      ensures Valid()
      ensures Contents() == RunTombstoned(old(Contents()), from, startDepth)
    {
      ghost var s := items[..count];
      var i := from;
      while i < count
        invariant from <= i <= RunStop(s, from, startDepth)
        invariant forall j :: 0 <= j < count ==> items[j] == if from <= j < i then Tombstoned(s[j]) else s[j]
      {
        if items[i].depth <= startDepth {
          break;
        }
        items[i] := Tombstoned(items[i]);
        i := i + 1;
      }
      assert items[..count] == RunTombstoned(s, from, startDepth);
    }

    /**
     * `remove_dir_and_children`: ENOENT when no live entry is called `name`;
     * otherwise the tombstone loop runs from the matched entry itself, whose
     * depth stops it at once, and the compaction only re-sorts.
     */
    method RemoveDirAndChildren(name: Path) returns (err: int)
      requires Valid()
      modifies this, items
      ensures Valid() && items == old(items)
      ensures err == (if HasLive(old(Contents()), name) then 0 else ENOENT)
      ensures err != 0 ==> Contents() == old(Contents())
      ensures err == 0 ==> Sorted(Contents()) && AllLive(Contents()) && SameLive(Contents(), old(Contents()))
    {
      var i := 0;
      while i < count
        invariant 0 <= i <= count
        invariant forall j :: 0 <= j < i ==> !Named(items[j], name)
      {
        if items[i].name == Some(name) {
          break;
        }
        i := i + 1;
      }
      if i >= count {
        return ENOENT;
      }
      var startDepth := items[i].depth;
      TombstoneRun(i, startDepth);
      RunFromMatchIsEmpty(old(Contents()), i);
      Cleanup();
      return 0;
    }
  }
}
