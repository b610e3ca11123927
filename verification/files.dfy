/**
 * The filesystem the watcher reads, as an immutable input: for each directory
 * path, what `opendir`/`readdir` deliver, with the `lstat` outcome of each
 * listed entry. A path absent from the map fails to open with ENOENT.
 */
module Files {
  import opened CStrings

  /** The outcome of `lstat` on `dir/name` (which does not follow links). */
  datatype Stat = Stat(isDir: bool, size: int) | StatFailed

  datatype DirEntry = DirEntry(name: string, stat: Stat)

  /** A directory that lists its entries, or one `opendir` fails on with an error other than ENOENT. */
  datatype Listing = Entries(entries: seq<DirEntry>) | Unreadable

  datatype FileSystem = FileSystem(dirs: map<Path, Listing>)

  datatype OpenResult = Opened(entries: seq<DirEntry>) | NoEntry | OpenFailed

  /** `opendir(p)` followed by `readdir` until NULL. */
  function OpenDir(fs: FileSystem, p: Path): (r: OpenResult)
    ensures r.NoEntry? <==> p !in fs.dirs
  {
    if p !in fs.dirs then NoEntry
    else match fs.dirs[p]
      case Entries(es) => Opened(es)
      case Unreadable => OpenFailed
  }

  /** `stat(p) == 0`: the path exists. */
  predicate Exists(fs: FileSystem, p: Path) {
    p in fs.dirs
  }

  /** The pseudo-entries both listing loops skip. */
  predicate Skipped(e: DirEntry) {
    e.name == "." || e.name == ".."
  }

  /** An entry whose `st_size` is added to its directory's size. */
  predicate Counted(e: DirEntry) {
    !Skipped(e) && e.stat.Stat?
  }

  function EntrySize(e: DirEntry): int {
    if Counted(e) then e.stat.size else 0
  }

  /** The size a directory item records: the `st_size` sum over its counted entries. */
  function ListingSize(es: seq<DirEntry>): int {
    if es == [] then 0 else ListingSize(es[..|es| - 1]) + EntrySize(es[|es| - 1])
  }

  /** One more entry of a listing adds its size. */
  lemma ListingSizeStep(es: seq<DirEntry>, n: nat)
    requires n < |es|
    ensures ListingSize(es[..n + 1]) == ListingSize(es[..n]) + EntrySize(es[n])
  {
    assert es[..n + 1][..n] == es[..n];
  }

  /** Directories at least as long as `p`: shrinks strictly on every step into a child. */
  function Rank(fs: FileSystem, p: Path): nat {
    var atLeast := set q | q in fs.dirs && |q| >= |p|;
    |atLeast|
  }

  lemma RankDecreases(fs: FileSystem, p: Path, c: Path)
    requires p in fs.dirs && |c| > |p|
    ensures Rank(fs, c) < Rank(fs, p)
  {
    var below, here := set q | q in fs.dirs && |q| >= |c|, set q | q in fs.dirs && |q| >= |p|;
    assert below <= here;
    assert p in here - below;
    assert here == below + (here - below);
  }

  /** A directory listing as a real filesystem gives it: distinct, non-empty names without '/'. */
  predicate WellFormedListing(es: seq<DirEntry>) {
    (forall i :: 0 <= i < |es| ==> es[i].name != [] && '/' !in es[i].name) &&
    (forall i, j :: 0 <= i < j < |es| ==> es[i].name != es[j].name)
  }

  predicate WellFormed(fs: FileSystem) {
    forall p :: p in fs.dirs && fs.dirs[p].Entries? ==> WellFormedListing(fs.dirs[p].entries)
  }

  /**
   * The recursive size of the tree at `p`: its own entries plus, for every
   * counted subdirectory, that subdirectory's recursive size. A directory
   * that is gone or cannot be opened contributes nothing.
   */
  function TreeSize(fs: FileSystem, p: Path): int
    decreases Rank(fs, p), 1
  {
    match OpenDir(fs, p)
    case Opened(es) => ListingSize(es) + SubtreeSizes(fs, p, es, |es|)
    case _ => 0
  }

  /** The recursive sizes of the counted subdirectories among `es[..k]`. */
  function SubtreeSizes(fs: FileSystem, p: Path, es: seq<DirEntry>, k: nat): int
    requires p in fs.dirs && k <= |es|
    decreases Rank(fs, p), 0, k
  {
    if k == 0 then 0
    else
      var e := es[k - 1];
      SubtreeSizes(fs, p, es, k - 1) +
      if Counted(e) && e.stat.isDir then
        RankDecreases(fs, p, Join(p, e.name));
        TreeSize(fs, Join(p, e.name))
      else 0
  }
}
