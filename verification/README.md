# Watcher: a verified model of an FSEvents directory-size watcher

`Watcher.c` watches one directory hierarchy through the FSEvents API and
keeps, for every directory under it, the sum of the `st_size` values of that
directory's entries. The total size of the hierarchy is the sum over all
directories. The program keeps these sizes in a dynamic array of directory
items. Each item holds a path, a depth, a flag and a size; a freed path
(`dirname == NULL`) marks a dead item. The array is kept in `strcmp` order.

This project models the core of that program in Dafny:

- **the item store** (`DirStore`): a class over an `array<DirItem>` with its
  count, and the operations that add, update, query, sort, compact and
  discard items;
- **the scanner** (`Scanner`): `iterate_subdirs` and `scan_directory`. A
  recursive specification function (`Scan`) mirrors the recursion. The
  method is proved equal to it. A scan from an empty store is proved to
  record the recursive size of the tree (`TreeSize`);
- **the differ** (`Differ`): `check_children_of_dir`, which re-lists one
  directory, flags the children it still finds, scans new ones, sets the
  directory's size and tombstones vanished children with the deeper entries
  after them. The sweep is stated item by item (`SweepSpec`), and the fate of
  each child is proved;
- **the dispatcher** (`Dispatcher`): the per-event body of
  `fsevents_callback` and the loop over a batch of events;
- **persistence** (`ItemFile`, `StreamInfo`, `Numerals`): `save_dir_items`
  and `load_dir_items`, `save_stream_info` and `load_stream_info`, with the
  `printf`/`fscanf` text formats they use, and the resume-or-rescan decision
  at the start of `watch_dir_hierarchy`. Both files are proved to round-trip.

The filesystem is an immutable input: a map from directory paths to their
listings. Each listed entry has its `lstat` outcome. A path missing from the
map fails to open with ENOENT, and an `Unreadable` listing fails with
another error. File contents are parameters: `Option<string>`, with `None`
for a file that does not open.

Two places where the code does something other than what one would expect
from its comments; the model follows the code:

- `remove_dir_and_children` (Watcher.c:747-779) finds the first live item
  with the name and then starts its second loop at that same index. The
  item's depth is not greater than itself, so the loop stops at once and
  nothing is removed; the call only re-sorts and compacts.
  `ItemStore.RemoveDirAndChildren` states exactly that, and `HandleEvent`'s
  rescan route therefore re-scans on top of the entries that are already there.
  `Dispatcher.RescanKeepsVanishedChild` shows the effect: after `/w/sub` is
  deleted, a rescan of `/w` keeps the entry for `/w/sub` with its old size,
  so the total goes from 150 to 50, the vanished child's old size, while the
  tree's size is 0.
- A directory's recorded size includes the `st_size` of its subdirectory
  entries, not their contents (Watcher.c:878). The recursive total is the
  sum over all items, which is what `TreeSize` defines.

Both `check_children_of_dir` and `remove_dir_and_children` treat "the items
after a directory that are deeper than it" as that directory's subtree.
Under `strcmp` order that run need not be the subtree:
`CStrings.DottedSiblingSortsBetween` shows `/a.old` sorting between `/a` and
`/a/b`. The differ is therefore stated against the range the code computes
(`Differ.RangeEnd`), not against the set of descendants.

## Model

| member | source | states |
|---|---|---|
| CStrings.StrCmp | Watcher.c:622 | `strcmp`'s sign: in {-1, 0, 1}, and the empty string sorts before any other |
| CStrings.StrCmpZero | Watcher.c:719 | `strcmp(a, b) == 0` exactly when the two names are equal |
| CStrings.StrCmpFlip | Watcher.c:609-623 | swapping the arguments negates the comparison |
| CStrings.StrCmpTransitive | Watcher.c:609-623 | the comparison is transitive, so `qsort` is given a total preorder |
| CStrings.JoinIsUnder | Watcher.c:870 | `"%s/%s"` of a directory and a name is strictly inside the directory |
| CStrings.UnderChild | Watcher.c:870 | anything at or under a child path is under the parent |
| CStrings.AtOrUnderChild | Watcher.c:870 | a path is at or under `dir/name` exactly when it is under `dir` and its next component is `name` |
| CStrings.SiblingsDisjoint | Watcher.c:870 | nothing is at or under two differently named children of one directory |
| CStrings.DottedSiblingSortsBetween | Watcher.c:921-926 | `/a.old` sorts between `/a` and `/a/b`, and is not under `/a` |
| Files.OpenDir | Watcher.c:854-863 | `opendir` fails with ENOENT exactly for a path that does not exist |
| Files.ListingSizeStep | Watcher.c:878 | each counted entry adds its `st_size` to the directory's size |
| Files.RankDecreases | Watcher.c:880-881 | the recursion into `dir/name` goes to a longer path, so it terminates |
| DirStore.CompareDirItems | Watcher.c:608-623 | `compare_dir_items`: 0 exactly for equal names (two dead items included); every live item before every dead one |
| DirStore.CompareFlip | Watcher.c:608-623 | the item comparison is antisymmetric |
| DirStore.CompareTransitive | Watcher.c:608-623 | the item comparison is transitive |
| DirStore.FirstLive | Watcher.c:718-723 | the index the name searches stop at: a live item with the name, and none before it |
| DirStore.HasLiveIff | Watcher.c:718-725 | a search finds the name exactly when some live item has it |
| DirStore.LiveTotalConcat | Watcher.c:816-829 | the total of two parts is the sum of their totals |
| DirStore.LiveTotalNoLive | Watcher.c:816-829 | dead items add nothing to the total |
| DirStore.LiveTotalPermutation | Watcher.c:816-829 | reordering the items (the `qsort`) leaves the total unchanged |
| DirStore.LiveTotalAppended | Watcher.c:626-647 | an added item adds its size to the total |
| DirStore.LiveTotalUpdateAt | Watcher.c:720 | replacing one item changes the total by the difference of their weights |
| DirStore.LiveTotalUpdateFirst | Watcher.c:713-726 | `update_dir_item` changes the total by new size minus old size, or not at all when the name is absent |
| DirStore.FirstTombstone | Watcher.c:739-743 | the length of the leading run of live items |
| DirStore.TombstonesLast | Watcher.c:737-743 | after the sort every item from the first dead one on is dead |
| DirStore.LivePrefix | Watcher.c:737-743 | the compacted prefix holds exactly the live items, and their total |
| DirStore.SameLiveClean | Watcher.c:739-743 | compaction keeps every remaining item live and unflagged |
| DirStore.CleanPermutation | Watcher.c:1015 | a permutation of a clean store is clean |
| DirStore.RunStop | Watcher.c:764-767 | where the removal loop stops: the first item no deeper than the start depth |
| DirStore.RunTombstoned | Watcher.c:764-775 | the removal loop keeps the length of the array |
| DirStore.RunFromMatchIsEmpty | Watcher.c:762-766 | started at the matched item itself, the removal loop changes nothing |
| DirStore.ItemStore.constructor | Watcher.c:602-604 | the store starts empty |
| DirStore.ItemStore.AddDirItem | Watcher.c:626-647 | appends a live, unflagged item with the name, size and depth; when fewer than two slots are free it moves to a fresh array 128 slots larger, otherwise it writes in place |
| DirStore.ItemStore.DiscardAll | Watcher.c:649-664 | every counted item is freed and zeroed, and the count drops to 0 |
| DirStore.ItemStore.UpdateDirItem | Watcher.c:713-726 | sets the size of the first live item with the name and answers 0, or answers ENOENT and changes nothing |
| DirStore.ItemStore.GetTotalSize | Watcher.c:816-829 | answers the sum of the sizes of the live items |
| DirStore.ItemStore.DirDoesNotExist | Watcher.c:784-796 | answers true exactly when no live item with the name has a nonzero size |
| DirStore.ItemStore.GetDirDepth | Watcher.c:801-813 | answers the depth of the first live item with the name, or 0 when there is none |
| DirStore.ItemStore.LeastFrom | Watcher.c:737 | finds a least item of the unsorted suffix |
| DirStore.ItemStore.Sort | Watcher.c:737 | `qsort`: the items end sorted by `compare_dir_items` and are a permutation of the old ones |
| DirStore.ItemStore.Cleanup | Watcher.c:729-744 | `cleanup_dir_items`: sorted, all live, exactly the old live items, same total |
| DirStore.ItemStore.DropTombstones | Watcher.c:739-743 | the count becomes the number of leading live items |
| DirStore.ItemStore.TombstoneRun | Watcher.c:764-775 | the items become `RunTombstoned` of the old ones |
| DirStore.ItemStore.RemoveDirAndChildren | Watcher.c:747-779 | ENOENT and no change when the name is absent; otherwise 0, with the store sorted, all live and holding exactly the old live items |
| Numerals.SpanBounds | Watcher.c:703 | a span covers characters of its class only, and stops at the first one outside it |
| Numerals.SpanPrefix | Watcher.c:703 | a span stops where its class stops |
| Numerals.NatToString | Watcher.c:681 | `%d` of a natural: non-empty decimal digits without a leading zero |
| Numerals.IntToString | Watcher.c:681 | `%d`/`%lld` text is non-empty and does not start with white space |
| Numerals.ValueOfNatToString | Watcher.c:681 | the digits written for `n` have value `n` |
| Numerals.ScanSigned | Watcher.c:703 | a numeric conversion that succeeds consumes at least one character |
| Numerals.IntInputEnd | Watcher.c:482 | where a failed `%lld` leaves the input, within the text |
| Numerals.ScanInt | Watcher.c:703 | a `%d`/`%lld` that succeeds consumes at least one character of the text |
| Numerals.ScanToken | Watcher.c:703 | a `%s` that succeeds reads a non-empty token within the text |
| Numerals.ScanIntAfterSpace | Watcher.c:703 | white space before a numeric conversion only shifts where it stops |
| Numerals.ScanSignedOfIntToString | Watcher.c:681 | what `%lld` wrote reads back, with its sign, as the same value |
| Numerals.ScanIntRoundTrip | Watcher.c:681 | `%d`/`%lld` text read back after any white space gives the value and stops right after it |
| Numerals.ScanTokenRoundTrip | Watcher.c:681 | `%s` text read back after any white space gives the token and stops right after it |
| ItemFile.Restored | Watcher.c:703-705 | one item is restored per record read |
| ItemFile.ScanLineBounds | Watcher.c:703 | a line read consumes at least one character of the text |
| ItemFile.ScanLineOfLine | Watcher.c:681 | a written `"%d %lld %s\n"` line reads back as the same record, consuming exactly the line |
| ItemFile.ScanLinesOfLine | Watcher.c:703 | the read loop reads the first written line and then goes on with the rest |
| ItemFile.SaveTextSnoc | Watcher.c:679-683 | one more item appends its line when live and nothing when dead |
| ItemFile.SaveTextStart | Watcher.c:681 | the saved text does not start with white space |
| ItemFile.SaveThenScan | Watcher.c:667-709 | reading back a saved file gives exactly the records of the live items, in order |
| ItemFile.SaveLoadRoundTrip | Watcher.c:667-709 | saving a clean store and loading the file gives back the same items |
| ItemFile.RestoredClean | Watcher.c:704 | loaded items are live and unflagged |
| ItemFile.RestoredLiveRecords | Watcher.c:704 | restoring the records of a clean store gives the store |
| ItemFile.RestoredSnoc | Watcher.c:703-705 | one more record restores one more item at the end |
| ItemFile.SaveDirItems | Watcher.c:667-687 | answers -1 and writes nothing when the file cannot be created, otherwise answers 0 and writes one line per live item |
| ItemFile.ScanLinesStep | Watcher.c:703 | each successful line read moves the read position forward |
| ItemFile.AddScanned | Watcher.c:703-704 | one loop step appends the item for the record just read |
| ItemFile.LoadDirItems | Watcher.c:689-709 | -1 and nothing changed when the file does not open; otherwise 0 with one item appended per line read |
| ItemFile.ReadLines | Watcher.c:703-705 | the loop appends the restored records of every line read, in order |
| Scanner.Scan | Watcher.c:832-896 | a scan extends the store, changes only items at or under the directory, and answers the listing's size, 0 on ENOENT or -1 |
| Scanner.ScanEntries | Watcher.c:866-886 | the listing loop changes only items strictly under the directory and sums the `st_size` of the counted entries |
| Scanner.ScanRecordsSize | Watcher.c:891-893 | after a listing, or with `add`, the directory has an item, and its first item holds the size answered |
| Scanner.ScanEntriesDescends | Watcher.c:880-881 | a counted directory entry is scanned, recursively at the next depth and then registered when adding, exactly when the scan is recursive or the store has no sized entry for it; otherwise the store is unchanged |
| Scanner.ScanKeepsAdded | Watcher.c:846-847 | with `add`, the entry registered first stays where it was appended, under the directory's name |
| Scanner.UpdateFirstFinds | Watcher.c:891 | the updated item is still found and holds the new size |
| Scanner.AppendedFinds | Watcher.c:892 | an appended item is found, and it is the first one when there was none before |
| Scanner.SiblingScanKeepsClear | Watcher.c:880-881 | a scan of one child adds nothing at or under a sibling |
| Scanner.ScanAddsTreeSize | Watcher.c:832-896 | a recursive, adding scan of a directory new to the store adds its recursive tree size to the total |
| Scanner.ScanEntriesAddSubtrees | Watcher.c:866-886 | the listing loop adds the listing's size plus the subtrees of its subdirectories |
| Scanner.InitialScanTotal | Watcher.c:291-298 | the initial scan from an empty store records exactly the recursive size of the tree |
| Scanner.IterateSubdirs | Watcher.c:832-896 | `iterate_subdirs` leaves the store as `Scan` says and answers what it says |
| Scanner.ListDirectory | Watcher.c:865-895 | after the listing loop, the directory's size goes into its first item, or into a new one |
| Scanner.IterateEntries | Watcher.c:866-886 | the loop ends where `ScanEntries` over the whole listing does |
| Scanner.IterateEntry | Watcher.c:867-885 | one iteration takes `ScanEntries` one entry further |
| Scanner.ScanDirectory | Watcher.c:1010-1016 | `scan_directory`: sorted, and a permutation of what `Scan` leaves |
| Differ.RangeEnd | Watcher.c:918-926 | the end of the range: every item inside is deeper than the directory, the one at the end is not |
| Differ.FindIn | Watcher.c:947-957 | the search finds the first live item of the range at child depth with the path, or stops at the end |
| Differ.FindInSameShape | Watcher.c:947-957 | flags and sizes do not affect the search |
| Differ.MarkEntries | Watcher.c:939-971 | the listing loop keeps the existing items' names and depths, flags only inside the range, and adds only live unflagged items |
| Differ.MarkEntriesDiscovers | Watcher.c:959-963 | a listed directory with no live child-depth entry of its path in the range is scanned with `iterate_subdirs(path, 1, 1, cd + 1)` and then has a live entry |
| Differ.KeptStep | Watcher.c:943-970 | keeping names and depths and never clearing a flag keeps an entry that the sweep will spare |
| Differ.KeptMark | Watcher.c:947-957 | flagging the entry a listed path found keeps spared entries spared and spares that path, unless the search found nothing |
| Differ.KeptScan | Watcher.c:959-963 | the scan of a new subdirectory keeps spared entries spared and spares the subdirectory |
| Differ.MarkEntriesKeepsStep | Watcher.c:943-970 | one listing step keeps every spared entry spared and makes a listed directory spared: flagged if found in the range, otherwise added by its scan |
| Differ.MarkEntriesKeepsDirs | Watcher.c:939-971 | after the listing loop every listed directory has a live entry the sweep spares |
| Differ.DiffedKeepsDirs | Watcher.c:939-997 | after the sweep every listed directory still has a live entry |
| Differ.DiffKeepsListedDirs | Watcher.c:899-1007 | after `check_children_of_dir` lists a known directory, every listed subdirectory has a live entry in the store |
| Differ.Head | Watcher.c:976-992 | the child-depth item whose run a deeper item trails |
| Differ.HeadSameShape | Watcher.c:976-992 | flags and sizes do not affect the head |
| Differ.SweepSpec | Watcher.c:976-997 | the sweep keeps the length of the array |
| Differ.ZeroRange | Watcher.c:929-936 | ENOENT keeps the length of the array |
| Differ.Diffed | Watcher.c:939-997 | the listing only adds items |
| Differ.MarkedState | Watcher.c:947-957 | a range item ends the listing loop flagged exactly when some listed path found it |
| Differ.DiffChildFate | Watcher.c:976-996 | a live unflagged child survives the diff exactly when the listing named it, and ends unflagged |
| Differ.DiffDeeperFate | Watcher.c:984-992 | a deeper item survives exactly when the child it trails survives |
| Differ.DiffParentSize | Watcher.c:973-974 | the directory's own item gets the listing's size, and nothing else about it changes |
| Differ.DiffKeepsClean | Watcher.c:976-997 | every live item ends unflagged |
| Differ.DiffOutcomeKeepsClean | Watcher.c:899-1007 | a diff started on a clean store ends clean |
| Differ.FindParent | Watcher.c:908-912 | finds the first live item with the name |
| Differ.FindRangeEnd | Watcher.c:918-926 | computes `RangeEnd` |
| Differ.SearchRange | Watcher.c:947-957 | computes `FindIn` |
| Differ.MarkListing | Watcher.c:939-971 | the listing loop leaves `MarkEntries` and answers the listing's size |
| Differ.MarkEntry | Watcher.c:943-970 | one listing entry takes `MarkEntries` one step and contributes its `st_size` |
| Differ.Sweep | Watcher.c:976-997 | the sweep leaves `SweepSpec` of the old items |
| Differ.SweepEntry | Watcher.c:977-996 | one range item takes the sweep one step |
| Differ.SweepChild | Watcher.c:984-992 | a vanished child is tombstoned together with the deeper items after it |
| Differ.SweepRunEntry | Watcher.c:987-991 | one item of a vanished child's run is tombstoned if live |
| Differ.ZeroSizes | Watcher.c:931-933 | the ENOENT branch zeroes the sizes over the range and nothing else |
| Differ.CheckChildrenOfDir | Watcher.c:899-1007 | -1 and no change for an unknown directory; 0 and zero sizes after ENOENT; otherwise 0 and exactly the live items of the diff, sorted |
| Dispatcher.StripTrailingSlash | Watcher.c:141-146 | exactly one trailing '/' is removed, and only when there is one |
| Dispatcher.Classify | Watcher.c:161-198 | HistoryDone skips; RootChanged with the root gone discards; neither flag nor MustScanSubDirs diffs; a rescan or diff targets the root or the stripped path |
| Dispatcher.HistoryDoneFirst | Watcher.c:161-163 | HistoryDone wins over every other flag |
| Dispatcher.RootChangedBeforeMustScan | Watcher.c:164-176 | with RootChanged, the MustScanSubDirs and dropped flags do not matter |
| Dispatcher.DroppedOnlyWithMustScan | Watcher.c:176-185 | the dropped flags matter only with MustScanSubDirs |
| Dispatcher.DroppedRescansRoot | Watcher.c:179-185 | dropped events rescan the whole root |
| Dispatcher.EventOutcomeKeepsClean | Watcher.c:161-199 | whatever route an event takes, a clean store stays clean |
| Dispatcher.RescanKeepsVanishedChild | Watcher.c:194-196 | a rescan of `/w` after `/w/sub` vanished keeps `/w/sub`'s entry and size, so the total goes from 150 to 50 while the tree's size is 0 |
| Dispatcher.ScanOfVanishedChild | Watcher.c:832-896 | the scan step of that example: `/w` is added again, the first `/w` is zeroed, `/w/sub` is left alone |
| Dispatcher.HandleEvent | Watcher.c:141-199 | the counted entries go from the old ones to a state `EventOutcome` allows: unchanged on HistoryDone; empty when the root is gone; for a rescan, the old live entries re-sorted and then a sorted permutation of a recursive, adding scan of the target; for a diff, the outcome of `check_children_of_dir`; a clean store stays clean |
| Dispatcher.HandleEvents | Watcher.c:136-202 | the states before and after each event form a chain from the old entries to the new ones, each step that event's `EventOutcome`, in order; a clean store stays clean |
| StreamInfo.AsSignedRoundTrip | Watcher.c:452 | the signed `%lld` text of a 64-bit id fits `long long`, and reading it into the unsigned id restores the id |
| StreamInfo.HexValueOfHexChar | Watcher.c:454 | each hexadecimal digit written reads back as its value |
| StreamInfo.UuidString | Watcher.c:454 | the UUID text is 36 characters long |
| StreamInfo.ParseUuidString | Watcher.c:488-490 | a UUID's text parses back to the UUID |
| StreamInfo.UuidStringOfParse | Watcher.c:490 | uppercase text that parses is the text of its UUID |
| StreamInfo.UnknownUuidRejected | Watcher.c:458 | `unknown-uuid` is not a UUID |
| StreamInfo.SavedIdResumable | Watcher.c:447-449 | the id saved is never SinceNow or 0 unless the current id is, and is the stream's own last id when that is neither |
| StreamInfo.ReadEventId | Watcher.c:482-485 | reading the id stays within the text |
| StreamInfo.LoadStreamInfo | Watcher.c:469-504 | ENOENT exactly without a file; 0 exactly when a UUID was read; EINVAL resets the id to SinceNow |
| StreamInfo.StreamInfoRoundTrip | Watcher.c:438-504 | loading a saved file gives 0, the saved id and the saved UUID |
| StreamInfo.UnknownUuidRoundTrip | Watcher.c:457-494 | loading a file saved without a UUID text gives EINVAL and SinceNow |
| StreamInfo.StartId | Watcher.c:228-254 | the stream starts from the stored id when resuming, from SinceNow after a mismatch, and from the loaded id otherwise |
| StreamInfo.RestartResumes | Watcher.c:228-243 | after a save with this device's UUID, the next start resumes from the saved id |
| StreamInfo.OtherDeviceRescans | Watcher.c:244-248 | a save from another device, or without a UUID text, leads to a rescan from SinceNow |
| StreamInfo.StartWatching | Watcher.c:228-298 | on resume the store holds the loaded items; otherwise it holds a sorted initial scan whose total is the recursive tree size; either way the store is clean |

## Left out

- `DirStore.ItemStore.AddDirItem`: a failed `realloc` (ENOSPC) is not modelled, because memory is unbounded here; the call always succeeds.
- `DirStore.DirItem`: `depth` and `state` are 16-bit `short` values in the source. Here they are unbounded integers, so truncation of deep paths is not modelled.
- `DirStore.LiveTotal`: sizes and totals are unbounded integers; overflow of the 64-bit `off_t` is not modelled.
- `CStrings.StrCmp`: names are Dafny strings, so a NUL inside a name (which would end a C string early) is not modelled.
- `execute_for_path` is called for every entry but does nothing visible to the core, so it is not modelled.
- Printing (`printf`, the totals printed after a scan or at start) is not modelled.
- `get_dev_info`, the stream creation and scheduling, the run loop, the signal handlers, `create_cfarray_from_path`, `main` and the option parsing are not modelled. They are plumbing around the core.
- File I/O is a parameter. A file's contents are an `Option<string>` (`None` when `fopen` fails), and a save returns the text it writes. When `save_stream_info` cannot open its file, it writes nothing, which this model does not show separately.
- `FSEventsGetCurrentEventId` and the device UUID are parameters.
- `Differ.CheckChildrenOfDir`: requires that a directory the store knows does not fail to open with an error other than ENOENT, because the source then calls `readdir(NULL)`.
- `Dispatcher.HandleEvent`: requires a non-empty event path, because the source reads `path_buff[len-1]` before its buffer otherwise. It also requires that a diffed directory the store knows does not fail to open for a reason other than ENOENT, as `Differ.CheckChildrenOfDir` does.
- `Dispatcher.HandleEvents`: requires that no event of the batch diffs a directory that fails to open for a reason other than ENOENT (`DiffTargetsOpen`). The filesystem does not change between the events of one batch.
- `ItemFile.LoadDirItems`: requires every path read to be shorter than MAXPATHLEN (1024), because a longer `%s` overflows `buff`.
- `StreamInfo.LoadStreamInfo`: requires that the id read fits `long long` and that a `%s` token follows it and fits `uuid_str[64]`. Otherwise the source overflows its buffer, reads an unset one, or does not define the conversion.
- `StreamInfo.ParseUuid`: accepts exactly the 8-4-4-4-12 hexadecimal form. Any further leniency of `CFUUIDCreateFromString` is not modelled.
- `StreamInfo.LoadStreamInfo`: the ENOMEM result is not modelled. `CFStringCreateWithCString` returns NULL when the `%s` token is not valid UTF-8 (Watcher.c:488). `ret` then keeps its initial ENOMEM (Watcher.c:475), and the id just read is kept (Watcher.c:482-485). `watch_dir_hierarchy` then does an initial scan and starts the stream from that kept id, not from SinceNow (Watcher.c:252-253). Text here is a sequence of characters, not bytes, so no token is invalid UTF-8 and this outcome cannot arise.
- `StreamInfo.UuidLine`: the `unknown-uuid` line, written when no text can be made for the UUID, is chosen by the caller (`None`). Why `CFUUIDCreateString` fails is not modelled.
- `Files.OpenDir`: a path that is not a directory is treated like a missing one (ENOENT). On a regular file, `opendir` fails with ENOTDIR, so `iterate_subdirs` answers -1 and leaves the item alone (Watcher.c:861-862). The model zeroes the item instead. Likewise `stat` of a root that has become a file succeeds (Watcher.c:167), while the model treats that root as gone.
- Paths are unbounded strings. The source's fixed buffers are not modelled: `snprintf` into `fullpath` truncates at PATH_MAX or MAXPATHLEN (Watcher.c:870, 946), and `strcpy` into `path_buff` can overflow (Watcher.c:141).
- `Numerals.DigitValue` is total (0 for a non-digit); the scans apply it to digits only.
- `ItemFile.SaveThenScan` and `ItemFile.SaveLoadRoundTrip` require that saved names are non-empty and contain no white space (`PlainNames`). `%s` stops at white space and skips an empty field, so such a name would not read back as written.
