/**
 * `diritems.txt`: `save_dir_items` writes one `"%d %lld %s\n"` line (depth,
 * size, path) per live entry in array order; `load_dir_items` reads such
 * lines with `fscanf` and appends an entry for each until a line fails to
 * scan.
 */
module ItemFile {
  import opened Options
  import opened Numerals
  import opened DirStore

  /** The size of the `buff` that `%s` reads a path into, terminating NUL included. */
  const MAXPATHLEN: nat := 1024

  datatype ItemRecord = ItemRecord(depth: int, size: int, name: string)

  /** One line as `fprintf(fp, "%d %lld %s\n", depth, size, dirname)` writes it. */
  function Line(r: ItemRecord): string {
    IntToString(r.depth) + " " + IntToString(r.size) + " " + r.name + "\n"
  }

  function RecordOf(it: DirItem): ItemRecord
    requires Live(it)
  {
    ItemRecord(it.depth, it.size, it.name.value)
  }

  /** The live entries' records, in array order. */
  function LiveRecords(s: seq<DirItem>): seq<ItemRecord> {
    if s == [] then [] else (if Live(s[0]) then [RecordOf(s[0])] else []) + LiveRecords(s[1..])
  }

  /** What `save_dir_items` writes for one entry: its line when it is live, nothing otherwise. */
  function Piece(it: DirItem): string {
    if Live(it) then Line(RecordOf(it)) else ""
  }

  /** The text `save_dir_items` writes for the counted entries `s`. */
  function SaveText(s: seq<DirItem>): string {
    if s == [] then "" else Piece(s[0]) + SaveText(s[1..])
  }

  /** The `%lld %s\n` part of a line: size, path, and the white space after the path. */
  function ScanSizeAndPath(t: string): Option<(int, string, nat)>
  {
    var size := ScanInt(t);
    if size.None? then None
    else
      var j := size.value.1;
      var name := ScanToken(t[j..]);
      if name.None? then None
      else
        var m := j + name.value.1;
        Some((size.value.0, name.value.0, m + Span(t[m..], Space)))
  }

  /**
   * One `fscanf(fp, "%d %lld %s\n", ...)` that returns 3: the record and the
   * characters consumed, the white space after the path included. A call
   * that converts fewer than three items yields None.
   */
  function ScanLine(t: string): Option<(ItemRecord, nat)>
  {
    var depth := ScanInt(t);
    if depth.None? then None
    else
      var i := depth.value.1;
      var rest := ScanSizeAndPath(t[i..]);
      if rest.None? then None
      else Some((ItemRecord(depth.value.0, rest.value.0, rest.value.1), i + rest.value.2))
  }

  /** A line that scans consumes at least one character, and no more than there are. */
  lemma ScanLineBounds(t: string)
    ensures ScanLine(t).Some? ==> 0 < ScanLine(t).value.1 <= |t|
  {
  }

  /** The records the loop of `load_dir_items` reads: line after line, up to the first that fails. */
  function ScanLines(t: string): seq<ItemRecord>
    decreases |t|
  {
    match ScanLine(t)
    case None => []
    case Some((r, n)) =>
      ScanLineBounds(t);
      [r] + ScanLines(t[n..])
  }

  /** The entry `add_dir_item` appends for a record: live and unflagged. */
  function Restore(rec: ItemRecord): DirItem {
    DirItem(Some(rec.name), rec.depth, 0, rec.size)
  }

  /** The entries `add_dir_item` appends for the records, in order. */
  function Restored(recs: seq<ItemRecord>): (s: seq<DirItem>)
    ensures |s| == |recs|
  {
    if recs == [] then [] else [Restore(recs[0])] + Restored(recs[1..])
  }

  /** A path `%s` reads back whole: non-empty, without white space. */
  predicate PlainName(name: string) {
    name != [] && forall i :: 0 <= i < |name| ==> !IsSpace(name[i])
  }

  predicate PlainNames(s: seq<DirItem>) {
    forall i :: 0 <= i < |s| && Live(s[i]) ==> PlainName(s[i].name.value)
  }

  // ---------------------------------------------------------------------------
  // The round trip
  // ---------------------------------------------------------------------------

  /** Unfolds `ScanLine` once its depth and the rest of the line are known. */
  lemma ScanLineOuter(t: string, r: ItemRecord, i: nat, k: nat, n: nat)
    requires ScanInt(t) == Some((r.depth, i))
    requires i <= |t| && ScanSizeAndPath(t[i..]) == Some((r.size, r.name, k))
    requires n == i + k
    ensures ScanLine(t) == Some((r, n))
  {
    ScanLineNumbers(t, r, i, k);
    ScanLineName(t, r, i, k);
    ScannedIs(ScanLine(t), r, n);
  }

  lemma ScanLineNumbers(t: string, r: ItemRecord, i: nat, k: nat)
    requires ScanInt(t) == Some((r.depth, i))
    requires i <= |t| && ScanSizeAndPath(t[i..]) == Some((r.size, r.name, k))
    ensures ScanLine(t).Some? && ScanLine(t).value.1 == i + k
    ensures ScanLine(t).value.0.depth == r.depth && ScanLine(t).value.0.size == r.size
  {
  }

  lemma ScanLineName(t: string, r: ItemRecord, i: nat, k: nat)
    requires ScanInt(t) == Some((r.depth, i))
    requires i <= |t| && ScanSizeAndPath(t[i..]) == Some((r.size, r.name, k))
    ensures ScanLine(t).Some? && ScanLine(t).value.0.name == r.name
  {
  }

  /** A scan result is the record and width it holds field for field. */
  lemma ScannedIs(got: Option<(ItemRecord, nat)>, r: ItemRecord, n: nat)
    requires got.Some? && got.value.1 == n
    requires got.value.0.depth == r.depth && got.value.0.size == r.size && got.value.0.name == r.name
    ensures got == Some((r, n))
  {
  }

  /** Unfolds `ScanSizeAndPath` once its two conversions and the white space after them are known. */
  lemma ScanSizeAndPathSteps(u: string, size: int, name: string, j: nat, l: nat, k: nat)
    requires ScanInt(u) == Some((size, j))
    requires j <= |u| && ScanToken(u[j..]) == Some((name, l))
    requires j + l <= |u| && Span(u[j + l..], Space) == 1
    requires k == j + l + 1
    ensures ScanSizeAndPath(u) == Some((size, name, k))
  {
  }

  // The widths of the fields of a written line, separators before them included.
  function DepthWidth(r: ItemRecord): nat { |IntToString(r.depth)| }
  function SizeWidth(r: ItemRecord): nat { 1 + |IntToString(r.size)| }
  function PathWidth(r: ItemRecord): nat { 1 + |r.name| }
  function AfterDepthWidth(r: ItemRecord): nat { SizeWidth(r) + PathWidth(r) + 1 }

  /** The text after the depth on a written line, followed by what comes after the line. */
  function AfterDepth(r: ItemRecord, rest: string): string {
    " " + IntToString(r.size) + " " + r.name + "\n" + rest
  }

  lemma SizeOfLine(r: ItemRecord, rest: string)
    ensures ScanInt(AfterDepth(r, rest)) == Some((r.size, SizeWidth(r)))
  {
    ScanIntRoundTrip(AfterDepth(r, rest), " ", r.size, " " + r.name + "\n" + rest);
  }

  lemma PathOfLine(r: ItemRecord, rest: string)
    requires PlainName(r.name)
    ensures SizeWidth(r) <= |AfterDepth(r, rest)|
    ensures ScanToken(AfterDepth(r, rest)[SizeWidth(r)..]) == Some((r.name, PathWidth(r)))
  {
    ScanTokenRoundTrip(AfterDepth(r, rest)[SizeWidth(r)..], " ", r.name, "\n" + rest);
  }

  lemma EndOfLine(r: ItemRecord, rest: string)
    requires rest == [] || !IsSpace(rest[0])
    ensures SizeWidth(r) + PathWidth(r) <= |AfterDepth(r, rest)|
    ensures Span(AfterDepth(r, rest)[SizeWidth(r) + PathWidth(r)..], Space) == 1
  {
    assert AfterDepth(r, rest)[SizeWidth(r) + PathWidth(r)..] == "\n" + rest;
    SpanPrefix("\n", rest, Space);
  }

  /** The `%lld %s\n` part of a written line reads back its size and path, up to the next line. */
  lemma ScanSizeAndPathOfLine(r: ItemRecord, rest: string)
    requires PlainName(r.name) && (rest == [] || !IsSpace(rest[0]))
    ensures ScanSizeAndPath(AfterDepth(r, rest)) == Some((r.size, r.name, AfterDepthWidth(r)))
  {
    SizeOfLine(r, rest);
    PathOfLine(r, rest);
    EndOfLine(r, rest);
    ScanSizeAndPathSteps(AfterDepth(r, rest), r.size, r.name, SizeWidth(r), PathWidth(r), AfterDepthWidth(r));
  }

  /** A written line is its depth followed by the rest of it. */
  lemma LineSplit(r: ItemRecord, rest: string)
    ensures Line(r) + rest == [] + IntToString(r.depth) + AfterDepth(r, rest)
    ensures DepthWidth(r) <= |Line(r) + rest| && (Line(r) + rest)[DepthWidth(r)..] == AfterDepth(r, rest)
    ensures |Line(r)| == DepthWidth(r) + AfterDepthWidth(r)
  {
  }

  /** The `%d` of a written line reads back the depth. */
  lemma DepthOfLine(r: ItemRecord, rest: string)
    ensures ScanInt(Line(r) + rest) == Some((r.depth, DepthWidth(r)))
  {
    LineSplit(r, rest);
    ScanIntRoundTrip(Line(r) + rest, [], r.depth, AfterDepth(r, rest));
  }

  /** A written line scans back to its record and is consumed exactly. */
  lemma ScanLineOfLine(r: ItemRecord, rest: string)
    requires PlainName(r.name) && (rest == [] || !IsSpace(rest[0]))
    ensures ScanLine(Line(r) + rest) == Some((r, |Line(r)|))
  {
    LineSplit(r, rest);
    DepthOfLine(r, rest);
    ScanSizeAndPathOfLine(r, rest);
    ScanLineOuter(Line(r) + rest, r, DepthWidth(r), AfterDepthWidth(r), |Line(r)|);
  }

  /** A written line followed by more lines scans as its record followed by theirs. */
  lemma ScanLinesOfLine(r: ItemRecord, rest: string)
    requires PlainName(r.name) && (rest == [] || !IsSpace(rest[0]))
    ensures ScanLines(Line(r) + rest) == [r] + ScanLines(rest)
  {
    ScanLineOfLine(r, rest);
    assert (Line(r) + rest)[|Line(r)|..] == rest;
  }

  /** Appending an entry appends its line, if it is live. */
  lemma {:induction false} SaveTextSnoc(s: seq<DirItem>, x: DirItem)
    ensures SaveText(s + [x]) == SaveText(s) + Piece(x)
  {
    if s == [] {
      assert [x][1..] == [];
      assert SaveText([x]) == Piece(x) + "";
    } else {
      var t := s + [x];
      assert t[0] == s[0] && t[1..] == s[1..] + [x];
      SaveTextSnoc(s[1..], x);
      Regroup(Piece(s[0]), SaveText(s[1..]), Piece(x));
    }
  }

  /** The loop of `save_dir_items` writes entry `i`'s line, if any, after the text so far. */
  lemma SaveTextStep(s: seq<DirItem>, i: nat, text: string)
    requires i < |s| && text == SaveText(s[..i])
    ensures SaveText(s[..i + 1]) == if Live(s[i]) then text + Line(RecordOf(s[i])) else text
  {
    assert s[..i + 1] == s[..i] + [s[i]];
    SaveTextSnoc(s[..i], s[i]);
    if !Live(s[i]) {
      assert text + "" == text;
    }
  }

  lemma Regroup(a: string, b: string, c: string)
    ensures a + (b + c) == (a + b) + c
  {
  }

  lemma {:induction false} SaveTextStart(s: seq<DirItem>)
    ensures SaveText(s) == [] || !IsSpace(SaveText(s)[0])
  {
    if s != [] {
      SaveTextStart(s[1..]);
      if Live(s[0]) {
        assert SaveText(s)[0] == IntToString(s[0].depth)[0];
      }
    }
  }

  lemma SaveTextCons(s: seq<DirItem>)
    requires s != [] && Live(s[0])
    ensures SaveText(s) == Line(RecordOf(s[0])) + SaveText(s[1..])
    ensures LiveRecords(s) == [RecordOf(s[0])] + LiveRecords(s[1..])
  {
  }

  lemma SaveTextSkip(s: seq<DirItem>)
    requires s != [] && !Live(s[0])
    ensures SaveText(s) == SaveText(s[1..])
    ensures LiveRecords(s) == LiveRecords(s[1..])
  {
    assert "" + SaveText(s[1..]) == SaveText(s[1..]);
    assert [] + LiveRecords(s[1..]) == LiveRecords(s[1..]);
  }

  lemma ScanLinesOfNothing()
    ensures ScanLines("") == []
  {
    assert ScanInt("") == None;
  }

  /** Loading what `save_dir_items` wrote reads the live entries' records back, in order. */
  lemma {:induction false} SaveThenScan(s: seq<DirItem>)
    requires PlainNames(s)
    ensures ScanLines(SaveText(s)) == LiveRecords(s)
  {
    if s != [] {
      assert PlainNames(s[1..]);
      SaveThenScan(s[1..]);
      if Live(s[0]) {
        assert PlainName(s[0].name.value);
        SaveTextStart(s[1..]);
        ScanLinesOfLine(RecordOf(s[0]), SaveText(s[1..]));
        SaveTextCons(s);
      } else {
        SaveTextSkip(s);
      }
    } else {
      ScanLinesOfNothing();
    }
  }

  /** Between top-level operations, saving and loading into an empty store restores the entries exactly. */
  lemma {:induction false} SaveLoadRoundTrip(s: seq<DirItem>)
    requires Clean(s) && PlainNames(s)
    ensures Restored(ScanLines(SaveText(s))) == s
  {
    SaveThenScan(s);
    RestoredLiveRecords(s);
  }

  /** Loaded entries are live and unflagged: the store a load leaves is clean. */
  lemma {:induction false} RestoredClean(recs: seq<ItemRecord>)
    ensures Clean(Restored(recs))
  {
    if recs != [] {
      RestoredClean(recs[1..]);
    }
  }

  lemma {:induction false} RestoredLiveRecords(s: seq<DirItem>)
    requires Clean(s)
    ensures Restored(LiveRecords(s)) == s
  {
    if s != [] {
      RestoredLiveRecords(s[1..]);
      var recs := LiveRecords(s);
      assert recs[1..] == LiveRecords(s[1..]);
      assert s == [s[0]] + s[1..];
    }
  }

  // ---------------------------------------------------------------------------
  // The methods
  // ---------------------------------------------------------------------------

  /** `save_dir_items`: -1 when the file cannot be created; otherwise the text written and 0. */
  method SaveDirItems(store: ItemStore, canCreate: bool) returns (r: int, text: string)
    requires store.Valid()
    ensures r == (if canCreate then 0 else -1)
    ensures text == (if canCreate then SaveText(store.Contents()) else "")
  {
    if !canCreate {
      return -1, "";
    }
    ghost var s := store.Contents();
    text := "";
    var i := 0;
    while i < store.count
      invariant 0 <= i <= store.count
      invariant text == SaveText(s[..i])
    {
      SaveTextStep(s, i, text);
      if store.items[i].name != None {
        text := text + Line(RecordOf(store.items[i]));
      }
      i := i + 1;
    }
    assert s[..store.count] == s;
    r := 0;
  }

  /** One more line of the file is one more record at the front of what is left. */
  lemma ScanLinesStep(t: string, pos: nat, rec: ItemRecord, n: nat)
    requires pos <= |t| && ScanLine(t[pos..]) == Some((rec, n))
    ensures pos + n <= |t|
    ensures ScanLines(t[pos..]) == [rec] + ScanLines(t[pos + n..])
  {
    ScanLineBounds(t[pos..]);
    assert t[pos..][n..] == t[pos + n..];
  }

  lemma MoveFront(done: seq<ItemRecord>, rec: ItemRecord, left: seq<ItemRecord>, rest: seq<ItemRecord>, all: seq<ItemRecord>)
    requires done + left == all && left == [rec] + rest
    ensures (done + [rec]) + rest == all
  {
    assert (done + [rec]) + rest == done + ([rec] + rest);
  }

  lemma {:induction false} RestoredSnoc(recs: seq<ItemRecord>, rec: ItemRecord)
    ensures Restored(recs + [rec]) == Restored(recs) + [Restore(rec)]
  {
    if recs == [] {
      assert [rec][1..] == [];
    } else {
      assert (recs + [rec])[1..] == recs[1..] + [rec];
      RestoredSnoc(recs[1..], rec);
    }
  }

  lemma AppendRestored(c0: seq<DirItem>, done: seq<ItemRecord>, rec: ItemRecord)
    ensures c0 + Restored(done) + [Restore(rec)] == c0 + Restored(done + [rec])
  {
    RestoredSnoc(done, rec);
  }

  /** What one iteration of the loop of `load_dir_items` reads and appends. */
  lemma LoadLineStep(t: string, pos: nat, rec: ItemRecord, n: nat, done: seq<ItemRecord>, c0: seq<DirItem>)
    requires pos <= |t| && ScanLine(t[pos..]) == Some((rec, n))
    requires done + ScanLines(t[pos..]) == ScanLines(t)
    ensures pos + n <= |t|
    ensures (done + [rec]) + ScanLines(t[pos + n..]) == ScanLines(t)
    ensures Appended(c0 + Restored(done), rec.name, rec.size, rec.depth) == c0 + Restored(done + [rec])
  {
    ScanLinesStep(t, pos, rec, n);
    MoveFront(done, rec, ScanLines(t[pos..]), ScanLines(t[pos + n..]), ScanLines(t));
    AppendRestored(c0, done, rec);
  }

  /** The body of the loop of `load_dir_items`: the entry for the line just read is appended. */
  method AddScanned(store: ItemStore, t: string, pos: nat, rec: ItemRecord, n: nat, ghost done: seq<ItemRecord>, ghost c0: seq<DirItem>)
    returns (next: nat, ghost read: seq<ItemRecord>)
    requires store.Valid() && store.Contents() == c0 + Restored(done)
    requires pos <= |t| && ScanLine(t[pos..]) == Some((rec, n))
    requires done + ScanLines(t[pos..]) == ScanLines(t)
    modifies store, store.items
    ensures store.Valid() && (store.items == old(store.items) || fresh(store.items))
    ensures pos < next <= |t| && read + ScanLines(t[next..]) == ScanLines(t)
    ensures store.Contents() == c0 + Restored(read)
  {
    LoadLineStep(t, pos, rec, n, done, c0);
    store.AddDirItem(rec.name, rec.size, rec.depth);
    next, read := pos + n, done + [rec];
    assert t[next..] == t[pos + n..];
    assert ScanLines(t[next..]) == ScanLines(t[pos + n..]);
  }

  /**
   * `load_dir_items`: -1 when the file cannot be opened; otherwise one
   * appended entry per scanned line, and 0. A path longer than the buffer
   * `%s` reads into is excluded (the source overflows it).
   */
  method LoadDirItems(store: ItemStore, file: Option<string>) returns (r: int)
    requires store.Valid()
    requires file.Some? ==> forall i :: 0 <= i < |ScanLines(file.value)| ==> |ScanLines(file.value)[i].name| < MAXPATHLEN
    modifies store, store.items
    ensures store.Valid() && (store.items == old(store.items) || fresh(store.items))
    ensures r == (if file.Some? then 0 else -1)
    ensures store.Contents() == old(store.Contents()) + (if file.Some? then Restored(ScanLines(file.value)) else [])
  {
    if file.None? {
      return -1;
    }
    ReadLines(store, file.value);
    return 0;
  }

  /** The loop of `load_dir_items`: scan line after line, appending an entry for each, until one fails. */
  method ReadLines(store: ItemStore, t: string)
    requires store.Valid()
    modifies store, store.items
    ensures store.Valid() && (store.items == old(store.items) || fresh(store.items))
    ensures store.Contents() == old(store.Contents()) + Restored(ScanLines(t))
  {
    var pos := 0;
    var next := ScanLine(t);
    ghost var done: seq<ItemRecord> := [];
    ReadStart(t, store.Contents());
    while next.Some?
      invariant pos <= |t| && next == ScanLine(t[pos..])
      invariant store.Valid() && (store.items == old(store.items) || fresh(store.items))
      invariant done + ScanLines(t[pos..]) == ScanLines(t)
      invariant store.Contents() == old(store.Contents()) + Restored(done)
      decreases |t| - pos
    {
      pos, done := AddScanned(store, t, pos, next.value.0, next.value.1, done, old(store.Contents()));
      next := ScanLine(t[pos..]);
    }
    ReadEnd(t, pos, done);
  }

  /** Before the first line: nothing read, the whole text left. */
  lemma ReadStart(t: string, c0: seq<DirItem>)
    ensures 0 <= |t| && [] + ScanLines(t[0..]) == ScanLines(t)
    ensures c0 + Restored([]) == c0
  {
    assert t[0..] == t;
  }

  /** When the next line fails to scan, what was read is all there is. */
  lemma ReadEnd(t: string, pos: nat, done: seq<ItemRecord>)
    requires pos <= |t| && ScanLine(t[pos..]).None?
    requires done + ScanLines(t[pos..]) == ScanLines(t)
    ensures done == ScanLines(t)
  {
    assert ScanLines(t[pos..]) == [];
    assert done + [] == done;
  }
}
