/**
 * `stream-info.txt` and the start of `watch_dir_hierarchy`: `save_stream_info`
 * writes the last event id with `"%lld\n"` and the device's FSEvents UUID
 * with `"%s\n"` (or `unknown-uuid`); `load_stream_info` reads them back with
 * `fscanf`; the watcher then resumes from the stored id and the stored
 * directory items when the UUID is the device's, and rescans the tree
 * otherwise.
 */
module StreamInfo {
  import opened Options
  import opened CStrings
  import opened Numerals
  import opened Files
  import opened DirStore
  import opened Scanner
  import opened ItemFile

  const EINVAL: int := 22

  const TWO63: nat := 0x8000_0000_0000_0000
  const TWO64: nat := 0x1_0000_0000_0000_0000

  /** `kFSEventStreamEventIdSinceNow`: the largest 64-bit event id. */
  const SinceNow: nat := 0xFFFF_FFFF_FFFF_FFFF

  /** What `%lld` prints for an unsigned 64-bit event id: its two's-complement reading. */
  function AsSigned(id: nat): int
    requires id < TWO64
  {
    if id < TWO63 then id else id - TWO64
  }

  /** Storing `%lld`'s signed value into the unsigned `since_when` restores the id. */
  lemma AsSignedRoundTrip(id: nat)
    requires id < TWO64
    ensures -(TWO63 as int) <= AsSigned(id) < TWO63
    ensures AsSigned(id) % TWO64 == id
  {
  }

  // ---------------------------------------------------------------------------
  // UUIDs and their text
  // ---------------------------------------------------------------------------

  type Nibble = x: int | 0 <= x < 16

  /** A 128-bit UUID, as its 32 hexadecimal digits, most significant first. */
  type Uuid = s: seq<Nibble> | |s| == 32 witness seq(32, _ => 0)

  /** The uppercase hexadecimal digit `CFUUIDCreateString` writes. */
  function HexChar(n: Nibble): char {
    if n < 10 then ('0' as int + n) as char else ('A' as int + n - 10) as char
  }

  predicate IsHex(c: char) {
    '0' <= c <= '9' || 'A' <= c <= 'F' || 'a' <= c <= 'f'
  }

  function HexValue(c: char): Nibble
    requires IsHex(c)
  {
    if c <= '9' then c as int - '0' as int
    else if c <= 'F' then c as int - 'A' as int + 10
    else c as int - 'a' as int + 10
  }

  lemma HexValueOfHexChar(n: Nibble)
    ensures IsHex(HexChar(n)) && HexValue(HexChar(n)) == n
  {
  }

  /** The positions of the four dashes of the 8-4-4-4-12 form. */
  predicate IsDashPos(i: int) {
    i == 8 || i == 13 || i == 18 || i == 23
  }

  /** The text position of hexadecimal digit `k`. */
  function Position(k: nat): nat {
    k + (if k >= 8 then 1 else 0) + (if k >= 12 then 1 else 0) + (if k >= 16 then 1 else 0) + (if k >= 20 then 1 else 0)
  }

  /** The digit written at text position `i`, which is not a dash position. */
  function DigitIndex(i: nat): nat {
    i - (if i > 8 then 1 else 0) - (if i > 13 then 1 else 0) - (if i > 18 then 1 else 0) - (if i > 23 then 1 else 0)
  }

  lemma PositionOfDigit(k: nat)
    requires k < 32
    ensures Position(k) < 36 && !IsDashPos(Position(k)) && DigitIndex(Position(k)) == k
  {
  }

  lemma DigitOfPosition(i: nat)
    requires i < 36 && !IsDashPos(i)
    ensures DigitIndex(i) < 32 && Position(DigitIndex(i)) == i
  {
  }

  /** `CFUUIDCreateString`: `XXXXXXXX-XXXX-XXXX-XXXX-XXXXXXXXXXXX` in uppercase. */
  function UuidString(u: Uuid): (s: string)
    ensures |s| == 36
  {
    seq(36, i requires 0 <= i < 36 => if IsDashPos(i) then '-' else (DigitOfPosition(i); HexChar(u[DigitIndex(i)])))
  }

  /** Text `CFUUIDCreateFromString` accepts: the 8-4-4-4-12 form, digits in either case. */
  predicate UuidText(s: string) {
    |s| == 36 && forall i :: 0 <= i < 36 ==> if IsDashPos(i) then s[i] == '-' else IsHex(s[i])
  }

  /** `CFUUIDCreateFromString`: the UUID the text spells, or None (a NULL result). */
  function ParseUuid(s: string): Option<Uuid> {
    if UuidText(s) then
      var digits := seq(32, k requires 0 <= k < 32 => PositionOfDigit(k); HexValue(s[Position(k)]));
      Some(digits)
    else None
  }

  /** A UUID's text parses back to the UUID. */
  lemma ParseUuidString(u: Uuid)
    ensures ParseUuid(UuidString(u)) == Some(u)
  {
    var s := UuidString(u);
    forall i | 0 <= i < 36 && !IsDashPos(i) ensures IsHex(s[i]) {
      DigitOfPosition(i);
      HexValueOfHexChar(u[DigitIndex(i)]);
    }
    assert UuidText(s);
    var v := ParseUuid(s).value;
    forall k | 0 <= k < 32 ensures v[k] == u[k] {
      PositionOfDigit(k);
      HexValueOfHexChar(u[k]);
    }
    assert v == u;
  }

  predicate Uppercase(s: string) {
    forall i :: 0 <= i < |s| ==> !('a' <= s[i] <= 'z')
  }

  /** Uppercase UUID text is the text of the UUID it parses to: no two such texts name the same UUID. */
  lemma UuidStringOfParse(s: string)
    requires ParseUuid(s).Some? && Uppercase(s)
    ensures UuidString(ParseUuid(s).value) == s
  {
    var u := ParseUuid(s).value;
    forall i | 0 <= i < 36 ensures UuidString(u)[i] == s[i] {
      if !IsDashPos(i) {
        DigitOfPosition(i);
        PositionOfDigit(DigitIndex(i));
      }
    }
  }

  /** `unknown-uuid` is not a UUID. */
  lemma UnknownUuidRejected()
    ensures ParseUuid("unknown-uuid") == None
  {
    assert |"unknown-uuid"| == 12;
  }

  // ---------------------------------------------------------------------------
  // save_stream_info
  // ---------------------------------------------------------------------------

  /** The id `save_stream_info` writes: the stream's last id, or the current one when that is SinceNow or 0. */
  function SavedId(lastId: nat, currentId: nat): nat {
    if lastId == SinceNow || lastId == 0 then currentId else lastId
  }

  /** The id written is never SinceNow or 0 unless the current event id is. */
  lemma SavedIdResumable(lastId: nat, currentId: nat)
    requires currentId != SinceNow && currentId != 0
    ensures SavedId(lastId, currentId) != SinceNow && SavedId(lastId, currentId) != 0
    ensures lastId != SinceNow && lastId != 0 ==> SavedId(lastId, currentId) == lastId
  {
  }

  /** The second line: the UUID's text, or `unknown-uuid` when no text could be made for it. */
  function UuidLine(uuid: Option<Uuid>): string {
    if uuid.Some? then UuidString(uuid.value) else "unknown-uuid"
  }

  /** The contents `save_stream_info(last_id, uuid)` gives `stream-info.txt`. */
  function StreamInfoText(lastId: nat, uuid: Option<Uuid>, currentId: nat): string
    requires lastId < TWO64 && currentId < TWO64
  {
    IntToString(AsSigned(SavedId(lastId, currentId))) + "\n" + UuidLine(uuid) + "\n"
  }

  // ---------------------------------------------------------------------------
  // load_stream_info
  // ---------------------------------------------------------------------------

  datatype LoadResult = LoadResult(ret: int, since: nat, uuid: Option<Uuid>)

  /** An id that `%lld` reads fits a `long long` (the source's behaviour is undefined otherwise). */
  predicate IdInRange(t: string) {
    ScanInt(t).Some? ==> -(TWO63 as int) <= ScanInt(t).value.0 < TWO63
  }

  /**
   * `fscanf(fp, "%lld\n", since_when)`: the id read (SinceNow when the
   * conversion fails) and where reading goes on.
   */
  function ReadEventId(t: string): (r: (nat, nat))
    requires IdInRange(t)
    ensures r.1 <= |t|
  {
    var id := ScanInt(t);
    if id.None? then (SinceNow, IntInputEnd(t))
    else
      var n := id.value.1;
      (id.value.0 % TWO64, n + Span(t[n..], Space))
  }

  /**
   * What `load_stream_info` needs of the file: an id in range and then a
   * token that fits `uuid_str[64]` (a missing token leaves the buffer
   * unset, a longer one overflows it).
   */
  predicate StreamInfoReadable(t: string) {
    IdInRange(t) &&
    var token := ScanToken(t[ReadEventId(t).1..]);
    token.Some? && |token.value.0| < 64
  }

  /** The `%s` token after the id. */
  function UuidToken(t: string): string
    requires StreamInfoReadable(t)
  {
    ScanToken(t[ReadEventId(t).1..]).value.0
  }

  /**
   * `load_stream_info`: ENOENT without a file; EINVAL, with SinceNow, when
   * the token is not a UUID; otherwise 0 with the id read and the UUID.
   */
  function LoadStreamInfo(file: Option<string>, since0: nat): (r: LoadResult)
    requires file.Some? ==> StreamInfoReadable(file.value)
    ensures r.ret == ENOENT <==> file.None?
    ensures r.ret == 0 <==> r.uuid.Some?
    ensures r.ret == ENOENT || r.ret == EINVAL || r.ret == 0
    ensures r.ret == EINVAL ==> r.since == SinceNow
    ensures r.ret == ENOENT ==> r.since == since0
  {
    if file.None? then LoadResult(ENOENT, since0, None)
    else
      match ParseUuid(UuidToken(file.value))
      case None => LoadResult(EINVAL, SinceNow, None)
      case Some(u) => LoadResult(0, ReadEventId(file.value).0, Some(u))
  }

  /** A file whose id and token are known loads as they say. */
  lemma LoadOf(t: string, since0: nat, id: nat, token: string)
    requires StreamInfoReadable(t) && ReadEventId(t).0 == id && UuidToken(t) == token
    ensures LoadStreamInfo(Some(t), since0) ==
            if ParseUuid(token).Some? then LoadResult(0, id, ParseUuid(token)) else LoadResult(EINVAL, SinceNow, None)
  {
  }

  /** The id line of a written file reads back as the saved id, up to the UUID line. */
  lemma ReadSavedId(t: string, id: nat, line: string)
    requires id < TWO64 && line != [] && !IsSpace(line[0])
    requires t == IntToString(AsSigned(id)) + "\n" + line + "\n"
    ensures IdInRange(t) && ReadEventId(t) == (id, |IntToString(AsSigned(id))| + 1)
  {
    var v := AsSigned(id);
    IdLineScan(t, v, line);
    AsSignedRoundTrip(id);
    ReadEventIdOf(t, v, |IntToString(v)|, id);
  }

  /** The number and the newline after it. */
  lemma IdLineScan(t: string, v: int, line: string)
    requires line != [] && !IsSpace(line[0])
    requires t == IntToString(v) + "\n" + line + "\n"
    ensures ScanInt(t) == Some((v, |IntToString(v)|))
    ensures Span(t[|IntToString(v)|..], Space) == 1
  {
    var num := IntToString(v);
    var rest := "\n" + line + "\n";
    assert t == [] + num + rest;
    ScanIntRoundTrip(t, [], v, rest);
    assert t[|num|..] == "\n" + (line + "\n");
    SpanPrefix("\n", line + "\n", Space);
  }

  lemma ReadEventIdOf(t: string, v: int, n: nat, id: nat)
    requires ScanInt(t) == Some((v, n)) && -(TWO63 as int) <= v < TWO63 && v % TWO64 == id
    requires Span(t[n..], Space) == 1
    ensures IdInRange(t) && ReadEventId(t) == (id, n + 1)
  {
  }

  /** The token after the id line is the UUID line. */
  lemma ReadSavedToken(t: string, pos: nat, line: string)
    requires pos <= |t| && t[pos..] == line + "\n"
    requires line != [] && forall i :: 0 <= i < |line| ==> !IsSpace(line[i])
    ensures ScanToken(t[pos..]) == Some((line, |line|))
  {
    assert t[pos..] == [] + line + "\n";
    ScanTokenRoundTrip(t[pos..], [], line, "\n");
  }

  /** Both lines of a written file read back. */
  lemma ReadSaved(lastId: nat, uuid: Option<Uuid>, currentId: nat)
    requires lastId < TWO64 && currentId < TWO64
    ensures var t := StreamInfoText(lastId, uuid, currentId);
            StreamInfoReadable(t) && ReadEventId(t).0 == SavedId(lastId, currentId) && UuidToken(t) == UuidLine(uuid)
  {
    var id := SavedId(lastId, currentId);
    var line := UuidLine(uuid);
    var t := StreamInfoText(lastId, uuid, currentId);
    var pos := |IntToString(AsSigned(id))| + 1;
    LinePlain(uuid);
    ReadSavedId(t, id, line);
    assert t[pos..] == line + "\n";
    ReadSavedToken(t, pos, line);
  }

  /** The UUID line is one non-empty `%s` token that fits the buffer. */
  lemma LinePlain(uuid: Option<Uuid>)
    ensures var line := UuidLine(uuid);
            line != [] && |line| < 64 && forall i :: 0 <= i < |line| ==> !IsSpace(line[i])
  {
  }

  /** Saving and then loading gives back the saved id and the UUID. */
  lemma StreamInfoRoundTrip(lastId: nat, u: Uuid, currentId: nat, since0: nat)
    requires lastId < TWO64 && currentId < TWO64
    ensures var t := StreamInfoText(lastId, Some(u), currentId);
            StreamInfoReadable(t) && LoadStreamInfo(Some(t), since0) == LoadResult(0, SavedId(lastId, currentId), Some(u))
  {
    var t := StreamInfoText(lastId, Some(u), currentId);
    ReadSaved(lastId, Some(u), currentId);
    ParseUuidString(u);
    LoadOf(t, since0, SavedId(lastId, currentId), UuidString(u));
  }

  /** A file saved without a UUID text loads as EINVAL with SinceNow, and so forces a rescan. */
  lemma UnknownUuidRoundTrip(lastId: nat, currentId: nat, since0: nat)
    requires lastId < TWO64 && currentId < TWO64
    ensures var t := StreamInfoText(lastId, None, currentId);
            StreamInfoReadable(t) && LoadStreamInfo(Some(t), since0) == LoadResult(EINVAL, SinceNow, None)
  {
    var t := StreamInfoText(lastId, None, currentId);
    ReadSaved(lastId, None, currentId);
    UnknownUuidRejected();
    LoadOf(t, since0, SavedId(lastId, currentId), "unknown-uuid");
  }

  // ---------------------------------------------------------------------------
  // The start of watch_dir_hierarchy
  // ---------------------------------------------------------------------------

  /** The watcher resumes when the stream info loaded cleanly, names this device, and the items file opened. */
  predicate Resumes(load: LoadResult, dev: Uuid, itemsOpened: bool) {
    load.ret == 0 && load.uuid == Some(dev) && itemsOpened
  }

  /** The event id the stream starts from. */
  function StartId(load: LoadResult, dev: Uuid, itemsOpened: bool): (since: nat)
    ensures Resumes(load, dev, itemsOpened) ==> since == load.since
    ensures load.ret == 0 && !Resumes(load, dev, itemsOpened) ==> since == SinceNow
    ensures load.ret != 0 ==> since == load.since
  {
    if load.ret == 0 && (load.uuid != Some(dev) || !itemsOpened) then SinceNow else load.since
  }

  /** After a save with this device's UUID, the next start resumes from the saved id. */
  lemma RestartResumes(lastId: nat, dev: Uuid, currentId: nat, since0: nat)
    requires lastId < TWO64 && currentId < TWO64
    ensures var t := StreamInfoText(lastId, Some(dev), currentId);
            StreamInfoReadable(t) &&
            var load := LoadStreamInfo(Some(t), since0);
            Resumes(load, dev, true) && StartId(load, dev, true) == SavedId(lastId, currentId)
  {
    StreamInfoRoundTrip(lastId, dev, currentId, since0);
  }

  /** A start on another device, or after a save without a UUID text, rescans from SinceNow. */
  lemma OtherDeviceRescans(lastId: nat, u: Option<Uuid>, dev: Uuid, currentId: nat, since0: nat, itemsOpened: bool)
    requires lastId < TWO64 && currentId < TWO64 && u != Some(dev)
    ensures var t := StreamInfoText(lastId, u, currentId);
            StreamInfoReadable(t) &&
            var load := LoadStreamInfo(Some(t), since0);
            !Resumes(load, dev, itemsOpened) && StartId(load, dev, itemsOpened) == SinceNow
  {
    if u.Some? {
      StreamInfoRoundTrip(lastId, u.value, currentId, since0);
    } else {
      UnknownUuidRoundTrip(lastId, currentId, since0);
    }
  }

  /**
   * The stored-state part of `watch_dir_hierarchy`, from an empty store:
   * load the stream info; on a clean load with this device's UUID, load the
   * directory items; otherwise (or when the items file does not open) run
   * the initial scan `scan_directory(fullpath, 1, 1, 0)`.
   */
  method StartWatching(store: ItemStore, fs: FileSystem, root: Path, dev: Uuid, since0: nat,
                       streamFile: Option<string>, itemsFile: Option<string>) returns (since: nat, scanned: bool)
    requires store.Valid() && store.Contents() == []
    requires streamFile.Some? ==> StreamInfoReadable(streamFile.value)
    requires itemsFile.Some? ==> forall i :: 0 <= i < |ScanLines(itemsFile.value)| ==> |ScanLines(itemsFile.value)[i].name| < MAXPATHLEN
    modifies store, store.items
    ensures store.Valid()
    ensures var load := LoadStreamInfo(streamFile, since0);
            && since == StartId(load, dev, itemsFile.Some?)
            && scanned == !Resumes(load, dev, itemsFile.Some?)
            && (!scanned ==> store.Contents() == Restored(ScanLines(itemsFile.value)))
            && (scanned ==> Sorted(store.Contents()) &&
                            multiset(store.Contents()) == multiset(Scan(fs, [], root, true, true, 0).items))
            && (scanned && WellFormed(fs) ==> LiveTotal(store.Contents()) == TreeSize(fs, root))
    ensures Clean(store.Contents())
  {
    var load := LoadStreamInfo(streamFile, since0);
    since := load.since;
    scanned := false;
    if load.ret == 0 {
      if load.uuid == Some(dev) {
        var r := LoadDirItems(store, itemsFile);
        if r != 0 {
          since := SinceNow;
          scanned := true;
        } else {
          assert [] + Restored(ScanLines(itemsFile.value)) == Restored(ScanLines(itemsFile.value));
          RestoredClean(ScanLines(itemsFile.value));
        }
      } else {
        since := SinceNow;
        scanned := true;
      }
    } else {
      scanned := true;
    }
    if scanned {
      ghost var s := store.Contents();
      ScanDirectory(store, fs, root, true, true, 0);
      CleanPermutation(Scan(fs, s, root, true, true, 0).items, store.Contents());
      if WellFormed(fs) {
        LiveTotalPermutation(store.Contents(), Scan(fs, s, root, true, true, 0).items);
        InitialScanTotal(fs, root);
      }
    }
  }
}
