/**
  `FileService`: where pasted images and dropped files are stored, and the
  age-based clean-up of that directory. The file system, `randomUUID` and the
  clock are parameters: what each file-system call throws (its message), the
  ISO time and the UUID text.
 */
module FileService {
  import opened Optional
  import opened Text
  import opened Paths
  import opened IsoTime
  import opened Seqs

  const TempDirName := "parallel-claude-files"

  /** The directory the service works in, under the system's temporary one. */
  function TempDir(systemTemp: string): (r: string)
    ensures systemTemp != "" ==> Basename(r) == TempDirName
    ensures systemTemp != "" && systemTemp[|systemTemp| - 1] != '/' ==> Dirname(r) == systemTemp
  {
    BasenameJoin(systemTemp, TempDirName);
    if systemTemp != "" && systemTemp[|systemTemp| - 1] != '/' then
      DirnameJoin(systemTemp, TempDirName);
      Join(systemTemp, TempDirName)
    else
      Join(systemTemp, TempDirName)
  }

  // ---------------------------------------------------------------------
  // Names

  const DefaultExtension := "png"

  /** `mimeType.split('/')[1] || 'png'` */
  function MimeExtension(mimeType: string): (r: string)
    ensures r != "" && '/' !in r
  {
    var parts := Split(mimeType, '/');
    SplitPiecesLackSeparator(mimeType, '/');
    if |parts| > 1 && parts[1] != "" then parts[1] else DefaultExtension
  }

  /** A text without the separator splits into itself. */
  lemma {:induction false} SplitWithoutSeparator(s: string, sep: char)
    requires sep !in s
    ensures Split(s, sep) == [s]
    decreases |s|
  {
    if |s| > 0 {
      SplitWithoutSeparator(s[1..], sep);
      assert s == [s[0]] + s[1..];
    }
  }

  /** A leading piece without the separator is split off whole. */
  lemma {:induction false} SplitAfterPiece(a: string, sep: char, rest: string)
    requires sep !in a
    ensures Split(a + [sep] + rest, sep) == [a] + Split(rest, sep)
    decreases |a|
  {
    var s := a + [sep] + rest;
    if |a| == 0 {
      assert s[1..] == rest;
    } else {
      assert s[1..] == a[1..] + [sep] + rest;
      SplitAfterPiece(a[1..], sep, rest);
      assert a == [a[0]] + a[1..];
    }
  }

  /** The first piece of a text is everything before its first separator. */
  lemma {:induction false} SplitFirstPiece(b: string, sep: char, rest: string)
    requires sep !in b
    requires rest == "" || rest[0] == sep
    ensures Split(b + rest, sep)[0] == b
    decreases |b|
  {
    if |b| == 0 {
      assert b + rest == rest;
    } else {
      assert (b + rest)[1..] == b[1..] + rest;
      SplitFirstPiece(b[1..], sep, rest);
      assert b == [b[0]] + b[1..];
    }
  }

  /** The extension is the subtype: the text between the first and the
      second `/`, unless that is empty; a type with no `/` gets the
      default. */
  lemma MimeExtensionOfType(kind: string, subtype: string, rest: string)
    requires '/' !in kind && '/' !in subtype
    requires rest == "" || rest[0] == '/'
    ensures MimeExtension(kind + "/" + subtype + rest) == if subtype != "" then subtype else DefaultExtension
  {
    assert kind + "/" + subtype + rest == kind + ['/'] + (subtype + rest);
    SplitAfterPiece(kind, '/', subtype + rest);
    SplitFirstPiece(subtype, '/', rest);
  }

  lemma MimeExtensionWithoutSlash(mimeType: string)
    requires '/' !in mimeType
    ensures MimeExtension(mimeType) == DefaultExtension
  {
    SplitWithoutSeparator(mimeType, '/');
  }

  const TimestampLength := 19

  /** `toISOString().replace(/[:.]/g, '-').replace('T', '_').substring(0, 19)` */
  function FileTimestamp(iso: string): (r: string)
    ensures |r| <= TimestampLength
  {
    Take(ReplaceFirst(ReplaceChars(iso, {':', '.'}, '-'), "T", "_"), TimestampLength)
  }

  /** For an ISO time the timestamp is `YYYY-MM-DD_HH-mm-ss`: the date, an
      underscore, and the time of day to the second with dashes. */
  lemma FileTimestampShape(iso: string)
    requires IsIsoTimestamp(iso)
    ensures FileTimestamp(iso) == iso[..10] + "_" + iso[11..13] + "-" + iso[14..16] + "-" + iso[17..19]
    ensures forall k :: 0 <= k < |FileTimestamp(iso)| ==> FileTimestamp(iso)[k] !in {'/', ':', '.', 'T'}
  {
    var s := ReplaceChars(iso, {':', '.'}, '-');
    assert s[10..11] == "T";
    assert OccursAt(s, "T", 10);
    forall j | 0 <= j < 10 ensures !OccursAt(s, "T", j) {
      assert s[j] != 'T' by {
        assert IsDigit(iso[j]) || iso[j] == '-';
      }
      assert s[j..j + 1] == [s[j]];
    }
    var k := IndexOf(s, "T").value;
    assert k == 10;
    var replaced := s[..10] + "_" + s[11..];
    var r := FileTimestamp(iso);
    assert r == replaced[..19];
    var want := iso[..10] + "_" + iso[11..13] + "-" + iso[14..16] + "-" + iso[17..19];
    forall i | 0 <= i < 19 ensures r[i] == want[i] && r[i] !in {'/', ':', '.', 'T'} {
      if i != 10 && i != 13 && i != 16 {
        assert IsDigit(iso[i]) || iso[i] == '-';
      }
    }
  }

  const ClipboardPrefix := "clipboard-"
  const UuidPrefixLength := 8

  /** `clipboard-${timestamp}-${uuid}.${ext}` with the first 8 UUID characters. */
  function ClipboardFileName(timestamp: string, uuid: string, ext: string): string {
    ClipboardPrefix + timestamp + "-" + Take(uuid, UuidPrefixLength) + "." + ext
  }

  /** `${baseName}-${timestamp}-${uuid}${ext}` with the source's stem and
      extension. */
  function CopiedFileName(source: string, timestamp: string, uuid: string): string {
    StampedName(Stem(source), timestamp, uuid, Extname(source))
  }

  function StampedName(stem: string, timestamp: string, uuid: string, ext: string): string {
    stem + "-" + timestamp + "-" + Take(uuid, UuidPrefixLength) + ext
  }

  /** The stored path of a file, or the error thrown instead. */
  datatype FileResult = Stored(path: string) | FileError(message: string)

  const SaveErrorPrefix := "ファイル保存エラー: "
  const CopyErrorPrefix := "ファイルコピーエラー: "

  /** `saveClipboardImage`. `dirError` is what preparing the directory
      threw, `writeError` what writing the file rejected with. */
  function SaveClipboardImage(tempDir: string, mimeType: string, iso: string, uuid: string,
                              dirError: Option<string>, writeError: Option<string>): (r: FileResult)
    ensures r.Stored? <==> dirError.None? && writeError.None?
    ensures r.Stored? ==> r.path == Join(tempDir, ClipboardFileName(FileTimestamp(iso), uuid, MimeExtension(mimeType)))
    ensures dirError.Some? ==> r == FileError(SaveErrorPrefix + dirError.value)
    ensures dirError.None? && writeError.Some? ==> r == FileError(SaveErrorPrefix + writeError.value)
  {
    match dirError
    case Some(m) => FileError(SaveErrorPrefix + m)
    case None =>
      var filename := ClipboardFileName(FileTimestamp(iso), uuid, MimeExtension(mimeType));
      match writeError
      case Some(m) => FileError(SaveErrorPrefix + m)
      case None => Stored(Join(tempDir, filename))
  }

  /** `copyFileToTemp`. `dirError` is what preparing the directory threw,
      `copyError` what copying rejected with. */
  function CopyFileToTemp(tempDir: string, source: string, iso: string, uuid: string,
                          dirError: Option<string>, copyError: Option<string>): (r: FileResult)
    ensures r.Stored? <==> dirError.None? && copyError.None?
    ensures r.Stored? ==> r.path == Join(tempDir, CopiedFileName(source, FileTimestamp(iso), uuid))
    ensures dirError.Some? ==> r == FileError(CopyErrorPrefix + dirError.value)
    ensures dirError.None? && copyError.Some? ==> r == FileError(CopyErrorPrefix + copyError.value)
  {
    match dirError
    case Some(m) => FileError(CopyErrorPrefix + m)
    case None =>
      var filename := CopiedFileName(source, FileTimestamp(iso), uuid);
      match copyError
      case Some(m) => FileError(CopyErrorPrefix + m)
      case None => Stored(Join(tempDir, filename))
  }

  /** The timestamp of a stored name holds no `/`. */
  lemma TimestampLacksSlash(iso: string)
    requires IsIsoTimestamp(iso)
    ensures '/' !in FileTimestamp(iso)
  {
    FileTimestampShape(iso);
    var ts := FileTimestamp(iso);
    forall i | 0 <= i < |ts| ensures ts[i] != '/' {
    }
  }

  /** The uuid prefix of a stored name holds no `/`. */
  lemma UuidPrefixLacksSlash(uuid: string)
    requires '/' !in uuid
    ensures '/' !in Take(uuid, UuidPrefixLength)
  {
    var u := Take(uuid, UuidPrefixLength);
    forall i | 0 <= i < |u| ensures u[i] != '/' {
      assert u[i] == uuid[i];
    }
  }

  /** Stem and extension of a source path hold no `/`. */
  lemma SourcePartsLackSlash(source: string)
    ensures '/' !in Stem(source) && '/' !in Extname(source)
  {
    var b := Basename(source);
    var stem := Stem(source);
    var ext := Extname(source);
    StemExtname(source);
    forall i | 0 <= i < |stem| ensures stem[i] != '/' {
      assert stem[i] == b[i];
    }
    forall i | 0 <= i < |ext| ensures ext[i] != '/' {
      assert ext[i] == b[|stem| + i];
    }
  }

  /** The pieces a stored name is made of hold no `/`. */
  lemma NamePartsLackSlash(source: string, iso: string, uuid: string)
    requires IsIsoTimestamp(iso) && '/' !in uuid
    ensures '/' !in FileTimestamp(iso)
    ensures '/' !in Take(uuid, UuidPrefixLength)
    ensures '/' !in Stem(source) && '/' !in Extname(source)
  {
    TimestampLacksSlash(iso);
    UuidPrefixLacksSlash(uuid);
    SourcePartsLackSlash(source);
  }

  /** A name without `/` joined to the directory lies directly inside it. */
  lemma StoredDirectlyInside(tempDir: string, name: string)
    requires IsSegment(name)
    ensures Basename(Join(tempDir, name)) == name
    ensures tempDir != "" && tempDir[|tempDir| - 1] != '/' ==> Dirname(Join(tempDir, name)) == tempDir
  {
    BasenameJoin(tempDir, name);
    if tempDir != "" && tempDir[|tempDir| - 1] != '/' {
      DirnameJoin(tempDir, name);
    }
  }

  lemma ClipboardNameIsSegment(ts: string, uuid: string, ext: string)
    requires '/' !in ts && '/' !in Take(uuid, UuidPrefixLength) && '/' !in ext
    ensures IsSegment(ClipboardFileName(ts, uuid, ext))
  {
  }

  lemma ClipboardNameAffixes(ts: string, uuid: string, ext: string)
    ensures StartsWith(ClipboardFileName(ts, uuid, ext), ClipboardPrefix + ts + "-")
    ensures EndsWith(ClipboardFileName(ts, uuid, ext), "." + ext)
  {
    var name := ClipboardFileName(ts, uuid, ext);
    var head := ClipboardPrefix + ts + "-";
    var u := Take(uuid, UuidPrefixLength);
    assert name == head + (u + "." + ext);
    assert name[..|head|] == head;
    assert name == (head + u) + ("." + ext);
    assert name[|name| - |"." + ext|..] == "." + ext;
  }

  /** A stored clipboard image lies directly inside the directory, under a
      name that starts with `clipboard-` and the timestamp and ends with
      the extension. */
  lemma ClipboardImagePlacement(tempDir: string, mimeType: string, iso: string, uuid: string)
    requires IsIsoTimestamp(iso) && '/' !in uuid
    ensures var ts := FileTimestamp(iso);
      var name := ClipboardFileName(ts, uuid, MimeExtension(mimeType));
      var path := SaveClipboardImage(tempDir, mimeType, iso, uuid, None, None).path;
      && Basename(path) == name
      && (tempDir != "" && tempDir[|tempDir| - 1] != '/' ==> Dirname(path) == tempDir)
      && StartsWith(name, ClipboardPrefix + ts + "-")
      && EndsWith(name, "." + MimeExtension(mimeType))
  {
    var ts := FileTimestamp(iso);
    var ext := MimeExtension(mimeType);
    var name := ClipboardFileName(ts, uuid, ext);
    NamePartsLackSlash("", iso, uuid);
    ClipboardNameIsSegment(ts, uuid, ext);
    StoredDirectlyInside(tempDir, name);
    ClipboardNameAffixes(ts, uuid, ext);
  }

  lemma CopiedNameIsSegment(source: string, ts: string, uuid: string)
    requires '/' !in ts && '/' !in Take(uuid, UuidPrefixLength)
    requires '/' !in Stem(source) && '/' !in Extname(source)
    ensures IsSegment(CopiedFileName(source, ts, uuid))
  {
  }

  lemma CopiedNamePrefix(source: string, ts: string, uuid: string)
    ensures StartsWith(CopiedFileName(source, ts, uuid), Stem(source) + "-")
  {
    StampedNamePrefix(Stem(source), ts, uuid, Extname(source));
  }

  lemma StampedNamePrefix(stem: string, ts: string, uuid: string, ext: string)
    ensures StartsWith(StampedName(stem, ts, uuid, ext), stem + "-")
  {
    var name := StampedName(stem, ts, uuid, ext);
    var head := stem + "-";
    assert name == head + (ts + "-" + Take(uuid, UuidPrefixLength) + ext);
    assert name[..|head|] == head;
  }

  /** A copied file lies directly inside the directory, under a name that
      starts with the source's stem. */
  lemma CopiedFilePlacement(tempDir: string, source: string, iso: string, uuid: string)
    requires IsIsoTimestamp(iso) && '/' !in uuid
    ensures var name := CopiedFileName(source, FileTimestamp(iso), uuid);
      var path := CopyFileToTemp(tempDir, source, iso, uuid, None, None).path;
      && Basename(path) == name
      && (tempDir != "" && tempDir[|tempDir| - 1] != '/' ==> Dirname(path) == tempDir)
      && StartsWith(name, Stem(source) + "-")
  {
    var ts := FileTimestamp(iso);
    var name := CopiedFileName(source, ts, uuid);
    NamePartsLackSlash(source, iso, uuid);
    CopiedNameIsSegment(source, ts, uuid);
    StoredDirectlyInside(tempDir, name);
    CopiedNamePrefix(source, ts, uuid);
  }

  /** The extension found in `x + ext`, when `ext` is an extension and `x`
      is not empty, is `ext`. */
  lemma ExtensionOfSuffix(x: string, ext: string)
    requires |x| >= 2 && ext != "" && ext[0] == '.'
    requires forall i :: 1 <= i < |ext| ==> ext[i] != '.'
    ensures ExtOf(x + ext) == ext
  {
    var s := x + ext;
    assert s[|x|] == '.';
    var k := LastIndexOfChar(s, '.').value;
    assert k == |x| by {
      assert forall i :: |x| < i < |s| ==> s[i] == ext[i - |x|];
    }
    assert s[k..] == ext;
  }

  /** An extension has no dot after its first character. */
  lemma ExtensionHasOneDot(b: string)
    ensures forall i :: 1 <= i < |ExtOf(b)| ==> ExtOf(b)[i] != '.'
  {
    match LastIndexOfChar(b, '.')
    case None =>
    case Some(k) =>
      if k != 0 && b != ".." {
        forall i | 1 <= i < |ExtOf(b)| ensures ExtOf(b)[i] != '.' {
          assert ExtOf(b)[i] == b[k + i];
        }
      }
  }

  /** The copy keeps the source's extension, dot included. */
  lemma CopyKeepsExtension(source: string, timestamp: string, uuid: string)
    requires Extname(source) != ""
    ensures ExtOf(CopiedFileName(source, timestamp, uuid)) == Extname(source)
  {
    var ext := Extname(source);
    var x := Stem(source) + "-" + timestamp + "-" + Take(uuid, UuidPrefixLength);
    assert CopiedFileName(source, timestamp, uuid) == x + ext;
    assert x[|Stem(source)|] == '-';
    ExtensionHasOneDot(Basename(source));
    ExtensionOfSuffix(x, ext);
  }

  // ---------------------------------------------------------------------
  // Clean-up

  const DefaultMaxAgeHours := 24
  const MillisPerHour := 60 * 60 * 1000

  /** A directory entry: its name, its modification time in milliseconds,
      or `None` when `statSync` throws for it, and whether `unlinkSync`
      succeeds on it. */
  datatype DirEntry = DirEntry(name: string, mtime: Option<int>, unlinkSucceeds: bool)

  /** Strictly older than the limit. */
  predicate Expired(now: int, mtime: int, maxAgeHours: int) {
    now - mtime > maxAgeHours * MillisPerHour
  }

  /** The entries the clean-up tries to delete: the expired ones, scanning
      in order up to the first entry whose `statSync` throws (that throw
      ends the whole clean-up). */
  function DueForRemoval(entries: seq<DirEntry>, now: int, maxAgeHours: int): (r: seq<DirEntry>)
    ensures |r| <= |entries|
    decreases |entries|
  {
    if entries == [] || entries[0].mtime.None? then []
    else
      var rest := DueForRemoval(entries[1..], now, maxAgeHours);
      if Expired(now, entries[0].mtime.value, maxAgeHours) then [entries[0]] + rest else rest
  }

  /** Only expired entries of the directory are ever due. */
  lemma {:induction false} DueEntriesAreExpired(entries: seq<DirEntry>, now: int, maxAgeHours: int)
    ensures forall e :: e in DueForRemoval(entries, now, maxAgeHours) ==>
      e in entries && e.mtime.Some? && Expired(now, e.mtime.value, maxAgeHours)
    decreases |entries|
  {
    if entries != [] && entries[0].mtime.Some? {
      DueEntriesAreExpired(entries[1..], now, maxAgeHours);
      assert forall e :: e in entries[1..] ==> e in entries;
    }
  }

  function IsExpiredEntry(now: int, maxAgeHours: int): DirEntry -> bool {
    (e: DirEntry) => e.mtime.Some? && Expired(now, e.mtime.value, maxAgeHours)
  }

  /** When every entry can be examined, exactly the expired ones are due,
      in directory order. */
  lemma {:induction false} DueIsExpiredWhenAllStat(entries: seq<DirEntry>, now: int, maxAgeHours: int)
    requires forall i :: 0 <= i < |entries| ==> entries[i].mtime.Some?
    ensures DueForRemoval(entries, now, maxAgeHours) == Filter(entries, IsExpiredEntry(now, maxAgeHours))
    decreases |entries|
  {
    if entries != [] {
      DueIsExpiredWhenAllStat(entries[1..], now, maxAgeHours);
    }
  }

  /** An entry whose `statSync` throws ends the scan: nothing after it is
      looked at. */
  lemma {:induction false} StatFailureStopsScan(before: seq<DirEntry>, e: DirEntry, after: seq<DirEntry>, now: int, maxAgeHours: int)
    requires e.mtime.None?
    ensures DueForRemoval(before + [e] + after, now, maxAgeHours) == DueForRemoval(before, now, maxAgeHours)
    decreases |before|
  {
    var s := before + [e] + after;
    if before == [] {
      assert s[0] == e;
    } else {
      assert s[0] == before[0];
      assert s[1..] == before[1..] + [e] + after;
      StatFailureStopsScan(before[1..], e, after, now, maxAgeHours);
    }
  }

  /** Whether deletions succeed has no say in which files are tried: a
      failed unlink does not stop the others. */
  lemma {:induction false} UnlinkOutcomesDoNotMatter(a: seq<DirEntry>, b: seq<DirEntry>, now: int, maxAgeHours: int)
    requires |a| == |b|
    requires forall i :: 0 <= i < |a| ==> a[i].name == b[i].name && a[i].mtime == b[i].mtime
    ensures |DueForRemoval(a, now, maxAgeHours)| == |DueForRemoval(b, now, maxAgeHours)|
    ensures forall k :: 0 <= k < |DueForRemoval(a, now, maxAgeHours)| ==>
      DueForRemoval(a, now, maxAgeHours)[k].name == DueForRemoval(b, now, maxAgeHours)[k].name
    decreases |a|
  {
    if a != [] && a[0].mtime.Some? {
      UnlinkOutcomesDoNotMatter(a[1..], b[1..], now, maxAgeHours);
    }
  }

  /** Appending one examinable entry to a stat-clean prefix. */
  lemma {:induction false} DueSnoc(entries: seq<DirEntry>, e: DirEntry, now: int, maxAgeHours: int)
    requires forall i :: 0 <= i < |entries| ==> entries[i].mtime.Some?
    requires e.mtime.Some?
    ensures DueForRemoval(entries + [e], now, maxAgeHours) ==
      DueForRemoval(entries, now, maxAgeHours) + (if Expired(now, e.mtime.value, maxAgeHours) then [e] else [])
    decreases |entries|
  {
    if entries == [] {
      assert ([] + [e])[1..] == [];
    } else {
      assert (entries + [e])[1..] == entries[1..] + [e];
      DueSnoc(entries[1..], e, now, maxAgeHours);
    }
  }

  function PathsIn(dir: string, es: seq<DirEntry>): (r: seq<string>)
    ensures |r| == |es|
    ensures forall k :: 0 <= k < |es| ==> r[k] == Join(dir, es[k].name)
  {
    seq(|es|, k requires 0 <= k < |es| => Join(dir, es[k].name))
  }

  function UnlinkWorks(): DirEntry -> bool {
    (e: DirEntry) => e.unlinkSucceeds
  }

  /** One more examined entry extends the due list by itself when it is
      expired. */
  lemma DueStep(entries: seq<DirEntry>, i: nat, now: int, maxAgeHours: int)
    requires i < |entries|
    requires forall k :: 0 <= k < i ==> entries[k].mtime.Some?
    requires entries[i].mtime.Some?
    ensures DueForRemoval(entries[..i + 1], now, maxAgeHours) ==
      DueForRemoval(entries[..i], now, maxAgeHours) +
      (if Expired(now, entries[i].mtime.value, maxAgeHours) then [entries[i]] else [])
  {
    assert entries[..i + 1] == entries[..i] + [entries[i]];
    DueSnoc(entries[..i], entries[i], now, maxAgeHours);
  }

  /** A due entry adds its path to the deleted ones exactly when its
      deletion succeeds. */
  lemma RemovedStep(dir: string, due: seq<DirEntry>, e: DirEntry)
    ensures PathsIn(dir, Filter(due + [e], UnlinkWorks())) ==
      PathsIn(dir, Filter(due, UnlinkWorks())) + (if e.unlinkSucceeds then [Join(dir, e.name)] else [])
  {
    var kept := Filter(due, UnlinkWorks());
    FilterAppend(due, [e], UnlinkWorks());
    if e.unlinkSucceeds {
      assert Filter([e], UnlinkWorks()) == [e];
      PathsInAppend(dir, kept, [e]);
    } else {
      assert Filter([e], UnlinkWorks()) == [];
      assert kept + [] == kept;
    }
  }

  lemma PathsInAppend(dir: string, a: seq<DirEntry>, b: seq<DirEntry>)
    ensures PathsIn(dir, a + b) == PathsIn(dir, a) + PathsIn(dir, b)
  {
  }

  /** Where the scan stops, everything due has been seen. */
  lemma ScanEnd(entries: seq<DirEntry>, i: nat, now: int, maxAgeHours: int)
    requires i <= |entries|
    requires i == |entries| || entries[i].mtime.None?
    ensures DueForRemoval(entries[..i], now, maxAgeHours) == DueForRemoval(entries, now, maxAgeHours)
  {
    if i < |entries| {
      assert entries == entries[..i] + [entries[i]] + entries[i + 1..];
      StatFailureStopsScan(entries[..i], entries[i], entries[i + 1..], now, maxAgeHours);
    } else {
      assert entries[..i] == entries;
    }
  }

  /** One pass of the loop body of `cleanupOldFiles`: an expired entry is
      unlinked, and its path is recorded as tried and, when the unlink
      succeeds, as deleted. `due` lists the entries found expired so far. */
  method ExamineEntry(tempDir: string, e: DirEntry, now: int, maxAgeHours: int,
                      attempted: seq<string>, removed: seq<string>, due: seq<DirEntry>)
    returns (attempted': seq<string>, removed': seq<string>, due': seq<DirEntry>)
    requires e.mtime.Some?
    requires attempted == PathsIn(tempDir, due)
    requires removed == PathsIn(tempDir, Filter(due, UnlinkWorks()))
    ensures due' == due + (if Expired(now, e.mtime.value, maxAgeHours) then [e] else [])
    ensures attempted' == PathsIn(tempDir, due')
    ensures removed' == PathsIn(tempDir, Filter(due', UnlinkWorks()))
  {
    attempted', removed', due' := attempted, removed, due;
    if now - e.mtime.value > maxAgeHours * MillisPerHour {
      PathsInAppend(tempDir, due, [e]);
      RemovedStep(tempDir, due, e);
      attempted' := attempted + [Join(tempDir, e.name)];
      if e.unlinkSucceeds {
        removed' := removed + [Join(tempDir, e.name)];
      }
      due' := due + [e];
    } else {
      assert due + [] == due;
    }
  }

  /** The loop of `cleanupOldFiles` over a listing: `attempted` holds the
      paths it tried to delete, `removed` those whose deletion succeeded. */
  method UnlinkExpired(tempDir: string, entries: seq<DirEntry>, now: int, maxAgeHours: int)
    returns (attempted: seq<string>, removed: seq<string>)
    ensures attempted == PathsIn(tempDir, DueForRemoval(entries, now, maxAgeHours))
    ensures removed == PathsIn(tempDir, Filter(DueForRemoval(entries, now, maxAgeHours), UnlinkWorks()))
  {
    attempted := [];
    removed := [];
    var due: seq<DirEntry> := [];
    var i := 0;
    while i < |entries| && entries[i].mtime.Some?
      invariant 0 <= i <= |entries|
      invariant forall k :: 0 <= k < i ==> entries[k].mtime.Some?
      invariant due == DueForRemoval(entries[..i], now, maxAgeHours)
      invariant attempted == PathsIn(tempDir, due)
      invariant removed == PathsIn(tempDir, Filter(due, UnlinkWorks()))
    {
      DueStep(entries, i, now, maxAgeHours);
      attempted, removed, due := ExamineEntry(tempDir, entries[i], now, maxAgeHours, attempted, removed, due);
      i := i + 1;
    }
    ScanEnd(entries, i, now, maxAgeHours);
  }

  /** `cleanupOldFiles`: `attempted` are the paths given to `unlinkSync`,
      `removed` those it deleted. A missing directory, or a listing that
      throws, deletes nothing. */
  method CleanupOldFiles(tempDir: string, dirExists: bool, listing: Option<seq<DirEntry>>, now: int, maxAgeHours: int)
    returns (attempted: seq<string>, removed: seq<string>)
    ensures !dirExists || listing.None? ==> attempted == [] && removed == []
    ensures dirExists && listing.Some? ==>
      var due := DueForRemoval(listing.value, now, maxAgeHours);
      && attempted == PathsIn(tempDir, due)
      && removed == PathsIn(tempDir, Filter(due, UnlinkWorks()))
  {
    if !dirExists || listing.None? {
      return [], [];
    }
    attempted, removed := UnlinkExpired(tempDir, listing.value, now, maxAgeHours);
  }

  /** What the constructor leaves behind. */
  datatype Started = Started(tempDir: string, attempted: seq<string>, removed: seq<string>)

  /** The constructor: it fixes the directory, creates it when missing (a
      failure there throws out of the constructor) and then cleans up with
      the default age, so only files more than a day old are tried. The
      directory exists once it has been ensured. */
  method Start(systemTemp: string, ensureFails: bool, listing: Option<seq<DirEntry>>, now: int)
    returns (r: Option<Started>)
    ensures r.None? <==> ensureFails
    ensures r.Some? ==> r.value.tempDir == TempDir(systemTemp)
    ensures r.Some? && listing.None? ==> r.value.attempted == [] && r.value.removed == []
    ensures r.Some? && listing.Some? ==>
      r.value.attempted == PathsIn(r.value.tempDir, DueForRemoval(listing.value, now, DefaultMaxAgeHours))
    ensures r.Some? && listing.Some? ==> forall k :: 0 <= k < |r.value.attempted| ==>
      exists e ::
        && e in listing.value && e.mtime.Some? && now - e.mtime.value > 86_400_000
        && r.value.attempted[k] == Join(r.value.tempDir, e.name)
  {
    if ensureFails {
      return None;
    }
    var tempDir := TempDir(systemTemp);
    var attempted, removed := CleanupOldFiles(tempDir, true, listing, now, DefaultMaxAgeHours);
    if listing.Some? {
      var due := DueForRemoval(listing.value, now, DefaultMaxAgeHours);
      DueEntriesAreExpired(listing.value, now, DefaultMaxAgeHours);
      forall k | 0 <= k < |attempted|
        ensures exists e ::
          && e in listing.value && e.mtime.Some? && now - e.mtime.value > 86_400_000
          && attempted[k] == Join(tempDir, e.name)
      {
        assert due[k] in due;
      }
    }
    r := Some(Started(tempDir, attempted, removed));
  }
}
