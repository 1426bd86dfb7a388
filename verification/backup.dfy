/** The pure decisions of `create_backup` (src/backup.rs:60-131): refuse a timestamp an
    existing backup already has, then name the new backup after the prefix and the
    formatted timestamp, archived as `.tar.gz` or copied under its own file name. */
module Backup {
  import opened Wrappers
  import opened Timestamps
  import opened Sorting
  import opened Config
  import opened Entries

  datatype ArchiveMode = AutoDetect | AsIs | Force

  /** What the source path is, with the two name parts the naming needs (`file_stem`,
      `file_name`; None when the path has none) and the path as displayed. */
  datatype Source =
    | Directory(stem: Option<string>)
    | RegularFile(display: string, stem: Option<string>, fileName: Option<string>)
    | Neither

  datatype BackupError =
    | TimestampConflict(existing: string)
    | ReadFailed(readError: ReadError)
    | NoFileStem
    | NoFileName
    | NotFileOrDirectory

  /** The chrono formatter: an instant and a format string to text. */
  type Formatter = (Timestamp, string) -> string

  predicate EndsWith(s: string, suffix: string) {
    |suffix| <= |s| && s[|s| - |suffix|..] == suffix
  }

  const ArchiveSuffix: string := ".tar.gz"

  /** The decision table of a regular file: tarball it, or copy it as it is. */
  function MakeArchive(mode: ArchiveMode, isArchive: bool): (archive: bool)
    ensures archive <==> mode == Force || (mode == AutoDetect && !isArchive)
    ensures mode == AsIs ==> !archive
  {
    match (mode, isArchive)
    case (Force, _) => true
    case (AutoDetect, false) => true
    case (AsIs, _) => false
    case (AutoDetect, true) => false
  }

  /** Whether the source ends up tarballed: directories always, regular files as the
      decision table says for a path that does or does not already end in `.tar.gz`. */
  function Archived(source: Source, mode: ArchiveMode): (archived: bool)
    ensures source.Directory? ==> archived
    ensures source.Neither? ==> !archived
    ensures source.RegularFile? ==>
              (archived <==> mode == Force || (mode == AutoDetect && !EndsWith(source.display, ArchiveSuffix)))
  {
    match source
    case Directory(_) => true
    case RegularFile(display, _, _) => MakeArchive(mode, EndsWith(display, ArchiveSuffix))
    case Neither => false
  }

  /** The timestamp check: the first existing backup with the same timestamp is a conflict. */
  function CheckConflict(existing: seq<Entry>, t: Timestamp): (r: Result<(), BackupError>)
    ensures r.Ok? <==> t !in TimesOf(existing)
    ensures r.Err? ==> exists i :: 0 <= i < |existing| && existing[i].timestamp == t
                                   && r.error == BackupError.TimestampConflict(existing[i].path)
  {
    match FindByTimestamp(existing, t)
    case Some(i) => Err(BackupError.TimestampConflict(existing[i].path))
    case None => Ok(())
  }

  /** The name of the new backup after its `prefix + formatted timestamp` base. */
  function TargetName(base: string, source: Source, mode: ArchiveMode): (r: Result<string, BackupError>)
    ensures r.Err? <==>
              || source.Neither?
              || (Archived(source, mode) && source.stem.None?)
              || (source.RegularFile? && Archived(source, mode) && source.fileName.None?)
              || (source.RegularFile? && !Archived(source, mode) && source.fileName.None?)
    ensures r.Ok? && Archived(source, mode) ==> r.value == base + "." + source.stem.value + ArchiveSuffix
    ensures r.Ok? && !Archived(source, mode) ==> r.value == base + "." + source.fileName.value
    ensures r.Ok? && Archived(source, mode) ==> EndsWith(r.value, ArchiveSuffix)
    ensures r.Ok? ==> base + "." <= r.value
  {
    match source
    case Directory(stem) =>
      if stem.None? then Err(NoFileStem) else Ok(base + "." + stem.value + ArchiveSuffix)
    case RegularFile(display, stem, fileName) =>
      if MakeArchive(mode, EndsWith(display, ArchiveSuffix)) then
        if stem.None? then Err(NoFileStem)
        else if fileName.None? then Err(NoFileName)
        else Ok(base + "." + stem.value + ArchiveSuffix)
      else if fileName.None? then Err(NoFileName)
      else Ok(base + "." + fileName.value)
    case Neither => Err(NotFileOrDirectory)
  }

  /** `create_backup` for a chosen timestamp t over the target's listing names: read the
      existing backups, refuse a conflicting timestamp, then name the new backup. */
  function CreateBackup(names: seq<string>, archive: Archive, parse: Parser, format: Formatter,
                        t: Timestamp, source: Source, mode: ArchiveMode): (r: Result<string, BackupError>)
    ensures r.Err? && r.error.ReadFailed? <==> ReadDir(names, archive, parse).Err?
    ensures r.Err? && r.error.TimestampConflict? <==>
              ReadDir(names, archive, parse).Ok? && t in TimesOf(ReadDir(names, archive, parse).value)
    ensures ReadDir(names, archive, parse).Ok? && t !in TimesOf(ReadDir(names, archive, parse).value) ==>
              r == TargetName(archive.prefix + format(t, archive.timestampFormat), source, mode)
    ensures r.Err? && r.error.ReadFailed? ==> r.error.readError == ReadDir(names, archive, parse).error
    ensures r.Err? && r.error.TimestampConflict? ==>
              exists i :: 0 <= i < |ReadDir(names, archive, parse).value|
                          && ReadDir(names, archive, parse).value[i].timestamp == t
                          && r.error.existing == ReadDir(names, archive, parse).value[i].path
    ensures r.Ok? ==>
              && ReadDir(names, archive, parse).Ok?
              && t !in TimesOf(ReadDir(names, archive, parse).value)
              && r == TargetName(archive.prefix + format(t, archive.timestampFormat), source, mode)
  {
    match ReadDir(names, archive, parse)
    case Err(e) => Err(ReadFailed(e))
    case Ok(existing) =>
      var _ :- CheckConflict(existing, t);
      TargetName(archive.prefix + format(t, archive.timestampFormat), source, mode)
  }

  /** A created name starts with the prefix and the formatted timestamp, followed by a dot;
      so when the formatted timestamp has no dot of its own, the name split of `from_path`
      recovers exactly the formatted timestamp. */
  lemma NameRoundTrip(base: string, prefix: string, formatted: string, source: Source, mode: ArchiveMode)
    requires base == prefix + formatted
    requires TargetName(base, source, mode).Ok?
    requires '.' !in formatted
    ensures RawTimestamp(TargetName(base, source, mode).value, prefix) == Some(formatted)
  {
    var name := TargetName(base, source, mode).value;
    var rest := name[|prefix|..];
    assert name == prefix + formatted + "." + rest[|formatted| + 1..];
    assert rest == formatted + "." + rest[|formatted| + 1..];
    DotSplit(formatted, rest[|formatted| + 1..]);
  }

  lemma {:induction false} DotSplit(head: string, tail: string)
    requires '.' !in head
    ensures BeforeFirstDot(head + "." + tail) == head
  {
    if head != [] {
      assert (head + "." + tail)[1..] == head[1..] + "." + tail;
      DotSplit(head[1..], tail);
    } else {
      assert (head + "." + tail)[0] == '.';
    }
  }

  /** When parsing the formatted timestamp gives the timestamp back, the new file is read
      back as an untagged entry with exactly that timestamp. */
  lemma CreatedEntryReadsBack(names: seq<string>, archive: Archive, parse: Parser, format: Formatter,
                              t: Timestamp, source: Source, mode: ArchiveMode)
    requires CreateBackup(names, archive, parse, format, t, source, mode).Ok?
    requires '.' !in format(t, archive.timestampFormat)
    requires parse(format(t, archive.timestampFormat), archive.timestampFormat) == Some(t)
    ensures var name := CreateBackup(names, archive, parse, format, t, source, mode).value;
            FromName(name, archive, parse) == Ok(Some(Entry(name, t, [])))
  {
    NameRoundTrip(archive.prefix + format(t, archive.timestampFormat), archive.prefix,
                  format(t, archive.timestampFormat), source, mode);
  }

  /** A backup created without conflict joins the listing: reading the target with the new
      name added succeeds and holds the new entry. */
  lemma CreatedBackupJoinsListing(names: seq<string>, archive: Archive, parse: Parser, format: Formatter,
                                  t: Timestamp, source: Source, mode: ArchiveMode)
    requires CreateBackup(names, archive, parse, format, t, source, mode).Ok?
    requires '.' !in format(t, archive.timestampFormat)
    requires parse(format(t, archive.timestampFormat), archive.timestampFormat) == Some(t)
    ensures var name := CreateBackup(names, archive, parse, format, t, source, mode).value;
            && ReadDir(names + [name], archive, parse).Ok?
            && Entry(name, t, []) in ReadDir(names + [name], archive, parse).value
  {
    var name := CreateBackup(names, archive, parse, format, t, source, mode).value;
    var e := Entry(name, t, []);
    CreatedEntryReadsBack(names, archive, parse, format, t, source, mode);
    var all := names + [name];
    assert all[..|all| - 1] == names;
    var before := Parsed(names, archive, parse);
    assert Parsed(all, archive, parse) == before + [e];
    ListingStep(all, archive, parse);
    var existing := ReadDir(names, archive, parse).value;
    forall i | 0 <= i < |before|
      ensures before[i].timestamp != t
    {
      assert before[i] in multiset(existing);
      var k :| 0 <= k < |existing| && existing[k] == before[i];
      assert TimesOf(existing)[k] == before[i].timestamp;
    }
    DistinctAppend(before, e);
    assert e in multiset(Parsed(all, archive, parse));
  }
}
