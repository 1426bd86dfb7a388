/** Backup entries and their collection from a directory listing (src/entry.rs). */
module Entries {
  import opened Wrappers
  import opened Timestamps
  import opened Sorting
  import opened Config

  /** Why an entry is kept: the latest-N rule (range None) or the first or last
      member of the bucket ranked index (1 = most recent) of a granularity. */
  datatype Fulfillment = Fulfillment(range: Option<Range>, index: nat, firstOrLast: bool)

  /** A backup file: its path, the timestamp parsed from its name, and the reasons it is kept. */
  datatype Entry = Entry(path: string, timestamp: Timestamp, fulfills: seq<Fulfillment>)

  /** Entries are ordered by timestamp only (`impl Ord for Entry`). */
  function TimestampOf(e: Entry): Timestamp {
    e.timestamp
  }

  /** Entries are equal when their paths are (`impl PartialEq for Entry`). */
  predicate SameEntry(a: Entry, b: Entry) {
    a.path == b.path
  }

  /** Entries strictly ascending by timestamp. */
  predicate Chronological(es: seq<Entry>) {
    StrictlySortedBy(es, TimestampOf)
  }

  /** The timestamps of es, in order. */
  function TimesOf(es: seq<Entry>): (ts: seq<Timestamp>)
    ensures |ts| == |es|
    ensures forall i :: 0 <= i < |es| ==> ts[i] == es[i].timestamp
  {
    if es == [] then [] else [es[0].timestamp] + TimesOf(es[1..])
  }

  /** The chrono format-string parser: timestamp text and format to an instant, if they match. */
  type Parser = (string, string) -> Option<Timestamp>

  datatype ReadError =
    | InvalidTimestamp(name: string)
    | TimestampConflict(path: string, existing: string)

  /** The part of s before its first '.', or all of s when it has none. */
  function BeforeFirstDot(s: string): (head: string)
    ensures head <= s
    ensures |head| == |s| || s[|head|] == '.'
    ensures '.' !in head
  {
    if s == [] || s[0] == '.' then [] else [s[0]] + BeforeFirstDot(s[1..])
  }

  /** The raw timestamp text of a file name: None when the name lacks the prefix. */
  function RawTimestamp(name: string, prefix: string): (raw: Option<string>)
    ensures raw.None? <==> !(prefix <= name)
    ensures raw.Some? ==> '.' !in raw.value
    ensures raw.Some? ==> prefix + raw.value <= name
    ensures raw.Some? ==> |prefix + raw.value| == |name| || name[|prefix + raw.value|] == '.'
  {
    if prefix <= name then
      var rest := name[|prefix|..];
      var raw := BeforeFirstDot(rest);
      assert name == prefix + rest;
      Some(raw)
    else
      None
  }

  /** `Entry::from_path`: skip names without the prefix, fail on a bad timestamp. */
  function FromName(name: string, archive: Archive, parse: Parser): (r: Result<Option<Entry>, ReadError>)
    ensures r == Ok(None) <==> !(archive.prefix <= name)
    ensures r.Err? <==> archive.prefix <= name
                        && parse(RawTimestamp(name, archive.prefix).value, archive.timestampFormat).None?
    ensures r.Ok? && r.value.Some? ==>
              && r.value.value.path == name
              && r.value.value.fulfills == []
              && Some(r.value.value.timestamp)
                 == parse(RawTimestamp(name, archive.prefix).value, archive.timestampFormat)
  {
    match RawTimestamp(name, archive.prefix)
    case None => Ok(None)
    case Some(raw) =>
      match parse(raw, archive.timestampFormat)
      case None => Err(InvalidTimestamp(name))
      case Some(t) => Ok(Some(Entry(name, t, [])))
  }

  /** Every name of the listing is either skipped or parses. */
  predicate AllParse(names: seq<string>, archive: Archive, parse: Parser) {
    forall i :: 0 <= i < |names| ==> FromName(names[i], archive, parse).Ok?
  }

  /** The entries the prefixed, parseable names describe, in listing order. */
  function Parsed(names: seq<string>, archive: Archive, parse: Parser): seq<Entry> {
    if names == [] then []
    else
      var last := FromName(names[|names| - 1], archive, parse);
      Parsed(names[..|names| - 1], archive, parse)
      + (if last.Ok? && last.value.Some? then [last.value.value] else [])
  }

  /** The position of the entry with timestamp t: a lookup in a map keyed by timestamp. */
  function FindByTimestamp(es: seq<Entry>, t: Timestamp): (found: Option<nat>)
    ensures found.None? <==> forall i :: 0 <= i < |es| ==> es[i].timestamp != t
    ensures found.Some? ==> found.value < |es| && es[found.value].timestamp == t
  {
    if es == [] then None
    else if es[0].timestamp == t then Some(0)
    else match FindByTimestamp(es[1..], t)
      case None => None
      case Some(i) => Some(i + 1)
  }

  /** How the last name of a listing contributes. */
  lemma ListingStep(names: seq<string>, archive: Archive, parse: Parser)
    requires names != []
    ensures AllParse(names, archive, parse)
            <==> AllParse(names[..|names| - 1], archive, parse) && FromName(names[|names| - 1], archive, parse).Ok?
  {
    var init := names[..|names| - 1];
    assert forall i :: 0 <= i < |init| ==> init[i] == names[i];
  }

  lemma DistinctAppend(acc: seq<Entry>, e: Entry)
    ensures DistinctKeys(acc + [e], TimestampOf)
            <==> DistinctKeys(acc, TimestampOf) && forall i :: 0 <= i < |acc| ==> acc[i].timestamp != e.timestamp
  {
    var all := acc + [e];
    assert forall i :: 0 <= i < |acc| ==> all[i] == acc[i];
    assert all[|acc|] == e;
  }

  lemma DistinctPrefix(a: seq<Entry>, b: seq<Entry>)
    ensures DistinctKeys(a + b, TimestampOf) ==> DistinctKeys(a, TimestampOf)
  {
    assert forall i :: 0 <= i < |a| ==> (a + b)[i] == a[i];
  }

  /** The listing loop of `read_dir`: stop at the first bad name or repeated timestamp. */
  function Collect(names: seq<string>, archive: Archive, parse: Parser): (r: Result<seq<Entry>, ReadError>)
    ensures r.Ok? <==> AllParse(names, archive, parse) && DistinctKeys(Parsed(names, archive, parse), TimestampOf)
    ensures r.Ok? ==> r.value == Parsed(names, archive, parse)
  {
    if names == [] then Ok([])
    else
      var init := names[..|names| - 1];
      var name := names[|names| - 1];
      ListingStep(names, archive, parse);
      match Collect(init, archive, parse)
      case Err(err) =>
        var tail := Parsed(names, archive, parse)[|Parsed(init, archive, parse)|..];
        assert Parsed(names, archive, parse) == Parsed(init, archive, parse) + tail;
        DistinctPrefix(Parsed(init, archive, parse), tail);
        Err(err)
      case Ok(acc) =>
        match FromName(name, archive, parse)
        case Err(err) => Err(err)
        case Ok(None) => Ok(acc)
        case Ok(Some(e)) =>
          DistinctAppend(acc, e);
          match FindByTimestamp(acc, e.timestamp)
          case Some(i) => Err(TimestampConflict(e.path, acc[i].path))
          case None => Ok(acc + [e])
  }

  /** `read_dir` over a given listing: the entries of the prefixed names, sorted by timestamp. */
  function ReadDir(names: seq<string>, archive: Archive, parse: Parser): (r: Result<seq<Entry>, ReadError>)
    ensures r.Ok? <==> AllParse(names, archive, parse) && DistinctKeys(Parsed(names, archive, parse), TimestampOf)
    ensures r.Ok? ==> Chronological(r.value)
    ensures r.Ok? ==> multiset(r.value) == multiset(Parsed(names, archive, parse))
  {
    var es :- Collect(names, archive, parse);
    SortByStrict(es, TimestampOf);
    Ok(SortBy(es, TimestampOf))
  }

  /** Every collected entry comes from a prefixed name of the listing and carries no tag yet. */
  lemma {:induction false} ParsedEntries(names: seq<string>, archive: Archive, parse: Parser, e: Entry)
    requires e in Parsed(names, archive, parse)
    ensures e.path in names && archive.prefix <= e.path && e.fulfills == []
    ensures archive.prefix <= e.path
            && Some(e.timestamp) == parse(RawTimestamp(e.path, archive.prefix).value, archive.timestampFormat)
  {
    if names != [] {
      var init := names[..|names| - 1];
      if e in Parsed(init, archive, parse) {
        ParsedEntries(init, archive, parse, e);
      }
    }
  }

  /** No two backups read share a path, so no two are equal as entries: a path fixes the
      timestamp it parses to, and the timestamps read are distinct. */
  lemma DistinctPaths(names: seq<string>, archive: Archive, parse: Parser)
    requires ReadDir(names, archive, parse).Ok?
    ensures var es := ReadDir(names, archive, parse).value;
            forall i, j :: 0 <= i < j < |es| ==> !SameEntry(es[i], es[j])
  {
    var es := ReadDir(names, archive, parse).value;
    forall i, j | 0 <= i < j < |es|
      ensures !SameEntry(es[i], es[j])
    {
      assert es[i] in multiset(Parsed(names, archive, parse));
      assert es[j] in multiset(Parsed(names, archive, parse));
      ParsedEntries(names, archive, parse, es[i]);
      ParsedEntries(names, archive, parse, es[j]);
      assert Before(es[i].timestamp, es[j].timestamp);
    }
  }

  /** A name without the prefix does not change the result. */
  lemma NonPrefixedSkipped(names: seq<string>, name: string, archive: Archive, parse: Parser)
    requires !(archive.prefix <= name)
    ensures ReadDir(names + [name], archive, parse) == ReadDir(names, archive, parse)
  {
    var all := names + [name];
    assert all[..|all| - 1] == names;
    assert AllParse(all, archive, parse) <==> AllParse(names, archive, parse) by {
      if AllParse(names, archive, parse) {
        forall i | 0 <= i < |all|
          ensures FromName(all[i], archive, parse).Ok?
        {
          if i < |names| {
            assert all[i] == names[i];
          }
        }
      }
      if AllParse(all, archive, parse) {
        forall i | 0 <= i < |names|
          ensures FromName(names[i], archive, parse).Ok?
        {
          assert all[i] == names[i];
        }
      }
    }
  }

  /** A prefixed name whose timestamp does not parse aborts the whole read. */
  lemma UnparseableAborts(names: seq<string>, i: int, archive: Archive, parse: Parser)
    requires 0 <= i < |names|
    requires FromName(names[i], archive, parse).Err?
    ensures ReadDir(names, archive, parse).Err?
  {
  }

  /** Two prefixed names with equal timestamps make the read fail. */
  lemma DuplicateRejected(names: seq<string>, archive: Archive, parse: Parser, i: int, j: int)
    requires 0 <= i < j < |Parsed(names, archive, parse)|
    requires Parsed(names, archive, parse)[i].timestamp == Parsed(names, archive, parse)[j].timestamp
    ensures ReadDir(names, archive, parse).Err?
  {
  }
}
