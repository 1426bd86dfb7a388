# rattlebeaver retention engine in Dafny

rattlebeaver is a grandfather-father-son backup rotator. Backups are files in a target
directory whose names start with a fixed prefix and carry a formatted timestamp. The
retention engine reads such a listing, and tags every backup with the reasons it is kept:

- the latest-N rule tags the N newest backups;
- then, for each granularity Minute, Hour, Day, Month and Year, the engine picks bucket keys.
  Sparse keys are the most recent distinct floors of the backups. Fixed-cadence keys are the
  current instant floored and shifted back 0 .. total-1 units.
- Every backup lands in the bucket of its floor. Buckets are ranked most recent first, and
  the earliest and/or latest member of each bucket is tagged with the bucket's 1-based rank.

A backup with no tag is stale, and the caller deletes it (`src/main.rs:181`).

The project models this engine as pure functions over immutable data:

| file | module | models |
|---|---|---|
| `wrappers.dfy` | `Wrappers` | `Option` and `Result` with `:-` propagation |
| `timestamp.dfy` | `Timestamps` | naive calendar timestamps, their order, `floor`, `shift` (chronoutil month arithmetic) |
| `sorting.dfy` | `Sorting` | the stable sort by timestamp, the sorted set elements behind `sort()`, and the concatenation facts the proofs share |
| `config.dfy` | `Config` | `RollingRange`, `Ranges`, `iter_ranges`, `Archive`, the built-in default |
| `entry.dfy` | `Entries` | `Entry`, `from_path` name splitting, the post-listing logic of `read_dir` |
| `buckets.dfy` | `Buckets` | `Buckets::{new, push, sorted}` and the placing loop of `mark_range` |
| `keys.dfy` | `BucketKeys` | sparse and fixed-cadence bucket-key selection of `mark_range` |
| `mark.dfy` | `Mark` | latest-N marking, bucket tagging, `mark_range`, `read_backups`, the stale selection of `delete_stale` |
| `backup.dfy` | `Backup` | the pure decisions of `create_backup` |

Some modelling choices:

- A timestamp is a valid naive record `(year, month, day, hour, minute, second)` with
  lexicographic order. `Timestamps.OrderIsChronological` proves that order agrees with an
  absolute count of seconds.
- Minute, Hour and Day shifts step one unit at a time with carries. They are proved to move
  the instant by exactly `amount` times 60, 3600 or 86400 seconds.
- Month and Year shifts follow chronoutil's `shift_months`, with Rust's truncating `/` and
  `%` written out and the day of month clamped. A Year shift is a shift by 12 months.
- The `HashMap<Timestamp, Entry>` of `read_backups` is the sequence of entries that
  `read_dir` returned, which is strictly ascending by timestamp.
- A lookup by timestamp is a search of that sequence. It returns `NotFound` where the source
  bails with "not found in original list". `Mark.MarkRange` proves that this error cannot
  occur.
- `Fulfillment` is a datatype `(range: Option<Range>, index, firstOrLast)`, as `src/mark.rs`
  builds it. `fulfills` is a sequence that is only ever appended to.
- The chrono parser and formatter are function parameters (`Entries.Parser`,
  `Backup.Formatter`).
- "Now", the directory listing, the chosen backup timestamp and the kind of the source path
  are parameters too.
- The fixed cadence converts each shift amount to `i32` and fails on the first amount that
  does not fit. So it fails exactly when `total` exceeds 2^31 (the first failing amount is
  2^31), not when `total` exceeds `i32::MAX`. The model follows the code here. This holds
  only because chrono's date range limits are left out (see "## Left out"); for Day, Month
  and Year the real program would leave chrono's year range long before a shift of 2^31.
- The model proves more than the code's outcome: the tags each backup receives in closed
  form (`Mark.RangeTagsFor`, `Mark.RulesTags`). That form says nothing about buckets:
  - an entry whose floor is the key of rank i gets a first-tag when it is the earliest
    backup with that floor, and a last-tag when it is the latest;
  - an entry whose floor is not a key gets nothing.

## Model

| member | source | states |
|---|---|---|
| Timestamps.OrderIsChronological | src/timestamp.rs:5-6 | the derived order on timestamps is chronological: a is before b exactly when it has fewer seconds since the epoch, and equal exactly when the counts agree |
| Timestamps.Floor | src/timestamp.rs:43-61 | the floor is floored for its range and lies in the same unit as t (all coarser fields agree) |
| Timestamps.FloorNotAfter | src/timestamp.rs:43-61 | the floor is not after t |
| Timestamps.FloorFixesFloored | src/timestamp.rs:43-61 | the fixed points of flooring are exactly the floored instants, so flooring is idempotent |
| Timestamps.FloorAbsorbsFiner | src/timestamp.rs:44-53 | flooring to a finer range first leaves the coarser floor unchanged, and the coarser floor is not after the finer one |
| Timestamps.FloorLadder | src/timestamp.rs:44-60 | floor to Year ≤ Month ≤ Day ≤ Hour ≤ Minute ≤ t |
| Timestamps.FloorIsGreatestFlooredBelow | src/timestamp.rs:43-61 | a floored u is not after t exactly when it is not after t's floor: the floor is the latest floored instant not after t |
| Timestamps.FloorMonotone | src/timestamp.rs:43-61 | a ≤ b implies floor(a) ≤ floor(b) |
| Timestamps.Step | src/timestamp.rs:32-34 | one Minute/Hour/Day unit forward or back moves the second count by exactly one unit and keeps a floored instant floored |
| Timestamps.ShiftFixed | src/timestamp.rs:32-34 | a fixed-duration shift moves the second count by exactly amount units and keeps floored instants floored |
| Timestamps.TruncRem | src/timestamp.rs:35-36 | Rust's truncating remainder: dividend = quotient·divisor + remainder, with abs(remainder) < divisor, non-negative for a non-negative dividend and non-positive for a negative one |
| Timestamps.NormaliseDay | src/timestamp.rs:35-36 | the day of month is clamped to the length of the target month |
| Timestamps.ShiftMonths | src/timestamp.rs:35-36 | a month shift moves the month index by exactly the amount, clamps the day to the new month and keeps the time of day |
| Timestamps.ShiftZero | src/timestamp.rs:30-39 | a shift by 0 is the identity for every range |
| Timestamps.ShiftFixedDuration | src/timestamp.rs:30-34 | Minute, Hour and Day shifts move by exactly amount·60, ·3600 or ·86400 seconds, and shifting back by the same amount restores t |
| Timestamps.ShiftMoves | src/timestamp.rs:30-39 | the contract of `Shift` for every range: Minute, Hour and Day shifts move the second count by exactly amount·unit; Month and Year shifts move the month index by amount or 12·amount, clamp the day to the new month and keep the time of day |
| Timestamps.ShiftCalendar | src/timestamp.rs:35-36 | a Month or Year shift of a floored instant stays floored, moves the month index by amount or 12·amount, and is undone by the opposite shift |
| Timestamps.ShiftBackIsEarlier | src/timestamp.rs:30-39 | shifting a floored instant back by j > i units gives a floored instant strictly before the shift by i |
| Sorting.SortBy | src/entry.rs:96 | sorting by timestamp gives an ascending permutation of the input |
| Sorting.SortByStrict | src/entry.rs:96 | with distinct timestamps the sorted result is strictly ascending |
| Sorting.SortBySorted | src/mark.rs:30-31 | sorting an already ascending sequence returns it unchanged |
| Sorting.SortedElements | src/mark.rs:113-114 | the keys of a set listed strictly ascending, each exactly once |
| Sorting.ReverseAscending | src/mark.rs:115 | reversing a strictly ascending list gives a strictly descending list of the same elements |
| Config.IterRanges | src/config.rs:89-97 | five pairs in ladder order Minute .. Year, each range paired with its own rule |
| Config.IterRangesVisitsEachOnce | src/config.rs:90-96 | every range appears exactly once |
| Config.DefaultValues | src/config.rs:5-42 | the default prefix and format, latest = 10, totals 3, 5, 10, 12, 10, and every flag set for every range |
| Entries.BeforeFirstDot | src/entry.rs:25-27 | the text before the first '.', or all of it; never contains '.' and is a prefix of the input |
| Entries.RawTimestamp | src/entry.rs:22-27 | None exactly when the name lacks the prefix; otherwise dot-free text that follows the prefix up to the end or a '.' |
| Entries.FromName | src/entry.rs:16-35 | skipped exactly when the prefix is missing; an error exactly when a prefixed name's timestamp does not parse; otherwise an untagged entry with that path and the parsed timestamp |
| Entries.FindByTimestamp | src/entry.rs:86 | the lookup finds nothing exactly when no entry has the timestamp; otherwise it finds an entry that has it |
| Entries.Collect | src/entry.rs:74-95 | the listing loop succeeds exactly when every name parses or is skipped and no two collected entries share a timestamp, and then returns the collected entries in listing order |
| Entries.ReadDir | src/entry.rs:74-98 | as Collect, then the same entries as a strictly ascending sequence |
| Entries.ParsedEntries | src/entry.rs:30-34 | every collected entry comes from a prefixed name of the listing, has no tags, and carries the timestamp its name parses to |
| Entries.DistinctPaths | src/entry.rs:44-48 | no two backups read are equal entries: their paths differ, since a path fixes its timestamp and the timestamps read are distinct |
| Entries.NonPrefixedSkipped | src/entry.rs:83-85 | adding a name without the prefix does not change the result of the read |
| Entries.UnparseableAborts | src/entry.rs:81-82 | one prefixed name with an unparseable timestamp makes the whole read fail |
| Entries.DuplicateRejected | src/entry.rs:86-92 | two collected entries with equal timestamps make the read fail |
| Buckets.NewBuckets | src/mark.rs:99-102 | one empty bucket for each key, and no other bucket |
| Buckets.Push | src/mark.rs:104-110 | reports whether the key exists; appends the value to that bucket only; with an unknown key the map is unchanged |
| Buckets.MembersAre | src/mark.rs:62-65 | a bucket's members are exactly the timestamps that floor to its key, ascending if the timestamps are |
| Buckets.Fill | src/mark.rs:62-65 | placing all timestamps keeps the bucket keys and appends to each bucket exactly the timestamps whose floor is its key |
| Buckets.KeyOrder | src/mark.rs:113-115 | the bucket keys, strictly descending, each exactly once |
| Buckets.PushedBucket | src/mark.rs:62-65 | one push seen from a single bucket: it gains the pushed timestamp exactly when that timestamp floors to its key |
| Buckets.PairUpAt | src/mark.rs:116-124 | the i-th pair is the i-th key of the order with its bucket sorted |
| Buckets.PairedBuckets | src/mark.rs:116-124 | the pairs keep the keys in order, each with an ascending permutation of its own bucket |
| Buckets.SortedBuckets | src/mark.rs:112-125 | `sorted` lists the keys most recent first, each with an ascending permutation of its bucket |
| Buckets.SortedFilledBuckets | src/mark.rs:60-67 | for strictly descending keys, filling then sorting gives, rank by rank, each key with the ascending timestamps that floor to it |
| BucketKeys.Take | src/mark.rs:51 | `take(n)`: a prefix of length min(n, len) |
| BucketKeys.TakeDescending | src/mark.rs:51 | a prefix of a descending list keeps its largest elements: everything dropped is before everything kept |
| BucketKeys.SparseKeys | src/mark.rs:43-51 | sparse keys are strictly descending floors of the entries, min(total, number of distinct floors) of them, and every floor left out is before every key kept |
| BucketKeys.Cadence | src/mark.rs:53-58 | the cadence fails exactly when an amount beyond i32 is reached, naming that amount; otherwise the i-th key is the base shifted back by from + i |
| BucketKeys.CadenceDescending | src/mark.rs:53-58 | cadence keys are floored and strictly descending |
| BucketKeys.ShiftsDescending | src/mark.rs:53-58 | keys shifted back one more unit each from a floored base are floored and strictly descending |
| BucketKeys.FixedKeys | src/mark.rs:52-59 | fixed keys fail exactly when total > 2^31; otherwise there are exactly total of them, the i-th is now's floor shifted back i units, and they are floored and strictly descending |
| BucketKeys.FixedKeysEndAtNow | src/mark.rs:56 | the first fixed key is now's own floor and no key is after now |
| BucketKeys.SelectKeysSpec | src/mark.rs:41-59 | the contract of `SelectKeys`: choosing keys fails exactly for a fixed cadence of more than 2^31 keys, with ShiftOutOfRange(2^31); otherwise the keys are floored and strictly descending, exactly total of them when fixed and min(total, distinct floors) when sparse |
| Mark.MarkNewest | src/mark.rs:11-22 | walking back from the newest entry, the entry k places from the end gets the latest-N tag with index done + k + 1 while fewer than latest are tagged; nothing else changes |
| Mark.MarkLatest | src/mark.rs:10-22 | the k-th newest entry (k < latest) gains exactly Fulfillment(None, k+1, first); latest = 0 changes nothing; latest ≥ n tags every entry once with indices n .. 1 in ascending time |
| Mark.TagEntry | src/mark.rs:70-77 | tagging by timestamp fails with NotFound exactly when no entry has it; otherwise only that entry gains the tag and paths and timestamps are unchanged |
| Mark.TagEntryWhen | src/mark.rs:68-79 | tag only when the flag is set; a set flag fails with NotFound exactly when no entry has the timestamp |
| Mark.TagBucket | src/mark.rs:67-92 | tagging one bucket fails exactly when its first (or last) member is to be tagged and is no entry; the error names the first member when that one fails, and the last member otherwise; a success keeps the backups |
| Mark.TagBucketSpec | src/mark.rs:67-92 | tagging one bucket whose members are all entries succeeds; each entry gains the first-tag if it is the bucket's first member and the flag is set, then the last-tag likewise, and nothing for an empty bucket |
| Mark.TagBuckets | src/mark.rs:67-92 | the bucket loop fails only with NotFound for a timestamp that some bucket holds and no entry has |
| Mark.FirstAndLast | src/mark.rs:67-92 | the first-tag step followed by the last-tag step appends exactly the bucket's tags for each entry |
| Mark.TagBucketsSpec | src/mark.rs:67-92 | tagging all buckets of members drawn from the entries succeeds and appends, to each entry, the tags of every bucket in rank order |
| Mark.TagBucketsOk | src/mark.rs:67-92 | the bucket loop never bails when every bucket member is an entry timestamp |
| Mark.TagBucketsSame | src/mark.rs:67-92 | the bucket loop keeps every path and timestamp |
| Mark.TagBucketsTags | src/mark.rs:67-92 | on entries with distinct timestamps, each entry gains the tags of bucket 1, then bucket 2, and so on |
| Mark.IndexOf | src/mark.rs:67 | the rank of a key: its first position in the key list |
| Mark.RangeTagsShape | src/mark.rs:67-92 | one range gives an entry at most two tags, both for this range with rank in 1..number of keys, first-tag before last-tag; with both flags off, none |
| Mark.LoneMemberGetsBoth | src/mark.rs:67-92 | the sole member of a kept bucket gets both tags when both flags are set |
| Mark.RankOrder | src/mark.rs:112-116 | a later bucket key has a smaller rank |
| Mark.AscendingEnds | src/mark.rs:120-122 | in an ascending bucket, the first member is the earliest and the last member is the latest |
| Mark.MemberBucketTags | src/mark.rs:62-65 | a bucket tags an entry only if the entry floors to its key |
| Mark.OwnBucketTags | src/mark.rs:67-92 | the bucket of an entry's own floor gives it the first-tag when it is the earliest with that floor and the last-tag when it is the latest |
| Mark.OtherBucketTags | src/mark.rs:62-92 | a bucket whose key is not the entry's floor gives it no tag |
| Mark.BucketListOwnTags | src/mark.rs:67-92 | over the ranked bucket list, an entry whose floor is the key at position i gets exactly the tags of that bucket, ranked i + 1 after the buckets before the list |
| Mark.BucketListNoTags | src/mark.rs:62-92 | an entry whose floor is none of the keys gets no tags from the bucket list |
| Mark.SortedMembersAreEntries | src/mark.rs:62-65 | every bucket member is an entry timestamp, so the "not found" lookups cannot fail |
| Mark.BucketListTagsAll | src/mark.rs:67-92 | the bucket-by-bucket tags of each entry equal the bucket-free RangeTags description |
| Mark.BucketListRangeTags | src/mark.rs:67-92 | the same, for one timestamp |
| Mark.MarkRange | src/mark.rs:35-94 | mark_range fails exactly when a fixed cadence is infeasible, and then with the i32 conversion error; it keeps every path and timestamp; on ascending entries each entry gains exactly the tags RangeTagsFor describes |
| Mark.MarkNext | src/mark.rs:26-28 | one rule applied after the earlier ones fails exactly when it is infeasible, and otherwise extends the tags by that rule's own |
| Mark.MarkRanges | src/mark.rs:26-29 | the rules succeed exactly when all are feasible; a failure names the first infeasible range; a success keeps the entries and appends the tags of the rules in order |
| Mark.LadderStopsAtFirst | src/mark.rs:26-29 | the rule loop stopping at ladder position i names a range whose rule is infeasible while every range before it in the ladder is feasible |
| Mark.RulesStep | src/mark.rs:26-29 | one more rule appends its tags after those of the earlier rules |
| Mark.EveryRuleFeasible | src/mark.rs:26 | all five pairs of iter_ranges are feasible exactly when every range's rule is |
| Mark.LatestThenRules | src/mark.rs:10-29 | untagged ascending entries, marked by latest-N and then by the rules, carry the latest-N tag followed by the rules' tags |
| Mark.MarkBackups | src/mark.rs:10-32 | marking fails exactly when some range's rule is infeasible, naming the first such range in ladder order (Minute, Hour, Day, Month, Year); otherwise it returns the same backups in ascending order, marked as MarkedAs states |
| Mark.ReadBackups | src/mark.rs:8-33 | read_backups fails with read_dir's own error exactly when read_dir fails; after a clean read it fails naming the first infeasible range in ladder order; it succeeds exactly when read_dir does and every rule is feasible, and then returns exactly the entries read, ascending, marked as MarkedAs states |
| Mark.FreshEntries | src/entry.rs:30-34 | entries just read carry no tags |
| Mark.LatestThenRulesTags | src/mark.rs:10-29 | after the latest-N pass and the rules, an untagged entry carries its latest-N tag and then the rules' tags |
| Mark.RulesTagsUnlisted | src/mark.rs:26-29 | a range that no rule names, or None, gets no tags from the rules |
| Mark.RulesTagsOfRange | src/mark.rs:26-29 | with distinct ranges, the tags the rules give for one range are exactly that range's own tags |
| Mark.RulesTagsByRange | src/mark.rs:26-29 | of the tags the five range rules give, those of range r are exactly r's own rule's |
| Mark.PolicyTagsByRule | src/mark.rs:10-29 | an entry's tags under a policy, split by rule: the None tags are the latest-N tags, and the tags of range r depend only on r's own RollingRange |
| Mark.RulesIndependent | src/mark.rs:8-33 | in a marked result, the latest-N tags of each backup are its LatestTags, and its tags of any range r are exactly those r's own rule gives |
| Mark.NewestKept | src/mark.rs:11-22 | with latest ≥ 1 the newest backup carries Fulfillment(None, 1, true), is not stale and is never selected for deletion |
| Mark.StaleBackups | src/main.rs:177-181 | the backups delete_stale selects are exactly those read that carry no tag, none more often than it was read |
| Mark.StaleBackupsSorted | src/main.rs:177-181 | the selection keeps the ascending order of the backups read |
| Mark.StaleBackupsChronological | src/main.rs:177-181 | on strictly ascending backups, as read_backups returns them, the selection is strictly ascending too, so each stale backup appears once and in the order read |
| Backup.MakeArchive | src/backup.rs:97-101 | a regular file is archived exactly when the mode is Force, or AutoDetect and the path does not already end in .tar.gz; AsIs never archives |
| Backup.Archived | src/backup.rs:85-101 | a directory is always tarballed, a regular file exactly as MakeArchive decides for its path, anything else never |
| Backup.CheckConflict | src/backup.rs:70-78 | passes exactly when no existing backup has the timestamp; otherwise a TimestampConflict naming an existing backup with that timestamp |
| Backup.TargetName | src/backup.rs:79-128 | the name is base + "." + stem + ".tar.gz" when archived (directories always) and base + "." + file name when copied; fails exactly for a source that is neither file nor directory or lacks the name part it needs |
| Backup.CreateBackup | src/backup.rs:60-131 | a read failure, carrying read_dir's error, exactly when read_dir fails; a conflict, naming the path of an existing backup with the timestamp, exactly when there is one; otherwise exactly the target name built from prefix + formatted timestamp |
| Backup.DotSplit | src/entry.rs:25-27 | the text before the first dot of head + "." + tail is head, when head has no dot |
| Backup.NameRoundTrip | src/backup.rs:79-83 | splitting a created name as from_path does gives back exactly the formatted timestamp, when it contains no '.' |
| Backup.CreatedEntryReadsBack | src/backup.rs:79-87 | when parsing the formatted timestamp gives the timestamp back, the created file reads back as an untagged entry with exactly that timestamp |
| Backup.CreatedBackupJoinsListing | src/backup.rs:69-78 | a backup created without conflict can be read back: the listing with its name added reads successfully and holds the new entry |

## Left out

- Filesystem and archive I/O are not modelled: directory iteration, metadata, `ensure_dir`, tar/gzip, file copy, deletion. `read_dir` works on a given sequence of file names, and `create_backup` computes the target file name only, not the joined path.
- The file name of a listed path is taken to be valid UTF-8, so the `no file name` and `file name no utf-8` errors of `from_path` are not modelled.
- The local time zone, DST gaps and overlaps, the failures of `single()`, and the `expect` panics of `floor` are not modelled. Timestamps are naive.
- Nanoseconds are not modelled. So `with_nanosecond(0)` in `floor` and in `get_file_timestamp` (src/backup.rs:148) has no counterpart, and the chosen timestamp has no nanosecond to clear.
- `Timestamp::now`, `Local::now` and the file created/modified times are inputs: `now` and the backup timestamp are parameters, and `TimestampSelection` is not modelled.
- chrono format-string parsing and formatting are abstract function parameters (`Entries.Parser`, `Backup.Formatter`), and so are `humanized` and `Display`.
- chronoutil is an external crate; `ShiftMonths` follows its `shift_months`.
- chronoutil's `years * 12` overflow is not modelled, and neither are chrono's date range limits (year bounds): integers are unbounded.
- `usize` bounds on `total`, `latest` and indices are not modelled: they are `nat`.
- TOML reading and writing (src/config.rs:51-69) is not modelled. The default configuration is a constant with the values of its TOML text.
- The CLI surface of src/main.rs is not modelled, except the selection of stale backups in `delete_stale` (`Mark.StaleBackups`, src/main.rs:177-181); printing and deleting the files are left out. src/lib.rs holds re-exports only.
- HashMap iteration order is not modelled. The model places entries in ascending order, and `sorted` sorts each bucket anyway, so the order never shows in the result.
- The closed-form tag contracts (`Mark.MarkRange`, `Mark.MarkRanges`, `Mark.MarkedAs`) hold for entries strictly ascending by timestamp, which is how `read_dir` returns them. For other inputs only the outcome and the unchanged paths and timestamps are stated.
- `Entry::fulfills` is declared as `Vec<String>` in src/entry.rs:12, but src/mark.rs builds `Fulfillment` records. The model follows src/mark.rs.
- `Entry::metadata` and `Hash for Entry` are not modelled. Entry equality by path is the predicate `Entries.SameEntry`; `Entries.DistinctPaths` shows that no two backups read are equal under it.
- The wording of `BackupError::TimestampConflict` is reduced to the conflicting existing path. The `.context(...)` messages on errors are not modelled.
