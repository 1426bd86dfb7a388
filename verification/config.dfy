/** Retention policy and archive naming configuration (src/config.rs). */
module Config {
  import opened Timestamps

  /** How many buckets of one granularity to keep, and which member of each bucket. */
  datatype RollingRange = RollingRange(
    total: nat,
    allowSparse: bool,
    includeFirst: bool,
    includeLast: bool)

  /** The whole retention policy: the latest-N count and one rule per granularity. */
  datatype Ranges = Ranges(
    latest: nat,
    minutes: RollingRange,
    hours: RollingRange,
    days: RollingRange,
    months: RollingRange,
    years: RollingRange)

  /** How backup file names are built: a fixed prefix, then a formatted timestamp. */
  datatype Archive = Archive(prefix: string, timestampFormat: string)

  datatype Config = Config(archive: Archive, ranges: Ranges)

  /** The granularities, finest first. */
  const Ladder: seq<Range> := [Minute, Hour, Day, Month, Year]

  /** The rule a policy holds for one granularity. */
  function PolicyFor(rs: Ranges, r: Range): RollingRange {
    match r
    case Minute => rs.minutes
    case Hour => rs.hours
    case Day => rs.days
    case Month => rs.months
    case Year => rs.years
  }

  /** The rules in the order the engine applies them (`Ranges::iter_ranges`). */
  function IterRanges(rs: Ranges): (pairs: seq<(Range, RollingRange)>)
    ensures |pairs| == 5
    ensures forall i :: 0 <= i < 5 ==> pairs[i].0.Rank() == i
    ensures forall i :: 0 <= i < 5 ==> pairs[i].1 == PolicyFor(rs, pairs[i].0)
  {
    [(Minute, rs.minutes), (Hour, rs.hours), (Day, rs.days), (Month, rs.months), (Year, rs.years)]
  }

  /** Every granularity is visited exactly once. */
  lemma IterRangesVisitsEachOnce(rs: Ranges, r: Range)
    ensures exists i :: 0 <= i < 5 && IterRanges(rs)[i].0 == r
    ensures forall i, j :: 0 <= i < j < 5 ==> IterRanges(rs)[i].0 != IterRanges(rs)[j].0
  {
    assert IterRanges(rs)[r.Rank()].0 == r;
  }

  /** A rule with every flag set. */
  function FullRule(total: nat): RollingRange {
    RollingRange(total, true, true, true)
  }

  /** The built-in default configuration (the TOML text of src/config.rs:5-42). */
  const DefaultConfig: Config := Config(
    Archive(".rattlebeaver.", "%Y-%m-%d_%H-%M-%S"),
    Ranges(10, FullRule(3), FullRule(5), FullRule(10), FullRule(12), FullRule(10)))

  lemma DefaultValues()
    ensures DefaultConfig.archive.prefix == ".rattlebeaver."
    ensures DefaultConfig.archive.timestampFormat == "%Y-%m-%d_%H-%M-%S"
    ensures DefaultConfig.ranges.latest == 10
    ensures PolicyFor(DefaultConfig.ranges, Minute).total == 3
    ensures PolicyFor(DefaultConfig.ranges, Hour).total == 5
    ensures PolicyFor(DefaultConfig.ranges, Day).total == 10
    ensures PolicyFor(DefaultConfig.ranges, Month).total == 12
    ensures PolicyFor(DefaultConfig.ranges, Year).total == 10
    ensures forall r: Range :: PolicyFor(DefaultConfig.ranges, r).allowSparse
    ensures forall r: Range :: PolicyFor(DefaultConfig.ranges, r).includeFirst
    ensures forall r: Range :: PolicyFor(DefaultConfig.ranges, r).includeLast
  {
  }
}
