/** The retention decision (src/mark.rs): tag every backup with the reasons it is kept. */
module Mark {
  import opened Wrappers
  import opened Timestamps
  import opened Sorting
  import opened Config
  import opened Entries
  import opened Buckets
  import opened BucketKeys

  /** An entry with no reason to be kept; the caller deletes these (src/main.rs:181). */
  predicate IsStale(e: Entry) {
    e.fulfills == []
  }

  /** The backups `delete_stale` removes: the stale ones, in the order read. */
  function StaleBackups(backups: seq<Entry>): (stale: seq<Entry>)
    ensures |stale| <= |backups|
    ensures forall e :: e in stale <==> e in backups && IsStale(e)
    ensures multiset(stale) <= multiset(backups)
  {
    if backups == [] then []
    else
      var rest := StaleBackups(backups[1..]);
      assert forall e :: e in backups[1..] ==> e in backups;
      assert forall e :: e in backups ==> e == backups[0] || e in backups[1..];
      assert backups == [backups[0]] + backups[1..];
      if IsStale(backups[0]) then [backups[0]] + rest else rest
  }

  /** Filtering keeps the backups in ascending order. */
  lemma {:induction false} StaleBackupsSorted(backups: seq<Entry>)
    requires SortedBy(backups, TimestampOf)
    ensures SortedBy(StaleBackups(backups), TimestampOf)
  {
    if backups != [] {
      var rest := StaleBackups(backups[1..]);
      assert SortedBy(backups[1..], TimestampOf);
      StaleBackupsSorted(backups[1..]);
      if IsStale(backups[0]) {
        forall k | 0 <= k < |rest|
          ensures NotAfter(TimestampOf(backups[0]), TimestampOf(rest[k]))
        {
          assert rest[k] in backups[1..];
          var m :| 0 <= m < |backups[1..]| && backups[1..][m] == rest[k];
          assert backups[m + 1] == rest[k];
        }
        SortedCons(backups[0], rest, TimestampOf);
      }
    }
  }

  /** Filtering keeps chronological backups chronological, so on the entries read each
      stale backup appears once, in the order read. */
  lemma {:induction false} StaleBackupsChronological(backups: seq<Entry>)
    requires Chronological(backups)
    ensures Chronological(StaleBackups(backups))
  {
    if backups != [] {
      var rest := StaleBackups(backups[1..]);
      assert Chronological(backups[1..]);
      StaleBackupsChronological(backups[1..]);
      if IsStale(backups[0]) {
        forall k | 0 <= k < |rest|
          ensures Before(TimestampOf(backups[0]), TimestampOf(rest[k]))
        {
          assert rest[k] in backups[1..];
          var m :| 0 <= m < |backups[1..]| && backups[1..][m] == rest[k];
          assert backups[m + 1] == rest[k];
        }
        StrictlySortedCons(backups[0], rest, TimestampOf);
      }
    }
  }

  function AddTag(e: Entry, f: Fulfillment): Entry {
    e.(fulfills := e.fulfills + [f])
  }

  /** b holds the same backups as a, in the same order; only the tags may differ. */
  predicate SameBackups(a: seq<Entry>, b: seq<Entry>) {
    && |a| == |b|
    && forall j :: 0 <= j < |a| ==> a[j].path == b[j].path && a[j].timestamp == b[j].timestamp
  }

  lemma SameBackupsKeep(a: seq<Entry>, b: seq<Entry>)
    requires SameBackups(a, b)
    ensures TimesOf(a) == TimesOf(b)
    ensures Chronological(a) <==> Chronological(b)
    ensures DistinctKeys(a, TimestampOf) <==> DistinctKeys(b, TimestampOf)
  {
    SameTimes(a, b);
    SameOrder(a, b);
    SameOrder(b, a);
  }

  lemma SameTimes(a: seq<Entry>, b: seq<Entry>)
    requires SameBackups(a, b)
    ensures TimesOf(a) == TimesOf(b)
  {
    assert forall j :: 0 <= j < |a| ==> TimesOf(a)[j] == TimesOf(b)[j];
  }

  lemma SameOrder(a: seq<Entry>, b: seq<Entry>)
    requires |a| == |b|
    requires forall j :: 0 <= j < |a| ==> a[j].timestamp == b[j].timestamp
    ensures Chronological(a) ==> Chronological(b)
    ensures DistinctKeys(a, TimestampOf) ==> DistinctKeys(b, TimestampOf)
  {
    assert forall j :: 0 <= j < |a| ==> TimestampOf(a[j]) == TimestampOf(b[j]);
  }

  // ---------------------------------------------------------------------
  // The latest-N rule (src/mark.rs:10-22)
  // ---------------------------------------------------------------------

  /** The latest-N tag of an entry with `newer` entries after it. */
  function LatestTags(newer: nat, latest: nat): seq<Fulfillment> {
    if newer < latest then [Fulfillment(None, newer + 1, true)] else []
  }

  /** Walk back from the newest entry, tagging while fewer than `latest` are tagged;
      `done` entries after es are tagged already. */
  function MarkNewest(es: seq<Entry>, latest: nat, done: nat): (marked: seq<Entry>)
    ensures SameBackups(marked, es)
    ensures forall j :: 0 <= j < |es| ==>
              marked[j].fulfills == es[j].fulfills + LatestTags(done + (|es| - 1 - j), latest)
    decreases |es|
  {
    if es == [] || latest <= done then es
    else
      var last := |es| - 1;
      MarkNewest(es[..last], latest, done + 1) + [AddTag(es[last], Fulfillment(None, done + 1, true))]
  }

  /** Tag the `latest` newest entries of the ascending es, the newest with index 1. */
  function MarkLatest(es: seq<Entry>, latest: nat): (marked: seq<Entry>)
    ensures SameBackups(marked, es)
    ensures forall j :: 0 <= j < |es| ==>
              marked[j].fulfills == es[j].fulfills + LatestTags(|es| - 1 - j, latest)
    ensures latest == 0 ==> marked == es
    ensures latest >= |es| ==>
              forall j :: 0 <= j < |es| ==> marked[j].fulfills == es[j].fulfills + [Fulfillment(None, |es| - j, true)]
  {
    MarkNewest(es, latest, 0)
  }

  // ---------------------------------------------------------------------
  // Tagging bucket members in the map of entries (src/mark.rs:67-92)
  // ---------------------------------------------------------------------

  /** Append f to the entry with timestamp t (`HashMap::get_mut`, then `push`). */
  function TagEntry(es: seq<Entry>, t: Timestamp, f: Fulfillment): (tagged: Result<seq<Entry>, MarkError>)
    ensures tagged.Err? <==> t !in TimesOf(es)
    ensures tagged.Err? ==> tagged.error == NotFound(t)
    ensures tagged.Ok? ==> SameBackups(tagged.value, es)
    ensures tagged.Ok? && DistinctKeys(es, TimestampOf) ==>
              forall j :: 0 <= j < |es| ==>
                tagged.value[j].fulfills == es[j].fulfills + (if es[j].timestamp == t then [f] else [])
  {
    match FindByTimestamp(es, t)
    case None =>
      assert forall i :: 0 <= i < |es| ==> TimesOf(es)[i] != t;
      Err(NotFound(t))
    case Some(i) =>
      assert TimesOf(es)[i] == t;
      Ok(es[i := AddTag(es[i], f)])
  }

  /** The tag f, when cond holds and t is the timestamp it is meant for. */
  function TagWhen(cond: bool, target: Timestamp, f: Fulfillment, t: Timestamp): seq<Fulfillment> {
    if cond && t == target then [f] else []
  }

  /** Apply TagEntry only when cond holds. */
  function TagEntryWhen(es: seq<Entry>, cond: bool, target: Timestamp, f: Fulfillment)
    : (tagged: Result<seq<Entry>, MarkError>)
    ensures tagged.Err? <==> cond && target !in TimesOf(es)
    ensures tagged.Err? ==> tagged.error == NotFound(target)
    ensures tagged.Ok? ==> SameBackups(tagged.value, es)
    ensures tagged.Ok? && DistinctKeys(es, TimestampOf) ==>
              forall j :: 0 <= j < |es| ==>
                tagged.value[j].fulfills == es[j].fulfills + TagWhen(cond, target, f, es[j].timestamp)
  {
    if cond then TagEntry(es, target, f) else Ok(es)
  }

  /** Two guarded tags in a row append both, in order. */
  lemma TagTwice(es: seq<Entry>, c1: bool, t1: Timestamp, f1: Fulfillment, c2: bool, t2: Timestamp, f2: Fulfillment)
    requires DistinctKeys(es, TimestampOf)
    requires TagEntryWhen(es, c1, t1, f1).Ok?
    requires TagEntryWhen(TagEntryWhen(es, c1, t1, f1).value, c2, t2, f2).Ok?
    ensures forall j :: 0 <= j < |es| ==>
              TagEntryWhen(TagEntryWhen(es, c1, t1, f1).value, c2, t2, f2).value[j].fulfills
              == es[j].fulfills + (TagWhen(c1, t1, f1, es[j].timestamp) + TagWhen(c2, t2, f2, es[j].timestamp))
  {
    var mid := TagEntryWhen(es, c1, t1, f1).value;
    var out := TagEntryWhen(mid, c2, t2, f2).value;
    SameBackupsKeep(mid, es);
    forall j | 0 <= j < |es|
      ensures out[j].fulfills == es[j].fulfills + (TagWhen(c1, t1, f1, es[j].timestamp) + TagWhen(c2, t2, f2, es[j].timestamp))
    {
      assert mid[j].timestamp == es[j].timestamp;
      ConcatAssoc(es[j].fulfills, TagWhen(c1, t1, f1, es[j].timestamp), TagWhen(c2, t2, f2, es[j].timestamp));
    }
  }

  /** The first member of a non-empty bucket, or t for an empty one. */
  function FirstOr(members: seq<Timestamp>, t: Timestamp): Timestamp {
    if members == [] then t else members[0]
  }

  function LastOr(members: seq<Timestamp>, t: Timestamp): Timestamp {
    if members == [] then t else members[|members| - 1]
  }

  /** The tags one bucket gives the entry with timestamp t: its first member gets a
      first-tag and its last member a last-tag, as the rule asks. */
  function BucketTags(t: Timestamp, members: seq<Timestamp>, r: Range, rule: RollingRange, index: nat)
    : seq<Fulfillment>
  {
    TagWhen(rule.includeFirst && members != [], FirstOr(members, t), Fulfillment(Some(r), index, true), t)
    + TagWhen(rule.includeLast && members != [], LastOr(members, t), Fulfillment(Some(r), index, false), t)
  }

  /** Tag the first and the last member of the bucket ranked index. It fails exactly when
      a member the rule asks to tag is no entry, and then names that member. */
  function TagBucket(es: seq<Entry>, members: seq<Timestamp>, r: Range, rule: RollingRange, index: nat)
    : (tagged: Result<seq<Entry>, MarkError>)
    ensures tagged.Err? <==>
              && members != []
              && ((rule.includeFirst && members[0] !in TimesOf(es))
                  || (rule.includeLast && members[|members| - 1] !in TimesOf(es)))
    ensures tagged.Err? ==>
              tagged.error
              == NotFound(if rule.includeFirst && members[0] !in TimesOf(es) then members[0] else members[|members| - 1])
    ensures tagged.Ok? ==> SameBackups(tagged.value, es)
  {
    if members == [] then Ok(es)
    else
      var first := TagEntryWhen(es, rule.includeFirst, members[0], Fulfillment(Some(r), index, true));
      if first.Err? then Err(first.error)
      else
        SameTimes(first.value, es);
        TagEntryWhen(first.value, rule.includeLast, members[|members| - 1], Fulfillment(Some(r), index, false))
  }

  /** A bucket whose members are all entries is tagged without failure; each entry
      gains exactly the tags BucketTags gives its timestamp. */
  lemma TagBucketSpec(es: seq<Entry>, members: seq<Timestamp>, r: Range, rule: RollingRange, index: nat)
    ensures (forall t :: t in members ==> t in TimesOf(es)) ==> TagBucket(es, members, r, rule, index).Ok?
    ensures TagBucket(es, members, r, rule, index).Ok? ==> SameBackups(TagBucket(es, members, r, rule, index).value, es)
    ensures TagBucket(es, members, r, rule, index).Ok? && DistinctKeys(es, TimestampOf) ==>
              forall j :: 0 <= j < |es| ==>
                TagBucket(es, members, r, rule, index).value[j].fulfills
                == es[j].fulfills + BucketTags(es[j].timestamp, members, r, rule, index)
  {
    if members != [] {
      var first := TagEntryWhen(es, rule.includeFirst, members[0], Fulfillment(Some(r), index, true));
      if first.Ok? {
        SameBackupsKeep(first.value, es);
        if TagBucket(es, members, r, rule, index).Ok? && DistinctKeys(es, TimestampOf) {
          FirstAndLast(es, members, r, rule, index);
        }
      }
    }
  }

  /** Tagging the first member and then the last appends BucketTags to each entry. */
  lemma FirstAndLast(es: seq<Entry>, members: seq<Timestamp>, r: Range, rule: RollingRange, index: nat)
    requires members != []
    requires DistinctKeys(es, TimestampOf)
    requires TagEntryWhen(es, rule.includeFirst, members[0], Fulfillment(Some(r), index, true)).Ok?
    requires TagEntryWhen(TagEntryWhen(es, rule.includeFirst, members[0], Fulfillment(Some(r), index, true)).value,
                          rule.includeLast, members[|members| - 1], Fulfillment(Some(r), index, false)).Ok?
    ensures forall j :: 0 <= j < |es| ==>
              TagEntryWhen(TagEntryWhen(es, rule.includeFirst, members[0], Fulfillment(Some(r), index, true)).value,
                           rule.includeLast, members[|members| - 1], Fulfillment(Some(r), index, false)).value[j].fulfills
              == es[j].fulfills + BucketTags(es[j].timestamp, members, r, rule, index)
  {
    var f1 := Fulfillment(Some(r), index, true);
    var f2 := Fulfillment(Some(r), index, false);
    TagTwice(es, rule.includeFirst, members[0], f1, rule.includeLast, members[|members| - 1], f2);
    forall j | 0 <= j < |es|
      ensures BucketTags(es[j].timestamp, members, r, rule, index)
              == TagWhen(rule.includeFirst, members[0], f1, es[j].timestamp)
                 + TagWhen(rule.includeLast, members[|members| - 1], f2, es[j].timestamp)
    {
    }
  }

  /** The tags a list of buckets gives the entry with timestamp t; `done` buckets precede it. */
  function AllBucketTags(t: Timestamp, buckets: seq<(Timestamp, seq<Timestamp>)>, r: Range, rule: RollingRange, done: nat)
    : seq<Fulfillment>
  {
    if buckets == [] then []
    else BucketTags(t, buckets[0].1, r, rule, done + 1) + AllBucketTags(t, buckets[1..], r, rule, done + 1)
  }

  /** Tag the buckets in order, the first with rank done + 1, stopping at the first failure. */
  function TagBuckets(es: seq<Entry>, buckets: seq<(Timestamp, seq<Timestamp>)>, r: Range, rule: RollingRange, done: nat)
    : (tagged: Result<seq<Entry>, MarkError>)
    ensures tagged.Err? ==>
              && tagged.error.NotFound?
              && tagged.error.timestamp !in TimesOf(es)
              && exists i :: 0 <= i < |buckets| && tagged.error.timestamp in buckets[i].1
    decreases |buckets|
  {
    if buckets == [] then Ok(es)
    else
      match TagBucket(es, buckets[0].1, r, rule, done + 1)
      case Err(e) => Err(e)
      case Ok(next) =>
        SameTimes(next, es);
        var rest := TagBuckets(next, buckets[1..], r, rule, done + 1);
        assert rest.Err? ==> exists i :: 0 <= i < |buckets[1..]| && rest.error.timestamp in buckets[1..][i].1;
        assert forall i :: 0 <= i < |buckets[1..]| ==> buckets[1..][i] == buckets[i + 1];
        rest
  }

  /** Buckets whose members are all entries are tagged without failure, and each entry
      gains, bucket after bucket, the tags AllBucketTags gives its timestamp. */
  lemma TagBucketsSpec(es: seq<Entry>, buckets: seq<(Timestamp, seq<Timestamp>)>, r: Range, rule: RollingRange, done: nat)
    ensures (forall i, t :: 0 <= i < |buckets| && t in buckets[i].1 ==> t in TimesOf(es)) ==>
              TagBuckets(es, buckets, r, rule, done).Ok?
    ensures TagBuckets(es, buckets, r, rule, done).Ok? ==> SameBackups(TagBuckets(es, buckets, r, rule, done).value, es)
    ensures TagBuckets(es, buckets, r, rule, done).Ok? && DistinctKeys(es, TimestampOf) ==>
              forall j :: 0 <= j < |es| ==>
                TagBuckets(es, buckets, r, rule, done).value[j].fulfills
                == es[j].fulfills + AllBucketTags(es[j].timestamp, buckets, r, rule, done)
  {
    if forall i, t :: 0 <= i < |buckets| && t in buckets[i].1 ==> t in TimesOf(es) {
      TagBucketsOk(es, buckets, r, rule, done);
    }
    if TagBuckets(es, buckets, r, rule, done).Ok? {
      TagBucketsSame(es, buckets, r, rule, done);
      if DistinctKeys(es, TimestampOf) {
        TagBucketsTags(es, buckets, r, rule, done);
      }
    }
  }

  lemma {:induction false} TagBucketsOk(es: seq<Entry>, buckets: seq<(Timestamp, seq<Timestamp>)>, r: Range, rule: RollingRange, done: nat)
    requires forall i, t :: 0 <= i < |buckets| && t in buckets[i].1 ==> t in TimesOf(es)
    ensures TagBuckets(es, buckets, r, rule, done).Ok?
    decreases |buckets|
  {
    if buckets != [] {
      assert forall t :: t in buckets[0].1 ==> t in TimesOf(es);
      TagBucketSpec(es, buckets[0].1, r, rule, done + 1);
      var next := TagBucket(es, buckets[0].1, r, rule, done + 1).value;
      SameTimes(next, es);
      forall i, t | 0 <= i < |buckets[1..]| && t in buckets[1..][i].1
        ensures t in TimesOf(next)
      {
        assert buckets[1..][i] == buckets[i + 1];
      }
      TagBucketsOk(next, buckets[1..], r, rule, done + 1);
    }
  }

  lemma {:induction false} TagBucketsSame(es: seq<Entry>, buckets: seq<(Timestamp, seq<Timestamp>)>, r: Range, rule: RollingRange, done: nat)
    requires TagBuckets(es, buckets, r, rule, done).Ok?
    ensures SameBackups(TagBuckets(es, buckets, r, rule, done).value, es)
    decreases |buckets|
  {
    if buckets != [] {
      TagBucketSpec(es, buckets[0].1, r, rule, done + 1);
      var next := TagBucket(es, buckets[0].1, r, rule, done + 1).value;
      TagBucketsSame(next, buckets[1..], r, rule, done + 1);
    }
  }

  lemma {:induction false} TagBucketsTags(es: seq<Entry>, buckets: seq<(Timestamp, seq<Timestamp>)>, r: Range, rule: RollingRange, done: nat)
    requires TagBuckets(es, buckets, r, rule, done).Ok?
    requires DistinctKeys(es, TimestampOf)
    ensures SameBackups(TagBuckets(es, buckets, r, rule, done).value, es)
    ensures forall j :: 0 <= j < |es| ==>
              TagBuckets(es, buckets, r, rule, done).value[j].fulfills
              == es[j].fulfills + AllBucketTags(es[j].timestamp, buckets, r, rule, done)
    decreases |buckets|
  {
    TagBucketsSame(es, buckets, r, rule, done);
    if buckets != [] {
      TagBucketSpec(es, buckets[0].1, r, rule, done + 1);
      var next := TagBucket(es, buckets[0].1, r, rule, done + 1).value;
      SameOrder(es, next);
      TagBucketsTags(next, buckets[1..], r, rule, done + 1);
      var out := TagBuckets(es, buckets, r, rule, done).value;
      forall j | 0 <= j < |es|
        ensures out[j].fulfills == es[j].fulfills + AllBucketTags(es[j].timestamp, buckets, r, rule, done)
      {
        ConcatAssoc(es[j].fulfills, BucketTags(es[j].timestamp, buckets[0].1, r, rule, done + 1),
                    AllBucketTags(es[j].timestamp, buckets[1..], r, rule, done + 1));
      }
    }
  }

  // ---------------------------------------------------------------------
  // What one range gives an entry, stated without buckets
  // ---------------------------------------------------------------------

  /** t is the earliest of the timestamps in ts that share its r-floor. */
  predicate EarliestInBucket(ts: seq<Timestamp>, t: Timestamp, r: Range) {
    forall u :: u in ts && Floor(u, r) == Floor(t, r) ==> NotAfter(t, u)
  }

  /** t is the latest of the timestamps in ts that share its r-floor. */
  predicate LatestInBucket(ts: seq<Timestamp>, t: Timestamp, r: Range) {
    forall u :: u in ts && Floor(u, r) == Floor(t, r) ==> NotAfter(u, t)
  }

  /** The position of k among the keys. */
  function IndexOf(keys: seq<Timestamp>, k: Timestamp): (i: nat)
    requires k in keys
    ensures i < |keys| && keys[i] == k
    ensures forall j :: 0 <= j < i ==> keys[j] != k
  {
    if keys[0] == k then 0 else 1 + IndexOf(keys[1..], k)
  }

  /** The tags of an entry with timestamp t whose bucket has rank index. */
  function TagsAt(ts: seq<Timestamp>, t: Timestamp, r: Range, rule: RollingRange, index: nat): seq<Fulfillment> {
    (if rule.includeFirst && EarliestInBucket(ts, t, r) then [Fulfillment(Some(r), index, true)] else [])
    + (if rule.includeLast && LatestInBucket(ts, t, r) then [Fulfillment(Some(r), index, false)] else [])
  }

  /** The tags range r gives the entry with timestamp t: none when its floor is not a
      key, otherwise first and/or last tags ranked by the floor's place among the keys. */
  function RangeTags(ts: seq<Timestamp>, t: Timestamp, keys: seq<Timestamp>, r: Range, rule: RollingRange)
    : seq<Fulfillment>
  {
    if Floor(t, r) in keys then TagsAt(ts, t, r, rule, IndexOf(keys, Floor(t, r)) + 1) else []
  }

  /** The tags range r gives t, with the keys the rule selects at instant now. */
  function RangeTagsFor(ts: seq<Timestamp>, t: Timestamp, now: Timestamp, r: Range, rule: RollingRange)
    : seq<Fulfillment>
  {
    match SelectKeys(ts, now, r, rule)
    case Ok(keys) => RangeTags(ts, t, keys, r, rule)
    case Err(_) => []
  }

  /** One range gives an entry at most one first-tag and at most one last-tag, both
      naming the range and a rank between 1 and the number of keys. */
  lemma RangeTagsShape(ts: seq<Timestamp>, t: Timestamp, keys: seq<Timestamp>, r: Range, rule: RollingRange)
    ensures |RangeTags(ts, t, keys, r, rule)| <= 2
    ensures forall f :: f in RangeTags(ts, t, keys, r, rule) ==> f.range == Some(r) && 1 <= f.index <= |keys|
    ensures |RangeTags(ts, t, keys, r, rule)| == 2 ==>
              RangeTags(ts, t, keys, r, rule)[0].firstOrLast && !RangeTags(ts, t, keys, r, rule)[1].firstOrLast
    ensures !rule.includeFirst && !rule.includeLast ==> RangeTags(ts, t, keys, r, rule) == []
  {
  }

  /** An entry alone in a kept bucket gets both tags when both flags are set. */
  lemma LoneMemberGetsBoth(ts: seq<Timestamp>, t: Timestamp, keys: seq<Timestamp>, r: Range, rule: RollingRange)
    requires rule.includeFirst && rule.includeLast
    requires Floor(t, r) in keys
    requires forall u :: u in ts && Floor(u, r) == Floor(t, r) ==> u == t
    ensures RangeTags(ts, t, keys, r, rule)
            == [Fulfillment(Some(r), IndexOf(keys, Floor(t, r)) + 1, true),
                Fulfillment(Some(r), IndexOf(keys, Floor(t, r)) + 1, false)]
  {
  }

  /** Buckets are ranked most recent first: a later key has a smaller rank. */
  lemma RankOrder(keys: seq<Timestamp>, a: Timestamp, b: Timestamp)
    requires StrictlyDescending(keys)
    requires a in keys && b in keys
    requires Before(a, b)
    ensures IndexOf(keys, b) < IndexOf(keys, a)
  {
    var i := IndexOf(keys, a);
    var j := IndexOf(keys, b);
    assert keys[i] == a && keys[j] == b;
  }

  /** In an ascending sequence, the first element is the one not after any other. */
  lemma AscendingEnds(m: seq<Timestamp>, t: Timestamp)
    requires StrictlyAscending(m)
    requires t in m
    ensures m[0] == t <==> forall u :: u in m ==> NotAfter(t, u)
    ensures m[|m| - 1] == t <==> forall u :: u in m ==> NotAfter(u, t)
  {
    var q :| 0 <= q < |m| && m[q] == t;
    assert q > 0 ==> Before(m[0], m[q]);
    assert q < |m| - 1 ==> Before(m[q], m[|m| - 1]);
    assert m[0] in m && m[|m| - 1] in m;
  }

  /** The bucket of key k gives t its TagsAt when t floors to k, and nothing otherwise. */
  lemma MemberBucketTags(ts: seq<Timestamp>, t: Timestamp, r: Range, rule: RollingRange, k: Timestamp, index: nat)
    requires StrictlyAscending(ts)
    requires t in ts
    ensures Floor(t, r) == k ==> BucketTags(t, Members(ts, r, k), r, rule, index) == TagsAt(ts, t, r, rule, index)
    ensures Floor(t, r) != k ==> BucketTags(t, Members(ts, r, k), r, rule, index) == []
  {
    if Floor(t, r) == k {
      OwnBucketTags(ts, t, r, rule, index);
    } else {
      OtherBucketTags(ts, t, r, rule, k, index);
    }
  }

  lemma OwnBucketTags(ts: seq<Timestamp>, t: Timestamp, r: Range, rule: RollingRange, index: nat)
    requires StrictlyAscending(ts)
    requires t in ts
    ensures BucketTags(t, Members(ts, r, Floor(t, r)), r, rule, index) == TagsAt(ts, t, r, rule, index)
  {
    var m := Members(ts, r, Floor(t, r));
    MembersAre(ts, r, Floor(t, r));
    AscendingEnds(m, t);
    assert m[0] == t <==> EarliestInBucket(ts, t, r);
    assert m[|m| - 1] == t <==> LatestInBucket(ts, t, r);
  }

  lemma OtherBucketTags(ts: seq<Timestamp>, t: Timestamp, r: Range, rule: RollingRange, k: Timestamp, index: nat)
    requires Floor(t, r) != k
    ensures BucketTags(t, Members(ts, r, k), r, rule, index) == []
  {
    var m := Members(ts, r, k);
    MembersAre(ts, r, k);
    assert m != [] ==> m[0] in m && m[|m| - 1] in m;
  }

  /** The bucket at position i of the list, the one of t's floor, gives t its tags,
      ranked index = done + i + 1. */
  lemma {:induction false} BucketListOwnTags(ts: seq<Timestamp>, t: Timestamp, keys: seq<Timestamp>, r: Range,
                                             rule: RollingRange, done: nat, i: nat, index: nat)
    requires StrictlyAscending(ts)
    requires StrictlyDescending(keys)
    requires t in ts
    requires i < |keys| && keys[i] == Floor(t, r)
    requires index == done + i + 1
    ensures AllBucketTags(t, BucketList(ts, r, keys), r, rule, done) == TagsAt(ts, t, r, rule, index)
  {
    var rest := keys[1..];
    var head := BucketTags(t, Members(ts, r, keys[0]), r, rule, done + 1);
    var tail := AllBucketTags(t, BucketList(ts, r, rest), r, rule, done + 1);
    BucketListStep(ts, t, keys, r, rule, done);
    if i == 0 {
      HeadKeyNotInRest(keys);
      OwnBucketTags(ts, t, r, rule, index);
      BucketListNoTags(ts, t, rest, r, rule, done + 1);
      ConcatEmpty(head, tail);
    } else {
      DescendingTail(keys);
      assert rest[i - 1] == keys[i];
      assert Before(keys[i], keys[0]);
      OtherBucketTags(ts, t, r, rule, keys[0], done + 1);
      BucketListOwnTags(ts, t, rest, r, rule, done + 1, i - 1, index);
      EmptyConcat(head, tail);
    }
  }

  /** The tags of a bucket list: those of its first bucket, then those of the rest. */
  lemma BucketListStep(ts: seq<Timestamp>, t: Timestamp, keys: seq<Timestamp>, r: Range, rule: RollingRange, done: nat)
    requires keys != []
    ensures AllBucketTags(t, BucketList(ts, r, keys), r, rule, done)
            == BucketTags(t, Members(ts, r, keys[0]), r, rule, done + 1)
               + AllBucketTags(t, BucketList(ts, r, keys[1..]), r, rule, done + 1)
  {
    assert BucketList(ts, r, keys) == [(keys[0], Members(ts, r, keys[0]))] + BucketList(ts, r, keys[1..]);
  }

  /** Buckets none of whose keys is t's floor give t no tags. */
  lemma {:induction false} BucketListNoTags(ts: seq<Timestamp>, t: Timestamp, keys: seq<Timestamp>, r: Range,
                                            rule: RollingRange, done: nat)
    requires Floor(t, r) !in keys
    ensures AllBucketTags(t, BucketList(ts, r, keys), r, rule, done) == []
  {
    if keys != [] {
      var rest := keys[1..];
      var head := BucketTags(t, Members(ts, r, keys[0]), r, rule, done + 1);
      var tail := AllBucketTags(t, BucketList(ts, r, rest), r, rule, done + 1);
      BucketListStep(ts, t, keys, r, rule, done);
      assert keys[0] in keys;
      OtherBucketTags(ts, t, r, rule, keys[0], done + 1);
      assert forall k :: k in rest ==> k in keys;
      BucketListNoTags(ts, t, rest, r, rule, done + 1);
      EmptyConcat(head, tail);
    }
  }

  /** The first of strictly descending keys does not recur. */
  lemma HeadKeyNotInRest(keys: seq<Timestamp>)
    requires keys != [] && StrictlyDescending(keys)
    ensures keys[0] !in keys[1..]
  {
    forall i | 0 <= i < |keys[1..]|
      ensures keys[1..][i] != keys[0]
    {
      assert Before(keys[i + 1], keys[0]);
    }
  }

  // ---------------------------------------------------------------------
  // One range (src/mark.rs:35-94)
  // ---------------------------------------------------------------------

  /** Every member of every sorted bucket is one of the timestamps placed. */
  lemma SortedMembersAreEntries(ts: seq<Timestamp>, r: Range, keys: seq<Timestamp>)
    ensures forall i, t ::
              (0 <= i < |SortedBuckets(Fill(NewBuckets(keys), ts, r))|
               && t in SortedBuckets(Fill(NewBuckets(keys), ts, r))[i].1) ==> t in ts
  {
    var b := Fill(NewBuckets(keys), ts, r);
    SortedMembersOf(SortedBuckets(b), b, ts, r, keys);
  }

  lemma SortedMembersOf(sorted: seq<(Timestamp, seq<Timestamp>)>, b: Buckets, ts: seq<Timestamp>, r: Range, keys: seq<Timestamp>)
    requires b == Fill(NewBuckets(keys), ts, r)
    requires forall i :: 0 <= i < |sorted| ==> sorted[i].0 in b && multiset(sorted[i].1) == multiset(b[sorted[i].0])
    ensures forall i, t :: 0 <= i < |sorted| && t in sorted[i].1 ==> t in ts
  {
    forall i, t | 0 <= i < |sorted| && t in sorted[i].1
      ensures t in ts
    {
      var k := sorted[i].0;
      assert t in multiset(sorted[i].1);
      assert t in b[k];
      FilledBucket(ts, r, keys, k);
      MemberIsEntry(ts, r, k, t);
    }
  }

  lemma MemberIsEntry(ts: seq<Timestamp>, r: Range, k: Timestamp, t: Timestamp)
    requires t in Members(ts, r, k)
    ensures t in ts
  {
    MembersAre(ts, r, k);
  }

  lemma ChronologicalTimes(es: seq<Entry>)
    requires Chronological(es)
    ensures StrictlyAscending(TimesOf(es))
    ensures DistinctKeys(es, TimestampOf)
    ensures forall j :: 0 <= j < |es| ==> es[j].timestamp in TimesOf(es)
  {
    assert forall j :: 0 <= j < |es| ==> TimesOf(es)[j] == es[j].timestamp;
  }

  /** Every entry's tags from the bucket list are its RangeTags. */
  lemma BucketListTagsAll(es: seq<Entry>, ts: seq<Timestamp>, keys: seq<Timestamp>, r: Range, rule: RollingRange)
    requires StrictlyAscending(ts)
    requires StrictlyDescending(keys)
    requires forall j :: 0 <= j < |es| ==> es[j].timestamp in ts
    ensures forall j :: 0 <= j < |es| ==>
              AllBucketTags(es[j].timestamp, BucketList(ts, r, keys), r, rule, 0)
              == RangeTags(ts, es[j].timestamp, keys, r, rule)
  {
    forall j | 0 <= j < |es|
      ensures AllBucketTags(es[j].timestamp, BucketList(ts, r, keys), r, rule, 0)
              == RangeTags(ts, es[j].timestamp, keys, r, rule)
    {
      BucketListRangeTags(ts, es[j].timestamp, keys, r, rule);
    }
  }

  lemma BucketListRangeTags(ts: seq<Timestamp>, t: Timestamp, keys: seq<Timestamp>, r: Range, rule: RollingRange)
    requires StrictlyAscending(ts)
    requires StrictlyDescending(keys)
    requires t in ts
    ensures AllBucketTags(t, BucketList(ts, r, keys), r, rule, 0) == RangeTags(ts, t, keys, r, rule)
  {
    if Floor(t, r) in keys {
      var i := IndexOf(keys, Floor(t, r));
      BucketListOwnTags(ts, t, keys, r, rule, 0, i, i + 1);
    } else {
      BucketListNoTags(ts, t, keys, r, rule, 0);
    }
  }

  /** `mark_range`: select the keys, place every entry in the bucket of its floor, and
      tag the first and last member of each bucket with the bucket's rank. It fails only
      when a fixed cadence needs a shift beyond `i32`; on ascending entries each entry
      gains exactly RangeTagsFor of its timestamp. */
  method MarkRange(es: seq<Entry>, now: Timestamp, r: Range, rule: RollingRange)
    returns (marked: Result<seq<Entry>, MarkError>)
    ensures marked.Err? <==> !Feasible(rule)
    ensures marked.Err? ==> marked.error == ShiftOutOfRange(I32Max + 1)
    ensures marked.Ok? ==> SameBackups(marked.value, es)
    ensures marked.Ok? && Chronological(es) ==>
              forall j :: 0 <= j < |es| ==>
                marked.value[j].fulfills == es[j].fulfills + RangeTagsFor(TimesOf(es), es[j].timestamp, now, r, rule)
  {
    var ts := TimesOf(es);
    var selected := SelectKeys(ts, now, r, rule);
    SelectKeysSpec(ts, now, r, rule);
    if selected.Err? {
      return Err(selected.error);
    }
    var keys := selected.value;
    var sorted := SortedBuckets(Fill(NewBuckets(keys), ts, r));
    SortedMembersAreEntries(ts, r, keys);
    TagBucketsSpec(es, sorted, r, rule, 0);
    marked := TagBuckets(es, sorted, r, rule, 0);
    if Chronological(es) {
      ChronologicalTimes(es);
      SortedFilledBuckets(ts, r, keys);
      BucketListTagsAll(es, ts, keys, r, rule);
    }
  }

  // ---------------------------------------------------------------------
  // The whole run (src/mark.rs:8-33)
  // ---------------------------------------------------------------------

  datatype BackupsError =
    | ReadFailed(readError: ReadError)
    | RangeFailed(range: Range, markError: MarkError)

  /** A rule `mark_range` can carry out: fixed cadence needs every shift amount to fit an `i32`. */
  predicate Feasible(rule: RollingRange) {
    rule.allowSparse || rule.total <= I32Max + 1
  }

  /** The tags the rules give the entry with timestamp t, rule after rule. */
  function RulesTags(ts: seq<Timestamp>, t: Timestamp, now: Timestamp, rules: seq<(Range, RollingRange)>)
    : seq<Fulfillment>
  {
    if rules == [] then []
    else
      var last := rules[|rules| - 1];
      RulesTags(ts, t, now, rules[..|rules| - 1]) + RangeTagsFor(ts, t, now, last.0, last.1)
  }

  /** current is es with the tags of the first i rules appended to each entry. */
  predicate TaggedBy(es: seq<Entry>, current: seq<Entry>, now: Timestamp, rules: seq<(Range, RollingRange)>) {
    && SameBackups(current, es)
    && (Chronological(es) ==> RulesAppended(es, current, now, rules))
  }

  /** Each entry of current is the entry of es with the tags of the rules appended. */
  predicate RulesAppended(es: seq<Entry>, current: seq<Entry>, now: Timestamp, rules: seq<(Range, RollingRange)>)
    requires |current| == |es|
  {
    forall j :: 0 <= j < |es| ==>
      current[j].fulfills == es[j].fulfills + RulesTags(TimesOf(es), es[j].timestamp, now, rules)
  }

  /** Apply `mark_range` for each rule in turn; the first infeasible rule aborts the run
      and is named in the error. */
  method MarkRanges(es: seq<Entry>, now: Timestamp, rules: seq<(Range, RollingRange)>)
    returns (marked: Result<seq<Entry>, BackupsError>)
    ensures marked.Ok? <==> forall i :: 0 <= i < |rules| ==> Feasible(rules[i].1)
    ensures marked.Err? ==>
              exists i :: 0 <= i < |rules|
                          && marked.error == RangeFailed(rules[i].0, ShiftOutOfRange(I32Max + 1))
                          && !Feasible(rules[i].1)
                          && forall h :: 0 <= h < i ==> Feasible(rules[h].1)
    ensures marked.Ok? ==> TaggedBy(es, marked.value, now, rules)
  {
    var current := es;
    assert TaggedBy(es, current, now, rules[..0]);
    for i := 0 to |rules|
      invariant TaggedBy(es, current, now, rules[..i])
      invariant forall h :: 0 <= h < i ==> Feasible(rules[h].1)
    {
      var next := MarkNext(es, current, now, rules, i);
      if next.Err? {
        return Err(RangeFailed(rules[i].0, next.error));
      }
      current := next.value;
    }
    assert rules[..|rules|] == rules;
    return Ok(current);
  }

  /** The body of the rule loop: apply rule i to entries tagged by the rules before it. */
  method MarkNext(es: seq<Entry>, current: seq<Entry>, now: Timestamp, rules: seq<(Range, RollingRange)>, i: int)
    returns (next: Result<seq<Entry>, MarkError>)
    requires 0 <= i < |rules|
    requires TaggedBy(es, current, now, rules[..i])
    ensures next.Err? <==> !Feasible(rules[i].1)
    ensures next.Err? ==> next.error == ShiftOutOfRange(I32Max + 1)
    ensures next.Ok? ==> TaggedBy(es, next.value, now, rules[..i + 1])
  {
    next := MarkRange(current, now, rules[i].0, rules[i].1);
    if next.Ok? && Chronological(es) {
      SameBackupsKeep(current, es);
      RulesStep(es, current, next.value, now, rules, i);
    }
  }

  /** One more rule appends its RangeTagsFor after the tags of the earlier rules. */
  lemma RulesStep(es: seq<Entry>, current: seq<Entry>, next: seq<Entry>, now: Timestamp,
                  rules: seq<(Range, RollingRange)>, i: int)
    requires 0 <= i < |rules|
    requires SameBackups(current, es) && RulesAppended(es, current, now, rules[..i])
    requires SameBackups(next, current) && TimesOf(current) == TimesOf(es)
    requires forall j :: 0 <= j < |current| ==>
               next[j].fulfills
               == current[j].fulfills + RangeTagsFor(TimesOf(current), current[j].timestamp, now, rules[i].0, rules[i].1)
    ensures RulesAppended(es, next, now, rules[..i + 1])
  {
    assert rules[..i + 1][..i] == rules[..i];
    forall j | 0 <= j < |es|
      ensures next[j].fulfills == es[j].fulfills + RulesTags(TimesOf(es), es[j].timestamp, now, rules[..i + 1])
    {
      var t := es[j].timestamp;
      assert current[j].timestamp == t;
      ConcatAssoc(es[j].fulfills, RulesTags(TimesOf(es), t, now, rules[..i]),
                  RangeTagsFor(TimesOf(es), t, now, rules[i].0, rules[i].1));
    }
  }

  lemma EveryRuleFeasible(rs: Ranges)
    ensures (forall i :: 0 <= i < |IterRanges(rs)| ==> Feasible(IterRanges(rs)[i].1))
            <==> forall r: Range :: Feasible(PolicyFor(rs, r))
  {
    forall r: Range
      ensures IterRanges(rs)[r.Rank()] == (r, PolicyFor(rs, r))
    {
    }
  }

  /** The error of the rule loop stopping at range r: r's rule is infeasible and every
      range before it in ladder order is feasible. */
  predicate FirstInfeasible(ranges: Ranges, error: BackupsError) {
    && error.RangeFailed?
    && error.markError == ShiftOutOfRange(I32Max + 1)
    && !Feasible(PolicyFor(ranges, error.range))
    && forall r: Range :: r.Rank() < error.range.Rank() ==> Feasible(PolicyFor(ranges, r))
  }

  /** The rule loop stopping at ladder position i names the first infeasible range. */
  lemma LadderStopsAtFirst(ranges: Ranges, i: int)
    requires 0 <= i < |IterRanges(ranges)|
    requires !Feasible(IterRanges(ranges)[i].1)
    requires forall h :: 0 <= h < i ==> Feasible(IterRanges(ranges)[h].1)
    ensures FirstInfeasible(ranges, RangeFailed(IterRanges(ranges)[i].0, ShiftOutOfRange(I32Max + 1)))
  {
    forall r: Range | r.Rank() < i
      ensures Feasible(PolicyFor(ranges, r))
    {
      assert IterRanges(ranges)[r.Rank()] == (r, PolicyFor(ranges, r));
    }
  }

  /** The outcome of marking the entries es: the same backups in ascending order, each
      with its latest-N tag followed by the tags of the five ranges in ladder order. */
  predicate MarkedAs(es: seq<Entry>, out: seq<Entry>, ranges: Ranges, now: Timestamp) {
    && SameBackups(out, es)
    && Chronological(out)
    && PolicyTagged(out, ranges, now)
  }

  /** Each entry carries its latest-N tag, if any, then the tags of every range in turn. */
  predicate PolicyTagged(out: seq<Entry>, ranges: Ranges, now: Timestamp) {
    forall j :: 0 <= j < |out| ==>
      out[j].fulfills
      == LatestTags(|out| - 1 - j, ranges.latest) + RulesTags(TimesOf(out), out[j].timestamp, now, IterRanges(ranges))
  }

  /** The marking half of `read_backups`: tag the newest entries, apply every range rule
      and sort. It fails exactly when a fixed-cadence rule is infeasible, naming its range. */
  method MarkBackups(es: seq<Entry>, ranges: Ranges, now: Timestamp)
    returns (backups: Result<seq<Entry>, BackupsError>)
    requires Chronological(es)
    requires forall j :: 0 <= j < |es| ==> es[j].fulfills == []
    ensures backups.Ok? <==> forall r: Range :: Feasible(PolicyFor(ranges, r))
    ensures backups.Err? ==>
              exists r: Range :: backups.error == RangeFailed(r, ShiftOutOfRange(I32Max + 1)) && !Feasible(PolicyFor(ranges, r))
    ensures backups.Err? ==> FirstInfeasible(ranges, backups.error)
    ensures backups.Ok? ==> MarkedAs(es, backups.value, ranges, now)
  {
    EveryRuleFeasible(ranges);
    var latest := MarkLatest(es, ranges.latest);
    var marked := MarkRanges(latest, now, IterRanges(ranges));
    if marked.Err? {
      var i :| 0 <= i < |IterRanges(ranges)|
               && marked.error == RangeFailed(IterRanges(ranges)[i].0, ShiftOutOfRange(I32Max + 1))
               && !Feasible(IterRanges(ranges)[i].1)
               && forall h :: 0 <= h < i ==> Feasible(IterRanges(ranges)[h].1);
      LadderStopsAtFirst(ranges, i);
      return Err(marked.error);
    }
    LatestThenRules(es, latest, marked.value, now, IterRanges(ranges), ranges.latest);
    SortBySorted(marked.value, TimestampOf);
    backups := Ok(SortBy(marked.value, TimestampOf));
  }

  /** `read_backups` over a given listing, policy and current instant: read the entries,
      then mark them. It fails exactly when the listing does or a fixed-cadence rule is
      infeasible; a success holds exactly the entries read, marked as MarkedAs states. */
  method ReadBackups(names: seq<string>, config: Config, parse: Parser, now: Timestamp)
    returns (backups: Result<seq<Entry>, BackupsError>)
    ensures (backups.Err? && backups.error.ReadFailed?) <==> ReadDir(names, config.archive, parse).Err?
    ensures backups.Ok? <==>
              ReadDir(names, config.archive, parse).Ok? && forall r: Range :: Feasible(PolicyFor(config.ranges, r))
    ensures backups.Err? && backups.error.ReadFailed? ==>
              backups.error.readError == ReadDir(names, config.archive, parse).error
    ensures backups.Err? && ReadDir(names, config.archive, parse).Ok? ==> FirstInfeasible(config.ranges, backups.error)
    ensures backups.Ok? ==> MarkedAs(ReadDir(names, config.archive, parse).value, backups.value, config.ranges, now)
  {
    var read := ReadDir(names, config.archive, parse);
    if read.Err? {
      return Err(ReadFailed(read.error));
    }
    FreshEntries(names, config.archive, parse);
    backups := MarkBackups(read.value, config.ranges, now);
  }

  /** Untagged ascending entries, tagged by the latest-N rule and then by the range rules,
      stay ascending and carry the latest-N tag first and the range tags after it. */
  lemma LatestThenRules(es: seq<Entry>, latest: seq<Entry>, marked: seq<Entry>, now: Timestamp,
                        rules: seq<(Range, RollingRange)>, n: nat)
    requires Chronological(es)
    requires forall j :: 0 <= j < |es| ==> es[j].fulfills == []
    requires latest == MarkLatest(es, n)
    requires TaggedBy(latest, marked, now, rules)
    ensures SameBackups(marked, es)
    ensures Chronological(marked) && SortedBy(marked, TimestampOf)
    ensures forall j :: 0 <= j < |marked| ==>
              marked[j].fulfills
              == LatestTags(|marked| - 1 - j, n) + RulesTags(TimesOf(marked), marked[j].timestamp, now, rules)
  {
    SameBackupsKeep(latest, es);
    SameBackupsKeep(marked, latest);
    ChronologicalSorted(marked);
    LatestThenRulesTags(es, latest, marked, now, rules, n);
  }

  lemma ChronologicalSorted(es: seq<Entry>)
    requires Chronological(es)
    ensures SortedBy(es, TimestampOf)
  {
  }

  lemma LatestThenRulesTags(es: seq<Entry>, latest: seq<Entry>, marked: seq<Entry>, now: Timestamp,
                            rules: seq<(Range, RollingRange)>, n: nat)
    requires forall j :: 0 <= j < |es| ==> es[j].fulfills == []
    requires SameBackups(latest, es)
    requires forall j :: 0 <= j < |es| ==> latest[j].fulfills == es[j].fulfills + LatestTags(|es| - 1 - j, n)
    requires SameBackups(marked, latest) && RulesAppended(latest, marked, now, rules)
    requires TimesOf(marked) == TimesOf(latest)
    ensures forall j :: 0 <= j < |marked| ==>
              marked[j].fulfills
              == LatestTags(|marked| - 1 - j, n) + RulesTags(TimesOf(marked), marked[j].timestamp, now, rules)
  {
    forall j | 0 <= j < |marked|
      ensures marked[j].fulfills
              == LatestTags(|marked| - 1 - j, n) + RulesTags(TimesOf(marked), marked[j].timestamp, now, rules)
    {
      TagsInTurn(es[j].fulfills, latest[j].fulfills, marked[j].fulfills, LatestTags(|es| - 1 - j, n),
                 RulesTags(TimesOf(latest), latest[j].timestamp, now, rules));
      assert marked[j].timestamp == latest[j].timestamp;
      assert |marked| - 1 - j == |es| - 1 - j;
    }
  }

  /** Tags appended in two turns to an untagged entry are the two lists in order. */
  lemma TagsInTurn(none: seq<Fulfillment>, mid: seq<Fulfillment>, out: seq<Fulfillment>,
                   first: seq<Fulfillment>, second: seq<Fulfillment>)
    requires none == []
    requires mid == none + first
    requires out == mid + second
    ensures out == first + second
  {
    assert none + first == first;
  }

  /** Entries just read carry no tags. */
  lemma FreshEntries(names: seq<string>, archive: Archive, parse: Parser)
    requires ReadDir(names, archive, parse).Ok?
    ensures forall j :: 0 <= j < |ReadDir(names, archive, parse).value| ==>
              ReadDir(names, archive, parse).value[j].fulfills == []
  {
    var es := ReadDir(names, archive, parse).value;
    forall j | 0 <= j < |es|
      ensures es[j].fulfills == []
    {
      assert es[j] in multiset(es);
      ParsedEntries(names, archive, parse, es[j]);
    }
  }
  // ---------------------------------------------------------------------
  // Tags grouped by the rule that gave them
  // ---------------------------------------------------------------------

  /** The tags of fs given by one rule: range None for latest-N, Some(r) for range r. */
  function OfRange(fs: seq<Fulfillment>, range: Option<Range>): (kept: seq<Fulfillment>)
    ensures |kept| <= |fs|
    ensures forall f :: f in kept <==> f in fs && f.range == range
  {
    if fs == [] then []
    else (if fs[0].range == range then [fs[0]] else []) + OfRange(fs[1..], range)
  }

  lemma {:induction false} OfRangeAppend(a: seq<Fulfillment>, b: seq<Fulfillment>, range: Option<Range>)
    ensures OfRange(a + b, range) == OfRange(a, range) + OfRange(b, range)
  {
    if a != [] {
      assert (a + b)[1..] == a[1..] + b;
      OfRangeAppend(a[1..], b, range);
      ConcatAssoc(if a[0].range == range then [a[0]] else [], OfRange(a[1..], range), OfRange(b, range));
    } else {
      assert a + b == b;
    }
  }

  /** Filtering keeps everything of the wanted rule and nothing of the others. */
  lemma {:induction false} OfRangeUniform(fs: seq<Fulfillment>, given: Option<Range>, range: Option<Range>)
    requires forall f :: f in fs ==> f.range == given
    ensures OfRange(fs, range) == if given == range then fs else []
  {
    if fs != [] {
      var rest := fs[1..];
      assert fs[0] in fs;
      assert forall f :: f in rest ==> f in fs;
      OfRangeUniform(rest, given, range);
      if given == range {
        assert fs == [fs[0]] + rest;
      }
    }
  }

  /** Every tag range r gives carries range Some(r). */
  lemma RangeTagsForRange(ts: seq<Timestamp>, t: Timestamp, now: Timestamp, r: Range, rule: RollingRange)
    ensures forall f :: f in RangeTagsFor(ts, t, now, r, rule) ==> f.range == Some(r)
  {
    match SelectKeys(ts, now, r, rule)
    case Ok(keys) => RangeTagsShape(ts, t, keys, r, rule);
    case Err(_) =>
  }

  /** A range none of the rules names gets no tags from them (None included). */
  lemma {:induction false} RulesTagsUnlisted(ts: seq<Timestamp>, t: Timestamp, now: Timestamp,
                                             rules: seq<(Range, RollingRange)>, range: Option<Range>)
    requires forall i :: 0 <= i < |rules| ==> Some(rules[i].0) != range
    ensures OfRange(RulesTags(ts, t, now, rules), range) == []
  {
    if rules != [] {
      var init := rules[..|rules| - 1];
      var last := rules[|rules| - 1];
      assert forall i :: 0 <= i < |init| ==> init[i] == rules[i];
      RulesTagsUnlisted(ts, t, now, init, range);
      RangeTagsForRange(ts, t, now, last.0, last.1);
      OfRangeAppend(RulesTags(ts, t, now, init), RangeTagsFor(ts, t, now, last.0, last.1), range);
      OfRangeUniform(RangeTagsFor(ts, t, now, last.0, last.1), Some(last.0), range);
    }
  }

  /** With pairwise distinct ranges, the tags the rules give for the range of rule i are
      exactly that rule's own RangeTagsFor. */
  lemma {:induction false} RulesTagsOfRange(ts: seq<Timestamp>, t: Timestamp, now: Timestamp,
                                            rules: seq<(Range, RollingRange)>, i: int)
    requires forall a, b :: 0 <= a < b < |rules| ==> rules[a].0 != rules[b].0
    requires 0 <= i < |rules|
    ensures OfRange(RulesTags(ts, t, now, rules), Some(rules[i].0)) == RangeTagsFor(ts, t, now, rules[i].0, rules[i].1)
  {
    var init := rules[..|rules| - 1];
    var last := rules[|rules| - 1];
    var prior := RulesTags(ts, t, now, init);
    var own := RangeTagsFor(ts, t, now, last.0, last.1);
    assert forall h :: 0 <= h < |init| ==> init[h] == rules[h];
    RangeTagsForRange(ts, t, now, last.0, last.1);
    OfRangeAppend(prior, own, Some(rules[i].0));
    OfRangeUniform(own, Some(last.0), Some(rules[i].0));
    if i == |rules| - 1 {
      RulesTagsUnlisted(ts, t, now, init, Some(last.0));
    } else {
      RulesTagsOfRange(ts, t, now, init, i);
    }
  }

  /** The tags of one entry under a policy, split by the rule that gave them. */
  lemma PolicyTagsByRule(n: nat, ts: seq<Timestamp>, t: Timestamp, now: Timestamp, ranges: Ranges)
    ensures OfRange(LatestTags(n, ranges.latest) + RulesTags(ts, t, now, IterRanges(ranges)), None)
            == LatestTags(n, ranges.latest)
    ensures forall r: Range ::
              OfRange(LatestTags(n, ranges.latest) + RulesTags(ts, t, now, IterRanges(ranges)), Some(r))
              == RangeTagsFor(ts, t, now, r, PolicyFor(ranges, r))
  {
    var latest := LatestTags(n, ranges.latest);
    var tags := RulesTags(ts, t, now, IterRanges(ranges));
    RulesTagsNoLatest(ts, t, now, ranges);
    LatestKept(latest, tags);
    forall r: Range
      ensures OfRange(latest + tags, Some(r)) == RangeTagsFor(ts, t, now, r, PolicyFor(ranges, r))
    {
      RulesTagsByRange(ts, t, now, ranges, r);
      RuleKept(latest, tags, r, RangeTagsFor(ts, t, now, r, PolicyFor(ranges, r)));
    }
  }

  /** The range rules of a policy give no latest-N tags. */
  lemma RulesTagsNoLatest(ts: seq<Timestamp>, t: Timestamp, now: Timestamp, ranges: Ranges)
    ensures OfRange(RulesTags(ts, t, now, IterRanges(ranges)), None) == []
  {
    RulesTagsUnlisted(ts, t, now, IterRanges(ranges), None);
  }

  /** Of the tags a policy's range rules give, those of range r are r's own rule's. */
  lemma RulesTagsByRange(ts: seq<Timestamp>, t: Timestamp, now: Timestamp, ranges: Ranges, r: Range)
    ensures OfRange(RulesTags(ts, t, now, IterRanges(ranges)), Some(r)) == RangeTagsFor(ts, t, now, r, PolicyFor(ranges, r))
  {
    var rules := IterRanges(ranges);
    IterRangesVisitsEachOnce(ranges, r);
    RulesTagsOfRange(ts, t, now, rules, r.Rank());
    assert rules[r.Rank()].0 == r;
  }

  /** Filtering latest tags followed by range tags for None keeps the latest tags. */
  lemma LatestKept(latest: seq<Fulfillment>, tags: seq<Fulfillment>)
    requires forall f :: f in latest ==> f.range == None
    requires OfRange(tags, None) == []
    ensures OfRange(latest + tags, None) == latest
  {
    OfRangeAppend(latest, tags, None);
    OfRangeUniform(latest, None, None);
    var none := OfRange(tags, None);
    assert latest + none == latest;
  }

  /** Filtering latest tags followed by range tags for range r keeps r's own tags. */
  lemma RuleKept(latest: seq<Fulfillment>, tags: seq<Fulfillment>, r: Range, own: seq<Fulfillment>)
    requires forall f :: f in latest ==> f.range == None
    requires OfRange(tags, Some(r)) == own
    ensures OfRange(latest + tags, Some(r)) == own
  {
    OfRangeAppend(latest, tags, Some(r));
    OfRangeUniform(latest, None, Some(r));
    var none := OfRange(latest, Some(r));
    EmptyConcat(none, own);
  }

  /** The rules do not interfere: in a marked result, the latest-N tags of an entry are
      its LatestTags, and its tags of any range r are exactly those r's own rule gives. */
  lemma RulesIndependent(es: seq<Entry>, out: seq<Entry>, ranges: Ranges, now: Timestamp, j: int, r: Range)
    requires MarkedAs(es, out, ranges, now)
    requires 0 <= j < |out|
    ensures OfRange(out[j].fulfills, None) == LatestTags(|out| - 1 - j, ranges.latest)
    ensures OfRange(out[j].fulfills, Some(r)) == RangeTagsFor(TimesOf(out), out[j].timestamp, now, r, PolicyFor(ranges, r))
  {
    TagsByRule(out[j].fulfills, |out| - 1 - j, TimesOf(out), out[j].timestamp, now, ranges, r);
  }

  lemma TagsByRule(f: seq<Fulfillment>, n: nat, ts: seq<Timestamp>, t: Timestamp, now: Timestamp, ranges: Ranges, r: Range)
    requires f == LatestTags(n, ranges.latest) + RulesTags(ts, t, now, IterRanges(ranges))
    ensures OfRange(f, None) == LatestTags(n, ranges.latest)
    ensures OfRange(f, Some(r)) == RangeTagsFor(ts, t, now, r, PolicyFor(ranges, r))
  {
    var latest := LatestTags(n, ranges.latest);
    var tags := RulesTags(ts, t, now, IterRanges(ranges));
    RulesTagsNoLatest(ts, t, now, ranges);
    LatestKept(latest, tags);
    RulesTagsByRange(ts, t, now, ranges, r);
    RuleKept(latest, tags, r, RangeTagsFor(ts, t, now, r, PolicyFor(ranges, r)));
  }

  /** With a latest-N rule of at least one, the newest backup is never stale. */
  lemma NewestKept(es: seq<Entry>, out: seq<Entry>, ranges: Ranges, now: Timestamp)
    requires MarkedAs(es, out, ranges, now)
    requires out != [] && ranges.latest >= 1
    ensures !IsStale(out[|out| - 1])
    ensures out[|out| - 1] !in StaleBackups(out)
    ensures Fulfillment(None, 1, true) in out[|out| - 1].fulfills
  {
    var j := |out| - 1;
    assert out[j].fulfills
           == [Fulfillment(None, 1, true)] + RulesTags(TimesOf(out), out[j].timestamp, now, IterRanges(ranges));
  }
}
