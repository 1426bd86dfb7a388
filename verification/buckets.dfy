/** The bucket map of `mark_range` (src/mark.rs:96-126): bucket key to the
    timestamps of the entries that floor to it. */
module Buckets {
  import opened Timestamps
  import opened Sorting

  type Buckets = map<Timestamp, seq<Timestamp>>

  /** One empty bucket per key (`Buckets::new`); a repeated key makes one bucket. */
  function NewBuckets(keys: seq<Timestamp>): (b: Buckets)
    ensures forall k :: k in b <==> k in keys
    ensures forall k :: k in b ==> b[k] == []
  {
    map k | k in keys :: []
  }

  /** Append value to the bucket with the given key, if there is one (`Buckets::push`). */
  function Push(b: Buckets, bucket: Timestamp, value: Timestamp): (res: (Buckets, bool))
    ensures res.1 <==> bucket in b
    ensures res.0.Keys == b.Keys
    ensures res.1 ==> res.0[bucket] == b[bucket] + [value]
    ensures forall k :: k in b && k != bucket ==> res.0[k] == b[k]
    ensures !res.1 ==> res.0 == b
  {
    if bucket in b then (b[bucket := b[bucket] + [value]], true) else (b, false)
  }

  /** The timestamps of ts whose r-floor is key, in the order of ts. */
  function Members(ts: seq<Timestamp>, r: Range, key: Timestamp): seq<Timestamp> {
    if ts == [] then []
    else (if Floor(ts[0], r) == key then [ts[0]] else []) + Members(ts[1..], r, key)
  }

  lemma {:induction false} MembersAre(ts: seq<Timestamp>, r: Range, key: Timestamp)
    ensures forall t :: t in Members(ts, r, key) <==> t in ts && Floor(t, r) == key
    ensures StrictlyAscending(ts) ==> StrictlyAscending(Members(ts, r, key))
  {
    if ts != [] {
      MembersAre(ts[1..], r, key);
      assert ts == [ts[0]] + ts[1..];
      var rest := Members(ts[1..], r, key);
      if StrictlyAscending(ts) && Floor(ts[0], r) == key {
        forall i, j | 0 <= i < j < |[ts[0]] + rest|
          ensures Before(([ts[0]] + rest)[i], ([ts[0]] + rest)[j])
        {
          var m := [ts[0]] + rest;
          assert m[j] == rest[j - 1];
          assert m[j] in ts[1..];
          var k :| 0 <= k < |ts[1..]| && ts[1..][k] == m[j];
          assert ts[k + 1] == m[j];
          if i > 0 {
            assert m[i] == rest[i - 1];
          }
        }
      }
    }
  }

  /** Push every timestamp of ts into the bucket of its r-floor (the placing loop of `mark_range`). */
  function Fill(b: Buckets, ts: seq<Timestamp>, r: Range): (filled: Buckets)
    ensures filled.Keys == b.Keys
    ensures forall k :: k in b ==> filled[k] == b[k] + Members(ts, r, k)
    decreases |ts|
  {
    if ts == [] then b
    else
      var pushed := Push(b, Floor(ts[0], r), ts[0]).0;
      var filled := Fill(pushed, ts[1..], r);
      FillStep(b, pushed, filled, ts, r);
      filled
  }

  lemma FillStep(b: Buckets, pushed: Buckets, filled: Buckets, ts: seq<Timestamp>, r: Range)
    requires ts != []
    requires pushed == Push(b, Floor(ts[0], r), ts[0]).0
    requires filled.Keys == pushed.Keys
    requires forall k :: k in pushed ==> filled[k] == pushed[k] + Members(ts[1..], r, k)
    ensures filled.Keys == b.Keys
    ensures forall k :: k in b ==> filled[k] == b[k] + Members(ts, r, k)
  {
    forall k | k in b
      ensures filled[k] == b[k] + Members(ts, r, k)
    {
      PushedBucket(b, pushed, ts, r, k);
    }
  }

  /** One push seen from a single bucket: it gains ts[0] exactly when ts[0] floors to its key. */
  lemma PushedBucket(b: Buckets, pushed: Buckets, ts: seq<Timestamp>, r: Range, k: Timestamp)
    requires ts != [] && k in b
    requires pushed == Push(b, Floor(ts[0], r), ts[0]).0
    ensures k in pushed
    ensures pushed[k] + Members(ts[1..], r, k) == b[k] + Members(ts, r, k)
  {
    var rest := Members(ts[1..], r, k);
    MembersStep(ts, r, k);
    if Floor(ts[0], r) == k {
      ConcatAssoc(b[k], [ts[0]], rest);
    }
  }

  /** Members of a non-empty ts: its head, if that floors to key, then the members of its tail. */
  lemma MembersStep(ts: seq<Timestamp>, r: Range, key: Timestamp)
    requires ts != []
    ensures Floor(ts[0], r) == key ==> Members(ts, r, key) == [ts[0]] + Members(ts[1..], r, key)
    ensures Floor(ts[0], r) != key ==> Members(ts, r, key) == Members(ts[1..], r, key)
  {
    var none: seq<Timestamp> := [];
    if Floor(ts[0], r) != key {
      assert Members(ts, r, key) == none + Members(ts[1..], r, key);
      EmptyConcat(none, Members(ts[1..], r, key));
    }
  }

  function Id(t: Timestamp): Timestamp {
    t
  }

  /** Each key of order paired with its bucket sorted ascending. */
  function PairUp(b: Buckets, order: seq<Timestamp>): seq<(Timestamp, seq<Timestamp>)>
    requires forall i :: 0 <= i < |order| ==> order[i] in b
  {
    if order == [] then [] else [(order[0], SortBy(b[order[0]], Id))] + PairUp(b, order[1..])
  }

  lemma {:induction false} PairUpAt(b: Buckets, order: seq<Timestamp>)
    requires forall i :: 0 <= i < |order| ==> order[i] in b
    ensures |PairUp(b, order)| == |order|
    ensures forall i :: 0 <= i < |order| ==> PairUp(b, order)[i] == (order[i], SortBy(b[order[i]], Id))
  {
    if order != [] {
      PairUpAt(b, order[1..]);
    }
  }

  /** The keys of a bucket list, in its order. */
  function KeysOf(pairs: seq<(Timestamp, seq<Timestamp>)>): (keys: seq<Timestamp>)
    ensures |keys| == |pairs|
    ensures forall i :: 0 <= i < |pairs| ==> keys[i] == pairs[i].0
  {
    if pairs == [] then [] else [pairs[0].0] + KeysOf(pairs[1..])
  }

  /** The keys of b, most recent first. */
  function KeyOrder(b: Buckets): (order: seq<Timestamp>)
    ensures StrictlyDescending(order)
    ensures |order| == |b.Keys|
    ensures forall k :: k in b <==> k in order
  {
    var ascending := SortedElements(b.Keys);
    ReverseAscending(ascending);
    Reverse(ascending)
  }

  /** The buckets, most recent key first (the order KeyOrder states), each with its members in ascending order (`Buckets::sorted`). */
  function SortedBuckets(b: Buckets): (sorted: seq<(Timestamp, seq<Timestamp>)>)
    ensures KeysOf(sorted) == KeyOrder(b)
    ensures forall i :: 0 <= i < |sorted| ==>
              && sorted[i].0 in b
              && SortedBy(sorted[i].1, Id)
              && multiset(sorted[i].1) == multiset(b[sorted[i].0])
  {
    var order := KeyOrder(b);
    var sorted := PairUp(b, order);
    PairUpAt(b, order);
    PairedBuckets(b, order, sorted);
    sorted
  }

  /** The pairs keep the keys of order, each with a sorted permutation of its bucket. */
  lemma PairedBuckets(b: Buckets, order: seq<Timestamp>, pairs: seq<(Timestamp, seq<Timestamp>)>)
    requires forall i :: 0 <= i < |order| ==> order[i] in b
    requires |pairs| == |order|
    requires forall i :: 0 <= i < |order| ==> pairs[i] == (order[i], SortBy(b[order[i]], Id))
    ensures KeysOf(pairs) == order
    ensures forall i :: 0 <= i < |pairs| ==>
              && pairs[i].0 in b
              && SortedBy(pairs[i].1, Id)
              && multiset(pairs[i].1) == multiset(b[pairs[i].0])
  {
    var keys := KeysOf(pairs);
    assert forall i :: 0 <= i < |order| ==> keys[i] == order[i];
    forall i | 0 <= i < |pairs|
      ensures pairs[i].0 in b && SortedBy(pairs[i].1, Id) && multiset(pairs[i].1) == multiset(b[pairs[i].0])
    {
      var sortedBucket := SortBy(b[order[i]], Id);
      assert pairs[i].1 == sortedBucket;
    }
  }

  /** One bucket per key, most recent first, members as they appear in ts. */
  function BucketList(ts: seq<Timestamp>, r: Range, keys: seq<Timestamp>): seq<(Timestamp, seq<Timestamp>)> {
    if keys == [] then [] else [(keys[0], Members(ts, r, keys[0]))] + BucketList(ts, r, keys[1..])
  }

  lemma {:induction false} BucketListAt(ts: seq<Timestamp>, r: Range, keys: seq<Timestamp>)
    ensures |BucketList(ts, r, keys)| == |keys|
    ensures forall i :: 0 <= i < |keys| ==> BucketList(ts, r, keys)[i] == (keys[i], Members(ts, r, keys[i]))
  {
    if keys != [] {
      BucketListAt(ts, r, keys[1..]);
    }
  }

  /** Filling fresh buckets for strictly descending keys and sorting them yields,
      rank by rank, each key with the ascending timestamps that floor to it. */
  lemma SortedFilledBuckets(ts: seq<Timestamp>, r: Range, keys: seq<Timestamp>)
    requires StrictlyAscending(ts)
    requires StrictlyDescending(keys)
    ensures SortedBuckets(Fill(NewBuckets(keys), ts, r)) == BucketList(ts, r, keys)
  {
    var b := Fill(NewBuckets(keys), ts, r);
    FilledKeyOrder(ts, r, keys);
    assert SortedBuckets(b) == PairUp(b, keys);
    FilledPairs(ts, r, keys);
  }

  lemma FilledPairs(ts: seq<Timestamp>, r: Range, keys: seq<Timestamp>)
    requires StrictlyAscending(ts)
    ensures forall i :: 0 <= i < |keys| ==> keys[i] in Fill(NewBuckets(keys), ts, r)
    ensures PairUp(Fill(NewBuckets(keys), ts, r), keys) == BucketList(ts, r, keys)
  {
    var b := Fill(NewBuckets(keys), ts, r);
    forall k | k in keys
      ensures k in b && b[k] == Members(ts, r, k)
    {
      FilledBucket(ts, r, keys, k);
    }
    PairUpMembers(b, ts, r, keys);
  }

  /** A filled fresh bucket holds exactly the members of its key. */
  lemma FilledBucket(ts: seq<Timestamp>, r: Range, keys: seq<Timestamp>, k: Timestamp)
    requires k in Fill(NewBuckets(keys), ts, r)
    ensures Fill(NewBuckets(keys), ts, r)[k] == Members(ts, r, k)
  {
    var start := NewBuckets(keys);
    EmptyConcat(start[k], Members(ts, r, k));
  }

  /** Pairing buckets that hold exactly their members with the keys gives the bucket list. */
  lemma {:induction false} PairUpMembers(b: Buckets, ts: seq<Timestamp>, r: Range, keys: seq<Timestamp>)
    requires StrictlyAscending(ts)
    requires forall k :: k in keys ==> k in b && b[k] == Members(ts, r, k)
    ensures forall i :: 0 <= i < |keys| ==> keys[i] in b
    ensures PairUp(b, keys) == BucketList(ts, r, keys)
  {
    if keys != [] {
      assert keys[0] in keys;
      assert forall k :: k in keys[1..] ==> k in keys;
      PairUpMembers(b, ts, r, keys[1..]);
      MembersAre(ts, r, keys[0]);
      SortBySorted(Members(ts, r, keys[0]), Id);
    }
  }

  /** Fresh buckets for strictly descending keys come back in the order of the keys. */
  lemma FilledKeyOrder(ts: seq<Timestamp>, r: Range, keys: seq<Timestamp>)
    requires StrictlyDescending(keys)
    ensures KeyOrder(Fill(NewBuckets(keys), ts, r)) == keys
  {
    var b := Fill(NewBuckets(keys), ts, r);
    var order := KeyOrder(b);
    assert forall t :: t in order <==> t in keys;
    StrictlyDescendingUnique(order, keys);
  }
}
