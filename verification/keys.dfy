/** Choosing the bucket keys of one granularity (src/mark.rs:42-59): either the
    most recent distinct floors of the entries (sparse) or a fixed cadence
    counted back from the current instant. */
module BucketKeys {
  import opened Wrappers
  import opened Timestamps
  import opened Sorting
  import opened Config

  /** The largest value of an `i32`, the type of a shift amount. */
  const I32Max: nat := 0x7fff_ffff

  datatype MarkError =
    | ShiftOutOfRange(amount: nat)
    | NotFound(timestamp: Timestamp)

  function Min(a: nat, b: nat): nat {
    if a <= b then a else b
  }

  /** The distinct r-floors of the timestamps ts. */
  function Floors(ts: seq<Timestamp>, r: Range): set<Timestamp> {
    set t | t in ts :: Floor(t, r)
  }

  /** The first n elements of s, or all of s when it is shorter (`Iterator::take`). */
  function Take<T>(s: seq<T>, n: nat): (p: seq<T>)
    ensures |p| == Min(n, |s|)
    ensures forall i :: 0 <= i < |p| ==> p[i] == s[i]
  {
    if n < |s| then s[..n] else s
  }

  /** A prefix of a strictly descending sequence keeps its largest elements. */
  lemma TakeDescending(s: seq<Timestamp>, n: nat)
    requires StrictlyDescending(s)
    ensures StrictlyDescending(Take(s, n))
    ensures forall t :: t in Take(s, n) ==> t in s
    ensures forall f, k :: f in s && f !in Take(s, n) && k in Take(s, n) ==> Before(f, k)
  {
    var p := Take(s, n);
    forall f, k | f in s && f !in p && k in p
      ensures Before(f, k)
    {
      var a :| 0 <= a < |s| && s[a] == f;
      var b :| 0 <= b < |p| && p[b] == k;
      assert forall i :: 0 <= i < |p| ==> s[i] in p;
      assert s[b] == k;
    }
  }

  /** Sparse keys: the distinct floors of the entries, most recent first, at most total of them. */
  function SparseKeys(ts: seq<Timestamp>, r: Range, total: nat): (keys: seq<Timestamp>)
    ensures StrictlyDescending(keys)
    ensures |keys| == Min(total, |Floors(ts, r)|)
    ensures forall k :: k in keys ==> k in Floors(ts, r)
    ensures forall f, k :: f in Floors(ts, r) && f !in keys && k in keys ==> Before(f, k)
  {
    var ascending := SortedElements(Floors(ts, r));
    ReverseAscending(ascending);
    var descending := Reverse(ascending);
    TakeDescending(descending, total);
    Take(descending, total)
  }

  /** The cadence from shift amount `from` up to total - 1: the amounts are converted to
      `i32` one at a time, so the first amount beyond I32Max aborts the whole list. */
  function Cadence(base: Timestamp, r: Range, from: nat, total: nat): (keys: Result<seq<Timestamp>, MarkError>)
    requires from <= total
    requires IsFloored(base, r)
    ensures keys.Err? <==> from < total && total > I32Max + 1
    ensures keys.Err? ==> keys.error == ShiftOutOfRange(if from > I32Max then from else I32Max + 1)
    ensures keys.Ok? ==> |keys.value| == total - from
    ensures keys.Ok? ==> forall i :: 0 <= i < |keys.value| ==> keys.value[i] == Shift(base, r, -(from + i))
    decreases total - from
  {
    if from == total then Ok([])
    else if from > I32Max then Err(ShiftOutOfRange(from))
    else
      var rest :- Cadence(base, r, from + 1, total);
      var keys := [Shift(base, r, -(from as int))] + rest;
      assert forall i :: 0 < i < |keys| ==> keys[i] == rest[i - 1] && from + 1 + (i - 1) == from + i;
      Ok(keys)
  }

  /** Every cadence key is floored, and each is strictly earlier than the one before it. */
  lemma CadenceDescending(base: Timestamp, r: Range, from: nat, total: nat)
    requires from <= total
    requires IsFloored(base, r)
    requires Cadence(base, r, from, total).Ok?
    ensures forall i :: 0 <= i < total - from ==> IsFloored(Cadence(base, r, from, total).value[i], r)
    ensures StrictlyDescending(Cadence(base, r, from, total).value)
  {
    ShiftsDescending(base, r, from, Cadence(base, r, from, total).value);
  }

  /** Keys shifted back one more unit each from a floored base are floored and descending. */
  lemma ShiftsDescending(base: Timestamp, r: Range, from: nat, keys: seq<Timestamp>)
    requires IsFloored(base, r)
    requires forall i :: 0 <= i < |keys| ==> keys[i] == Shift(base, r, -(from + i))
    ensures forall i :: 0 <= i < |keys| ==> IsFloored(keys[i], r)
    ensures StrictlyDescending(keys)
  {
    forall i | 0 <= i < |keys|
      ensures IsFloored(keys[i], r)
    {
      ShiftBackIsEarlier(base, r, from + i, from + i + 1);
    }
    forall i, j | 0 <= i < j < |keys|
      ensures Before(keys[j], keys[i])
    {
      ShiftBackIsEarlier(base, r, from + i, from + j);
    }
  }

  /** Fixed-cadence keys: the current instant floored, then shifted back 0 .. total - 1 units. */
  function FixedKeys(now: Timestamp, r: Range, total: nat): (keys: Result<seq<Timestamp>, MarkError>)
    ensures keys.Err? <==> total > I32Max + 1
    ensures keys.Err? ==> keys.error == ShiftOutOfRange(I32Max + 1)
    ensures keys.Ok? ==> |keys.value| == total
    ensures keys.Ok? ==> forall i :: 0 <= i < total ==> keys.value[i] == Shift(Floor(now, r), r, -i)
    ensures keys.Ok? ==> forall i :: 0 <= i < total ==> IsFloored(keys.value[i], r)
    ensures keys.Ok? ==> StrictlyDescending(keys.value)
  {
    var keys := Cadence(Floor(now, r), r, 0, total);
    if keys.Err? then keys
    else
      CadenceDescending(Floor(now, r), r, 0, total);
      keys
  }

  /** The most recent fixed key is the current instant's own floor; none lies after now. */
  lemma FixedKeysEndAtNow(now: Timestamp, r: Range, total: nat)
    requires FixedKeys(now, r, total).Ok?
    ensures forall k :: k in FixedKeys(now, r, total).value ==> NotAfter(k, now)
    ensures total > 0 ==> FixedKeys(now, r, total).value[0] == Floor(now, r)
  {
    var keys := FixedKeys(now, r, total).value;
    if total > 0 {
      ShiftZero(Floor(now, r), r);
      assert keys[0] == Floor(now, r);
      forall k | k in keys
        ensures NotAfter(k, now)
      {
        var i :| 0 <= i < |keys| && keys[i] == k;
        if i > 0 {
          assert Before(keys[i], keys[0]);
        }
        NotAfterTransitive(k, Floor(now, r), now);
      }
    }
  }

  /** The keys of one granularity, as the rule's allowSparse flag selects. */
  function SelectKeys(ts: seq<Timestamp>, now: Timestamp, r: Range, rule: RollingRange)
    : (keys: Result<seq<Timestamp>, MarkError>)
  {
    if rule.allowSparse then Ok(SparseKeys(ts, r, rule.total)) else FixedKeys(now, r, rule.total)
  }

  /** Only a fixed cadence of more than 2^31 keys fails; the keys are floors, most recent
      first, as many as the rule asks for (sparse: as many distinct floors as there are). */
  lemma SelectKeysSpec(ts: seq<Timestamp>, now: Timestamp, r: Range, rule: RollingRange)
    ensures SelectKeys(ts, now, r, rule).Err? <==> !rule.allowSparse && rule.total > I32Max + 1
    ensures SelectKeys(ts, now, r, rule).Err? ==> SelectKeys(ts, now, r, rule).error == ShiftOutOfRange(I32Max + 1)
    ensures SelectKeys(ts, now, r, rule).Ok? ==>
              var keys := SelectKeys(ts, now, r, rule).value;
              && StrictlyDescending(keys)
              && |keys| <= rule.total
              && (forall i :: 0 <= i < |keys| ==> IsFloored(keys[i], r))
              && (!rule.allowSparse ==> |keys| == rule.total)
              && (rule.allowSparse ==> |keys| == Min(rule.total, |Floors(ts, r)|))
  {
    if rule.allowSparse {
      var keys := SparseKeys(ts, r, rule.total);
      assert forall i :: 0 <= i < |keys| ==> keys[i] in Floors(ts, r);
    }
  }
}
