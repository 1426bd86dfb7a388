/** The sorts the engine relies on: Rust's stable `sort` of a vector by
    timestamp, and sorting the elements of a hash set of timestamps. */
module Sorting {
  import opened Timestamps

  /** Concatenation is associative. */
  lemma ConcatAssoc<T>(a: seq<T>, b: seq<T>, c: seq<T>)
    ensures (a + b) + c == a + (b + c)
  {
  }

  /** An empty sequence in front changes nothing. */
  lemma EmptyConcat<T>(none: seq<T>, s: seq<T>)
    requires none == []
    ensures none + s == s
  {
  }

  /** An empty sequence behind changes nothing. */
  lemma ConcatEmpty<T>(s: seq<T>, none: seq<T>)
    requires none == []
    ensures s + none == s
  {
  }

  /** Keys never decrease along s. */
  predicate SortedBy<T>(s: seq<T>, key: T -> Timestamp) {
    forall i, j :: 0 <= i < j < |s| ==> NotAfter(key(s[i]), key(s[j]))
  }

  predicate StrictlyAscending(s: seq<Timestamp>) {
    forall i, j :: 0 <= i < j < |s| ==> Before(s[i], s[j])
  }

  predicate StrictlyDescending(s: seq<Timestamp>) {
    forall i, j :: 0 <= i < j < |s| ==> Before(s[j], s[i])
  }

  lemma BeforeTransitive(a: DateTime, b: DateTime, c: DateTime)
    requires Before(a, b) && Before(b, c)
    ensures Before(a, c)
  {
  }

  lemma SortedCons<T>(h: T, s: seq<T>, key: T -> Timestamp)
    requires SortedBy(s, key)
    requires forall k :: 0 <= k < |s| ==> NotAfter(key(h), key(s[k]))
    ensures SortedBy([h] + s, key)
  {
    var r := [h] + s;
    forall i, j | 0 <= i < j < |r|
      ensures NotAfter(key(r[i]), key(r[j]))
    {
      assert r[j] == s[j - 1];
      if i > 0 {
        assert r[i] == s[i - 1];
      }
    }
  }

  /** Insert x in front of the first element whose key is not smaller. */
  function Insert<T>(x: T, s: seq<T>, key: T -> Timestamp): (r: seq<T>)
    requires SortedBy(s, key)
    ensures SortedBy(r, key)
    ensures multiset(r) == multiset(s) + multiset{x}
    ensures |r| == |s| + 1
  {
    if s == [] || NotAfter(key(x), key(s[0])) then
      InsertFront(x, s, key);
      [x] + s
    else
      var rest := Insert(x, s[1..], key);
      InsertBehind(x, s, rest, key);
      assert s == [s[0]] + s[1..];
      [s[0]] + rest
  }

  lemma InsertFront<T>(x: T, s: seq<T>, key: T -> Timestamp)
    requires SortedBy(s, key)
    requires s == [] || NotAfter(key(x), key(s[0]))
    ensures SortedBy([x] + s, key)
  {
    forall k | 0 <= k < |s|
      ensures NotAfter(key(x), key(s[k]))
    {
      NotAfterTransitive(key(x), key(s[0]), key(s[k]));
    }
    SortedCons(x, s, key);
  }

  lemma InsertBehind<T>(x: T, s: seq<T>, rest: seq<T>, key: T -> Timestamp)
    requires SortedBy(s, key) && s != []
    requires !NotAfter(key(x), key(s[0]))
    requires SortedBy(rest, key)
    requires multiset(rest) == multiset(s[1..]) + multiset{x}
    ensures SortedBy([s[0]] + rest, key)
  {
    forall k | 0 <= k < |rest|
      ensures NotAfter(key(s[0]), key(rest[k]))
    {
      assert rest[k] in multiset(rest);
      if rest[k] != x {
        assert rest[k] in multiset(s[1..]);
        var j :| 0 <= j < |s[1..]| && s[1..][j] == rest[k];
        assert s[j + 1] == rest[k];
      }
    }
    SortedCons(s[0], rest, key);
  }

  /** Stable insertion sort by key: Rust's `sort` on a vector ordered by timestamp. */
  function SortBy<T>(s: seq<T>, key: T -> Timestamp): (r: seq<T>)
    ensures SortedBy(r, key)
    ensures multiset(r) == multiset(s)
    ensures |r| == |s|
  {
    if s == [] then []
    else
      assert s == [s[0]] + s[1..];
      Insert(s[0], SortBy(s[1..], key), key)
  }

  /** Sorting a sequence that is already sorted changes nothing. */
  lemma {:induction false} SortBySorted<T>(s: seq<T>, key: T -> Timestamp)
    requires SortedBy(s, key)
    ensures SortBy(s, key) == s
  {
    if s != [] {
      SortBySorted(s[1..], key);
      assert s == [s[0]] + s[1..];
    }
  }

  /** Keys strictly increase along s. */
  predicate StrictlySortedBy<T>(s: seq<T>, key: T -> Timestamp) {
    forall i, j :: 0 <= i < j < |s| ==> Before(key(s[i]), key(s[j]))
  }

  /** No two elements of s share a key. */
  predicate DistinctKeys<T>(s: seq<T>, key: T -> Timestamp) {
    forall i, j :: 0 <= i < j < |s| ==> key(s[i]) != key(s[j])
  }

  lemma StrictlySortedCons<T>(h: T, s: seq<T>, key: T -> Timestamp)
    requires StrictlySortedBy(s, key)
    requires forall k :: 0 <= k < |s| ==> Before(key(h), key(s[k]))
    ensures StrictlySortedBy([h] + s, key)
  {
    var r := [h] + s;
    forall i, j | 0 <= i < j < |r|
      ensures Before(key(r[i]), key(r[j]))
    {
      assert r[j] == s[j - 1];
      if i > 0 {
        assert r[i] == s[i - 1];
      }
    }
  }

  /** Inserting an element whose key is new keeps keys strictly increasing. */
  lemma {:induction false} InsertStrict<T>(x: T, s: seq<T>, key: T -> Timestamp)
    requires StrictlySortedBy(s, key)
    requires forall k :: 0 <= k < |s| ==> key(s[k]) != key(x)
    ensures SortedBy(s, key)
    ensures StrictlySortedBy(Insert(x, s, key), key)
  {
    if s == [] || NotAfter(key(x), key(s[0])) {
      forall k | 0 <= k < |s|
        ensures Before(key(x), key(s[k]))
      {
        if k > 0 {
          BeforeTransitive(key(x), key(s[0]), key(s[k]));
        }
      }
      StrictlySortedCons(x, s, key);
    } else {
      InsertStrict(x, s[1..], key);
      var rest := Insert(x, s[1..], key);
      forall k | 0 <= k < |rest|
        ensures Before(key(s[0]), key(rest[k]))
      {
        assert rest[k] in multiset(rest);
        if rest[k] != x {
          assert rest[k] in multiset(s[1..]);
          var j :| 0 <= j < |s[1..]| && s[1..][j] == rest[k];
          assert s[j + 1] == rest[k];
        }
      }
      StrictlySortedCons(s[0], rest, key);
    }
  }

  /** Sorting elements with pairwise distinct keys makes the keys strictly increase. */
  lemma {:induction false} SortByStrict<T>(s: seq<T>, key: T -> Timestamp)
    requires DistinctKeys(s, key)
    ensures StrictlySortedBy(SortBy(s, key), key)
  {
    if s != [] {
      SortByStrict(s[1..], key);
      var sorted := SortBy(s[1..], key);
      forall k | 0 <= k < |sorted|
        ensures key(sorted[k]) != key(s[0])
      {
        assert sorted[k] in multiset(sorted);
        assert sorted[k] in multiset(s[1..]);
        var j :| 0 <= j < |s[1..]| && s[1..][j] == sorted[k];
        assert s[j + 1] == sorted[k];
      }
      InsertStrict(s[0], sorted, key);
    }
  }

  /** A strictly ascending sequence is determined by its elements. */
  lemma {:induction false} StrictlyAscendingUnique(a: seq<Timestamp>, b: seq<Timestamp>)
    requires StrictlyAscending(a) && StrictlyAscending(b)
    requires forall t :: t in a <==> t in b
    ensures a == b
  {
    assert a != [] ==> a[0] in b;
    assert b != [] ==> b[0] in a;
    if a != [] && b != [] {
      var i :| 0 <= i < |b| && b[i] == a[0];
      var j :| 0 <= j < |a| && a[j] == b[0];
      assert NotAfter(b[0], a[0]) && NotAfter(a[0], b[0]);
      forall t
        ensures t in a[1..] <==> t in b[1..]
      {
        if t in a[1..] {
          var k :| 1 <= k < |a| && a[k] == t;
          assert Before(a[0], t);
          assert t in b;
          var k' :| 0 <= k' < |b| && b[k'] == t;
          assert k' != 0;
          assert b[1..][k' - 1] == t;
        }
        if t in b[1..] {
          var k :| 1 <= k < |b| && b[k] == t;
          assert Before(b[0], t);
          assert t in a;
          var k' :| 0 <= k' < |a| && a[k'] == t;
          assert k' != 0;
          assert a[1..][k' - 1] == t;
        }
      }
      StrictlyAscendingUnique(a[1..], b[1..]);
      assert a == [a[0]] + a[1..];
      assert b == [b[0]] + b[1..];
    }
  }

  predicate IsLeast(m: Timestamp, s: set<Timestamp>) {
    m in s && forall x :: x in s ==> NotAfter(m, x)
  }

  lemma LeastUnique(s: set<Timestamp>)
    ensures forall m1, m2 :: IsLeast(m1, s) && IsLeast(m2, s) ==> m1 == m2
  {
  }

  lemma {:induction false} LeastExists(s: set<Timestamp>)
    requires s != {}
    ensures exists m :: IsLeast(m, s)
    decreases |s|
  {
    var x :| x in s;
    if s != {x} {
      LeastExists(s - {x});
      var m: Timestamp :| IsLeast(m, s - {x});
      if Before(x, m) {
        forall y | y in s
          ensures NotAfter(x, y)
        {
          if y != x {
            assert NotAfter(m, y);
          }
        }
        assert IsLeast(x, s);
      } else {
        assert IsLeast(m, s);
      }
    } else {
      assert IsLeast(x, s);
    }
  }

  /** The elements of a set in ascending order: a `HashSet` collected and sorted. */
  function SortedElements(s: set<Timestamp>): (r: seq<Timestamp>)
    ensures StrictlyAscending(r)
    ensures forall t :: t in r <==> t in s
    ensures |r| == |s|
    decreases |s|
  {
    if s == {} then []
    else
      LeastExists(s);
      LeastUnique(s);
      var m: Timestamp :| IsLeast(m, s);
      var rest := SortedElements(s - {m});
      LeastFirst(m, s, rest);
      [m] + rest
  }

  lemma LeastFirst(m: Timestamp, s: set<Timestamp>, rest: seq<Timestamp>)
    requires IsLeast(m, s)
    requires StrictlyAscending(rest)
    requires forall t :: t in rest <==> t in s - {m}
    ensures StrictlyAscending([m] + rest)
  {
    var r := [m] + rest;
    forall i, j | 0 <= i < j < |r|
      ensures Before(r[i], r[j])
    {
      assert r[j] == rest[j - 1];
      if i > 0 {
        assert r[i] == rest[i - 1];
      } else {
        assert rest[j - 1] in rest;
        assert rest[j - 1] in s && rest[j - 1] != m;
      }
    }
  }

  function Reverse<T>(s: seq<T>): (r: seq<T>)
    ensures |r| == |s|
    ensures forall i :: 0 <= i < |s| ==> r[i] == s[|s| - 1 - i]
  {
    if s == [] then [] else Reverse(s[1..]) + [s[0]]
  }

  lemma DescendingTail(s: seq<Timestamp>)
    requires s != [] && StrictlyDescending(s)
    ensures StrictlyDescending(s[1..])
  {
    forall i, j | 0 <= i < j < |s[1..]|
      ensures Before(s[1..][j], s[1..][i])
    {
      assert s[1..][i] == s[i + 1] && s[1..][j] == s[j + 1];
    }
  }

  lemma ReverseAscending(s: seq<Timestamp>)
    requires StrictlyAscending(s)
    ensures StrictlyDescending(Reverse(s))
    ensures forall t :: t in Reverse(s) <==> t in s
  {
    var r := Reverse(s);
    forall t | t in s
      ensures t in r
    {
      var k :| 0 <= k < |s| && s[k] == t;
      assert r[|s| - 1 - k] == t;
    }
  }

  lemma ReverseDescending(s: seq<Timestamp>)
    requires StrictlyDescending(s)
    ensures StrictlyAscending(Reverse(s))
    ensures forall t :: t in Reverse(s) <==> t in s
  {
    var r := Reverse(s);
    forall t | t in s
      ensures t in r
    {
      var k :| 0 <= k < |s| && s[k] == t;
      assert r[|s| - 1 - k] == t;
    }
  }

  /** A strictly descending sequence is determined by its elements. */
  lemma StrictlyDescendingUnique(a: seq<Timestamp>, b: seq<Timestamp>)
    requires StrictlyDescending(a) && StrictlyDescending(b)
    requires forall t :: t in a <==> t in b
    ensures a == b
  {
    ReverseDescending(a);
    ReverseDescending(b);
    StrictlyAscendingUnique(Reverse(a), Reverse(b));
    assert |a| == |b|;
    forall i | 0 <= i < |a|
      ensures a[i] == b[i]
    {
      assert Reverse(a)[|a| - 1 - i] == Reverse(b)[|b| - 1 - i];
    }
  }
}
