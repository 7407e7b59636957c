/** `Array.prototype.sort` with a comparator that subtracts two keys, as the
    holiday lists sort by date.  The engine's sort is stable since ES2019;
    the model is a stable insertion sort, and its three defining properties
    are proved: the result is ordered, it is a permutation of the input, and
    elements with equal keys keep their input order. */
module Sorting {
  import opened Seqs

  ghost predicate SortedBy<T>(s: seq<T>, key: T -> int)
  {
    forall i, j :: 0 <= i < j < |s| ==> key(s[i]) <= key(s[j])
  }

  /** Inserts `x` after every element whose key is not larger than its own. */
  function InsertBy<T>(x: T, s: seq<T>, key: T -> int): (r: seq<T>)
    ensures |r| == |s| + 1
  {
    if s == [] then [x]
    else if key(x) < key(s[0]) then [x] + s
    else [s[0]] + InsertBy(x, s[1..], key)
  }

  /** The stable sort: the elements are inserted in input order. */
  function SortBy<T>(s: seq<T>, key: T -> int): (r: seq<T>)
    ensures |r| == |s|
  {
    if s == [] then [] else InsertBy(s[|s| - 1], SortBy(s[..|s| - 1], key), key)
  }

  lemma {:induction false} InsertByKeys<T>(x: T, s: seq<T>, key: T -> int)
    ensures multiset(InsertBy(x, s, key)) == multiset(s) + multiset{x}
  {
    if s != [] && key(x) >= key(s[0]) {
      InsertByKeys(x, s[1..], key);
      assert s == [s[0]] + s[1..];
    }
  }

  lemma {:induction false} InsertBySorted<T>(x: T, s: seq<T>, key: T -> int)
    requires SortedBy(s, key)
    ensures SortedBy(InsertBy(x, s, key), key)
  {
    if s == [] {
    } else if key(x) < key(s[0]) {
      forall j | 0 <= j < |s| ensures key(x) <= key(s[j]) {
        assert key(s[0]) <= key(s[j]);
      }
      ConsSorted(x, s, key);
    } else {
      var rest := InsertBy(x, s[1..], key);
      SortedTail(s, key);
      InsertBySorted(x, s[1..], key);
      InsertByKeys(x, s[1..], key);
      forall j | 0 <= j < |rest| ensures key(s[0]) <= key(rest[j]) {
        assert rest[j] in multiset(rest);
        if rest[j] != x {
          assert rest[j] in multiset(s[1..]);
          var k :| 0 <= k < |s[1..]| && s[1..][k] == rest[j];
          assert s[k + 1] == rest[j];
        }
      }
      ConsSorted(s[0], rest, key);
    }
  }

  lemma SortedTail<T>(s: seq<T>, key: T -> int)
    requires s != [] && SortedBy(s, key)
    ensures SortedBy(s[1..], key)
  {
    forall i, j | 0 <= i < j < |s| - 1 ensures key(s[1..][i]) <= key(s[1..][j]) {
      assert s[1..][i] == s[i + 1] && s[1..][j] == s[j + 1];
    }
  }

  lemma ConsSorted<T>(h: T, t: seq<T>, key: T -> int)
    requires SortedBy(t, key) && forall j :: 0 <= j < |t| ==> key(h) <= key(t[j])
    ensures SortedBy([h] + t, key)
  {
    var r := [h] + t;
    forall i, j | 0 <= i < j < |r| ensures key(r[i]) <= key(r[j]) {
      assert r[j] == t[j - 1];
      if i > 0 {
        assert r[i] == t[i - 1];
      }
    }
  }

  /** Inserting `x` appends it to the elements that share its key and leaves
      the elements of any other key as they were. */
  lemma {:induction false} InsertByStable<T>(x: T, s: seq<T>, key: T -> int, k: int)
    requires SortedBy(s, key)
    ensures Filter(InsertBy(x, s, key), HasKey(key, k))
         == Filter(s, HasKey(key, k)) + (if key(x) == k then [x] else [])
  {
    var p := HasKey(key, k);
    if s == [] {
    } else if key(x) < key(s[0]) {
      InsertFrontStable(x, s, key, k);
    } else {
      var rest := InsertBy(x, s[1..], key);
      var head, tail := (if p(s[0]) then [s[0]] else []), (if key(x) == k then [x] else []);
      SortedTail(s, key);
      InsertByStable(x, s[1..], key, k);
      assert Filter(rest, p) == Filter(s[1..], p) + tail;
      assert Filter(InsertBy(x, s, key), p) == head + Filter(rest, p) by {
        assert InsertBy(x, s, key) == [s[0]] + rest;
        FilterCons([s[0]] + rest, p);
        assert ([s[0]] + rest)[1..] == rest;
      }
      assert Filter(s, p) == head + Filter(s[1..], p) by {
        FilterCons(s, p);
      }
      assert head + (Filter(s[1..], p) + tail) == (head + Filter(s[1..], p)) + tail;
    }
  }

  /** Inserting `x` in front of larger keys: nothing with `x`'s key comes
      before it. */
  lemma InsertFrontStable<T>(x: T, s: seq<T>, key: T -> int, k: int)
    requires SortedBy(s, key) && s != [] && key(x) < key(s[0])
    ensures Filter([x] + s, HasKey(key, k)) == Filter(s, HasKey(key, k)) + (if key(x) == k then [x] else [])
  {
    var p := HasKey(key, k);
    FilterCons([x] + s, p);
    assert ([x] + s)[1..] == s;
    if key(x) == k {
      forall y | y in s ensures !p(y) {
        var i :| 0 <= i < |s| && s[i] == y;
        assert key(s[0]) <= key(s[i]);
      }
      FilterNone(s, p);
    }
  }

  lemma {:induction false} SortByFacts<T>(s: seq<T>, key: T -> int)
    ensures SortedBy(SortBy(s, key), key)
    ensures multiset(SortBy(s, key)) == multiset(s)
  {
    if s != [] {
      var init := s[..|s| - 1];
      SortByFacts(init, key);
      InsertBySorted(s[|s| - 1], SortBy(init, key), key);
      InsertByKeys(s[|s| - 1], SortBy(init, key), key);
      assert s == init + [s[|s| - 1]];
    }
  }

  lemma SortBySorted<T>(s: seq<T>, key: T -> int)
    ensures SortedBy(SortBy(s, key), key)
  {
    SortByFacts(s, key);
  }

  /** Stability: among elements with the same key the sorted order is the
      input order. */
  lemma {:induction false} SortByStable<T>(s: seq<T>, key: T -> int, k: int)
    ensures Filter(SortBy(s, key), HasKey(key, k)) == Filter(s, HasKey(key, k))
  {
    if s != [] {
      var init, last := s[..|s| - 1], s[|s| - 1];
      var p, sorted := HasKey(key, k), SortBy(init, key);
      var tail := if key(last) == k then [last] else [];
      assert SortBy(s, key) == InsertBy(last, sorted, key);
      assert Filter(SortBy(s, key), p) == Filter(init, p) + tail by {
        SortByStable(init, key, k);
        SortBySorted(init, key);
        InsertByStable(last, sorted, key, k);
      }
      assert Filter(s, p) == Filter(init, p) + tail by {
        assert s == init + [last];
        FilterSnoc(init, last, p);
      }
    }
  }

  /** Sorting an already sorted sequence changes nothing. */
  lemma {:induction false} SortBySortedIdentity<T>(s: seq<T>, key: T -> int)
    requires SortedBy(s, key)
    ensures SortBy(s, key) == s
  {
    if s != [] {
      var init, last := s[..|s| - 1], s[|s| - 1];
      assert SortedBy(init, key);
      SortBySortedIdentity(init, key);
      InsertAtEnd(last, init, key);
      assert s == init + [last];
    }
  }

  lemma {:induction false} InsertAtEnd<T>(x: T, s: seq<T>, key: T -> int)
    requires forall i :: 0 <= i < |s| ==> key(s[i]) <= key(x)
    ensures InsertBy(x, s, key) == s + [x]
  {
    if s != [] {
      InsertAtEnd(x, s[1..], key);
      assert s == [s[0]] + s[1..];
    }
  }

  function KeyAtMost<T>(key: T -> int, t: int): T -> bool
  {
    x => key(x) <= t
  }

  function KeyAbove<T>(key: T -> int, t: int): T -> bool
  {
    x => key(x) > t
  }

  /** A sorted sequence is its elements with keys up to `t` followed by the
      elements with larger keys. */
  lemma SortedSplitsAt<T>(s: seq<T>, key: T -> int, t: int)
    requires SortedBy(s, key)
    ensures s == Filter(s, KeyAtMost(key, t)) + Filter(s, KeyAbove(key, t))
  {
    var k := SortedThreshold(s, key, t);
    FilterTwoParts(s[..k], s[k..], KeyAtMost(key, t), KeyAbove(key, t));
    assert s == s[..k] + s[k..];
  }

  /** The position in a sorted sequence where the keys start to exceed `t`. */
  lemma SortedThreshold<T>(s: seq<T>, key: T -> int, t: int) returns (k: nat)
    requires SortedBy(s, key)
    ensures k <= |s|
    ensures forall x :: x in s[..k] ==> KeyAtMost(key, t)(x) && !KeyAbove(key, t)(x)
    ensures forall x :: x in s[k..] ==> KeyAbove(key, t)(x) && !KeyAtMost(key, t)(x)
  {
    var high := KeyAbove(key, t);
    k := if FirstIndex(s, high).Some? then FirstIndex(s, high).value else |s|;
    forall x | x in s[..k] ensures key(x) <= t {
      var i :| 0 <= i < k && s[i] == x;
      assert !high(s[i]);
    }
    SortedAbove(s[k..], key, t);
  }

  /** Filtering a sequence made of a part that only `p` admits followed by a
      part that only `q` admits gives back the two parts. */
  lemma FilterTwoParts<T>(front: seq<T>, back: seq<T>, p: T -> bool, q: T -> bool)
    requires forall x :: x in front ==> p(x) && !q(x)
    requires forall x :: x in back ==> q(x) && !p(x)
    ensures Filter(front + back, p) == front
    ensures Filter(front + back, q) == back
  {
    FilterConcat(front, back, p);
    FilterConcat(front, back, q);
    FilterAll(front, p);
    FilterNone(front, q);
    FilterAll(back, q);
    FilterNone(back, p);
    assert front + [] == front && [] + back == back;
  }

  /** In a sorted sequence whose first key exceeds `t` every key does. */
  lemma SortedAbove<T>(s: seq<T>, key: T -> int, t: int)
    requires SortedBy(s, key) && (s != [] ==> key(s[0]) > t)
    ensures forall x :: x in s ==> KeyAbove(key, t)(x) && !KeyAtMost(key, t)(x)
  {
    forall x | x in s ensures key(x) > t {
      var i :| 0 <= i < |s| && s[i] == x;
      assert key(s[0]) <= key(s[i]);
    }
  }

  /** What `filter` keeps of a sorted sequence is sorted. */
  lemma {:induction false} FilterSorted<T>(s: seq<T>, key: T -> int, p: T -> bool)
    requires SortedBy(s, key)
    ensures SortedBy(Filter(s, p), key)
  {
    if s != [] {
      var rest := Filter(s[1..], p);
      SortedTail(s, key);
      FilterSorted(s[1..], key, p);
      FilterCons(s, p);
      if p(s[0]) {
        FilterMembers(s[1..], p);
        forall j | 0 <= j < |rest| ensures key(s[0]) <= key(rest[j]) {
          assert rest[j] in s[1..];
          var k :| 0 <= k < |s| - 1 && s[1..][k] == rest[j];
          assert s[k + 1] == rest[j];
        }
        ConsSorted(s[0], rest, key);
      }
    }
  }
}
