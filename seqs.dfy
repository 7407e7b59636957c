/** Generic sequence operations that stand for the JavaScript array methods the
    front end uses: `filter`, `find`, `findIndex`, taking the last element,
    `slice` with negative indices, and de-duplication with a `Set` of seen keys. */
module Seqs {
  import opened Wrappers

  /** `s.filter(p)`: the elements of `s` that satisfy `p`, in their order. */
  function Filter<T>(s: seq<T>, p: T -> bool): (r: seq<T>)
    ensures |r| <= |s|
  {
    if s == [] then [] else (if p(s[0]) then [s[0]] else []) + Filter(s[1..], p)
  }

  /** What `filter` keeps satisfies the predicate and comes from the input. */
  lemma {:induction false} FilterMembers<T>(s: seq<T>, p: T -> bool)
    ensures forall x :: x in Filter(s, p) ==> p(x) && x in s
  {
    if s != [] {
      FilterMembers(s[1..], p);
      FilterCons(s, p);
    }
  }

  /** Every element that satisfies the predicate is kept. */
  lemma {:induction false} FilterKeeps<T>(s: seq<T>, p: T -> bool, x: T)
    requires x in s && p(x)
    ensures x in Filter(s, p)
  {
    if s[0] != x {
      FilterKeeps(s[1..], p, x);
    }
  }

  /** `filter` keeps or drops the first element, then goes on with the rest. */
  lemma FilterCons<T>(s: seq<T>, p: T -> bool)
    requires s != []
    ensures Filter(s, p) == (if p(s[0]) then [s[0]] else []) + Filter(s[1..], p)
  {
  }

  lemma {:induction false} FilterConcat<T>(a: seq<T>, b: seq<T>, p: T -> bool)
    ensures Filter(a + b, p) == Filter(a, p) + Filter(b, p)
  {
    if a == [] {
      assert a + b == b;
      assert [] + Filter(b, p) == Filter(b, p);
    } else {
      var head := if p(a[0]) then [a[0]] else [];
      assert (a + b)[0] == a[0];
      assert (a + b)[1..] == a[1..] + b;
      FilterConcat(a[1..], b, p);
      FilterCons(a + b, p);
      FilterCons(a, p);
      assert head + (Filter(a[1..], p) + Filter(b, p)) == (head + Filter(a[1..], p)) + Filter(b, p);
    }
  }

  lemma FilterAll<T>(s: seq<T>, p: T -> bool)
    requires forall x :: x in s ==> p(x)
    ensures Filter(s, p) == s
  {
  }

  lemma FilterNone<T>(s: seq<T>, p: T -> bool)
    requires forall x :: x in s ==> !p(x)
    ensures Filter(s, p) == []
  {
  }

  /** Filtering twice is filtering once by the conjunction. */
  lemma {:induction false} FilterFilter<T>(s: seq<T>, p: T -> bool, q: T -> bool)
    ensures Filter(Filter(s, p), q) == Filter(s, x => p(x) && q(x))
  {
    var pq := x => p(x) && q(x);
    if s != [] {
      FilterFilter(s[1..], p, q);
      assert Filter(s, pq) == (if pq(s[0]) then [s[0]] else []) + Filter(s[1..], pq);
      if p(s[0]) {
        assert Filter(s, p) == [s[0]] + Filter(s[1..], p);
        assert Filter(s, p)[1..] == Filter(s[1..], p);
      } else {
        assert Filter(s, p) == Filter(s[1..], p);
      }
    }
  }

  /** Filters with predicates that agree on the elements of `s` agree. */
  lemma {:induction false} FilterCongruent<T>(s: seq<T>, p: T -> bool, q: T -> bool)
    requires forall x :: x in s ==> p(x) == q(x)
    ensures Filter(s, p) == Filter(s, q)
  {
    if s != [] {
      FilterCongruent(s[1..], p, q);
    }
  }

  /** Every element goes to exactly one side of a filter and its complement. */
  lemma {:induction false} FilterSplitsMultiset<T>(s: seq<T>, p: T -> bool, q: T -> bool)
    requires forall x :: x in s ==> q(x) == !p(x)
    ensures multiset(Filter(s, p)) + multiset(Filter(s, q)) == multiset(s)
  {
    if s != [] {
      FilterSplitsMultiset(s[1..], p, q);
      FilterCons(s, p);
      FilterCons(s, q);
      assert s == [s[0]] + s[1..];
    }
  }

  lemma {:induction false} FilterIsSubsequence<T>(s: seq<T>, p: T -> bool)
    ensures IsSubsequence(Filter(s, p), s)
  {
    if s != [] {
      FilterIsSubsequence(s[1..], p);
      SubsequenceCons(Filter(s[1..], p), s[1..], s[0]);
      assert [s[0]] + s[1..] == s;
      if p(s[0]) {
        assert Filter(s, p) == [s[0]] + Filter(s[1..], p);
      } else {
        assert Filter(s, p) == Filter(s[1..], p);
      }
    }
  }

  /** The first element `filter` keeps is the one `find` returns. */
  lemma {:induction false} FilterHeadIsFind<T>(s: seq<T>, p: T -> bool)
    ensures Filter(s, p) == [] <==> Find(s, p).None?
    ensures Filter(s, p) != [] ==> Find(s, p) == Some(Filter(s, p)[0])
  {
    if s != [] && !p(s[0]) {
      FilterHeadIsFind(s[1..], p);
      if Filter(s[1..], p) != [] {
        var i := FirstIndex(s[1..], p).value;
        assert FirstIndex(s, p) == Some(i + 1);
        assert s[i + 1] == s[1..][i];
      }
    }
  }

  /** The last element `filter` keeps is the last element of the input that
      satisfies the predicate; `i` is its position. */
  lemma {:induction false} FilterLastIsLastMatch<T>(s: seq<T>, p: T -> bool) returns (i: nat)
    requires Filter(s, p) != []
    ensures i < |s| && s[i] == Filter(s, p)[|Filter(s, p)| - 1] && p(s[i])
    ensures forall j :: i < j < |s| ==> !p(s[j])
  {
    var init, x := s[..|s| - 1], s[|s| - 1];
    assert s == init + [x];
    FilterSnoc(init, x, p);
    if p(x) {
      i := |s| - 1;
    } else {
      i := FilterLastIsLastMatch(init, p);
      assert s[i] == init[i];
      forall j | i < j < |s| ensures !p(s[j]) {
        if j < |init| { assert s[j] == init[j]; }
      }
    }
  }

  /** Appending an element appends it to the filtered sequence when it passes. */
  lemma FilterSnoc<T>(s: seq<T>, x: T, p: T -> bool)
    ensures Filter(s + [x], p) == Filter(s, p) + (if p(x) then [x] else [])
  {
    FilterConcat(s, [x], p);
  }

  /** Filtering a permutation gives a permutation of the filtered sequence. */
  lemma FilterPermutation<T>(a: seq<T>, b: seq<T>, p: T -> bool)
    requires multiset(a) == multiset(b)
    ensures multiset(Filter(a, p)) == multiset(Filter(b, p))
  {
    forall y ensures multiset(Filter(a, p))[y] == multiset(Filter(b, p))[y] {
      FilterCount(a, p, y);
      FilterCount(b, p, y);
    }
    MultisetExt(multiset(Filter(a, p)), multiset(Filter(b, p)));
  }

  /** `a` is obtained from `b` by deleting elements (order is kept). */
  ghost predicate IsSubsequence<T>(a: seq<T>, b: seq<T>)
    decreases |b|
  {
    if a == [] then true
    else if b == [] then false
    else (a[0] == b[0] && IsSubsequence(a[1..], b[1..])) || IsSubsequence(a, b[1..])
  }

  /** Prepending the same element, or an element to the larger side only,
      keeps a subsequence a subsequence. */
  lemma SubsequenceCons<T>(a: seq<T>, b: seq<T>, x: T)
    requires IsSubsequence(a, b)
    ensures IsSubsequence([x] + a, [x] + b)
    ensures IsSubsequence(a, [x] + b)
  {
    assert ([x] + a)[1..] == a;
    assert ([x] + b)[1..] == b;
  }

  /** `s.findIndex(p)`, with -1 as `None`. */
  function FirstIndex<T>(s: seq<T>, p: T -> bool): (r: Option<nat>)
    ensures r.Some? ==> r.value < |s| && p(s[r.value])
    ensures r.Some? ==> forall j :: 0 <= j < r.value ==> !p(s[j])
    ensures r.None? <==> forall j :: 0 <= j < |s| ==> !p(s[j])
  {
    if s == [] then None
    else if p(s[0]) then Some(0)
    else match FirstIndex(s[1..], p)
      case None => None
      case Some(i) => Some(i + 1)
  }

  /** `s.find(p) || null`. */
  function Find<T>(s: seq<T>, p: T -> bool): (r: Option<T>)
    ensures r.Some? ==> exists i :: 0 <= i < |s| && s[i] == r.value && p(s[i]) &&
                                    forall j :: 0 <= j < i ==> !p(s[j])
    ensures r.None? <==> forall j :: 0 <= j < |s| ==> !p(s[j])
  {
    match FirstIndex(s, p)
    case None => None
    case Some(i) => Some(s[i])
  }

  /** Predicates that agree on the elements of `s` find the same element. */
  lemma {:induction false} FindCongruent<T>(s: seq<T>, p: T -> bool, q: T -> bool)
    requires forall x :: x in s ==> p(x) == q(x)
    ensures Find(s, p) == Find(s, q)
    ensures FirstIndex(s, p) == FirstIndex(s, q)
  {
    if s != [] {
      FindCongruent(s[1..], p, q);
    }
  }

  /** The last element of a sequence, or `None` when it is empty
      (`s.length > 0 ? s[s.length - 1] : null`). */
  function Last<T>(s: seq<T>): (r: Option<T>)
    ensures r.None? <==> s == []
    ensures r.Some? ==> r.value == s[|s| - 1]
  {
    if s == [] then None else Some(s[|s| - 1])
  }

  /** The smaller of two integers. */
  function Min(a: int, b: int): int
  {
    if a <= b then a else b
  }

  /** JavaScript's index normalisation for `slice`: a negative index counts
      from the end, and the result is clamped to `0..len`. */
  function SliceIndex(i: int, len: nat): (r: nat)
    ensures r <= len
    ensures 0 <= i <= len ==> r == i
    ensures i > len ==> r == len
    ensures i < 0 ==> r == if len + i < 0 then 0 else len + i
  {
    if i < 0 then (if len + i < 0 then 0 else len + i)
    else if i > len then len
    else i
  }

  /** `s.slice(start, end)` with JavaScript's rules for negative and
      out-of-range indices. */
  function Slice<T>(s: seq<T>, start: int, end: int): (r: seq<T>)
    ensures SliceIndex(start, |s|) <= SliceIndex(end, |s|) ==>
              r == s[SliceIndex(start, |s|)..SliceIndex(end, |s|)]
    ensures SliceIndex(start, |s|) > SliceIndex(end, |s|) ==> r == []
  {
    var a, b := SliceIndex(start, |s|), SliceIndex(end, |s|);
    if a <= b then s[a..b] else []
  }

  /** `s.slice(-count)`: the last `count` elements, or all when there are fewer. */
  lemma SliceFromEnd<T>(s: seq<T>, count: nat)
    requires count > 0
    ensures Slice(s, -(count as int), |s|) == if |s| <= count then s else s[|s| - count..]
  {
  }

  /** The elements whose key is `key`. */
  function HasKey<T, K(==)>(keyOf: T -> K, key: K): T -> bool
  {
    x => keyOf(x) == key
  }

  /** The elements of `s` whose key has not been seen before (scanning from
      the left, starting with the keys in `seen`). */
  function DedupFrom<T, K(==)>(s: seq<T>, key: T -> K, seen: set<K>): (r: seq<T>)
    ensures |r| <= |s|
  {
    if s == [] then []
    else if key(s[0]) in seen then DedupFrom(s[1..], key, seen)
    else [s[0]] + DedupFrom(s[1..], key, seen + {key(s[0])})
  }

  /** First-occurrence de-duplication by a key. */
  function DedupBy<T, K(==)>(s: seq<T>, key: T -> K): seq<T>
  {
    DedupFrom(s, key, {})
  }

  /** No two elements of `s` share a key. */
  ghost predicate KeysDistinct<T, K>(s: seq<T>, key: T -> K)
  {
    forall i, j :: 0 <= i < j < |s| ==> key(s[i]) != key(s[j])
  }

  /** `s[i]` is the first element of `s` with its key. */
  ghost predicate IsFirstOccurrence<T, K>(s: seq<T>, key: T -> K, i: int)
    requires 0 <= i < |s|
  {
    forall j :: 0 <= j < i ==> key(s[j]) != key(s[i])
  }

  lemma {:induction false} DedupFromFacts<T, K>(s: seq<T>, key: T -> K, seen: set<K>)
    ensures IsSubsequence(DedupFrom(s, key, seen), s)
    ensures KeysDistinct(DedupFrom(s, key, seen), key)
    ensures forall x :: x in DedupFrom(s, key, seen) ==> key(x) !in seen
    ensures forall i :: 0 <= i < |s| && key(s[i]) !in seen ==>
              exists x :: x in DedupFrom(s, key, seen) && key(x) == key(s[i])
  {
    if s != [] {
      var rest := s[1..];
      if key(s[0]) in seen {
        DedupFromFacts(rest, key, seen);
        SubsequenceCons(DedupFrom(rest, key, seen), rest, s[0]);
        forall i | 0 <= i < |s| && key(s[i]) !in seen
          ensures exists x :: x in DedupFrom(s, key, seen) && key(x) == key(s[i])
        {
          assert i > 0 && s[i] == rest[i - 1];
        }
      } else {
        var seen' := seen + {key(s[0])};
        DedupFromFacts(rest, key, seen');
        var r := DedupFrom(s, key, seen);
        assert r == [s[0]] + DedupFrom(rest, key, seen');
        SubsequenceCons(DedupFrom(rest, key, seen'), rest, s[0]);
        forall i, j | 0 <= i < j < |r| ensures key(r[i]) != key(r[j]) {
          if i == 0 {
            assert r[j] in DedupFrom(rest, key, seen');
          } else {
            assert r[i] == DedupFrom(rest, key, seen')[i - 1];
            assert r[j] == DedupFrom(rest, key, seen')[j - 1];
          }
        }
        forall i | 0 <= i < |s| && key(s[i]) !in seen
          ensures exists x :: x in r && key(x) == key(s[i])
        {
          if i == 0 {
            assert r[0] == s[0];
          } else if key(s[i]) == key(s[0]) {
            assert r[0] == s[0];
          } else {
            assert s[i] == rest[i - 1];
            var x :| x in DedupFrom(rest, key, seen') && key(x) == key(s[i]);
            assert x in r;
          }
        }
      }
    }
  }

  /** Each kept element is the first element of the input with its key. */
  lemma {:induction false} DedupFromKeepsFirst<T, K>(s: seq<T>, key: T -> K, seen: set<K>, k: nat)
    requires k < |DedupFrom(s, key, seen)|
    ensures exists i :: 0 <= i < |s| && s[i] == DedupFrom(s, key, seen)[k] &&
                        key(s[i]) !in seen && forall j :: 0 <= j < i ==> key(s[j]) != key(s[i])
  {
    var rest := s[1..];
    var r := DedupFrom(s, key, seen);
    if key(s[0]) in seen {
      DedupFromKeepsFirst(rest, key, seen, k);
      var i :| 0 <= i < |rest| && rest[i] == r[k] && key(rest[i]) !in seen &&
               forall j :: 0 <= j < i ==> key(rest[j]) != key(rest[i]);
      assert s[i + 1] == rest[i];
      forall j | 0 <= j < i + 1 ensures key(s[j]) != key(s[i + 1]) {
        if j > 0 { assert s[j] == rest[j - 1]; }
      }
    } else if k == 0 {
      assert r[0] == s[0];
    } else {
      var seen' := seen + {key(s[0])};
      assert r == [s[0]] + DedupFrom(rest, key, seen');
      DedupFromKeepsFirst(rest, key, seen', k - 1);
      var i :| 0 <= i < |rest| && rest[i] == DedupFrom(rest, key, seen')[k - 1] &&
               key(rest[i]) !in seen' && forall j :: 0 <= j < i ==> key(rest[j]) != key(rest[i]);
      assert s[i + 1] == rest[i];
      forall j | 0 <= j < i + 1 ensures key(s[j]) != key(s[i + 1]) {
        if j > 0 { assert s[j] == rest[j - 1]; }
      }
    }
  }

  /** The keys of the elements of `s`. */
  ghost function KeySet<T, K>(s: seq<T>, key: T -> K): set<K>
  {
    set x | x in s :: key(x)
  }

  /** The elements of `s` from index `i` on whose index is the first index
      of their key: `s.filter((x, i, self) => i === self.findIndex(...))`. */
  function KeepFirstFrom<T, K(==)>(s: seq<T>, key: T -> K, i: nat): seq<T>
    requires i <= |s|
    decreases |s| - i
  {
    if i == |s| then []
    else (if FirstIndex(s, HasKey(key, key(s[i]))) == Some(i) then [s[i]] else []) + KeepFirstFrom(s, key, i + 1)
  }

  /** An element is at the first index of its key exactly when its key does
      not occur before it. */
  lemma FirstIndexOfOwnKey<T, K>(s: seq<T>, key: T -> K, i: nat)
    requires i < |s|
    ensures FirstIndex(s, HasKey(key, key(s[i]))) == Some(i) <==> key(s[i]) !in KeySet(s[..i], key)
  {
    if FirstIndex(s, HasKey(key, key(s[i]))) == Some(i) {
      FirstIndexKeyUnseen(s, key, i);
    } else {
      OtherFirstIndexKeySeen(s, key, i);
    }
  }

  lemma FirstIndexKeyUnseen<T, K>(s: seq<T>, key: T -> K, i: nat)
    requires i < |s| && FirstIndex(s, HasKey(key, key(s[i]))) == Some(i)
    ensures key(s[i]) !in KeySet(s[..i], key)
  {
    var p := HasKey(key, key(s[i]));
    forall x | x in s[..i] ensures key(x) != key(s[i]) {
      var j :| 0 <= j < i && s[..i][j] == x;
      assert !p(s[j]);
    }
  }

  lemma OtherFirstIndexKeySeen<T, K>(s: seq<T>, key: T -> K, i: nat)
    requires i < |s| && FirstIndex(s, HasKey(key, key(s[i]))) != Some(i)
    ensures key(s[i]) in KeySet(s[..i], key)
  {
    var p := HasKey(key, key(s[i]));
    FirstIndexBefore(s, p, i);
    var j := FirstIndex(s, p).value;
    assert s[..i][j] == s[j];
    KeyInKeySet(s[..i], key, j);
  }

  /** A match at `i` that is not the first match has the first match
      before it. */
  lemma {:induction false} FirstIndexBefore<T>(s: seq<T>, p: T -> bool, i: nat)
    requires i < |s| && p(s[i]) && FirstIndex(s, p) != Some(i)
    ensures FirstIndex(s, p).Some? && FirstIndex(s, p).value < i
  {
    if !p(s[0]) {
      assert s[1..][i - 1] == s[i];
      var r := FirstIndex(s[1..], p);
      assert r.Some? ==> FirstIndex(s, p) == Some(r.value + 1);
      FirstIndexBefore(s[1..], p, i - 1);
    }
  }

  lemma KeyInKeySet<T, K>(s: seq<T>, key: T -> K, j: nat)
    requires j < |s|
    ensures key(s[j]) in KeySet(s, key)
  {
    assert s[j] in s;
  }

  /** The index-based filter keeps the same elements as scanning with a set of
      the keys seen so far. */
  lemma {:induction false} KeepFirstFromIsDedup<T, K>(s: seq<T>, key: T -> K, i: nat)
    requires i <= |s|
    ensures KeepFirstFrom(s, key, i) == DedupFrom(s[i..], key, KeySet(s[..i], key))
    decreases |s| - i
  {
    if i < |s| {
      var seen, k := KeySet(s[..i], key), key(s[i]);
      var later := KeepFirstFrom(s, key, i + 1);
      KeepFirstFromIsDedup(s, key, i + 1);
      KeySetSnoc(s, key, i);
      assert later == DedupFrom(s[i + 1..], key, seen + {k});
      assert s[i..][0] == s[i] && s[i..][1..] == s[i + 1..];
      if k in seen {
        assert seen + {k} == seen;
        assert KeepFirstFrom(s, key, i) == later by {
          KeepFirstStep(s, key, i);
        }
        assert DedupFrom(s[i..], key, seen) == DedupFrom(s[i + 1..], key, seen);
      } else {
        assert KeepFirstFrom(s, key, i) == [s[i]] + later by {
          KeepFirstStep(s, key, i);
        }
        assert DedupFrom(s[i..], key, seen) == [s[i]] + DedupFrom(s[i + 1..], key, seen + {k});
      }
    }
  }

  /** One step of the index-based filter, in terms of the keys seen before. */
  lemma KeepFirstStep<T, K>(s: seq<T>, key: T -> K, i: nat)
    requires i < |s|
    ensures KeepFirstFrom(s, key, i)
         == (if key(s[i]) in KeySet(s[..i], key) then [] else [s[i]]) + KeepFirstFrom(s, key, i + 1)
  {
    FirstIndexOfOwnKey(s, key, i);
  }

  lemma KeySetSnoc<T, K>(s: seq<T>, key: T -> K, i: nat)
    requires i < |s|
    ensures KeySet(s[..i + 1], key) == KeySet(s[..i], key) + {key(s[i])}
  {
    assert s[..i + 1] == s[..i] + [s[i]];
  }

  /** `s.filter((x, i, self) => i === self.findIndex(y => key(y) === key(x)))`
      is first-occurrence de-duplication. */
  lemma KeepFirstIsDedup<T, K>(s: seq<T>, key: T -> K)
    ensures KeepFirstFrom(s, key, 0) == DedupBy(s, key)
  {
    KeepFirstFromIsDedup(s, key, 0);
    assert s[..0] == [] && s[0..] == s;
    assert KeySet(s[..0], key) == {};
  }

  /** De-duplication leaves a sequence with distinct keys unchanged and
      shortens any other. */
  lemma DedupShortensIffRepeated<T, K>(s: seq<T>, key: T -> K)
    ensures KeysDistinct(s, key) <==> DedupBy(s, key) == s
    ensures !KeysDistinct(s, key) <==> |DedupBy(s, key)| < |s|
  {
    DedupFromFacts(s, key, {});
    if KeysDistinct(s, key) {
      DedupFromDistinct(s, key, {});
    } else if |DedupBy(s, key)| == |s| {
      SubsequenceSameLength(DedupBy(s, key), s);
    }
  }

  lemma {:induction false} DedupFromDistinct<T, K>(s: seq<T>, key: T -> K, seen: set<K>)
    requires KeysDistinct(s, key)
    requires forall i :: 0 <= i < |s| ==> key(s[i]) !in seen
    ensures DedupFrom(s, key, seen) == s
  {
    if s != [] {
      var seen' := seen + {key(s[0])};
      forall i | 0 <= i < |s[1..]| ensures key(s[1..][i]) !in seen' {
        assert s[1..][i] == s[i + 1];
      }
      assert KeysDistinct(s[1..], key) by {
        forall i, j | 0 <= i < j < |s[1..]| ensures key(s[1..][i]) != key(s[1..][j]) {
          assert s[1..][i] == s[i + 1] && s[1..][j] == s[j + 1];
        }
      }
      DedupFromDistinct(s[1..], key, seen');
      assert s == [s[0]] + s[1..];
    }
  }

  /** A subsequence as long as the sequence is the sequence. */
  lemma {:induction false} SubsequenceSameLength<T>(a: seq<T>, b: seq<T>)
    requires IsSubsequence(a, b) && |a| == |b|
    ensures a == b
    decreases |b|
  {
    if a != [] {
      if a[0] == b[0] && IsSubsequence(a[1..], b[1..]) {
        SubsequenceSameLength(a[1..], b[1..]);
        assert a == [a[0]] + a[1..] && b == [b[0]] + b[1..];
      } else {
        SubsequenceShorter(a, b[1..]);
      }
    }
  }

  /** A subsequence is no longer than the sequence. */
  lemma {:induction false} SubsequenceShorter<T>(a: seq<T>, b: seq<T>)
    requires IsSubsequence(a, b)
    ensures |a| <= |b|
    decreases |b|
  {
    if a != [] {
      if a[0] == b[0] && IsSubsequence(a[1..], b[1..]) {
        SubsequenceShorter(a[1..], b[1..]);
      } else {
        SubsequenceShorter(a, b[1..]);
      }
    }
  }

  /** De-duplication as a `filter` whose callback consults and grows a `Set`
      of the keys seen so far. */
  method DedupWithSeenSet<T, K(==)>(s: seq<T>, key: T -> K) returns (r: seq<T>)
    ensures r == DedupBy(s, key)
  {
    var seen: set<K> := {};
    r := [];
    for i := 0 to |s|
      invariant r + DedupFrom(s[i..], key, seen) == DedupBy(s, key)
    {
      assert s[i..][1..] == s[i + 1..];
      if key(s[i]) !in seen {
        seen := seen + {key(s[i])};
        r := r + [s[i]];
      }
    }
  }

  /** The elements of classes `0 .. n - 1`, counted with multiplicity. */
  function ClassesUpTo<T>(s: seq<T>, cls: T -> int, n: nat): multiset<T>
  {
    if n == 0 then multiset{} else ClassesUpTo(s, cls, n - 1) + multiset(Filter(s, HasKey(cls, n - 1)))
  }

  /** A filter keeps every copy of a matching element and no copy of any
      other. */
  lemma {:induction false} FilterCount<T>(s: seq<T>, p: T -> bool, y: T)
    ensures multiset(Filter(s, p))[y] == if p(y) then multiset(s)[y] else 0
  {
    if s != [] {
      var head := if p(s[0]) then [s[0]] else [];
      FilterCount(s[1..], p, y);
      assert multiset(Filter(s, p)) == multiset(head) + multiset(Filter(s[1..], p)) by {
        FilterCons(s, p);
      }
      assert multiset(s) == multiset{s[0]} + multiset(s[1..]) by {
        assert s == [s[0]] + s[1..];
      }
    }
  }

  lemma {:induction false} ClassCount<T>(s: seq<T>, cls: T -> int, n: nat, y: T)
    ensures ClassesUpTo(s, cls, n)[y] == if 0 <= cls(y) < n then multiset(s)[y] else 0
  {
    if n > 0 {
      var prev, f := ClassesUpTo(s, cls, n - 1), multiset(Filter(s, HasKey(cls, n - 1)));
      assert ClassesUpTo(s, cls, n)[y] == prev[y] + f[y];
      ClassCount(s, cls, n - 1, y);
      FilterCount(s, HasKey(cls, n - 1), y);
      assert HasKey(cls, n - 1)(y) <==> cls(y) == n - 1;
    }
  }

  /** When every class lies in `0 .. n - 1`, the classes partition the
      sequence. */
  lemma ClassesPartition<T>(s: seq<T>, cls: T -> int, n: nat)
    requires forall i :: 0 <= i < |s| ==> 0 <= cls(s[i]) < n
    ensures ClassesUpTo(s, cls, n) == multiset(s)
  {
    var a, b := ClassesUpTo(s, cls, n), multiset(s);
    forall y ensures a[y] == b[y] {
      ClassCount(s, cls, n, y);
      if y in s {
        var i :| 0 <= i < |s| && s[i] == y;
      }
    }
    MultisetExt(a, b);
  }

  lemma MultisetExt<T>(a: multiset<T>, b: multiset<T>)
    requires forall y :: a[y] == b[y]
    ensures a == b
  {
  }

  /** Concatenation of a sequence of sequences. */
  function Flatten<T>(ss: seq<seq<T>>): seq<T>
  {
    if ss == [] then [] else ss[0] + Flatten(ss[1..])
  }

  lemma {:induction false} FlattenSnoc<T>(ss: seq<seq<T>>, last: seq<T>)
    ensures Flatten(ss + [last]) == Flatten(ss) + last
  {
    if ss == [] {
      assert [last][1..] == [];
      assert last + [] == last;
    } else {
      FlattenSnoc(ss[1..], last);
      assert (ss + [last])[1..] == ss[1..] + [last];
    }
  }
}
