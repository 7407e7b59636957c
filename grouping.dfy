/** Grouping by a key, the way a loop over a list fills a plain object: the
    first element with a new key adds that key, with an empty list, after the
    keys already present, and every element is pushed onto its key's list.
    `Object.entries` then reads the object back in key order. */
module Grouping {
  import opened Seqs

  /** The elements filed under `key`, in input order. */
  function Bucket<T, K(==)>(s: seq<T>, keyOf: T -> K, key: K): seq<T>
  {
    Filter(s, HasKey(keyOf, key))
  }

  /** The object's keys in insertion order: each key when it is first met. */
  function KeysOf<T, K(==)>(s: seq<T>, keyOf: T -> K): seq<K>
  {
    if s == [] then []
    else
      var keys := KeysOf(s[..|s| - 1], keyOf);
      var k := keyOf(s[|s| - 1]);
      if k in keys then keys else keys + [k]
  }

  /** The buckets of `keys`, in the order of `keys`. */
  function BucketsFor<T, K(==)>(keys: seq<K>, s: seq<T>, keyOf: T -> K): seq<seq<T>>
  {
    seq(|keys|, i requires 0 <= i < |keys| => Bucket(s, keyOf, keys[i]))
  }

  /** `Object.values` of the grouping. */
  function Buckets<T, K(==)>(s: seq<T>, keyOf: T -> K): seq<seq<T>>
  {
    BucketsFor(KeysOf(s, keyOf), s, keyOf)
  }

  /** `Object.entries` of the grouping. */
  function Groups<T, K(==)>(s: seq<T>, keyOf: T -> K): seq<(K, seq<T>)>
  {
    var keys := KeysOf(s, keyOf);
    seq(|keys|, i requires 0 <= i < |keys| => (keys[i], Bucket(s, keyOf, keys[i])))
  }

  /** `Object.entries` of an object read back in key order. */
  function Entries<T, K(==)>(keys: seq<K>, buckets: map<K, seq<T>>): seq<(K, seq<T>)>
    requires forall k :: k in keys ==> k in buckets
  {
    seq(|keys|, i requires 0 <= i < |keys| => (keys[i], buckets[keys[i]]))
  }

  /** The grouping loop: it fills the object with the keys `KeysOf` lists
      and under each key its bucket, so reading it back gives `Groups`. */
  method GroupBy<T, K(==)>(s: seq<T>, keyOf: T -> K) returns (keys: seq<K>, buckets: map<K, seq<T>>)
    ensures keys == KeysOf(s, keyOf)
    ensures buckets.Keys == set k | k in keys
    ensures forall k :: k in buckets ==> buckets[k] == Bucket(s, keyOf, k)
    ensures Entries(keys, buckets) == Groups(s, keyOf)
  {
    keys, buckets := [], map[];
    for i := 0 to |s|
      invariant keys == KeysOf(s[..i], keyOf)
      invariant buckets.Keys == set k | k in keys
      invariant forall k :: k in buckets ==> buckets[k] == Bucket(s[..i], keyOf, k)
    {
      var key := keyOf(s[i]);
      assert s[..i + 1][..i] == s[..i];
      if key !in buckets {
        UnseenKeyHasNoBucket(s[..i], keyOf, key);
        buckets := buckets[key := []];
        keys := keys + [key];
      }
      BucketsStep(s, keyOf, i, buckets);
      buckets := buckets[key := buckets[key] + [s[i]]];
    }
    assert s[..|s|] == s;
  }

  /** Pushing the next element onto its key's list turns the buckets of a
      prefix into the buckets of the prefix one longer. */
  lemma BucketsStep<T, K>(s: seq<T>, keyOf: T -> K, i: nat, buckets: map<K, seq<T>>)
    requires i < |s| && keyOf(s[i]) in buckets
    requires forall k :: k in buckets ==> buckets[k] == Bucket(s[..i], keyOf, k)
    ensures var next := buckets[keyOf(s[i]) := buckets[keyOf(s[i])] + [s[i]]];
      forall k :: k in next ==> next[k] == Bucket(s[..i + 1], keyOf, k)
  {
    assert s[..i] + [s[i]] == s[..i + 1];
    forall k | k in buckets {
      BucketSnoc(s[..i], s[i], keyOf, k);
    }
  }

  lemma BucketSnoc<T, K>(s: seq<T>, x: T, keyOf: T -> K, key: K)
    ensures Bucket(s + [x], keyOf, key) == Bucket(s, keyOf, key) + (if keyOf(x) == key then [x] else [])
  {
    FilterSnoc(s, x, HasKey(keyOf, key));
  }

  /** A listed key is the key of some element. */
  lemma {:induction false} KeyOccurs<T, K>(s: seq<T>, keyOf: T -> K, k: K) returns (i: nat)
    requires k in KeysOf(s, keyOf)
    ensures i < |s| && keyOf(s[i]) == k
  {
    var init := s[..|s| - 1];
    if k in KeysOf(init, keyOf) {
      i := KeyOccurs(init, keyOf, k);
      assert s[i] == init[i];
    } else {
      i := |s| - 1;
    }
  }

  /** The key of every element is listed. */
  lemma {:induction false} OccurringKeyListed<T, K>(s: seq<T>, keyOf: T -> K, i: nat)
    requires i < |s|
    ensures keyOf(s[i]) in KeysOf(s, keyOf)
  {
    var init := s[..|s| - 1];
    if i < |init| {
      OccurringKeyListed(init, keyOf, i);
      assert s[i] == init[i];
    }
  }

  /** No key is listed twice. */
  lemma {:induction false} KeysDistinct<T, K>(s: seq<T>, keyOf: T -> K)
    ensures forall i, j :: 0 <= i < j < |KeysOf(s, keyOf)| ==> KeysOf(s, keyOf)[i] != KeysOf(s, keyOf)[j]
  {
    if s != [] {
      KeysDistinct(s[..|s| - 1], keyOf);
    }
  }

  /** `KeysOf` lists the keys that occur, each once. */
  lemma KeysOfFacts<T, K>(s: seq<T>, keyOf: T -> K)
    ensures forall i, j :: 0 <= i < j < |KeysOf(s, keyOf)| ==> KeysOf(s, keyOf)[i] != KeysOf(s, keyOf)[j]
    ensures forall k :: k in KeysOf(s, keyOf) <==> exists i :: 0 <= i < |s| && keyOf(s[i]) == k
  {
    KeysDistinct(s, keyOf);
    forall k ensures k in KeysOf(s, keyOf) <==> exists i :: 0 <= i < |s| && keyOf(s[i]) == k {
      if k in KeysOf(s, keyOf) {
        var i := KeyOccurs(s, keyOf, k);
      }
      if exists i :: 0 <= i < |s| && keyOf(s[i]) == k {
        var i :| 0 <= i < |s| && keyOf(s[i]) == k;
        OccurringKeyListed(s, keyOf, i);
      }
    }
  }

  lemma UnseenKeyHasNoBucket<T, K>(s: seq<T>, keyOf: T -> K, key: K)
    requires key !in KeysOf(s, keyOf)
    ensures Bucket(s, keyOf, key) == []
  {
    forall x | x in s ensures !HasKey(keyOf, key)(x) {
      var i :| 0 <= i < |s| && s[i] == x;
      OccurringKeyListed(s, keyOf, i);
    }
    FilterNone(s, HasKey(keyOf, key));
  }

  /** Keys follow the order in which they first occur: every element with a
      later key comes after some element with an earlier key. */
  lemma {:induction false} KeysInFirstOccurrenceOrder<T, K>(s: seq<T>, keyOf: T -> K, a: nat, b: nat, j: nat) returns (i: nat)
    requires a < b < |KeysOf(s, keyOf)| && j < |s| && keyOf(s[j]) == KeysOf(s, keyOf)[b]
    ensures i < j && keyOf(s[i]) == KeysOf(s, keyOf)[a]
  {
    var init := s[..|s| - 1];
    var keys0 := KeysOf(init, keyOf);
    KeysDistinct(s, keyOf);
    if b < |keys0| {
      assert KeysOf(s, keyOf)[..|keys0|] == keys0;
      var j0 := j;
      if j == |init| {
        j0 := KeyOccurs(init, keyOf, keys0[b]);
      } else {
        assert init[j] == s[j];
      }
      i := KeysInFirstOccurrenceOrder(init, keyOf, a, b, j0);
      assert s[i] == init[i];
    } else {
      assert KeysOf(s, keyOf) == keys0 + [keyOf(s[|s| - 1])];
      i := KeyOccurs(init, keyOf, keys0[a]);
      assert s[i] == init[i];
      if j < |init| {
        assert init[j] == s[j];
        OccurringKeyListed(init, keyOf, j);
        assert false;
      }
    }
  }

  /** Elements with equal keys are never separated by an element with
      another key. */
  ghost predicate Contiguous<T, K>(s: seq<T>, keyOf: T -> K)
  {
    forall i, j, k :: 0 <= i < j < k < |s| && keyOf(s[i]) == keyOf(s[k]) ==> keyOf(s[j]) == keyOf(s[i])
  }

  /** On a list whose keys come in runs the last key is the last element's. */
  lemma {:induction false} LastKeyOfContiguous<T, K>(s: seq<T>, keyOf: T -> K)
    requires s != [] && Contiguous(s, keyOf)
    ensures |KeysOf(s, keyOf)| > 0 && KeysOf(s, keyOf)[|KeysOf(s, keyOf)| - 1] == keyOf(s[|s| - 1])
  {
    var init, x := s[..|s| - 1], s[|s| - 1];
    var keys0 := KeysOf(init, keyOf);
    if keyOf(x) in keys0 {
      var j := KeyOccurs(init, keyOf, keyOf(x));
      assert s[j] == init[j];
      assert keyOf(s[|s| - 2]) == keyOf(x);
      ContiguousInit(s, keyOf);
      LastKeyOfContiguous(init, keyOf);
    }
  }

  /** Appending an element grows its key's bucket, or adds a bucket for a
      new key, and leaves the other buckets alone. */
  lemma BucketsSnoc<T, K>(s: seq<T>, x: T, keyOf: T -> K)
    ensures var keys0, b0, b := KeysOf(s, keyOf), Buckets(s, keyOf), Buckets(s + [x], keyOf);
      |b| >= |b0|
      && (forall i :: 0 <= i < |b0| ==> b[i] == b0[i] + (if keys0[i] == keyOf(x) then [x] else []))
      && (keyOf(x) in keys0 ==> |b| == |b0|)
      && (keyOf(x) !in keys0 ==> b == b0 + [[x]])
  {
    var t := s + [x];
    assert t[..|t| - 1] == s;
    var keys0, b0, b := KeysOf(s, keyOf), Buckets(s, keyOf), Buckets(t, keyOf);
    forall i | 0 <= i < |b0| ensures b[i] == b0[i] + (if keys0[i] == keyOf(x) then [x] else []) {
      assert KeysOf(t, keyOf)[i] == keys0[i];
      BucketSnoc(s, x, keyOf, keys0[i]);
    }
    if keyOf(x) !in keys0 {
      BucketSnoc(s, x, keyOf, keyOf(x));
      UnseenKeyHasNoBucket(s, keyOf, keyOf(x));
      assert KeysOf(t, keyOf) == keys0 + [keyOf(x)];
      assert |b| == |b0| + 1;
      assert b[|b0|] == [x];
      forall i | 0 <= i < |b0| ensures b[i] == b0[i] {
        assert keys0[i] in keys0;
      }
      assert b == b0 + [[x]];
    }
  }

  /** Grouping a list whose keys come in runs and concatenating the buckets
      in key order gives the list back. */
  lemma {:induction false} FlattenContiguousBuckets<T, K>(s: seq<T>, keyOf: T -> K)
    requires Contiguous(s, keyOf)
    ensures Flatten(Buckets(s, keyOf)) == s
  {
    if s != [] {
      var init, x := s[..|s| - 1], s[|s| - 1];
      assert s == init + [x];
      ContiguousInit(s, keyOf);
      FlattenContiguousBuckets(init, keyOf);
      var keys0, b0 := KeysOf(init, keyOf), Buckets(init, keyOf);
      BucketsSnoc(init, x, keyOf);
      var b := Buckets(s, keyOf);
      if keyOf(x) in keys0 {
        KeysDistinct(init, keyOf);
        LastKeyOfContiguous(s, keyOf);
        assert KeysOf(s, keyOf) == keys0;
        var m := |keys0| - 1;
        forall i | 0 <= i < m ensures b[i] == b0[i] {
          assert keys0[i] != keys0[m];
        }
        FlattenGrowLast(b0, b, x);
      } else {
        FlattenSnoc(b0, [x]);
      }
    }
  }

  /** Dropping the last element keeps the keys in runs. */
  lemma ContiguousInit<T, K>(s: seq<T>, keyOf: T -> K)
    requires s != [] && Contiguous(s, keyOf)
    ensures Contiguous(s[..|s| - 1], keyOf)
  {
    var init := s[..|s| - 1];
    forall i, j, k | 0 <= i < j < k < |init| ensures init[i] == s[i] && init[j] == s[j] && init[k] == s[k] { }
  }

  /** Growing the last bucket by `x` appends `x` to the concatenation. */
  lemma FlattenGrowLast<T>(b0: seq<seq<T>>, b: seq<seq<T>>, x: T)
    requires |b0| > 0 && |b| == |b0|
    requires forall i :: 0 <= i < |b0| - 1 ==> b[i] == b0[i]
    requires b[|b0| - 1] == b0[|b0| - 1] + [x]
    ensures Flatten(b) == Flatten(b0) + [x]
  {
    var m := |b0| - 1;
    assert b == b0[..m] + [b0[m] + [x]];
    assert b0 == b0[..m] + [b0[m]];
    FlattenSnoc(b0[..m], b0[m]);
    FlattenSnoc(b0[..m], b0[m] + [x]);
  }

  /** Whatever the order of the keys, the buckets hold exactly the elements
      of the list, each once. */
  lemma {:induction false} BucketsPartition<T, K>(s: seq<T>, keyOf: T -> K)
    ensures multiset(Flatten(Buckets(s, keyOf))) == multiset(s)
  {
    if s != [] {
      var init, x := s[..|s| - 1], s[|s| - 1];
      assert s == init + [x];
      BucketsPartition(init, keyOf);
      var keys0, b0 := KeysOf(init, keyOf), Buckets(init, keyOf);
      BucketsSnoc(init, x, keyOf);
      var b := Buckets(s, keyOf);
      if keyOf(x) in keys0 {
        KeysDistinct(init, keyOf);
        var m :| 0 <= m < |keys0| && keys0[m] == keyOf(x);
        forall i | 0 <= i < |b0| && i != m ensures b[i] == b0[i] {
          assert keys0[i] != keys0[m];
        }
        assert b == b0[m := b0[m] + [x]];
        FlattenGrowBucket(b0, m, x);
      } else {
        FlattenSnoc(b0, [x]);
      }
    }
  }

  lemma {:induction false} FlattenGrowBucket<T>(ss: seq<seq<T>>, m: nat, x: T)
    requires m < |ss|
    ensures multiset(Flatten(ss[m := ss[m] + [x]])) == multiset(Flatten(ss)) + multiset{x}
  {
    var t := ss[m := ss[m] + [x]];
    assert Flatten(ss) == ss[0] + Flatten(ss[1..]);
    if m == 0 {
      assert t[1..] == ss[1..];
      assert Flatten(t) == (ss[0] + [x]) + Flatten(ss[1..]);
      MultisetInsert(ss[0], Flatten(ss[1..]), x);
    } else {
      var r := ss[1..][m - 1 := ss[1..][m - 1] + [x]];
      FlattenGrowBucket(ss[1..], m - 1, x);
      assert t[1..] == r;
      assert Flatten(t) == ss[0] + Flatten(r);
      MultisetPrepend(ss[0], Flatten(r), Flatten(ss[1..]), x);
    }
  }

  lemma MultisetInsert<T>(a: seq<T>, b: seq<T>, x: T)
    ensures multiset((a + [x]) + b) == multiset(a + b) + multiset{x}
  {
  }

  lemma MultisetPrepend<T>(h: seq<T>, a: seq<T>, b: seq<T>, x: T)
    requires multiset(a) == multiset(b) + multiset{x}
    ensures multiset(h + a) == multiset(h + b) + multiset{x}
  {
  }
}
