/**
 * Bucketing a sequence by a partial key, as both stages of duplicate finding do:
 * SeekBySize keys a path by its size, SeekByChecksum by its digest. A member whose
 * key is None belongs to no bucket (too small, or its hash failed).
 */
module Grouping {
  import opened Wrappers

  /** The members of `s` whose key is `Some(k)`, in the order they occur in `s`. */
  ghost function Bucket<T, K>(s: seq<T>, key: T -> Option<K>, k: K): seq<T>
  {
    if s == [] then []
    else Bucket(s[..|s| - 1], key, k) + (if key(s[|s| - 1]) == Some(k) then [s[|s| - 1]] else [])
  }

  /** The keys that some member of `s` has. */
  ghost function KeySet<T, K>(s: seq<T>, key: T -> Option<K>): set<K>
  {
    if s == [] then {}
    else KeySet(s[..|s| - 1], key) + (if key(s[|s| - 1]).Some? then {key(s[|s| - 1]).value} else {})
  }

  /** The map a collector holds after appending each keyed member of `s` to its key's bucket. */
  ghost function Grouped<T, K>(s: seq<T>, key: T -> Option<K>): map<K, seq<T>>
  {
    map k | k in KeySet(s, key) :: Bucket(s, key, k)
  }

  /** The buckets of `s` that hold at least two members: the candidates for duplication. */
  ghost function Groups<T, K>(s: seq<T>, key: T -> Option<K>): map<K, seq<T>>
  {
    map k | k in KeySet(s, key) && |Bucket(s, key, k)| >= 2 :: Bucket(s, key, k)
  }

  /** Positions `idx` pick `a` out of `b` in increasing order: `a` is a subsequence of `b`. */
  ghost predicate PicksOut<T>(idx: seq<nat>, a: seq<T>, b: seq<T>)
  {
    && |idx| == |a|
    && (forall j :: 0 <= j < |idx| ==> idx[j] < |b| && a[j] == b[idx[j]])
    && (forall i, j :: 0 <= i < j < |idx| ==> idx[i] < idx[j])
  }

  /** Two multisets that agree on every multiplicity are equal. */
  lemma MultisetEquality<T>(a: multiset<T>, b: multiset<T>)
    requires forall x :: a[x] == b[x]
    ensures a == b
  {
  }

  /** Two sets with the same members are equal. */
  lemma SetEquality<T>(a: set<T>, b: set<T>)
    requires forall x :: x in a <==> x in b
    ensures a == b
  {
  }

  /** A nonempty set has an element (a witness for picking the next map key). */
  lemma Pick<T>(s: set<T>) returns (x: T)
    requires s != {}
    ensures x in s
  {
    x :| x in s;
  }

  /** Two maps with the same keys that agree on every key are equal. */
  lemma MapEquality<K, V>(a: map<K, V>, b: map<K, V>)
    requires forall k :: k in a <==> k in b
    requires forall k :: k in a ==> a[k] == b[k]
    ensures a == b
  {
  }

  /** A member is in a bucket exactly when it is in `s` with that key. */
  lemma {:induction false} BucketMembers<T, K>(s: seq<T>, key: T -> Option<K>, k: K, x: T)
    ensures x in Bucket(s, key, k) <==> x in s && key(x) == Some(k)
  {
    if s != [] {
      var init := s[..|s| - 1];
      BucketMembers(init, key, k, x);
      assert s == init + [s[|s| - 1]];
    }
  }

  /** A bucket keeps the relative order of `s`. */
  lemma {:induction false} BucketKeepsOrder<T, K>(s: seq<T>, key: T -> Option<K>, k: K)
    returns (idx: seq<nat>)
    ensures PicksOut(idx, Bucket(s, key, k), s)
  {
    if s == [] {
      idx := [];
    } else {
      var n := |s| - 1;
      var init := s[..n];
      var before := BucketKeepsOrder(init, key, k);
      if key(s[n]) == Some(k) {
        idx := before + [n];
      } else {
        idx := before;
      }
    }
  }

  /** Putting one member in front of `s` puts it in front of its key's bucket only. */
  lemma {:induction false} BucketCons<T, K>(x: T, s: seq<T>, key: T -> Option<K>, k: K)
    ensures Bucket([x] + s, key, k) == (if key(x) == Some(k) then [x] else []) + Bucket(s, key, k)
  {
    if s != [] {
      var n := |s| - 1;
      BucketCons(x, s[..n], key, k);
      assert ([x] + s)[..|[x] + s| - 1] == [x] + s[..n];
    }
  }

  /** How many copies of `x` a bucket holds: all of those in `s`, if `x` has that key. */
  lemma {:induction false} BucketCount<T, K>(s: seq<T>, key: T -> Option<K>, k: K, x: T)
    ensures multiset(Bucket(s, key, k))[x] == if key(x) == Some(k) then multiset(s)[x] else 0
  {
    if s != [] {
      var init := s[..|s| - 1];
      BucketCount(init, key, k, x);
      assert s == init + [s[|s| - 1]];
    }
  }

  /** Reordering `s` reorders each bucket and changes nothing else about it. */
  lemma BucketPermutation<T, K>(s1: seq<T>, s2: seq<T>, key: T -> Option<K>, k: K)
    requires multiset(s1) == multiset(s2)
    ensures multiset(Bucket(s1, key, k)) == multiset(Bucket(s2, key, k))
  {
    var b1, b2 := multiset(Bucket(s1, key, k)), multiset(Bucket(s2, key, k));
    forall x
      ensures b1[x] == b2[x]
    {
      BucketCount(s1, key, k, x);
      BucketCount(s2, key, k, x);
    }
    MultisetEquality(b1, b2);
  }

  /** A key is among the keys exactly when its bucket is not empty. */
  lemma {:induction false} BucketEmptyIffNoKey<T, K>(s: seq<T>, key: T -> Option<K>, k: K)
    ensures k in KeySet(s, key) <==> Bucket(s, key, k) != []
  {
    if s != [] {
      BucketEmptyIffNoKey(s[..|s| - 1], key, k);
    }
  }

  /** Two distinct positions with the same key make a bucket of at least two. */
  lemma {:induction false} BucketAtLeastTwo<T, K>(s: seq<T>, key: T -> Option<K>, k: K, i: nat, j: nat)
    requires i < j < |s| && key(s[i]) == Some(k) && key(s[j]) == Some(k)
    ensures |Bucket(s, key, k)| >= 2
  {
    var n := |s| - 1;
    var init := s[..n];
    if j == n {
      assert s[i] == init[i];
      BucketMembers(init, key, k, s[i]);
    } else {
      assert s[i] == init[i] && s[j] == init[j];
      BucketAtLeastTwo(init, key, k, i, j);
    }
  }

  /** Appending one member extends only the bucket of that member's key. */
  lemma BucketSnoc<T, K>(s: seq<T>, key: T -> Option<K>, x: T, k: K)
    ensures Bucket(s + [x], key, k) == Bucket(s, key, k) + (if key(x) == Some(k) then [x] else [])
  {
    var s' := s + [x];
    assert s'[..|s'| - 1] == s;
  }

  /** Appending one member changes the collector's map only at that member's key. */
  lemma GroupedSnoc<T, K>(s: seq<T>, key: T -> Option<K>, x: T)
    ensures key(x).None? ==> Grouped(s + [x], key) == Grouped(s, key)
    ensures key(x).Some? ==>
      var g := Grouped(s, key);
      var k := key(x).value;
      Grouped(s + [x], key) == g[k := (if k in g then g[k] else []) + [x]]
  {
    var s' := s + [x];
    assert s'[..|s'| - 1] == s;
    var g, g' := Grouped(s, key), Grouped(s', key);
    if key(x).None? {
      forall k | k in g'
        ensures g'[k] == g[k]
      {
        BucketSnoc(s, key, x, k);
      }
      MapEquality(g', g);
    } else {
      var k := key(x).value;
      var h := g[k := (if k in g then g[k] else []) + [x]];
      BucketEmptyIffNoKey(s, key, k);
      BucketSnoc(s, key, x, k);
      forall k' | k' in g' && k' != k
        ensures g'[k'] == h[k']
      {
        BucketSnoc(s, key, x, k');
      }
      MapEquality(g', h);
    }
  }

  /** A key has a group exactly when its bucket holds at least two members. */
  lemma GroupsKeys<T, K>(s: seq<T>, key: T -> Option<K>, k: K)
    ensures k in Groups(s, key) <==> |Bucket(s, key, k)| >= 2
    ensures k in Groups(s, key) ==> Groups(s, key)[k] == Bucket(s, key, k)
  {
    BucketEmptyIffNoKey(s, key, k);
  }

  /** Each group holds at least two members, and exactly the members of `s` with its key. */
  lemma GroupsSound<T, K>(s: seq<T>, key: T -> Option<K>, k: K, x: T)
    requires k in Groups(s, key)
    ensures |Groups(s, key)[k]| >= 2
    ensures x in Groups(s, key)[k] <==> x in s && key(x) == Some(k)
  {
    GroupsKeys(s, key, k);
    BucketMembers(s, key, k, x);
  }

  /** Any two positions sharing a key put that key among the groups, with both members in it. */
  lemma GroupsComplete<T, K>(s: seq<T>, key: T -> Option<K>, k: K, i: nat, j: nat)
    requires i < j < |s| && key(s[i]) == Some(k) && key(s[j]) == Some(k)
    ensures k in Groups(s, key)
    ensures s[i] in Groups(s, key)[k] && s[j] in Groups(s, key)[k]
  {
    BucketAtLeastTwo(s, key, k, i, j);
    GroupsKeys(s, key, k);
    BucketMembers(s, key, k, s[i]);
    BucketMembers(s, key, k, s[j]);
  }

  /** The groups of two orderings of the same members have the same keys and the same members. */
  lemma GroupsPermutation<T, K>(s1: seq<T>, s2: seq<T>, key: T -> Option<K>)
    requires multiset(s1) == multiset(s2)
    ensures Groups(s1, key).Keys == Groups(s2, key).Keys
    ensures forall k :: k in Groups(s1, key) ==>
      multiset(Groups(s1, key)[k]) == multiset(Groups(s2, key)[k])
  {
    var g1, g2 := Groups(s1, key), Groups(s2, key);
    forall k
      ensures k in g1 <==> k in g2
    {
      BucketPermutation(s1, s2, key, k);
      assert |multiset(Bucket(s1, key, k))| == |Bucket(s1, key, k)|;
      assert |multiset(Bucket(s2, key, k))| == |Bucket(s2, key, k)|;
      GroupsKeys(s1, key, k);
      GroupsKeys(s2, key, k);
    }
    SetEquality(g1.Keys, g2.Keys);
    forall k | k in g1
      ensures multiset(g1[k]) == multiset(g2[k])
    {
      BucketPermutation(s1, s2, key, k);
      GroupsKeys(s1, key, k);
      GroupsKeys(s2, key, k);
    }
  }

  /** Before pruning, a member of `s` lies in a bucket exactly when it has a key, and then only in that key's. */
  lemma GroupedPlacesOnce<T, K>(s: seq<T>, key: T -> Option<K>, x: T, k: K)
    requires x in s
    ensures key(x).Some? ==> key(x).value in Grouped(s, key) && x in Grouped(s, key)[key(x).value]
    ensures k in Grouped(s, key) && x in Grouped(s, key)[k] ==> key(x) == Some(k)
  {
    BucketMembers(s, key, k, x);
    if key(x).Some? {
      BucketMembers(s, key, key(x).value, x);
      BucketEmptyIffNoKey(s, key, key(x).value);
    }
  }

  /** Pruning the collector's map leaves exactly the groups. */
  lemma PruneGrouped<T, K>(s: seq<T>, key: T -> Option<K>)
    ensures (map k | k in Grouped(s, key) && |Grouped(s, key)[k]| != 1 :: Grouped(s, key)[k]) == Groups(s, key)
  {
    forall k | k in KeySet(s, key)
      ensures |Bucket(s, key, k)| != 1 <==> |Bucket(s, key, k)| >= 2
    {
      BucketEmptyIffNoKey(s, key, k);
    }
  }

  /**
   * The prune loop of both stages: drop every bucket of exactly one member. The keys are
   * visited in an arbitrary order, as Go's map iteration visits them.
   */
  method PruneSingletons<K(==), V>(m: map<K, seq<V>>) returns (r: map<K, seq<V>>)
    ensures r == map k | k in m && |m[k]| != 1 :: m[k]
  {
    r := m;
    var pending := m.Keys;
    while pending != {}
      invariant pending <= m.Keys
      invariant forall k :: k in r <==> k in m && (k in pending || |m[k]| != 1)
      invariant forall k :: k in r ==> r[k] == m[k]
      decreases pending
    {
      var k :| k in pending;
      if |r[k]| == 1 {
        r := r - {k};
      }
      pending := pending - {k};
    }
  }
}
