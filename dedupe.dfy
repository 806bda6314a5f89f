/** Keep-first deduplication by a key, the pattern both the news merger and
    the universe pager follow: a `seen` set of keys and an output list that
    only grows at its end. */
module Dedupe {

  /** The keys of the elements of `s`. */
  ghost function KeySet<T, K>(s: seq<T>, key: T -> K): set<K> {
    set i | 0 <= i < |s| :: key(s[i])
  }

  /** No two elements of `s` share a key. */
  ghost predicate DistinctKeys<T, K>(s: seq<T>, key: T -> K) {
    forall i, j :: 0 <= i < j < |s| ==> key(s[i]) != key(s[j])
  }

  /** `s[i]` is the first element of `s` carrying its key. */
  ghost predicate FirstOccurrence<T, K>(s: seq<T>, i: int, key: T -> K)
    requires 0 <= i < |s|
  {
    forall j :: 0 <= j < i ==> key(s[j]) != key(s[i])
  }

  /** `r` is `s` with some elements removed and the rest in their order. */
  ghost predicate IsSubsequence<T>(r: seq<T>, s: seq<T>)
    decreases |s|
  {
    r == [] ||
    (s != [] &&
     ((r[|r| - 1] == s[|s| - 1] && IsSubsequence(r[..|r| - 1], s[..|s| - 1])) ||
      IsSubsequence(r, s[..|s| - 1])))
  }

  /** The elements of `s` in order, each dropped when an earlier one had its key. */
  function DedupeBy<T, K(==)>(s: seq<T>, key: T -> K): (r: seq<T>)
    ensures |r| <= |s|
    decreases |s|
  {
    if s == [] then []
    else
      var p := DedupeBy(s[..|s| - 1], key);
      if exists i :: 0 <= i < |p| && key(p[i]) == key(s[|s| - 1]) then p else p + [s[|s| - 1]]
  }

  lemma KeySetAppend<T, K>(s: seq<T>, x: T, key: T -> K)
    ensures KeySet(s + [x], key) == KeySet(s, key) + {key(x)}
  {
    var t := s + [x];
    forall k | k in KeySet(t, key) ensures k in KeySet(s, key) + {key(x)} {
      var i :| 0 <= i < |t| && key(t[i]) == k;
      if i < |s| { assert t[i] == s[i]; }
    }
    forall k | k in KeySet(s, key) + {key(x)} ensures k in KeySet(t, key) {
      if k == key(x) {
        assert key(t[|s|]) == k;
      } else {
        var i :| 0 <= i < |s| && key(s[i]) == k;
        assert key(t[i]) == k;
      }
    }
  }

  /** Growing a prefix of `arr` by one element. */
  lemma PrefixStep<T>(acc: seq<T>, arr: seq<T>, j: int)
    requires 0 <= j < |arr|
    ensures acc + arr[..j + 1] == (acc + arr[..j]) + [arr[j]]
  {
  }

  /** The prefix of length `i + 1`. */
  lemma TakeStep<T>(s: seq<T>, i: nat)
    requires i < |s|
    ensures s[..i + 1] == s[..i] + [s[i]]
  {
  }

  lemma WholePrefix<T>(acc: seq<T>, arr: seq<T>)
    ensures acc + arr[..|arr|] == acc + arr && acc + arr[..0] == acc
  {
    assert arr[..|arr|] == arr;
  }

  /** Deduplicating one more element: it is appended exactly when its key is new. */
  lemma DedupeAppend<T, K>(s: seq<T>, x: T, key: T -> K)
    ensures DedupeBy(s + [x], key) ==
      if key(x) in KeySet(DedupeBy(s, key), key) then DedupeBy(s, key) else DedupeBy(s, key) + [x]
  {
    var p := DedupeBy(s, key);
    assert (s + [x])[..|s|] == s;
    if key(x) in KeySet(p, key) {
      var i :| 0 <= i < |p| && key(p[i]) == key(x);
    }
  }

  /** Every key of the input survives, and no other key appears. */
  lemma {:induction false} DedupeKeys<T, K>(s: seq<T>, key: T -> K)
    ensures KeySet(DedupeBy(s, key), key) == KeySet(s, key)
    decreases |s|
  {
    if s != [] {
      var init, x := s[..|s| - 1], s[|s| - 1];
      var p := DedupeBy(init, key);
      DedupeKeys(init, key);
      assert s == init + [x];
      KeySetAppend(init, x, key);
      if exists i :: 0 <= i < |p| && key(p[i]) == key(x) {
        assert key(x) in KeySet(p, key);
      } else {
        KeySetAppend(p, x, key);
      }
    }
  }

  /** No two output elements share a key. */
  lemma {:induction false} DedupeDistinct<T, K>(s: seq<T>, key: T -> K)
    ensures DistinctKeys(DedupeBy(s, key), key)
    decreases |s|
  {
    if s != [] {
      DedupeDistinct(s[..|s| - 1], key);
    }
  }

  /** The output keeps the input's order and invents nothing. */
  lemma {:induction false} DedupeSubsequence<T, K>(s: seq<T>, key: T -> K)
    ensures IsSubsequence(DedupeBy(s, key), s)
    decreases |s|
  {
    if s != [] {
      var init, x := s[..|s| - 1], s[|s| - 1];
      var p := DedupeBy(init, key);
      DedupeSubsequence(init, key);
      if !exists i :: 0 <= i < |p| && key(p[i]) == key(x) {
        assert (p + [x])[..|p|] == p;
      }
    }
  }

  /** The first element of the input with each key is the one that is kept. */
  lemma {:induction false} DedupeKeepsFirst<T, K>(s: seq<T>, key: T -> K, i: int)
    requires 0 <= i < |s| && FirstOccurrence(s, i, key)
    ensures s[i] in DedupeBy(s, key)
    decreases |s|
  {
    var init, x := s[..|s| - 1], s[|s| - 1];
    var p := DedupeBy(init, key);
    if i < |s| - 1 {
      DedupeKeepsFirst(init, key, i);
    } else {
      DedupeKeys(init, key);
      forall m | 0 <= m < |init| ensures key(init[m]) != key(x) {
        assert init[m] == s[m];
      }
      forall j | 0 <= j < |p| ensures key(p[j]) != key(x) {
        assert key(p[j]) in KeySet(init, key);
      }
    }
  }

  /** Deduplicating a list whose keys are already distinct changes nothing. */
  lemma {:induction false} DedupeOfDistinct<T, K>(s: seq<T>, key: T -> K)
    requires DistinctKeys(s, key)
    ensures DedupeBy(s, key) == s
    decreases |s|
  {
    if s != [] {
      var init, x := s[..|s| - 1], s[|s| - 1];
      assert DistinctKeys(init, key);
      DedupeOfDistinct(init, key);
      forall i | 0 <= i < |init| ensures key(init[i]) != key(x) {
        assert init[i] == s[i];
      }
      assert s == init + [x];
    }
  }

  /** Deduplication is idempotent. */
  lemma DedupeIdempotent<T, K>(s: seq<T>, key: T -> K)
    ensures DedupeBy(DedupeBy(s, key), key) == DedupeBy(s, key)
  {
    DedupeDistinct(s, key);
    DedupeOfDistinct(DedupeBy(s, key), key);
  }

  /** A subsequence stays one when the sequence grows at the end. */
  lemma {:induction false} SubsequenceExtend<T>(r: seq<T>, s: seq<T>, t: seq<T>)
    requires IsSubsequence(r, s)
    ensures IsSubsequence(r, s + t)
    decreases |t|
  {
    if t == [] {
      assert s + t == s;
    } else {
      SubsequenceExtend(r, s, t[..|t| - 1]);
      assert (s + t)[..|s + t| - 1] == s + t[..|t| - 1];
    }
  }

  /** Subsequences of two sequences concatenate to a subsequence of their
      concatenation. */
  lemma {:induction false} SubsequenceConcat<T>(r1: seq<T>, s1: seq<T>, r2: seq<T>, s2: seq<T>)
    requires IsSubsequence(r1, s1) && IsSubsequence(r2, s2)
    ensures IsSubsequence(r1 + r2, s1 + s2)
    decreases |s2|
  {
    if r2 == [] {
      assert r1 + r2 == r1;
      SubsequenceExtend(r1, s1, s2);
    } else {
      var init := s2[..|s2| - 1];
      assert (s1 + s2)[..|s1 + s2| - 1] == s1 + init;
      if r2[|r2| - 1] == s2[|s2| - 1] && IsSubsequence(r2[..|r2| - 1], init) {
        SubsequenceConcat(r1, s1, r2[..|r2| - 1], init);
        assert (r1 + r2)[..|r1 + r2| - 1] == r1 + r2[..|r2| - 1];
      } else {
        SubsequenceConcat(r1, s1, r2, init);
      }
    }
  }

  /** Everything in a subsequence is in the sequence. */
  lemma {:induction false} SubsequenceMembers<T>(r: seq<T>, s: seq<T>, x: T)
    requires IsSubsequence(r, s) && x in r
    ensures x in s
    decreases |s|
  {
    var init := s[..|s| - 1];
    if r[|r| - 1] == s[|s| - 1] && IsSubsequence(r[..|r| - 1], init) {
      if x != r[|r| - 1] {
        assert r == r[..|r| - 1] + [r[|r| - 1]];
        SubsequenceMembers(r[..|r| - 1], init, x);
      }
    } else {
      SubsequenceMembers(r, init, x);
    }
  }

  /** Under distinct keys no element occurs twice. */
  lemma {:induction false} DistinctOnce<T, K>(s: seq<T>, key: T -> K, x: T)
    requires DistinctKeys(s, key)
    ensures multiset(s)[x] <= 1
    decreases |s|
  {
    if s != [] {
      var init, y := s[..|s| - 1], s[|s| - 1];
      assert s == init + [y];
      assert DistinctKeys(init, key);
      DistinctOnce(init, key, x);
      if x == y && x in multiset(init) {
        assert false;
      }
    }
  }

  /** An element at two positions occurs twice. */
  lemma TwiceCounted<T>(t: seq<T>, i: int, j: int)
    requires 0 <= i < j < |t| && t[i] == t[j]
    ensures multiset(t)[t[i]] >= 2
  {
    assert t == t[..j] + [t[j]] + t[j + 1..];
    assert t[..j][i] == t[i];
  }

  /** Reordering keeps the keys distinct. */
  lemma DistinctKeysPermutation<T, K>(s: seq<T>, t: seq<T>, key: T -> K)
    requires multiset(s) == multiset(t) && DistinctKeys(s, key)
    ensures DistinctKeys(t, key)
  {
    forall i, j | 0 <= i < j < |t| ensures key(t[i]) != key(t[j]) {
      assert t[i] in multiset(s) && t[j] in multiset(s);
      var a :| 0 <= a < |s| && s[a] == t[i];
      var b :| 0 <= b < |s| && s[b] == t[j];
      if a == b {
        TwiceCounted(t, i, j);
        DistinctOnce(s, key, t[i]);
        assert false;
      }
    }
  }

  /** Reordering keeps the key set. */
  lemma KeySetPermutation<T, K>(s: seq<T>, t: seq<T>, key: T -> K)
    requires multiset(s) == multiset(t)
    ensures KeySet(s, key) == KeySet(t, key)
  {
    forall k | k in KeySet(t, key) ensures k in KeySet(s, key) {
      var i :| 0 <= i < |t| && key(t[i]) == k;
      assert t[i] in multiset(s);
      var a :| 0 <= a < |s| && s[a] == t[i];
    }
    forall k | k in KeySet(s, key) ensures k in KeySet(t, key) {
      var i :| 0 <= i < |s| && key(s[i]) == k;
      assert s[i] in multiset(t);
      var a :| 0 <= a < |t| && t[a] == s[i];
    }
  }
}
