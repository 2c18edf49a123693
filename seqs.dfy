/** `Array.prototype.filter` and the facts about it the pages and handlers rely on. */
module Seqs {

  /** `r` is `s` with some elements left out, the rest in their original order. */
  ghost predicate IsSubsequence<T>(r: seq<T>, s: seq<T>)
    decreases |s|
  {
    if r == [] then true
    else if s == [] then false
    else (r[0] == s[0] && IsSubsequence(r[1..], s[1..])) || IsSubsequence(r, s[1..])
  }

  /** Every sequence is a subsequence of itself. */
  lemma {:induction false} SubsequenceRefl<T>(s: seq<T>)
    ensures IsSubsequence(s, s)
  {
    if s != [] {
      SubsequenceRefl(s[1..]);
    }
  }

  /** `s.filter(p)`. */
  function Filter<T>(s: seq<T>, p: T -> bool): (r: seq<T>)
    ensures |r| <= |s|
    ensures forall k :: 0 <= k < |r| ==> r[k] in s && p(r[k])
    ensures forall k :: 0 <= k < |s| && p(s[k]) ==> s[k] in r
    ensures IsSubsequence(r, s)
  {
    if s == [] then []
    else
      var rest := Filter(s[1..], p);
      if p(s[0]) then [s[0]] + rest else rest
  }

  /** `s.map(f)`. */
  function Map<T, U>(s: seq<T>, f: T -> U): (r: seq<U>)
    ensures |r| == |s|
    ensures forall k :: 0 <= k < |r| ==> r[k] == f(s[k])
  {
    seq(|s|, k requires 0 <= k < |s| => f(s[k]))
  }

  lemma {:induction false} FilterAppend<T>(a: seq<T>, b: seq<T>, p: T -> bool)
    ensures Filter(a + b, p) == Filter(a, p) + Filter(b, p)
  {
    if a != [] {
      assert (a + b)[1..] == a[1..] + b;
      FilterAppend(a[1..], b, p);
    } else {
      assert a + b == b;
    }
  }

  /** When every element satisfies exactly one of `p` and `q`, the two filters split the list. */
  lemma {:induction false} FilterPartition<T>(s: seq<T>, p: T -> bool, q: T -> bool)
    requires forall k :: 0 <= k < |s| ==> p(s[k]) != q(s[k])
    ensures |Filter(s, p)| + |Filter(s, q)| == |s|
  {
    if s != [] {
      FilterPartition(s[1..], p, q);
    }
  }

  /** Filtering by `p` and then by `q` is filtering by `pq`, when `pq` holds exactly where both do. */
  lemma {:induction false} FilterFilter<T>(s: seq<T>, p: T -> bool, q: T -> bool, pq: T -> bool)
    requires forall k :: 0 <= k < |s| ==> pq(s[k]) == (p(s[k]) && q(s[k]))
    ensures Filter(Filter(s, p), q) == Filter(s, pq)
  {
    if s != [] {
      FilterFilter(s[1..], p, q, pq);
    }
  }

  /** A filter that keeps everything is the identity. */
  lemma {:induction false} FilterAll<T>(s: seq<T>, p: T -> bool)
    requires forall k :: 0 <= k < |s| ==> p(s[k])
    ensures Filter(s, p) == s
  {
    if s != [] {
      FilterAll(s[1..], p);
    }
  }

  /** No two elements share a key (a unique column of a table). */
  ghost predicate DistinctKeys<T, K>(s: seq<T>, key: T -> K) {
    forall i, j :: 0 <= i < j < |s| ==> key(s[i]) != key(s[j])
  }

  /** The set of keys of the elements. */
  ghost function KeySet<T, K>(s: seq<T>, key: T -> K): set<K> {
    set k | 0 <= k < |s| :: key(s[k])
  }

  /** With distinct keys there are as many keys as elements. */
  lemma {:induction false} DistinctKeysCard<T, K>(s: seq<T>, key: T -> K)
    requires DistinctKeys(s, key)
    ensures |KeySet(s, key)| == |s|
  {
    if s != [] {
      var n := |s| - 1;
      var front := s[..n];
      assert DistinctKeys(front, key);
      DistinctKeysCard(front, key);
      assert KeySet(s, key) == KeySet(front, key) + {key(s[n])} by {
        forall y | y in KeySet(s, key) ensures y in KeySet(front, key) + {key(s[n])} {
          var k :| 0 <= k < |s| && key(s[k]) == y;
          if k < n { assert front[k] == s[k]; }
        }
        forall y | y in KeySet(front, key) ensures y in KeySet(s, key) {
          var k :| 0 <= k < |front| && key(front[k]) == y;
          assert s[k] == front[k];
        }
      }
      forall k | 0 <= k < |front| ensures key(front[k]) != key(s[n]) {
        assert s[k] == front[k];
      }
    }
  }

  /** Filtering keeps keys distinct. */
  lemma {:induction false} FilterDistinct<T, K>(s: seq<T>, p: T -> bool, key: T -> K)
    requires DistinctKeys(s, key)
    ensures DistinctKeys(Filter(s, p), key)
  {
    if s != [] {
      assert DistinctKeys(s[1..], key);
      FilterDistinct(s[1..], p, key);
      var rest := Filter(s[1..], p);
      if p(s[0]) {
        forall j | 0 < j < |[s[0]] + rest| ensures key(([s[0]] + rest)[0]) != key(([s[0]] + rest)[j]) {
          assert rest[j - 1] in s[1..];
          var k :| 0 <= k < |s[1..]| && s[1..][k] == rest[j - 1];
          assert s[k + 1] == rest[j - 1];
        }
      }
    }
  }

  /** A subset is no larger than its superset. */
  lemma {:induction false} SubsetCard<T>(a: set<T>, b: set<T>)
    requires a <= b
    ensures |a| <= |b|
    decreases |a|
  {
    if a != {} {
      var x :| x in a;
      SubsetCard(a - {x}, b - {x});
    }
  }
}
