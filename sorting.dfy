/**
 * A stable insertion sort, descending by an integer key.  Every "newest first"
 * ordering in the system (`orderBy: { created_at: 'desc' }` on the server,
 * `Array.prototype.sort` with `b - a` on the client) is modelled by it: ties
 * keep their original relative order.
 */
module Sorting {

  ghost predicate SortedDesc<T>(s: seq<T>, key: T -> int) {
    forall i, j :: 0 <= i < j < |s| ==> key(s[i]) >= key(s[j])
  }

  /** Inserts `x` in front of the first element whose key is not greater than its own. */
  function Insert<T>(x: T, s: seq<T>, key: T -> int): (r: seq<T>)
    requires SortedDesc(s, key)
    ensures SortedDesc(r, key)
    ensures multiset(r) == multiset(s) + multiset{x}
    ensures |r| == |s| + 1
    ensures r[0] == x || (s != [] && r[0] == s[0])
  {
    if s == [] || key(x) >= key(s[0]) then
      [x] + s
    else
      var rest := Insert(x, s[1..], key);
      assert s == [s[0]] + s[1..];
      assert key(s[0]) >= key(rest[0]);
      [s[0]] + rest
  }

  /** The input, reordered so that keys never increase. */
  function SortDesc<T>(s: seq<T>, key: T -> int): (r: seq<T>)
    ensures SortedDesc(r, key)
    ensures multiset(r) == multiset(s)
    ensures |r| == |s|
  {
    if s == [] then []
    else
      assert s == [s[0]] + s[1..];
      Insert(s[0], SortDesc(s[1..], key), key)
  }

  /** Sorting an already sorted sequence leaves it as it is. */
  lemma {:induction false} SortDescOfSorted<T>(s: seq<T>, key: T -> int)
    requires SortedDesc(s, key)
    ensures SortDesc(s, key) == s
  {
    if s != [] {
      SortDescOfSorted(s[1..], key);
      assert s == [s[0]] + s[1..];
    }
  }

  /** Prisma's `skip`/`take`: drop `skip` rows, then keep at most `take`. */
  function Window<T>(s: seq<T>, skip: nat, take: nat): (r: seq<T>)
    ensures |r| <= take
    ensures skip >= |s| ==> r == []
    ensures forall k :: 0 <= k < |r| ==> skip + k < |s| && r[k] == s[skip + k]
    ensures skip < |s| ==> |r| == if |s| - skip < take then |s| - skip else take
  {
    if skip >= |s| then []
    else if |s| - skip <= take then s[skip..]
    else s[skip..skip + take]
  }

  /** A window holds no element more often than the whole sequence does. */
  lemma WindowMultiset<T>(s: seq<T>, skip: nat, take: nat)
    ensures multiset(Window(s, skip, take)) <= multiset(s)
  {
    var r := Window(s, skip, take);
    if r != [] {
      assert s == s[..skip] + r + s[skip + |r|..];
      assert multiset(s) == multiset(s[..skip]) + multiset(r) + multiset(s[skip + |r|..]);
    }
  }
}
