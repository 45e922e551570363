/** Ordered listings: the `ORDER BY` of a query, stated as "sorted by a total
    preorder", and insertion of one row into an ordered listing. Rows that
    compare equal may come in any order, as SQL leaves them. */
module Sorting {

  ghost predicate TotalPreorder<T(!new)>(le: (T, T) -> bool) {
    (forall a, b :: le(a, b) || le(b, a))
    && (forall a, b, c :: le(a, b) && le(b, c) ==> le(a, c))
  }

  ghost predicate SortedBy<T>(s: seq<T>, le: (T, T) -> bool) {
    forall i, j :: 0 <= i < j < |s| ==> le(s[i], s[j])
  }

  /** `s` with `x` placed before the first element it does not follow. */
  function Insert<T>(s: seq<T>, x: T, le: (T, T) -> bool): (r: seq<T>)
    ensures multiset(r) == multiset(s) + multiset{x}
    ensures |r| == |s| + 1
  {
    if s == [] || le(x, s[0]) then [x] + s
    else
      assert s == [s[0]] + s[1..];
      [s[0]] + Insert(s[1..], x, le)
  }

  lemma {:induction false} InsertSorted<T(!new)>(s: seq<T>, x: T, le: (T, T) -> bool)
    requires TotalPreorder(le) && SortedBy(s, le)
    ensures SortedBy(Insert(s, x, le), le)
  {
    if s != [] && !le(x, s[0]) {
      InsertSorted(s[1..], x, le);
      var r := Insert(s, x, le);
      var t := Insert(s[1..], x, le);
      assert r == [s[0]] + t;
      forall k | 0 <= k < |t|
        ensures le(s[0], t[k])
      {
        assert t[k] in multiset(t);
        assert t[k] == x || t[k] in multiset(s[1..]);
        if t[k] != x {
          var m :| 0 <= m < |s[1..]| && s[1..][m] == t[k];
          assert s[m + 1] == t[k];
        }
      }
    }
  }

  /** `LIMIT n` after `ORDER BY`: the first `n` rows of an ordering of `all`
      are distinct rows of `all`, stay ordered, and none of the rows left out
      comes before any row kept. */
  lemma TakeLeast<T>(s: seq<T>, all: set<T>, n: int, le: (T, T) -> bool)
    requires multiset(s) == multiset(all) && SortedBy(s, le) && 0 <= n <= |s|
    ensures |s| == |all|
    ensures multiset(s[..n]) <= multiset(all)
    ensures SortedBy(s[..n], le)
    ensures forall r, c :: r in s[..n] && c in all && c !in s[..n] ==> le(r, c)
  {
    assert |multiset(s)| == |s|;
    assert s == s[..n] + s[n..];
    forall r, c | r in s[..n] && c in all && c !in s[..n]
      ensures le(r, c)
    {
      assert c in multiset(s);
      var j :| 0 <= j < |s| && s[j] == c;
      var i :| 0 <= i < n && s[..n][i] == r;
      assert j >= n;
    }
  }

  /** A sub-multiset is no larger, and one as large is the whole. */
  lemma SubMultisetSize<T>(a: multiset<T>, b: multiset<T>)
    requires a <= b
    ensures |a| <= |b|
    ensures |a| == |b| ==> a == b
  {
    assert b == a + (b - a);
    if |a| == |b| {
      assert |b - a| == 0;
      assert b - a == multiset{};
    }
  }
}
