/**
 * The `ORDER BY` clauses of the read queries. Each ordering is a key of up to
 * three integer columns compared lexicographically; `IS NULL` on the first
 * column is the flag 0 (a value) / 1 (null), so nulls sort last.
 *
 * The database may return rows with equal keys in any order, so a sorted
 * result is specified only up to that: it is a permutation of the input and
 * it is ordered by the key.
 */
module Sorting {

  datatype SortKey = SortKey(nullFlag: int, primary: int, secondary: int)

  predicate KeyLe(a: SortKey, b: SortKey)
  {
    a.nullFlag < b.nullFlag
    || (a.nullFlag == b.nullFlag && a.primary < b.primary)
    || (a.nullFlag == b.nullFlag && a.primary == b.primary && a.secondary <= b.secondary)
  }

  predicate SortedBy<T>(s: seq<T>, key: T -> SortKey)
  {
    forall i, j :: 0 <= i < j < |s| ==> KeyLe(key(s[i]), key(s[j]))
  }

  /** Inserts `x` after every element that orders before it. */
  function InsertBy<T>(x: T, s: seq<T>, key: T -> SortKey): (r: seq<T>)
    requires SortedBy(s, key)
    ensures SortedBy(r, key)
    ensures multiset(r) == multiset(s) + multiset{x}
  {
    if s == [] then [x]
    else if KeyLe(key(x), key(s[0])) then [x] + s
    else
      var rest := InsertBy(x, s[1..], key);
      assert s == [s[0]] + s[1..];
      HeadStaysFirst(x, s, key, rest);
      [s[0]] + rest
  }

  /** The head of a sorted sequence that `x` does not precede orders before
      every element of the tail with `x` added, so it stays in front. */
  lemma HeadStaysFirst<T>(x: T, s: seq<T>, key: T -> SortKey, rest: seq<T>)
    requires s != [] && SortedBy(s, key) && !KeyLe(key(x), key(s[0]))
    requires SortedBy(rest, key) && multiset(rest) == multiset(s[1..]) + multiset{x}
    ensures SortedBy([s[0]] + rest, key)
  {
    var t := [s[0]] + rest;
    forall i, j | 0 <= i < j < |t| ensures KeyLe(key(t[i]), key(t[j])) {
      var y := rest[j - 1];
      assert t[j] == y;
      if i == 0 {
        assert y in multiset(rest);
        if y != x {
          assert y in multiset(s[1..]);
          var m :| 0 <= m < |s[1..]| && s[1..][m] == y;
          assert s[m + 1] == y;
        }
      } else {
        assert t[i] == rest[i - 1];
      }
    }
  }

  /** Insertion sort: the rows in key order. */
  function SortBy<T>(s: seq<T>, key: T -> SortKey): (r: seq<T>)
    ensures SortedBy(r, key)
    ensures multiset(r) == multiset(s)
    ensures |r| == |s|
  {
    if s == [] then []
    else
      assert s == [s[0]] + s[1..];
      InsertBy(s[0], SortBy(s[1..], key), key)
  }
}
