/**
 * Ordering rows by a numeric column, largest first, and keeping the first
 * `n` of them: `frame.sort_values(col, ascending=False).head(n)` and
 * `frame.nlargest(n, col)`.
 */
module Ranking {

  /** Every row is at least as large in `key` as every row after it. */
  ghost predicate SortedDesc<T>(s: seq<T>, key: T -> real)
  {
    forall i, j :: 0 <= i < j < |s| ==> key(s[i]) >= key(s[j])
  }

  /** Places `x` before the first row whose key does not exceed its own. */
  function Insert<T>(x: T, s: seq<T>, key: T -> real): (r: seq<T>)
    requires SortedDesc(s, key)
    ensures multiset(r) == multiset(s) + multiset{x}
    ensures SortedDesc(r, key)
    ensures |r| == |s| + 1 && (r[0] == x || (|s| > 0 && r[0] == s[0]))
  {
    if s == [] then [x]
    else if key(x) >= key(s[0]) then [x] + s
    else
      var tail := Insert(x, s[1..], key);
      assert s == [s[0]] + s[1..];
      [s[0]] + tail
  }

  /** The rows of `s` reordered so that `key` never increases. */
  function SortDesc<T>(s: seq<T>, key: T -> real): (r: seq<T>)
    ensures |r| == |s| && multiset(r) == multiset(s)
    ensures SortedDesc(r, key)
  {
    if s == [] then []
    else
      assert s == [s[0]] + s[1..];
      Insert(s[0], SortDesc(s[1..], key), key)
  }

  function Min(a: nat, b: nat): nat { if a <= b then a else b }

  /** `.head(n)`: the first `n` rows, or all of them when there are fewer. */
  function Head<T>(s: seq<T>, n: nat): (r: seq<T>)
    ensures |r| == Min(n, |s|)
    ensures forall i :: 0 <= i < |r| ==> r[i] == s[i]
  {
    s[..Min(n, |s|)]
  }

  /**
   * The `n` rows with the largest key: `Head(SortDesc(s, key), n)` keeps at
   * most `n` rows, largest first; together with the rows it leaves out they
   * are exactly the rows of `s`, and no row left out has a larger key than a
   * row kept.
   */
  lemma TopRows<T>(s: seq<T>, key: T -> real, n: nat)
    ensures var r := SortDesc(s, key); var k := Min(n, |s|);
      && |r| == |s|
      && Head(r, n) == r[..k]
      && SortedDesc(Head(r, n), key)
      && multiset(Head(r, n)) + multiset(r[k..]) == multiset(s)
      && forall i, j :: 0 <= i < k <= j < |r| ==> key(r[j]) <= key(r[i])
  {
    var r := SortDesc(s, key);
    var k := Min(n, |s|);
    assert r == r[..k] + r[k..];
  }
}
