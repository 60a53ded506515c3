/**
 * The records the dashboard reads (one datatype per CSV row kind) and
 * pandas boolean-mask indexing, `frame[mask]`, as an order-preserving filter
 * over a sequence of rows.
 */
module Tables {

  datatype Option<T> = None | Some(value: T)

  /** A row of the product catalogue (article_master_web). */
  datatype Product = Product(
    mood: string,
    sectionName: string,
    productGroupName: string,
    colour: string,        // perceived_colour_master_name
    price: real,
    hotness: real          // hotness_score
  )

  /** A row of the customer profiles (customer_dna_master). */
  datatype Customer = Customer(customerId: string, segment: string, purchaseCount: int)

  /** A row of the purchase history (customer_test_validation). */
  datatype Transaction = Transaction(customerId: string, actualPurchasedMood: string)

  type Table = seq<Product>

  /** The selectbox entry that stands for "no filter" on the app's pages. */
  const All: string := "All"

  function Hotness(p: Product): real { p.hotness }

  function Price(p: Product): real { p.price }

  /** `frame[mask]`: the rows for which `keep` holds, in their original order. */
  function Filter<T(!new)>(s: seq<T>, keep: T -> bool): (r: seq<T>)
    ensures |r| <= |s|
    ensures forall x :: x in r <==> x in s && keep(x)
  {
    if s == [] then []
    else if keep(s[0]) then [s[0]] + Filter(s[1..], keep)
    else Filter(s[1..], keep)
  }

  /** `a` is `b` with some elements removed and the rest kept in order. */
  ghost predicate IsSubsequence<T>(a: seq<T>, b: seq<T>)
    decreases |b|
  {
    if a == [] then true
    else if b == [] then false
    else (a[0] == b[0] && IsSubsequence(a[1..], b[1..])) || IsSubsequence(a, b[1..])
  }

  /** Mask indexing never reorders rows: the result is a subsequence of the input. */
  lemma {:induction false} FilterIsSubsequence<T(!new)>(s: seq<T>, keep: T -> bool)
    ensures IsSubsequence(Filter(s, keep), s)
  {
    if s != [] {
      FilterIsSubsequence(s[1..], keep);
      if keep(s[0]) {
        assert Filter(s, keep)[1..] == Filter(s[1..], keep);
      }
    }
  }

  /** Each row is kept exactly as often as it occurs, when the mask holds for it. */
  lemma {:induction false} FilterMultiset<T(!new)>(s: seq<T>, keep: T -> bool)
    ensures forall x :: multiset(Filter(s, keep))[x] == if keep(x) then multiset(s)[x] else 0
  {
    if s != [] {
      FilterMultiset(s[1..], keep);
      assert s == [s[0]] + s[1..];
    }
  }

  /** A mask that holds for every row returns the table unchanged. */
  lemma {:induction false} FilterKeepsAll<T(!new)>(s: seq<T>, keep: T -> bool)
    requires forall x :: x in s ==> keep(x)
    ensures Filter(s, keep) == s
  {
    if s != [] {
      assert s[0] in s;
      forall x | x in s[1..] ensures keep(x) { assert x in s; }
      FilterKeepsAll(s[1..], keep);
    }
  }

  /** A mask that holds for no row returns the empty table. */
  lemma FilterDropsAll<T(!new)>(s: seq<T>, keep: T -> bool)
    requires forall x :: x in s ==> !keep(x)
    ensures Filter(s, keep) == []
  {
  }

  /** Two masks that agree on every row of the table select the same rows. */
  lemma {:induction false} FilterExt<T(!new)>(s: seq<T>, a: T -> bool, b: T -> bool)
    requires forall x :: x in s ==> a(x) == b(x)
    ensures Filter(s, a) == Filter(s, b)
  {
    if s != [] {
      assert s[0] in s;
      forall x | x in s[1..] ensures a(x) == b(x) { assert x in s; }
      FilterExt(s[1..], a, b);
    }
  }

  /** Narrowing by `a` and then by `b` is one narrowing by their conjunction. */
  lemma {:induction false} FilterThen<T(!new)>(s: seq<T>, a: T -> bool, b: T -> bool, both: T -> bool)
    requires forall x :: both(x) == (a(x) && b(x))
    ensures Filter(Filter(s, a), b) == Filter(s, both)
  {
    if s != [] {
      FilterThen(s[1..], a, b, both);
    }
  }

  /** Applying the same mask twice is applying it once. */
  lemma FilterIdempotent<T(!new)>(s: seq<T>, keep: T -> bool)
    ensures Filter(Filter(s, keep), keep) == Filter(s, keep)
  {
  }

  /** Appending a row extends the result by that row exactly when the mask holds for it. */
  lemma {:induction false} FilterSnoc<T(!new)>(s: seq<T>, x: T, keep: T -> bool)
    ensures Filter(s + [x], keep) == Filter(s, keep) + (if keep(x) then [x] else [])
  {
    if s == [] {
      assert [x][1..] == [];
    } else {
      assert (s + [x])[1..] == s[1..] + [x];
      FilterSnoc(s[1..], x, keep);
    }
  }

  /** Two masks that never hold together select at most as many rows as the table has. */
  lemma {:induction false} FilterDisjointCounts<T(!new)>(s: seq<T>, a: T -> bool, b: T -> bool)
    requires forall x :: !(a(x) && b(x))
    ensures |Filter(s, a)| + |Filter(s, b)| <= |s|
  {
    if s != [] {
      FilterDisjointCounts(s[1..], a, b);
    }
  }

  /** A mask implied by another selects at least as many rows. */
  lemma {:induction false} FilterMonotoneCount<T(!new)>(s: seq<T>, a: T -> bool, b: T -> bool)
    requires forall x :: a(x) ==> b(x)
    ensures |Filter(s, a)| <= |Filter(s, b)|
  {
    if s != [] {
      FilterMonotoneCount(s[1..], a, b);
    }
  }

  /** Sum of `key` over the rows (pandas `.sum()` over one column). */
  function Total<T>(s: seq<T>, key: T -> real): real
  {
    if s == [] then 0.0 else key(s[0]) + Total(s[1..], key)
  }

  /** `col.mean() if len(frame) > 0 else 0`. */
  function MeanOrZero<T>(s: seq<T>, key: T -> real): real
  {
    if |s| == 0 then 0.0 else Total(s, key) / (|s| as real)
  }

  /** A sum of values in `[lo, hi)` lies in `[n * lo, n * hi)` for a non-empty sequence. */
  lemma {:induction false} TotalBounds<T>(s: seq<T>, key: T -> real, lo: real, hi: real)
    requires forall x :: x in s ==> lo <= key(x) < hi
    ensures (|s| as real) * lo <= Total(s, key) <= (|s| as real) * hi
    ensures |s| > 0 ==> Total(s, key) < (|s| as real) * hi
  {
    if s != [] {
      assert s[0] in s;
      forall x | x in s[1..] ensures lo <= key(x) < hi { assert x in s; }
      TotalBounds(s[1..], key, lo, hi);
    }
  }

  /** The mean of values in `[lo, hi)` lies in `[lo, hi)`; an empty column's mean is 0. */
  lemma MeanBounds<T>(s: seq<T>, key: T -> real, lo: real, hi: real)
    requires forall x :: x in s ==> lo <= key(x) < hi
    ensures |s| == 0 ==> MeanOrZero(s, key) == 0.0
    ensures |s| > 0 ==> lo <= MeanOrZero(s, key) < hi
  {
    if |s| > 0 {
      TotalBounds(s, key, lo, hi);
      var n := |s| as real;
      var t := Total(s, key);
      assert n * lo <= t < n * hi;
      assert (t / n) * n == t;
    }
  }
}
