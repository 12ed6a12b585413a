/** Sorting and the median of a non-empty sequence of reals, as `np.median`
    computes it: the middle element of the sorted values, or the mean of the
    two middle elements when the count is even. */
module Stats {

  ghost predicate Sorted(s: seq<real>) {
    forall i, j :: 0 <= i < j < |s| ==> s[i] <= s[j]
  }

  /** Inserts `x` into the sorted `s`. */
  function Insert(x: real, s: seq<real>): (r: seq<real>)
    requires Sorted(s)
    ensures |r| == |s| + 1
    ensures Sorted(r)
    ensures multiset(r) == multiset(s) + multiset{x}
    ensures r[0] == x || (|s| > 0 && r[0] == s[0])
  {
    if |s| == 0 then [x]
    else if x <= s[0] then [x] + s
    else
      assert s == [s[0]] + s[1..];
      [s[0]] + Insert(x, s[1..])
  }

  /** Insertion sort. */
  function Sort(s: seq<real>): (r: seq<real>)
    ensures |r| == |s|
    ensures Sorted(r)
    ensures multiset(r) == multiset(s)
  {
    if |s| == 0 then []
    else
      assert s == [s[0]] + s[1..];
      Insert(s[0], Sort(s[1..]))
  }

  /** An element of a permutation of `xs` is an element of `xs`. */
  lemma PermutedElement(s: seq<real>, xs: seq<real>, k: int)
    requires multiset(s) == multiset(xs)
    requires 0 <= k < |s|
    ensures exists i :: 0 <= i < |xs| && xs[i] == s[k]
  {
    assert s[k] in multiset(s);
    assert s[k] in multiset(xs);
    assert s[k] in xs;
  }

  /** The median lies between the least and the greatest value: some value is
      at most it and some value is at least it. */
  function Median(xs: seq<real>): (m: real)
    requires |xs| > 0
    ensures exists i :: 0 <= i < |xs| && xs[i] <= m
    ensures exists j :: 0 <= j < |xs| && m <= xs[j]
  {
    var s := Sort(xs);
    var n := |s|;
    if n % 2 == 1 then
      PermutedElement(s, xs, n / 2);
      s[n / 2]
    else
      PermutedElement(s, xs, n / 2 - 1);
      PermutedElement(s, xs, n / 2);
      (s[n / 2 - 1] + s[n / 2]) / 2.0
  }

  /** When every value equals `d`, so does the median. */
  lemma MedianOfConstant(xs: seq<real>, d: real)
    requires |xs| > 0
    requires forall i :: 0 <= i < |xs| ==> xs[i] == d
    ensures Median(xs) == d
  {
  }

  lemma DropFirst(s: seq<real>)
    requires |s| > 0
    ensures multiset(s[1..]) == multiset(s) - multiset{s[0]}
  {
    assert s == [s[0]] + s[1..];
  }

  /** Two sorted arrangements of the same values are the same sequence. */
  lemma {:induction false} SortedUnique(s: seq<real>, t: seq<real>)
    requires Sorted(s) && Sorted(t)
    requires multiset(s) == multiset(t)
    ensures s == t
    decreases |s|
  {
    assert |s| == |multiset(s)| == |multiset(t)| == |t|;
    if |s| > 0 {
      PermutedElement(s, t, 0);
      PermutedElement(t, s, 0);
      assert s[0] == t[0];
      DropFirst(s);
      DropFirst(t);
      assert multiset(s[1..]) == multiset(t[1..]);
      assert Sorted(s[1..]) by {
        forall i, j | 0 <= i < j < |s[1..]| ensures s[1..][i] <= s[1..][j] {
          assert s[1..][i] == s[i + 1] && s[1..][j] == s[j + 1];
        }
      }
      assert Sorted(t[1..]) by {
        forall i, j | 0 <= i < j < |t[1..]| ensures t[1..][i] <= t[1..][j] {
          assert t[1..][i] == t[i + 1] && t[1..][j] == t[j + 1];
        }
      }
      SortedUnique(s[1..], t[1..]);
    }
  }

  /** How many entries of `xs` equal `d`. */
  function Count(xs: seq<real>, d: real): nat {
    multiset(xs)[d]
  }

  /** In a sorted sequence, an entry below `d` leaves room for `d` only after it. */
  lemma {:induction false} CountAfterSmaller(s: seq<real>, k: int, d: real)
    requires Sorted(s) && 0 <= k < |s| && s[k] < d
    ensures Count(s, d) <= |s| - 1 - k
  {
    assert s == s[..k + 1] + s[k + 1..];
    assert d !in s[..k + 1] by {
      forall i | 0 <= i <= k ensures s[i] != d {
        assert s[i] <= s[k];
      }
    }
    assert multiset(s[..k + 1])[d] == 0;
    assert |multiset(s[k + 1..])| == |s| - 1 - k;
    assert multiset(s[k + 1..])[d] <= |multiset(s[k + 1..])|;
  }

  /** In a sorted sequence, an entry above `d` leaves room for `d` only before it. */
  lemma {:induction false} CountBeforeLarger(s: seq<real>, k: int, d: real)
    requires Sorted(s) && 0 <= k < |s| && d < s[k]
    ensures Count(s, d) <= k
  {
    assert s == s[..k] + s[k..];
    assert d !in s[k..] by {
      forall i | k <= i < |s| ensures s[i] != d {
        assert s[k] <= s[i];
      }
    }
    assert multiset(s[k..])[d] == 0;
    assert |multiset(s[..k])| == k;
    assert multiset(s[..k])[d] <= |multiset(s[..k])|;
  }

  /** In a sorted sequence where more than half the entries equal `d`, every
      middle entry equals `d`. */
  lemma SortedMajorityAtMiddle(s: seq<real>, d: real, k: int)
    requires Sorted(s) && 2 * Count(s, d) > |s|
    requires 0 <= k < |s| && (k == |s| / 2 || (|s| % 2 == 0 && k == |s| / 2 - 1))
    ensures s[k] == d
  {
    if s[k] < d {
      CountAfterSmaller(s, k, d);
    } else if d < s[k] {
      CountBeforeLarger(s, k, d);
    }
  }

  /** A value held by more than half the entries is the median: the median
      cannot be pulled away by a minority of outliers. */
  lemma MedianOfMajority(xs: seq<real>, d: real)
    requires 2 * Count(xs, d) > |xs|
    ensures |xs| > 0
    ensures Median(xs) == d
  {
    var s := Sort(xs);
    assert Count(s, d) == Count(xs, d);
    var n := |s|;
    SortedMajorityAtMiddle(s, d, n / 2);
    if n % 2 == 0 {
      SortedMajorityAtMiddle(s, d, n / 2 - 1);
    }
  }

  /** The median depends only on the values, not on their order. */
  lemma MedianIgnoresOrder(xs: seq<real>, ys: seq<real>)
    requires |xs| > 0
    requires multiset(xs) == multiset(ys)
    ensures |ys| > 0
    ensures Median(xs) == Median(ys)
  {
    assert |xs| == |multiset(xs)| == |multiset(ys)| == |ys|;
    SortedUnique(Sort(xs), Sort(ys));
  }
}
