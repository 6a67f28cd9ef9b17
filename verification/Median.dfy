/** The median of the last values of a history, and how many outliers it takes to move it. */
module Median {
  import opened Int64

  /** The last `size` inputs, or all of them if there are fewer. */
  function Window(inputs: seq<int64>, size: nat): (w: seq<int64>)
    ensures |w| == if |inputs| < size then |inputs| else size
  {
    if |inputs| < size then inputs else inputs[|inputs| - size..]
  }

  /** The window slides: the oldest value leaves a full one, the new value enters. */
  function Slide(w: seq<int64>, size: nat, v: int64): (w': seq<int64>)
    requires |w| <= size && size > 0
    ensures |w'| == if |w| < size then |w| + 1 else size
  {
    if |w| < size then w + [v] else w[1..] + [v]
  }

  lemma WindowSlides(inputs: seq<int64>, size: nat, v: int64)
    requires size > 0
    ensures Window(inputs + [v], size) == Slide(Window(inputs, size), size, v)
  {
  }

  ghost predicate Ascending(s: seq<int64>) {
    forall i, j :: 0 <= i <= j < |s| ==> s[i] <= s[j]
  }

  ghost predicate SortedOf(w: seq<int64>, s: seq<int64>) {
    Ascending(s) && multiset(s) == multiset(w)
  }

  /** The middle value, or the truncated mean of the two middle values in 64 bit arithmetic. */
  function Middle(s: seq<int64>): int64
    requires |s| > 0
  {
    var c := |s|;
    if c % 2 == 1 then s[c / 2] else Wrap(Div(Wrap((s[c / 2 - 1] as int) + s[c / 2]), 2))
  }

  ghost predicate IsMedian(w: seq<int64>, m: int64) {
    exists s :: SortedOf(w, s) && |s| > 0 && m == Middle(s)
  }

  lemma SameLast(s: seq<int64>, t: seq<int64>)
    requires Ascending(s) && Ascending(t) && multiset(s) == multiset(t) && |s| == |t| > 0
    ensures s[|s| - 1] == t[|t| - 1]
  {
    var n := |s| - 1;
    assert s[n] in multiset(s) && t[n] in multiset(t);
    assert s[n] in t && t[n] in s;
  }

  lemma WithoutLast(s: seq<int64>)
    requires s != []
    ensures multiset(s[..|s| - 1]) == multiset(s) - multiset{s[|s| - 1]}
  {
    assert s == s[..|s| - 1] + [s[|s| - 1]];
  }

  lemma {:induction false} SortedUnique(s: seq<int64>, t: seq<int64>)
    requires Ascending(s) && Ascending(t) && multiset(s) == multiset(t)
    ensures s == t
  {
    assert |s| == |multiset(s)| == |multiset(t)| == |t|;
    if s != [] {
      SameLast(s, t);
      WithoutLast(s);
      WithoutLast(t);
      SortedUnique(s[..|s| - 1], t[..|t| - 1]);
      assert s == s[..|s| - 1] + [s[|s| - 1]] && t == t[..|t| - 1] + [t[|t| - 1]];
    }
  }

  /** There is only one median. */
  lemma MedianUnique(w: seq<int64>, m1: int64, m2: int64)
    requires IsMedian(w, m1) && IsMedian(w, m2)
    ensures m1 == m2
  {
    var s1 :| SortedOf(w, s1) && |s1| > 0 && m1 == Middle(s1);
    var s2 :| SortedOf(w, s2) && |s2| > 0 && m2 == Middle(s2);
    SortedUnique(s1, s2);
  }

  // ---------------------------------------------------------------- outlier rejection

  /** How many values lie in [lo, hi]. */
  function CountIn(s: seq<int64>, lo: int, hi: int): (n: nat)
    ensures n <= |s|
  {
    if s == [] then 0
    else CountIn(s[..|s| - 1], lo, hi) + (if lo <= s[|s| - 1] <= hi then 1 else 0)
  }

  lemma {:induction false} CountInConcat(a: seq<int64>, b: seq<int64>, lo: int, hi: int)
    ensures CountIn(a + b, lo, hi) == CountIn(a, lo, hi) + CountIn(b, lo, hi)
  {
    if b == [] {
      assert a + b == a;
    } else {
      assert (a + b)[..|a + b| - 1] == a + b[..|b| - 1];
      CountInConcat(a, b[..|b| - 1], lo, hi);
    }
  }

  lemma {:induction false} CountInPermuted(s: seq<int64>, w: seq<int64>, lo: int, hi: int)
    requires multiset(s) == multiset(w)
    ensures CountIn(s, lo, hi) == CountIn(w, lo, hi)
  {
    assert |s| == |multiset(s)| == |multiset(w)| == |w|;
    if s != [] {
      var x := s[|s| - 1];
      assert x in multiset(w);
      assert x in w;
      var i :| 0 <= i < |w| && w[i] == x;
      assert s == s[..|s| - 1] + [x];
      assert w == w[..i] + ([x] + w[i + 1..]);
      assert multiset(s[..|s| - 1]) == multiset(s) - multiset{x};
      assert multiset(w[..i] + w[i + 1..]) == multiset(w) - multiset{x};
      CountInPermuted(s[..|s| - 1], w[..i] + w[i + 1..], lo, hi);
      CountInConcat(w[..i], w[i + 1..], lo, hi);
      CountInConcat(w[..i], [x] + w[i + 1..], lo, hi);
      CountInConcat([x], w[i + 1..], lo, hi);
    }
  }

  lemma {:induction false} NoneIn(s: seq<int64>, lo: int, hi: int)
    requires forall i :: 0 <= i < |s| ==> !(lo <= s[i] <= hi)
    ensures CountIn(s, lo, hi) == 0
  {
    if s != [] {
      NoneIn(s[..|s| - 1], lo, hi);
    }
  }

  /** If the value at place `k` is above the range, at most `k` values lie in the range. */
  lemma FewBelow(s: seq<int64>, lo: int, hi: int, k: nat)
    requires Ascending(s) && k < |s| && s[k] > hi
    ensures CountIn(s, lo, hi) <= k
  {
    assert s == s[..k] + s[k..];
    CountInConcat(s[..k], s[k..], lo, hi);
    NoneIn(s[k..], lo, hi);
  }

  lemma FewAbove(s: seq<int64>, lo: int, hi: int, k: nat)
    requires Ascending(s) && k < |s| && s[k] < lo
    ensures CountIn(s, lo, hi) <= |s| - 1 - k
  {
    assert s == s[..k + 1] + s[k + 1..];
    CountInConcat(s[..k + 1], s[k + 1..], lo, hi);
    NoneIn(s[..k + 1], lo, hi);
  }

  /** If more values than `k` and than `|s| - 1 - j` lie in the range, the places between are not beyond it. */
  lemma MajorityPlace(s: seq<int64>, lo: int, hi: int, j: nat, k: nat)
    requires Ascending(s) && j <= k < |s|
    requires CountIn(s, lo, hi) > k && CountIn(s, lo, hi) > |s| - 1 - j
    ensures lo <= s[j] <= s[k] <= hi
  {
    if s[k] > hi {
      FewBelow(s, lo, hi, k);
    }
    if s[j] < lo {
      FewAbove(s, lo, hi, j);
    }
  }

  /**
    Outlier rejection: if strictly more than half of the window lies in a range, so does the median,
    for odd and for even windows, as long as the sum of two values of the range fits 64 bits.
   */
  lemma MedianOfMajority(w: seq<int64>, m: int64, lo: int, hi: int)
    requires IsMedian(w, m) && 2 * CountIn(w, lo, hi) > |w|
    requires |w| % 2 == 0 ==> Fits(2 * lo) && Fits(2 * hi)
    ensures lo <= m <= hi
  {
    var s :| SortedOf(w, s) && |s| > 0 && m == Middle(s);
    assert |s| == |multiset(s)| == |multiset(w)| == |w|;
    CountInPermuted(s, w, lo, hi);
    var c := |s|;
    MajorityPlace(s, lo, hi, if c % 2 == 1 then c / 2 else c / 2 - 1, c / 2);
    if c % 2 == 0 {
      MeanBetween(s[c / 2 - 1], s[c / 2]);
    }
  }

  /** The window that holds the value `x` as often as the value `y`. */
  function HalfAndHalf(half: nat, x: int64, y: int64): (w: seq<int64>)
    ensures |w| == 2 * half
  {
    seq(half, _ => x) + seq(half, _ => y)
  }

  /** Exactly half is not enough, in any even window: one value in half of the slots, and a larger one in the others. */
  lemma HalfIsNotEnough(half: nat, x: int64, y: int64)
    requires half > 0 && x + 2 <= y && Fits(x + y)
    ensures var w, m := HalfAndHalf(half, x, y), Div(x + y, 2);
      2 * CountIn(w, x, x) == |w| && IsMedian(w, m) && x < m
  {
    var low: seq<int64>, high: seq<int64> := seq(half, _ => x), seq(half, _ => y);
    CountInConcat(low, high, x, x);
    AllIn(low, x, x);
    NoneIn(high, x, x);
    MeanBetween(x, y);
    assert SortedOf(low + high, low + high);
    HalfMiddle(half, x, y);
  }

  lemma HalfMiddle(half: nat, x: int64, y: int64)
    requires half > 0 && x <= y && Fits(x + y)
    ensures Middle(HalfAndHalf(half, x, y)) == Div(x + y, 2)
  {
    MeanBetween(x, y);
  }

  lemma {:induction false} AllIn(s: seq<int64>, lo: int, hi: int)
    requires forall i :: 0 <= i < |s| ==> lo <= s[i] <= hi
    ensures CountIn(s, lo, hi) == |s|
  {
    if s != [] {
      AllIn(s[..|s| - 1], lo, hi);
    }
  }
}
