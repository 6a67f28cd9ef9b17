/**
  The sliding window median filter: a ring of samples and an index array that is kept sorted by
  sample value, so that one call costs two passes over the index array.
 */
module MedianFilter {
  import opened Arithmetic
  import opened Int64
  import opened Median

  const MAX_SIZE := 31

  /** The samples in the order of the index array. */
  function Values(samples: seq<int64>, order: seq<nat>): (vs: seq<int64>)
    requires forall k :: 0 <= k < |order| ==> order[k] < |samples|
    ensures |vs| == |order|
  {
    seq(|order|, k requires 0 <= k < |order| => samples[order[k]])
  }

  /** Each of the first `n` slots but `hole` occurs exactly once. */
  ghost predicate Lists(order: seq<nat>, n: nat, hole: int) {
    && (forall k :: 0 <= k < |order| ==> order[k] < n && order[k] != hole)
    && (forall i, j :: 0 <= i < j < |order| ==> order[i] != order[j])
    && (forall q :: 0 <= q < n && q != hole ==> q in order)
  }

  function Removed<T>(s: seq<T>, p: nat): (r: seq<T>)
    requires p < |s|
    ensures |r| == |s| - 1
  {
    s[..p] + s[p + 1..]
  }

  lemma RemoveLists(order: seq<nat>, n: nat, p: nat)
    requires Lists(order, n, -1) && p < |order|
    ensures Lists(Removed(order, p), n, order[p])
  {
    var r := Removed(order, p);
    forall q | 0 <= q < n && q != order[p]
      ensures q in r
    {
      assert q in order;
      var i :| 0 <= i < |order| && order[i] == q;
      assert r[if i < p then i else i - 1] == q;
    }
  }

  lemma InsertLists(order: seq<nat>, n: nat, p: nat, x: nat)
    requires Lists(order, n, x) && x < n && p <= |order|
    ensures Lists(order[..p] + [x] + order[p..], n, -1)
  {
    var r := order[..p] + [x] + order[p..];
    forall q | 0 <= q < n
      ensures q in r
    {
      if q == x {
        assert r[p] == x;
      } else {
        assert q in order;
        var i :| 0 <= i < |order| && order[i] == q;
        assert r[if i < p then i else i + 1] == q;
      }
    }
  }

  lemma InsertAscending(s: seq<int64>, p: nat, v: int64)
    requires Ascending(s) && p <= |s|
    requires p > 0 ==> s[p - 1] <= v
    requires p < |s| ==> v <= s[p]
    ensures Ascending(s[..p] + [v] + s[p..])
    ensures multiset(s[..p] + [v] + s[p..]) == multiset(s) + multiset{v}
  {
    assert s == s[..p] + s[p..];
  }

  lemma RemoveAscending(s: seq<int64>, p: nat)
    requires Ascending(s) && p < |s|
    ensures Ascending(Removed(s, p)) && multiset(Removed(s, p)) == multiset(s) - multiset{s[p]}
  {
    assert s == s[..p] + ([s[p]] + s[p + 1..]);
  }

  // ---------------------------------------------------------------- one call, on values

  /** The `k`-th slot from `idx` on, around the ring. */
  function Turn(idx: nat, k: nat, size: nat): int {
    if idx + k < size then idx + k else idx + k - size
  }

  /** The window lies in the ring in order of arrival; in a full one, `idx` is the slot of the oldest value. */
  ghost predicate Slots(w: seq<int64>, samples: seq<int64>, size: nat, idx: nat) {
    && idx < size <= |samples| && |w| <= size
    && if |w| < size then idx == |w| && forall k :: 0 <= k < |w| ==> samples[k] == w[k]
       else forall k :: 0 <= k < |w| ==> samples[Turn(idx, k, size)] == w[k]
  }

  lemma SlotsStep(w: seq<int64>, samples: seq<int64>, size: nat, idx: nat, v: int64)
    requires Slots(w, samples, size, idx)
    ensures Slots(Slide(w, size, v), samples[idx := v], size, Turn(idx, 1, size))
  {
    var w', samples' := Slide(w, size, v), samples[idx := v];
    if |w| == size {
      forall k | 0 <= k < size
        ensures samples'[Turn(Turn(idx, 1, size), k, size)] == w'[k]
      {
        assert k + 1 < size ==> samples[Turn(idx, k + 1, size)] == w[k + 1];
      }
    }
  }

  /** The next index is the next slot around the ring. */
  lemma NextSlot(idx: nat, size: nat)
    requires idx < size
    ensures (idx + 1) % size == Turn(idx, 1, size)
  {
    if idx + 1 < size {
      RemainderIsUnique(0, idx + 1, size);
    } else {
      RemainderIsUnique(1, 0, size);
    }
  }

  /** A slot that is not listed can be overwritten. */
  lemma ValuesFrame(samples: seq<int64>, order: seq<nat>, x: nat, v: int64)
    requires x < |samples| && forall k :: 0 <= k < |order| ==> order[k] < |samples| && order[k] != x
    ensures Values(samples[x := v], order) == Values(samples, order)
  {
  }

  lemma InsertedValues(samples: seq<int64>, order: seq<nat>, p: nat, x: nat)
    requires x < |samples| && p <= |order| && forall k :: 0 <= k < |order| ==> order[k] < |samples|
    ensures var r := order[..p] + [x] + order[p..];
      && (forall k :: 0 <= k < |r| ==> r[k] < |samples|)
      && Values(samples, r) == Values(samples, order)[..p] + [samples[x]] + Values(samples, order)[p..]
  {
  }

  lemma RemovedValues(samples: seq<int64>, order: seq<nat>, p: nat)
    requires p < |order| && forall k :: 0 <= k < |order| ==> order[k] < |samples|
    ensures Values(samples, Removed(order, p)) == Removed(Values(samples, order), p)
  {
  }

  /** The ring holds the window, and the index array lists its slots by ascending value. */
  ghost predicate Consistent(w: seq<int64>, samples: seq<int64>, listed: seq<nat>, size: nat, idx: nat) {
    && Slots(w, samples, size, idx)
    && |listed| == |w|
    && Lists(listed, |w|, -1)
    && SortedOf(w, Values(samples, listed))
  }

  /** The slots but the newest one are listed by ascending value, and with `v` they make up the next window. */
  ghost predicate Prepared(w: seq<int64>, samples: seq<int64>, others: seq<nat>, size: nat, idx: nat, v: int64) {
    && Slots(w, samples, size, idx)
    && |others| + 1 == |Slide(w, size, v)| > idx
    && Lists(others, |others| + 1, idx)
    && SortedWithout(Slide(w, size, v), Values(samples, others), v)
  }

  ghost predicate SortedWithout(w: seq<int64>, s: seq<int64>, v: int64) {
    Ascending(s) && multiset(s) + multiset{v} == multiset(w)
  }

  /** The listed slots without the oldest one, if the window is full. */
  function Others(listed: seq<nat>, full: bool, p: nat): seq<nat>
    requires full ==> p < |listed|
  {
    if full then Removed(listed, p) else listed
  }

  lemma OldestLeaves(w: seq<int64>, s: seq<int64>, size: nat, p: nat, v: int64)
    requires SortedOf(w, s) && |w| == size > 0 && p < |s| && s[p] == w[0]
    ensures SortedWithout(Slide(w, size, v), Removed(s, p), v)
  {
    RemoveAscending(s, p);
    assert w == [w[0]] + w[1..];
  }

  /** Taking the oldest slot out leaves the others sorted, with the values that stay in the window. */
  lemma OthersOk(w: seq<int64>, samples: seq<int64>, listed: seq<nat>, size: nat, idx: nat, p: nat, v: int64)
    requires Consistent(w, samples, listed, size, idx)
    requires |w| == size ==> p < |listed| && listed[p] == idx
    ensures Prepared(w, samples, Others(listed, |w| == size, p), size, idx, v)
  {
    if |w| == size {
      RemoveLists(listed, size, p);
      RemovedValues(samples, listed, p);
      assert samples[Turn(idx, 0, size)] == w[0];
      OldestLeaves(w, Values(samples, listed), size, p, v);
    }
  }

  lemma NewestEnters(w: seq<int64>, s: seq<int64>, p: nat, v: int64)
    requires SortedWithout(w, s, v) && p <= |s|
    requires p > 0 ==> s[p - 1] <= v
    requires p < |s| ==> v <= s[p]
    ensures SortedOf(w, s[..p] + [v] + s[p..])
  {
    InsertAscending(s, p, v);
  }

  /** Inserting the newest slot at the place that was found gives the sorted window. */
  lemma InsertedOk(w: seq<int64>, before: seq<int64>, others: seq<nat>, size: nat, idx: nat, p: nat, v: int64)
    requires Prepared(w, before, others, size, idx, v) && p <= |others|
    requires p > 0 ==> before[others[p - 1]] <= v
    requires p < |others| ==> v <= before[others[p]]
    ensures Consistent(Slide(w, size, v), before[idx := v], others[..p] + [idx] + others[p..], size, Turn(idx, 1, size))
  {
    var order, vs := others[..p] + [idx] + others[p..], Values(before, others);
    InsertLists(others, |others| + 1, p, idx);
    SlotsStep(w, before, size, idx, v);
    assert Values(before[idx := v], order) == vs[..p] + [v] + vs[p..] by {
      ValuesFrame(before, others, idx, v);
      InsertedValues(before[idx := v], others, p, idx);
    }
    NewestEnters(Slide(w, size, v), vs, p, v);
  }

  lemma MedianFound(w: seq<int64>, samples: seq<int64>, listed: seq<nat>, size: nat, idx: nat, m: int64)
    requires Consistent(w, samples, listed, size, idx) && listed != [] && m == Middle(Values(samples, listed))
    ensures IsMedian(w, m)
  {
  }

  class Filter {
    const samples: array<int64>
    const order: array<nat>
    var size: nat
    var count: nat
    var idx: nat
    /** All inputs since the filter was initialized. */
    ghost var inputs: seq<int64>

    predicate Shape()
      reads this
    {
      && samples.Length == MAX_SIZE && order.Length == MAX_SIZE
      && 1 <= size <= MAX_SIZE
      && count <= size && idx < size
    }

    ghost predicate Valid()
      reads this, samples, order
    {
      && Shape()
      && count == |Window(inputs, size)|
      && Consistent(Window(inputs, size), samples[..], order[..count], size, idx)
    }

    /** median_filter_init: a size of 0 becomes 1, and a larger one is limited. */
    constructor (windowSize: nat)
      ensures Valid() && fresh(samples) && fresh(order) && inputs == []
      ensures size == if windowSize == 0 then 1 else if windowSize > MAX_SIZE then MAX_SIZE else windowSize
    {
      samples := new int64[MAX_SIZE](_ => 0);
      order := new nat[MAX_SIZE](_ => 0);
      size := if windowSize == 0 then 1 else if windowSize > MAX_SIZE then MAX_SIZE else windowSize;
      count, idx := 0, 0;
      inputs := [];
    }

    /** The position of the slot `idx` in the full index array. */
    method FindOldest() returns (p: nat)
      requires Shape() && count == size && Lists(order[..count], count, -1)
      ensures p < count && order[p] == idx
    {
      assert idx in order[..count];
      p := 0;
      while order[p] != idx
        invariant p < count
        invariant forall k :: 0 <= k < p ==> order[k] != idx
        decreases count - p
      {
        p := p + 1;
      }
    }

    /** Take the slot `idx` out of the full index array. */
    method RemoveOldest() returns (ghost p: nat)
      requires Shape() && count == size && Lists(order[..count], count, -1)
      modifies order
      ensures p < count && old(order[p]) == idx && order[..count - 1] == Removed(old(order[..count]), p)
    {
      var i := FindOldest();
      p := i;
      while i + 1 < count
        invariant p <= i < count
        invariant forall k :: 0 <= k < p ==> order[k] == old(order[k])
        invariant forall k :: p <= k < i ==> order[k] == old(order[k + 1])
        invariant forall k :: i < k < count ==> order[k] == old(order[k])
      {
        order[i] := order[i + 1];
        i := i + 1;
      }
      assert order[..count - 1] == Removed(old(order[..count]), p);
    }

    /** Insert the slot `idx` into the index array of the other slots, which is sorted by value. */
    method InsertNewest() returns (ghost p: nat)
      requires Shape() && 0 < count
      requires forall k :: 0 <= k < count - 1 ==> order[k] < MAX_SIZE
      modifies order
      ensures p < count && order[..count] == old(order[..count - 1])[..p] + [idx] + old(order[..count - 1])[p..]
      ensures p > 0 ==> old(order[p - 1]) < MAX_SIZE && samples[old(order[p - 1])] <= samples[idx]
      ensures p < count - 1 ==> old(order[p]) < MAX_SIZE && samples[idx] < samples[old(order[p])]
    {
      ghost var o := order[..count - 1];
      var v, i := samples[idx], count - 1;
      while i > 0 && samples[order[i - 1]] > v
        invariant 0 <= i < count
        invariant forall k :: 0 <= k < i ==> order[k] == o[k]
        invariant forall k :: i < k < count ==> order[k] == o[k - 1]
        invariant i < count - 1 ==> samples[o[i]] > v
      {
        order[i] := order[i - 1];
        i := i - 1;
      }
      order[i] := idx;
      p := i;
      assert order[..count] == o[..i] + [idx] + o[i..];
    }

    /** The middle value by the index array, or the mean of the two middle ones. */
    method ReadMedian() returns (m: int64)
      requires Shape() && count > 0 && forall k :: 0 <= k < count ==> order[k] < MAX_SIZE
      ensures m == Middle(Values(samples[..], order[..count]))
    {
      if count % 2 != 0 {
        m := samples[order[count / 2]];
      } else {
        m := Wrap(Div(Wrap((samples[order[count / 2 - 1]] as int) + samples[order[count / 2]]), 2));
      }
    }

    /** Store the new sample in the ring and drop the index of the one it replaces. */
    method StoreSample(v: int64, ghost w: seq<int64>)
      requires Shape() && count == |w| && Consistent(w, samples[..], order[..count], size, idx)
      modifies this`count, samples, order
      ensures Shape() && count == |Slide(w, size, v)|
      ensures samples[..] == old(samples[..])[idx := v]
      ensures Prepared(w, old(samples[..]), order[..count - 1], size, idx, v)
    {
      ghost var before, listed, p := samples[..], order[..count], 0;
      samples[idx] := v;
      assert samples[..] == before[idx := v];
      if count < size {
        count := count + 1;
      } else {
        p := RemoveOldest();
      }
      assert order[..count - 1] == Others(listed, |w| == size, p);
      OthersOk(w, before, listed, size, idx, p, v);
    }

    /** Put the slot of the new sample into its place in the index array, and advance. */
    method PlaceSample(v: int64, ghost w: seq<int64>, ghost before: seq<int64>)
      requires Shape() && |w| <= size && count == |Slide(w, size, v)|
      requires Prepared(w, before, order[..count - 1], size, idx, v)
      requires samples[..] == before[idx := v]
      modifies this`idx, order
      ensures Shape() && Consistent(Slide(w, size, v), samples[..], order[..count], size, idx)
    {
      NextSlot(idx, size);
      ghost var others := order[..count - 1];
      ghost var p := InsertNewest();
      InsertedOk(w, before, others, size, idx, p, v);
      idx := (idx + 1) % size;
    }

    lemma ListedSlots()
      requires Shape() && (forall k :: 0 <= k < count ==> order[..count][k] < MAX_SIZE)
      ensures forall k :: 0 <= k < count ==> order[k] < MAX_SIZE
    {
      forall k | 0 <= k < count
        ensures order[k] < MAX_SIZE
      {
        assert order[..count][k] == order[k];
      }
    }

    /** Both steps on a window `w`. */
    method Update(v: int64, ghost w: seq<int64>) returns (m: int64)
      requires Shape() && count == |w| && Consistent(w, samples[..], order[..count], size, idx)
      modifies this`count, this`idx, samples, order
      ensures Shape() && count == |Slide(w, size, v)|
      ensures Consistent(Slide(w, size, v), samples[..], order[..count], size, idx)
      ensures m == Middle(Values(samples[..], order[..count]))
    {
      ghost var before := samples[..];
      StoreSample(v, w);
      PlaceSample(v, w, before);
      ListedSlots();
      m := ReadMedian();
    }

    /** median_filter_calc: the median of the last `size` inputs, this one included. */
    method Calc(v: int64) returns (m: int64)
      requires Valid()
      modifies this, samples, order
      ensures Valid() && size == old(size) && inputs == old(inputs) + [v]
      ensures IsMedian(Window(inputs, size), m)
    {
      ghost var w := Window(inputs, size);
      WindowSlides(inputs, size, v);
      m := Update(v, w);
      MedianFound(Slide(w, size, v), samples[..], order[..count], size, idx, m);
      inputs := inputs + [v];
    }
  }
}
