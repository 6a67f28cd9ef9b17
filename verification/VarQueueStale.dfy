/** What a peek ahead returns right after a release, when the cache points to the first byte of the buffer. */
module VarQueueStale {
  import opened Arithmetic
  import opened Bytes
  import opened QueueEntry
  import opened VarQueue
  import opened VarQueueConsumer
  import opened VarQueueMemory
  import opened VarQueuePeek

  /** No unreleased entry touches the four bytes at `p`. */
  ghost predicate Gap(s: State, p: nat) {
    forall x :: p <= x < p + HEADER ==> Free(s, x)
  }

  lemma GapReadsEmpty(s: State, p: nat)
    requires Memory(s) && Gap(s, p) && p + HEADER <= |s.buf|
    ensures HighWord(s.buf, p) == 0
  {
    assert Free(s, p + 2) && Free(s, p + 3);
  }

  lemma TailAligned(s: State)
    requires Entries(s) && Window(s)
    ensures s.tail % ALIGNMENT == 0
  {
    if s.released < |s.log| {
      assert EntryOk(s.log[s.released]);
    }
  }

  /** Behind the newest entry lies the oldest one if the buffer is full, and a gap otherwise. */
  lemma HeadPosition(s: State)
    requires Sized(s.size, s.buf) && Ordered(s) && Entries(s) && Placed(s) && Window(s)
    ensures s.head == s.tail + s.size ==> s.head % s.size == s.tail % s.size
    ensures s.head < s.tail + s.size ==> Gap(s, s.head % s.size)
  {
    if s.head == s.tail + s.size {
      RemainderOfSum(s.size, s.tail, s.size);
      assert s.size % s.size == 0;
    } else {
      TailAligned(s);
      assert s.head + HEADER <= s.tail + s.size;
      forall j, x | s.released <= j < |s.log| && s.head % s.size <= x < s.head % s.size + HEADER
        ensures !InRegion(s.log[j], x)
      {
        assert s.tail <= s.log[j].cur;
        PositionsApart(s.size, s.log[j].cur, HEADER + s.log[j].len, s.head, HEADER);
      }
    }
  }

  /** Either an unreleased entry starts at the first byte of the buffer, or there is a gap. */
  lemma FirstPosition(s: State) returns (m: nat)
    requires Sized(s.size, s.buf) && Entries(s) && Placed(s) && s.released <= |s.log|
    ensures s.released <= m <= |s.log|
    ensures if m < |s.log| then s.log[m].pos == 0 else Gap(s, 0)
  {
    if j :| s.released <= j < |s.log| && s.log[j].pos == 0 {
      m := j;
    } else {
      m := |s.log|;
      forall j, x | s.released <= j < |s.log| && 0 <= x < HEADER
        ensures !InRegion(s.log[j], x)
      {
        HeaderIsAligned(s, j);
      }
    }
  }

  /**
    A scan that starts on entry `m` walks the unreleased entries around the ring. If it finds a
    buffer at all, then that of the entry `index - idx` further on, in cyclic order; `w` counts
    how often it passed the oldest entry and `j` is where it started.
   */
  lemma {:induction false} ScanCycles(s: State, cur: nat, idx: nat, m: nat, index: nat, j: nat,
                                      w: nat) returns (k: nat, w': nat)
    requires Sized(s.size, s.buf) && Chain(s) && Ordered(s) && Entries(s) && Placed(s) && Window(s) && Decodes(s)
    requires s.head < s.tail + s.size ==> HighWord(s.buf, s.head % s.size) == 0
    requires s.released <= m < |s.log| && idx <= index && cur % s.size == s.log[m].pos
    requires m - s.released == j + idx - w * (|s.log| - s.released)
    ensures s.released <= k < |s.log|
    ensures var r := ScanFrom(s.size, s.buf, s.head, cur, idx, index);
      r.Found? ==> k - s.released == j + index - w' * (|s.log| - s.released) && r.buffer == EntryBuffer(s.log[k])
    decreases index - idx
  {
    k, w' := m, w;
    if cur < s.head {
      ScanRound(s, cur, idx, m, index);
      if s.log[m].stage == Committed && idx < index {
        NextPosition(s, cur, m);
        var next := cur + (s.log[m].len + HEADER);
        if m + 1 < |s.log| {
          k, w' := ScanCycles(s, next, idx + 1, m + 1, index, j, w);
        } else if s.head == s.tail + s.size {
          HeadPosition(s);
          var n := |s.log| - s.released;
          assert (w + 1) * n == w * n + n;
          k, w' := ScanCycles(s, next, idx + 1, s.released, index, j, w + 1);
        } else {
          assert next % s.size == s.head % s.size;
        }
      }
    }
  }

  /** Two unreleased entries with the same buffer are the same entry. */
  lemma BufferIdentifiesEntry(s: State, i: nat, k: nat)
    requires Separate(s) && s.released <= i < |s.log| && s.released <= k < |s.log|
    requires EntryBuffer(s.log[i]) == EntryBuffer(s.log[k])
    ensures i == k
  {
    assert i != k ==> Disjoint(s.log[i], s.log[k]);
  }

  /** A scan that starts on entry `m` with index 0 finds entry `index` only if `m` is the oldest entry. */
  lemma WrongEntry(s: State, m: nat, index: nat)
    requires Sized(s.size, s.buf) && Chain(s) && Ordered(s) && Entries(s) && Placed(s) && Window(s) && Decodes(s)
    requires s.head < s.tail + s.size ==> HighWord(s.buf, s.head % s.size) == 0
    requires Separate(s) && s.released + index < |s.log|
    requires s.released < m < |s.log| && s.log[m].pos == 0
    ensures var r := ScanFrom(s.size, s.buf, s.head, 0, 0, index);
      !(r.Found? && r.buffer == EntryBuffer(s.log[s.released + index]))
  {
    var k, w := ScanCycles(s, 0, 0, m, index, m - s.released, 0);
    var r := ScanFrom(s.size, s.buf, s.head, 0, 0, index);
    if r.Found? && r.buffer == EntryBuffer(s.log[s.released + index]) {
      BufferIdentifiesEntry(s, s.released + index, k);
      if w > 0 {
        MulAtLeast(w, |s.log| - s.released);
      }
    }
  }

  lemma GapAtHead(s: State)
    requires Sized(s.size, s.buf) && Ordered(s) && Entries(s) && Placed(s) && Window(s) && Memory(s)
    requires s.head < s.tail + s.size
    ensures HighWord(s.buf, s.head % s.size) == 0
  {
    HeadPosition(s);
    GapReadsEmpty(s, s.head % s.size);
  }

  /** The cache that a release leaves behind sends a peek ahead astray unless the tail is at position 0. */
  lemma PeekAstray(s: State, index: nat)
    requires Inv(s) && s.consumer.pc.Ready? && s.consumer.stale && Available(s, index)
    requires index > 0 && s.tail % s.size != 0
    ensures var r := PeekValue(s, index); !(r.Found? && r.buffer == EntryBuffer(s.log[s.released + index]))
  {
    LiveDecodes(s);
    var m := FirstPosition(s);
    if m == |s.log| {
      GapReadsEmpty(s, 0);
    } else {
      if s.head < s.tail + s.size {
        GapAtHead(s);
      }
      LiveApart(s);
      WrongEntry(s, m, index);
    }
  }

  // ---------------------------------------------------------------- what the scan from cursor 0 finds

  /** The number of unreleased entries. */
  function Unreleased(s: State): nat
    requires s.released <= |s.log|
  {
    |s.log| - s.released
  }

  predicate Full(s: State) { s.head == s.tail + s.size }

  predicate AllCommitted(s: State) {
    forall j :: s.released <= j < |s.log| ==> s.log[j].stage == Committed
  }

  /** The `k`-th entry from entry `m` on, around the ring. */
  function Around(s: State, m: nat, k: nat): (j: nat)
    requires s.released <= m < |s.log| && k < Unreleased(s)
    ensures s.released <= j < |s.log|
  {
    if m + k < |s.log| then m + k else m + k - Unreleased(s)
  }

  /** How many entries lie in front of the scan when it starts on entry `m`, before it comes back or to the gap. */
  function Ahead(s: State, m: nat): nat
    requires s.released <= m < |s.log|
  {
    if Full(s) then Unreleased(s) else |s.log| - m
  }

  /**
    How many entries the scan passes in a full ring without an uncommitted entry: its cursor starts
    at 0 and not at the cursor of entry `m`, so that it goes around as often as that one did.
   */
  function Passes(s: State, m: nat): nat
    requires s.size > 0 && s.released <= m < |s.log|
  {
    Unreleased(s) * (s.log[m].cur / s.size) + (|s.log| - m)
  }

  /** The `index + 1` entries from entry `m` on are there and committed. */
  predicate CommittedUpTo(s: State, m: nat, index: nat)
    requires s.released <= m < |s.log|
  {
    index < Ahead(s, m) && forall k :: 0 <= k <= index ==> s.log[Around(s, m, k)].stage == Committed
  }

  /** A scan from cursor 0 meets entry `m` first, and finds a buffer for `index`. */
  predicate Finds(s: State, m: nat, index: nat)
    requires s.size > 0
  {
    && s.released <= m < |s.log| && s.log[m].pos == 0
    && if Full(s) && AllCommitted(s) then index < Passes(s, m)
       else CommittedUpTo(s, m, index)
  }

  ghost predicate ScanFinds(s: State, index: nat)
    requires s.size > 0
  {
    exists m: nat :: Finds(s, m, index)
  }

  /** What a scan needs to know of a state. */
  ghost predicate Scannable(s: State) {
    && Sized(s.size, s.buf) && Chain(s) && Ordered(s) && Entries(s) && Placed(s) && Window(s) && Decodes(s)
    && (s.head < s.tail + s.size ==> HighWord(s.buf, s.head % s.size) == 0)
  }

  lemma StopsAtEmpty(size: nat, buf: seq<Byte>, head: nat, cur: nat, idx: nat, index: nat)
    requires size > 0 && size + HEADER <= |buf| && HighWord(buf, cur % size) == 0
    ensures ScanFrom(size, buf, head, cur, idx, index) == None(idx, cur)
  {
  }

  /** Nothing is found at a cursor that falls on the gap behind the newest entry. */
  lemma StopsAtGap(s: State, j: nat, cur: nat, idx: nat, index: nat)
    requires Scannable(s) && !Full(s) && j + 1 == |s.log| && s.released <= j && cur % s.size == s.log[j].pos
    ensures var next := cur + (s.log[j].len + HEADER);
      ScanFrom(s.size, s.buf, s.head, next, idx, index) == None(idx, next)
  {
    NextPosition(s, cur, j);
    StopsAtEmpty(s.size, s.buf, s.head, cur + (s.log[j].len + HEADER), idx, index);
  }

  lemma AroundAll(s: State, m: nat)
    requires s.released <= m < |s.log|
    requires forall k :: 0 <= k < Unreleased(s) ==> s.log[Around(s, m, k)].stage == Committed
    ensures AllCommitted(s)
  {
    forall j | s.released <= j < |s.log|
      ensures s.log[j].stage == Committed
    {
      var k := if j >= m then j - m else j - m + Unreleased(s);
      assert Around(s, m, k) == j;
    }
  }

  lemma LiveBetween(s: State, j: nat)
    requires Ordered(s) && Window(s) && s.released <= j < |s.log|
    ensures s.tail <= s.log[j].cur && End(s.log[j]) <= s.head
  {
  }

  /**
    The cursor of a scan that started with 0 on entry `m`, when it meets the `k`-th entry from
    there in its first lap.
   */
  function LapCursor(s: State, m: nat, k: nat): int
    requires s.released <= m < |s.log| && k < Unreleased(s)
  {
    s.log[Around(s, m, k)].cur - s.log[m].cur + (if m + k < |s.log| then 0 else s.size)
  }

  /** From one entry of the lap to the next. */
  lemma LapStep(s: State, m: nat, k: nat, cur: nat)
    requires Scannable(s) && s.released <= m < |s.log| && k + 1 < Ahead(s, m)
    requires cur % s.size == s.log[Around(s, m, k)].pos && cur == LapCursor(s, m, k)
    ensures var j := Around(s, m, k); var next := cur + (s.log[j].len + HEADER);
      next % s.size == s.log[Around(s, m, k + 1)].pos && next == LapCursor(s, m, k + 1)
  {
    var j := Around(s, m, k);
    NextPosition(s, cur, j);
    assert Cursor(s, j + 1) == End(s.log[j]);
    if j + 1 == |s.log| {
      HeadPosition(s);
    }
  }

  lemma LapBelowFirst(s: State, m: nat, k: nat)
    requires Ordered(s) && Window(s) && s.released <= m < |s.log| && k < Ahead(s, m)
    ensures LapCursor(s, m, k) < s.head
  {
    LiveBetween(s, Around(s, m, k));
    LiveBetween(s, m);
  }

  /** Behind the last entry of the lap nothing more is found. */
  lemma LapEnds(s: State, m: nat, k: nat, cur: nat, index: nat)
    requires Scannable(s) && s.released <= m < |s.log| && !(Full(s) && AllCommitted(s)) && k + 1 == Ahead(s, m)
    requires cur % s.size == s.log[Around(s, m, k)].pos
    requires forall i :: 0 <= i <= k ==> s.log[Around(s, m, i)].stage == Committed
    ensures ScanFrom(s.size, s.buf, s.head, cur + (s.log[Around(s, m, k)].len + HEADER), k + 1, index).None?
  {
    if Full(s) {
      AroundAll(s, m);
    } else {
      StopsAtGap(s, Around(s, m, k), cur, k + 1, index);
    }
  }

  /** What the scan finds from the `idx`-th entry of the lap on. */
  ghost predicate LapFinds(s: State, m: nat, cur: nat, idx: nat, index: nat)
    requires s.size > 0 && s.size + HEADER <= |s.buf| && s.released <= m < |s.log|
  {
    var r := ScanFrom(s.size, s.buf, s.head, cur, idx, index);
    (r.Found? || r.None?) && (r.Found? <==> CommittedUpTo(s, m, index))
  }

  /** The entry that the scan is on decides, or the next one does. */
  lemma LapRound(s: State, m: nat, cur: nat, idx: nat, index: nat)
    requires Scannable(s) && s.released <= m < |s.log| && idx < Ahead(s, m) && idx <= index
    requires cur % s.size == s.log[Around(s, m, idx)].pos && cur == LapCursor(s, m, idx)
    requires forall k :: 0 <= k < idx ==> s.log[Around(s, m, k)].stage == Committed
    requires var j := Around(s, m, idx);
      s.log[j].stage == Committed && idx < index ==> LapFinds(s, m, cur + (s.log[j].len + HEADER), idx + 1, index)
    ensures LapFinds(s, m, cur, idx, index)
  {
    LapBelowFirst(s, m, idx);
    ScanRound(s, cur, idx, Around(s, m, idx), index);
  }

  /** One lap, if the ring has a gap or an entry that is not committed. */
  lemma {:induction false} FirstLap(s: State, m: nat, cur: nat, idx: nat, index: nat)
    requires Scannable(s) && s.released <= m < |s.log| && !(Full(s) && AllCommitted(s))
    requires idx < Ahead(s, m) && idx <= index
    requires cur % s.size == s.log[Around(s, m, idx)].pos && cur == LapCursor(s, m, idx)
    requires forall k :: 0 <= k < idx ==> s.log[Around(s, m, k)].stage == Committed
    ensures LapFinds(s, m, cur, idx, index)
    decreases index - idx
  {
    var j := Around(s, m, idx);
    if s.log[j].stage == Committed && idx < index {
      if idx + 1 < Ahead(s, m) {
        LapStep(s, m, idx, cur);
        FirstLap(s, m, cur + (s.log[j].len + HEADER), idx + 1, index);
      } else {
        LapEnds(s, m, idx, cur, index);
      }
    }
    LapRound(s, m, cur, idx, index);
  }

  // ---------------------------------------------------------------- many laps in a full ring

  /** A scan `w` laps ahead is below the head exactly if the cursor of entry `m` has gone around at least as often. */
  lemma LapBelowHead(size: nat, tail: nat, start: nat, laps: nat, x: nat, w: nat)
    requires size > 0 && start == laps * size && tail <= start < tail + size && tail <= x < tail + size
    ensures x - start + size * w < tail + size <==> w <= laps
  {
    assert size * laps == start;
    if w <= laps {
      assert size * w <= size * laps;
    } else {
      assert size * w >= size * (laps + 1) == size * laps + size;
    }
  }

  /** And it is then among the first `n * laps + rest` entries. */
  lemma LapIndex(n: nat, laps: nat, first: nat, m: nat, j: nat, w: nat)
    requires first <= j < first + n && first <= m < first + n
    ensures j - m + n * w < n * laps + (first + n - m) <==> w <= laps
  {
    if w <= laps {
      assert n * w <= n * laps;
    } else {
      assert n * w >= n * (laps + 1) == n * laps + n;
    }
  }

  lemma WholeLaps(cur: nat, size: nat)
    requires size > 0 && cur % size == 0
    ensures cur == (cur / size) * size
  {
  }

  lemma BelowHeadIff(s: State, m: nat, j: nat, w: nat)
    requires Scannable(s) && Full(s)
    requires s.released <= m < |s.log| && s.log[m].pos == 0 && s.released <= j < |s.log|
    ensures s.log[j].cur - s.log[m].cur + s.size * w < s.head <==> j - m + Unreleased(s) * w < Passes(s, m)
  {
    LiveBetween(s, j);
    LiveBetween(s, m);
    BelowHeadAt(s.size, s.tail, s.log[m].cur, s.log[j].cur, w, s.released, |s.log|, m, j);
  }

  lemma BelowHeadAt(size: nat, tail: nat, start: nat, x: nat, w: nat, first: nat, last: nat, m: nat, j: nat)
    requires size > 0 && start % size == 0 && tail <= start < tail + size && tail <= x < tail + size
    requires first <= j < last && first <= m < last
    ensures x - start + size * w < tail + size <==>
      j - m + (last - first) * w < (last - first) * (start / size) + (last - m)
  {
    WholeLaps(start, size);
    LapBelowHead(size, tail, start, start / size, x, w);
    LapIndex(last - first, start / size, first, m, j, w);
  }

  /** A full ring of committed entries: the scan goes around until its cursor reaches the head. */
  lemma {:induction false} Laps(s: State, m: nat, j: nat, w: nat, cur: nat, idx: nat, index: nat)
    requires Scannable(s) && Full(s) && AllCommitted(s)
    requires s.released <= m < |s.log| && s.log[m].pos == 0 && s.released <= j < |s.log|
    requires cur % s.size == s.log[j].pos && cur == s.log[j].cur - s.log[m].cur + s.size * w
    requires idx == j - m + Unreleased(s) * w && idx <= index
    ensures var r := ScanFrom(s.size, s.buf, s.head, cur, idx, index);
      (r.Found? || r.None?) && (r.Found? <==> index < Passes(s, m))
    decreases index - idx
  {
    BelowHeadIff(s, m, j, w);
    if cur < s.head {
      ScanRound(s, cur, idx, j, index);
      if idx < index {
        NextPosition(s, cur, j);
        var next := cur + (s.log[j].len + HEADER);
        assert Cursor(s, j + 1) == End(s.log[j]);
        if j + 1 < |s.log| {
          Laps(s, m, j + 1, w, next, idx + 1, index);
        } else {
          HeadPosition(s);
          NextLap(s.size, w);
          NextLap(Unreleased(s), w);
          Laps(s, m, s.released, w + 1, next, idx + 1, index);
        }
      }
    }
  }

  lemma NextLap(n: nat, w: nat)
    ensures n * (w + 1) == n * w + n
  {
  }

  // ---------------------------------------------------------------- the peek after a release

  lemma PeekScannable(s: State)
    requires Inv(s) && s.consumer.pc.Ready?
    ensures Scannable(s)
  {
    LiveDecodes(s);
    if s.head < s.tail + s.size {
      GapAtHead(s);
    }
  }

  lemma ScanFromStart(s: State, m: nat, index: nat)
    requires Scannable(s) && s.released <= m < |s.log| && s.log[m].pos == 0
    ensures var r := ScanFrom(s.size, s.buf, s.head, 0, 0, index);
      (r.Found? || r.None?) && (r.Found? <==> Finds(s, m, index))
  {
    assert Around(s, m, 0) == m;
    if Full(s) && AllCommitted(s) {
      Laps(s, m, m, 0, 0, 0, index);
    } else {
      FirstLap(s, m, 0, 0, index);
    }
  }

  /** Only one unreleased entry starts at the first byte. */
  lemma StartIsUnique(s: State, m: nat, m': nat)
    requires Separate(s) && s.released <= m < |s.log| && s.released <= m' < |s.log|
    requires s.log[m].pos == 0 && s.log[m'].pos == 0
    ensures m == m'
  {
    assert m != m' ==> Disjoint(s.log[m], s.log[m']);
  }

  lemma FindsAtStart(s: State, m: nat, index: nat)
    requires Inv(s) && s.released <= m < |s.log| && s.log[m].pos == 0
    ensures ScanFinds(s, index) <==> Finds(s, m, index)
  {
    LiveApart(s);
    if ScanFinds(s, index) {
      var m' :| Finds(s, m', index);
      StartIsUnique(s, m, m');
    }
  }

  /** With a gap at the first byte nothing is found. */
  lemma ScanFromGap(s: State, index: nat)
    requires Memory(s) && Sized(s.size, s.buf) && Gap(s, 0)
    ensures ScanFrom(s.size, s.buf, s.head, 0, 0, index).None?
  {
    GapReadsEmpty(s, 0);
    StopsAtEmpty(s.size, s.buf, s.head, 0, 0, index);
  }

  lemma NoneAtGap(s: State, index: nat)
    requires s.size > 0 && Gap(s, 0)
    ensures !ScanFinds(s, index)
  {
    assert forall m :: s.released <= m < |s.log| && s.log[m].pos == 0 ==> InRegion(s.log[m], 0);
    assert Free(s, 0);
  }

  lemma StaleCache(s: State)
    requires Inv(s) && s.consumer.stale
    ensures s.consumer.cachedIndex == 0 && s.consumer.cachedTail == 0 && s.head > 0
  {
    assert Cursor(s, s.released) == End(s.log[s.released - 1]);
  }

  /** What a peek ahead finds right after a release, as a scan from cursor 0. */
  lemma StalePeekFinds(s: State, index: nat)
    requires Inv(s) && s.consumer.pc.Ready? && s.consumer.stale && index > 0
    ensures var r := PeekValue(s, index); (r.Found? || r.None?) && (r.Found? <==> ScanFinds(s, index))
  {
    StaleCache(s);
    var m := FirstPosition(s);
    if m < |s.log| {
      PeekScannable(s);
      ScanFromStart(s, m, index);
      FindsAtStart(s, m, index);
    } else {
      ScanFromGap(s, index);
      NoneAtGap(s, index);
    }
  }

  /** A peek is right: the entry with the index if it and all before it are committed, and nothing otherwise. */
  predicate PeekRight(s: State, index: nat)
    requires s.size > 0 && s.size + HEADER <= |s.buf|
  {
    var r := PeekValue(s, index);
    if Available(s, index) then r.Found? && r.buffer == EntryBuffer(s.log[s.released + index]) else r.None?
  }

  lemma StalePeekIsScan(s: State, index: nat)
    requires Inv(s) && s.consumer.stale && index > 0
    ensures PeekValue(s, index) == ScanFrom(s.size, s.buf, s.head, 0, 0, index)
  {
    StaleCache(s);
  }

  lemma OldestFromStart(s: State, index: nat)
    requires Scannable(s) && Available(s, index) && s.log[s.released].pos == 0
    ensures var r := ScanFrom(s.size, s.buf, s.head, 0, 0, index);
      r.Found? && r.buffer == EntryBuffer(s.log[s.released + index])
  {
    ScanReaches(s, 0, 0, s.released, index);
  }

  lemma OldestPosition(s: State)
    requires s.size > 0 && Placed(s) && Window(s) && s.released < |s.log|
    ensures s.log[s.released].pos == 0 <==> s.tail % s.size == 0
  {
  }

  lemma AvailableAfterRelease(s: State, index: nat)
    requires Inv(s) && s.consumer.pc.Ready? && s.consumer.stale && index > 0 && Available(s, index)
    ensures PeekRight(s, index) <==> s.log[s.released].pos == 0
  {
    OldestPosition(s);
    if s.log[s.released].pos == 0 {
      PeekScannable(s);
      OldestFromStart(s, index);
      StalePeekIsScan(s, index);
    } else {
      PeekAstray(s, index);
    }
  }

  /**
    queueRelease resets the cached cursor to 0 and not to the tail, so that a peek ahead right after
    it scans from the first byte of the buffer. It is right - for every index and in every state - if
    and only if the index is 0, or the entry is available and the tail is at the first byte, or the
    entry is not available and the scan from the first byte finds none either.
   */
  lemma PeekAfterRelease(s: State, index: nat)
    requires Inv(s) && s.consumer.pc.Ready? && s.consumer.stale
    ensures PeekRight(s, index) <==>
      index == 0 || (if Available(s, index) then s.tail % s.size == 0 else !ScanFinds(s, index))
  {
    if index == 0 {
      PeekAgreesWithScan(s, index);
    } else {
      StalePeekFinds(s, index);
      if Available(s, index) {
        AvailableAfterRelease(s, index);
        OldestPosition(s);
      }
    }
  }

  /**
    When the tail is at the first byte, only a full ring misleads: a peek for an entry that is not
    there goes around it once more, and returns an entry that is.
   */
  lemma PeekAroundFullRing(s: State, index: nat)
    requires Inv(s) && s.consumer.pc.Ready? && s.consumer.stale && s.tail % s.size == 0 && !Available(s, index)
    ensures PeekRight(s, index) <==>
      !(Full(s) && AllCommitted(s) && index < Unreleased(s) * (s.tail / s.size + 1))
  {
    PeekAfterRelease(s, index);
    if s.released < |s.log| {
      assert s.log[s.released].pos == 0;
      FindsAtStart(s, s.released, index);
      FindsFromOldest(s, index);
    }
  }

  lemma FindsFromOldest(s: State, index: nat)
    requires s.size > 0 && s.released < |s.log| && s.log[s.released].pos == 0 && s.log[s.released].cur == s.tail
    ensures Finds(s, s.released, index) <==>
      Available(s, index) || (Full(s) && AllCommitted(s) && index < Unreleased(s) * (s.tail / s.size + 1))
  {
    if Full(s) && AllCommitted(s) {
      NextLap(Unreleased(s), s.tail / s.size);
      assert Unreleased(s) * (s.tail / s.size) >= 0;
    } else {
      assert forall k :: 0 <= k < Unreleased(s) ==> Around(s, s.released, k) == s.released + k;
      AvailableOnce(s, index);
    }
  }

  lemma AvailableOnce(s: State, index: nat)
    requires s.released < |s.log|
    ensures Available(s, index) <==> CommittedUpTo(s, s.released, index)
  {
    assert forall k :: 0 <= k < Unreleased(s) ==> Around(s, s.released, k) == s.released + k;
    if Available(s, index) {
      assert forall k :: 0 <= k <= index ==> s.log[Around(s, s.released, k)].stage == Committed;
    } else if CommittedUpTo(s, s.released, index) {
      forall m | s.released <= m <= s.released + index
        ensures s.log[m].stage == Committed
      {
        assert s.log[Around(s, s.released, m - s.released)].stage == Committed;
      }
    }
  }
}
