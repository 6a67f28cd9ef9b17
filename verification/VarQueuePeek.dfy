/** What queuePeek returns with its cache, compared with a plain scan from the tail. */
module VarQueuePeek {
  import opened Arithmetic
  import opened Bytes
  import opened QueueEntry
  import opened VarQueue
  import opened VarQueueConsumer

  datatype PeekResult =
    | None(idx: nat, cur: nat)
    | Found(idx: nat, cur: nat, buffer: Buffer)
    | Corrupt

  /** The peek loop, entered at cursor `cur` with index `idx`. */
  function ScanFrom(size: nat, buf: seq<Byte>, head: nat, cur: nat, idx: nat, index: nat): PeekResult
    requires size > 0 && size + HEADER <= |buf|
    decreases head - cur
  {
    if head <= cur then None(idx, cur)
    else
      var p := cur % size;
      var len, state := LowWord(buf, p), HighWord(buf, p);
      if state != COMMITTED then (if state != 0 then Corrupt else None(idx, cur))
      else if !(0 < len <= MAX_ENTRY) then Corrupt
      else if idx == index then Found(idx, cur, Buffer(p + HEADER, len))
      else ScanFrom(size, buf, head, cur + (len + HEADER), idx + 1, index)
  }

  /** queuePeek: the loop starts at the cached entry where the code allows that. */
  function PeekFrom(size: nat, buf: seq<Byte>, head: nat, tail: nat, cachedIndex: nat, cachedTail: nat,
                    index: nat): PeekResult
    requires size > 0 && size + HEADER <= |buf|
  {
    if index > 0 && index >= cachedIndex then ScanFrom(size, buf, head, cachedTail, cachedIndex, index)
    else ScanFrom(size, buf, head, tail, 0, index)
  }

  function PeekValue(s: State, index: nat): PeekResult
    requires s.size > 0 && s.size + HEADER <= |s.buf|
  {
    PeekFrom(s.size, s.buf, s.head, s.tail, s.consumer.cachedIndex, s.consumer.cachedTail, index)
  }

  /** The specification of a peek: the entry is there, and it and all before it are committed. */
  predicate Available(s: State, index: nat) {
    && s.released + index < |s.log|
    && forall m :: s.released <= m <= s.released + index ==> s.log[m].stage == Committed
  }

  function EntryBuffer(e: Entry): Buffer { Buffer(e.pos + HEADER, e.len) }

  lemma NextPosition(s: State, cur: nat, m: nat)
    requires s.size > 0 && Chain(s) && Placed(s) && m < |s.log| && cur % s.size == s.log[m].pos
    ensures (cur + (s.log[m].len + HEADER)) % s.size == Cursor(s, m + 1) % s.size
    ensures m + 1 < |s.log| ==> (cur + (s.log[m].len + HEADER)) % s.size == s.log[m + 1].pos
  {
    assert Cursor(s, m + 1) == End(s.log[m]);
    Congruent(s.size, cur, s.log[m].cur, s.log[m].len + HEADER);
  }

  /** One round of the scan at a cursor that falls on entry `m`. */
  lemma ScanRound(s: State, cur: nat, idx: nat, m: nat, index: nat)
    requires Sized(s.size, s.buf) && Decodes(s)
    requires s.released <= m < |s.log| && cur % s.size == s.log[m].pos && cur < s.head
    ensures ScanFrom(s.size, s.buf, s.head, cur, idx, index) ==
      if s.log[m].stage != Committed then None(idx, cur)
      else if idx == index then Found(idx, cur, EntryBuffer(s.log[m]))
      else ScanFrom(s.size, s.buf, s.head, cur + (s.log[m].len + HEADER), idx + 1, index)
  {
    assert HeaderReads(s, m);
  }

  /**
    A scan that starts on entry `m` reaches the entry `index - idx` further on, if that one and all
    before it are committed; it may run on cursors that are behind the real ones.
   */
  lemma {:induction false} ScanReaches(s: State, cur: nat, idx: nat, m: nat, index: nat)
    requires Sized(s.size, s.buf) && Chain(s) && Ordered(s) && Placed(s) && Decodes(s)
    requires s.released <= m && idx <= index && m + (index - idx) < |s.log|
    requires cur % s.size == s.log[m].pos && cur <= s.log[m].cur
    requires forall k :: m <= k <= m + (index - idx) ==> s.log[k].stage == Committed
    ensures var r := ScanFrom(s.size, s.buf, s.head, cur, idx, index);
      r.Found? && r.idx == index && r.buffer == EntryBuffer(s.log[m + (index - idx)])
    decreases index - idx
  {
    assert End(s.log[m]) <= s.head;
    ScanRound(s, cur, idx, m, index);
    if idx < index {
      NextPosition(s, cur, m);
      assert End(s.log[m]) <= s.log[m + 1].cur;
      ScanReaches(s, cur + (s.log[m].len + HEADER), idx + 1, m + 1, index);
    }
  }

  /** A scan on the real cursors stops if the entry is missing or something before it is not committed. */
  lemma {:induction false} ScanStops(s: State, cur: nat, idx: nat, index: nat)
    requires Sized(s.size, s.buf) && Chain(s) && Placed(s) && Decodes(s)
    requires AtEntry(s, idx, cur) && idx <= index && !Available(s, index)
    ensures ScanFrom(s.size, s.buf, s.head, cur, idx, index).None?
    decreases index - idx
  {
    var m := s.released + idx;
    if cur < s.head {
      BelowHead(s, idx, cur);
      ScanRound(s, cur, idx, m, index);
      if s.log[m].stage == Committed {
        assert idx == index ==> Available(s, index);
        NextEntry(s, idx, cur);
        ScanStops(s, cur + (s.log[m].len + HEADER), idx + 1, index);
      }
    }
  }

  /**
    The peek cache is invisible: unless an entry was released since the last peek, queuePeek
    returns the `index`-th unreleased entry if it and all before it are committed, and nothing
    otherwise - exactly what a scan from the tail returns. Index 0 is right in every state.
   */
  lemma PeekAgreesWithScan(s: State, index: nat)
    requires Inv(s) && s.consumer.pc.Ready?
    requires index == 0 || !s.consumer.stale
    ensures var r, plain := PeekValue(s, index), ScanFrom(s.size, s.buf, s.head, s.tail, 0, index);
      && (r.Found? <==> Available(s, index)) && (r.None? <==> !Available(s, index))
      && (plain.Found? <==> r.Found?) &&
        (r.Found? ==> r.buffer == plain.buffer == EntryBuffer(s.log[s.released + index]))
  {
    LiveDecodes(s);
    ScanFromEntry(s, 0, s.tail, index);
    if index > 0 && index >= s.consumer.cachedIndex {
      ScanFromEntry(s, s.consumer.cachedIndex, s.consumer.cachedTail, index);
    }
  }

  lemma ScanFromEntry(s: State, idx: nat, cur: nat, index: nat)
    requires Sized(s.size, s.buf) && Chain(s) && Ordered(s) && Placed(s) && Decodes(s)
    requires AtEntry(s, idx, cur) && idx <= index
    ensures var r := ScanFrom(s.size, s.buf, s.head, cur, idx, index);
      && (Available(s, index) ==> r.Found? && r.buffer == EntryBuffer(s.log[s.released + index]))
      && (!Available(s, index) ==> r.None?)
  {
    if Available(s, index) {
      ScanReaches(s, cur, idx, s.released + idx, index);
    } else {
      ScanStops(s, cur, idx, index);
    }
  }
}
