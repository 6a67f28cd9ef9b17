/** Every producer step of the variable-size queue keeps its invariant. */
module VarQueueProducers {
  import opened Bytes
  import opened QueueEntry
  import opened VarQueue
  import opened VarQueueMemory

  /** The clearing of the oldest entry stays inside that entry. */
  ghost predicate ClearInside(s: State) {
    Cleared(s) > 0 ==> s.released < |s.log| && s.log[s.released].stage == Committed &&
                       Cleared(s) <= HEADER + s.log[s.released].len
  }

  lemma ConsumerClearInside(s: State)
    requires ConsumerOk(s)
    ensures ClearInside(s)
  {
    if Cleared(s) > 0 {
      assert BufferOk(s, s.released, s.consumer.bufs[s.released]);
    }
  }

  /** The overrun test, even on a stale tail, never lets the head run more than the buffer size ahead. */
  lemma ReserveWindow(s: State, p: Producer)
    requires Sized(s.size, s.buf) && Window(s) && ProducerOk(s, p) && p.Reserve? && Reserves(s, p, false)
    ensures s.head + p.len + HEADER <= s.tail + s.size
  {
  }

  lemma ReserveChain(s: State, p: Producer)
    requires s.size > 0 && Chain(s) && p.Reserve? && p.len >= USER_HEADER && Reserves(s, p, false)
    ensures Chain(ProducerEffect(s, p, TryReserve(false)))
  {
    var s' := ProducerEffect(s, p, TryReserve(false));
    assert Cursor(s', 0) == Cursor(s, 0);
    forall j | 0 < j <= |s'.log|
      ensures Cursor(s', j) == End(s'.log[j - 1])
    {
      if j <= |s.log| {
        assert Cursor(s', j) == Cursor(s, j);
      }
    }
  }

  lemma ReserveOrdered(s: State, p: Producer)
    requires s.size > 0 && Ordered(s) && Entries(s) && ProducerOk(s, p) && p.Reserve? && Reserves(s, p, false)
    ensures Ordered(ProducerEffect(s, p, TryReserve(false))) && Entries(ProducerEffect(s, p, TryReserve(false)))
  {
  }

  lemma ReservePlaced(s: State, p: Producer)
    requires s.size > 0 && Placed(s) && p.Reserve? && p.len >= USER_HEADER && Reserves(s, p, false)
    ensures Placed(ProducerEffect(s, p, TryReserve(false)))
  {
  }

  lemma ReserveCursors(s: State, p: Producer)
    requires Sized(s.size, s.buf) && Chain(s) && Ordered(s) && Entries(s) && Placed(s) && Window(s)
    requires ProducerOk(s, p) && p.Reserve? && Reserves(s, p, false)
    ensures var s' := ProducerEffect(s, p, TryReserve(false));
      Chain(s') && Ordered(s') && Entries(s') && Placed(s') && Window(s')
  {
    ReserveWindow(s, p);
    ReserveChain(s, p);
    ReserveOrdered(s, p);
    ReservePlaced(s, p);
    assert Cursor(ProducerEffect(s, p, TryReserve(false)), s.released) == Cursor(s, s.released);
  }

  lemma ReserveMemory(s: State, p: Producer)
    requires Memory(s) && Window(s) && p.Reserve? && s.size > 0 && USER_HEADER <= p.len < 0x10000
    requires Reserves(s, p, false)
    requires ClearInside(s)
    requires Separate(ProducerEffect(s, p, TryReserve(false)))
    ensures Memory(ProducerEffect(s, p, TryReserve(false)))
  {
    var s' := ProducerEffect(s, p, TryReserve(false));
    var n := |s.log|;
    var e := s'.log[n];
    assert e.pos + HEADER + e.len <= |s.buf|;
    forall x | e.pos <= x < e.pos + HEADER + e.len
      ensures s.buf[x] == 0
    {
      forall j | s.released <= j < n
        ensures !InRegion(s.log[j], x)
      {
        assert Disjoint(s'.log[j], s'.log[n]);
      }
      assert Free(s, x);
    }
    assert s.buf[e.pos..e.pos + HEADER] == Word(0, 0);
    assert s.buf[e.pos + HEADER + USER_HEADER..e.pos + HEADER + e.len] == Zeros(p.len - USER_HEADER);
    assert Image(s'.buf, e);
    forall j | s'.released <= j < |s'.log|
      ensures EntryMemory(s', j)
    {
      assert j < n ==> EntryMemory(s, j);
    }
    forall x | 0 <= x < |s'.buf| && Free(s', x)
      ensures s'.buf[x] == 0
    {
      forall j | s.released <= j < n
        ensures !InRegion(s.log[j], x)
      {
        assert !InRegion(s'.log[j], x);
      }
      assert Free(s, x);
    }
  }

  predicate Writes(step: ProducerStep) { step.StoreReserved? || step.WriteByte? || step.Push? }

  lemma HeaderImage(buf: seq<Byte>, e: Entry, stage: Stage)
    requires Image(buf, e) && stage != Claimed
    ensures Image(Splice(buf, e.pos, Word(e.len, if stage == Committed then COMMITTED else 0)), e.(stage := stage))
  {
    var buf' := Splice(buf, e.pos, Word(e.len, if stage == Committed then COMMITTED else 0));
    var lo, hi := e.pos + HEADER + USER_HEADER, e.pos + HEADER + e.len;
    assert buf'[e.pos..e.pos + HEADER] == Word(e.len, if stage == Committed then COMMITTED else 0);
    assert buf'[lo..hi] == buf[lo..hi];
  }

  lemma ByteImage(buf: seq<Byte>, e: Entry, off: nat, val: Byte)
    requires Image(buf, e) && off < |e.payload|
    ensures Image(Put(buf, e.pos + HEADER + USER_HEADER + off, val), e.(payload := Put(e.payload, off, val)))
  {
    var buf' := Put(buf, e.pos + HEADER + USER_HEADER + off, val);
    var lo, hi := e.pos + HEADER + USER_HEADER, e.pos + HEADER + e.len;
    assert buf'[e.pos..e.pos + HEADER] == buf[e.pos..e.pos + HEADER];
    assert buf'[lo..hi] == buf[lo..hi][off := val];
  }

  /** Header stores and payload bytes of a producer give its own entry the image it should have. */
  lemma OwnImage(s: State, p: Producer, step: ProducerStep)
    requires ProducerOk(s, p) && ProducerEnabled(s, p, step) && Writes(step)
    requires Image(s.buf, s.log[p.e]) && p.len <= MAX_ENTRY
    ensures Image(ProducerEffect(s, p, step).buf, ProducerEffect(s, p, step).log[p.e])
    ensures OnlyEntryChanged(s, ProducerEffect(s, p, step), p.e)
  {
    match step {
      case WriteByte(off, val) => ByteImage(s.buf, s.log[p.e], off, val);
      case StoreReserved => HeaderImage(s.buf, s.log[p.e], Marked);
      case Push => HeaderImage(s.buf, s.log[p.e], Committed);
    }
  }

  lemma WriteMemory(s: State, p: Producer, step: ProducerStep)
    requires Separate(s) && Memory(s) && ClearInside(s)
    requires ProducerOk(s, p) && ProducerEnabled(s, p, step) && Writes(step) && p.len <= MAX_ENTRY
    ensures Memory(ProducerEffect(s, p, step))
  {
    assert EntryMemory(s, p.e);
    OwnImage(s, p, step);
    RegionWrite(s, ProducerEffect(s, p, step), p.e);
  }

  /** The log only grows, and its entries keep cursor, place and length; a committed entry is final. */
  ghost predicate LogGrows(s: State, s': State) {
    && s'.size == s.size && s'.released == s.released && s'.tail == s.tail && s'.consumer == s.consumer
    && s.head <= s'.head && |s.log| <= |s'.log|
    && (forall j :: 0 <= j < |s.log| ==>
      s'.log[j].cur == s.log[j].cur && s'.log[j].pos == s.log[j].pos && s'.log[j].len == s.log[j].len)
    && (forall j :: 0 <= j < |s.log| && s.log[j].stage == Committed ==> s'.log[j] == s.log[j])
    && (|s.log| < |s'.log| ==> s'.log[|s.log|].cur == s.head)
    && (|s.log| == |s'.log| ==> s'.head == s.head)
  }

  lemma ProducerGrows(s: State, p: Producer, step: ProducerStep)
    requires ProducerOk(s, p) && ProducerEnabled(s, p, step)
    ensures LogGrows(s, ProducerEffect(s, p, step))
  {
  }

  lemma GrowKeepsConsumer(s: State, s': State)
    requires ConsumerOk(s) && LogGrows(s, s')
    ensures ConsumerOk(s')
  {
    var c := s.consumer;
    if !c.stale {
      GrowKeepsPlace(s, s', c.cachedIndex, c.cachedTail);
    }
    if c.pc.Scan? {
      GrowKeepsPlace(s, s', c.pc.idx, c.pc.cur);
    }
    forall m | m in c.bufs && m >= s.released
      ensures BufferOk(s', m, c.bufs[m])
    {
      assert BufferOk(s, m, c.bufs[m]);
    }
  }

  lemma GrowKeepsPlace(s: State, s': State, idx: nat, cur: nat)
    requires AtEntry(s, idx, cur) && LogGrows(s, s')
    ensures AtEntry(s', idx, cur)
  {
  }

  /** The other producers keep what they own. */
  lemma OtherProducerOk(s: State, p: Producer, step: ProducerStep, q: Producer)
    requires ProducerOk(s, p) && ProducerEnabled(s, p, step) && ProducerOk(s, q)
    requires Owns(p) && Owns(q) ==> p.e != q.e
    ensures ProducerOk(ProducerEffect(s, p, step), q)
  {
  }

  lemma OwnProducerOk(s: State, p: Producer, step: ProducerStep)
    requires s.size > 0 && s.released <= |s.log| && ProducerOk(s, p) && ProducerEnabled(s, p, step)
    ensures ProducerOk(ProducerEffect(s, p, step), ProducerAfter(s, p, step))
    ensures var p' := ProducerAfter(s, p, step); Owns(p') ==> (Owns(p) && p'.e == p.e) || (!Owns(p) && p'.e == |s.log|)
  {
    if step.AcquireStart? && ValidPacket(step.packetLen, MAX_PAYLOAD) {
      EntryLengthFits(step.packetLen, MAX_PAYLOAD);
    }
  }

  lemma ProducersStep(s: State, t: nat, step: ProducerStep)
    requires s.size > 0 && s.released <= |s.log| && ProducersOk(s) && Enabled(s, Produce(t, step))
    ensures ProducersOk(Apply(s, Produce(t, step)))
  {
    var s', p := Apply(s, Produce(t, step)), s.producers[t];
    OwnProducerOk(s, p, step);
    forall u | 0 <= u < |s.producers| && u != t
      ensures ProducerOk(s', s'.producers[u])
      ensures Owns(s'.producers[u]) && Owns(s'.producers[t]) ==> s'.producers[u].e != s'.producers[t].e
    {
      assert ProducerOk(s, s.producers[u]);
      OtherProducerOk(s, p, step, s.producers[u]);
      assert ProducerOk(ProducerEffect(s, p, step), s.producers[u]);
    }
  }

  lemma ProducerWrites(s: State, p: Producer, step: ProducerStep)
    requires Sized(s.size, s.buf) && Chain(s) && Ordered(s) && Entries(s) && Placed(s) && Window(s)
    requires Memory(s) && ClearInside(s) && ProducerOk(s, p) && ProducerEnabled(s, p, step) && Writes(step)
    ensures var s' := ProducerEffect(s, p, step);
      Sized(s'.size, s'.buf) && Chain(s') && Ordered(s') && Entries(s') && Placed(s') && Window(s') && Memory(s')
  {
    LiveApart(s);
    assert EntryOk(s.log[p.e]);
    WriteMemory(s, p, step);
    StageKeepsCursors(s, ProducerEffect(s, p, step));
  }

  lemma ProducerBytes(s: State, p: Producer, step: ProducerStep)
    requires Sized(s.size, s.buf) && Chain(s) && Ordered(s) && Entries(s) && Placed(s) && Window(s)
    requires Memory(s) && ClearInside(s) && ProducerOk(s, p) && ProducerEnabled(s, p, step)
    ensures var s' := ProducerEffect(s, p, step);
      Sized(s'.size, s'.buf) && Chain(s') && Ordered(s') && Entries(s') && Placed(s') && Window(s') && Memory(s')
  {
    var s' := ProducerEffect(s, p, step);
    if step.TryReserve? && Reserves(s, p, step.spurious) {
      ReserveCursors(s, p);
      LiveApart(s');
      ReserveMemory(s, p);
    } else if Writes(step) {
      ProducerWrites(s, p, step);
    } else {
      SameMemory(s, s');
    }
  }

  lemma StageKeepsCursors(s: State, s': State)
    requires s'.size == s.size && s'.head == s.head && s'.tail == s.tail && s'.released == s.released
    requires |s'.log| == |s.log|
    requires forall j :: 0 <= j < |s.log| ==> s'.log[j].cur == s.log[j].cur && s'.log[j].pos == s.log[j].pos &&
                                              s'.log[j].len == s.log[j].len && |s'.log[j].payload| == |s.log[j].payload|
    requires s.size > 0 && Chain(s) && Ordered(s) && Entries(s) && Placed(s) && Window(s)
    ensures Chain(s') && Ordered(s') && Entries(s') && Placed(s') && Window(s')
  {
    assert forall j :: 0 <= j <= |s.log| ==> Cursor(s', j) == Cursor(s, j);
  }

  lemma SameMemory(s: State, s': State)
    requires s'.buf == s.buf && s'.log == s.log && s'.released == s.released && s'.size == s.size
    requires s'.head == s.head && s'.tail == s.tail
    requires Cleared(s') == Cleared(s)
    requires s.size > 0 && Chain(s) && Ordered(s) && Entries(s) && Placed(s) && Window(s) && Memory(s)
    ensures Chain(s') && Ordered(s') && Entries(s') && Placed(s') && Window(s') && Memory(s')
  {
    StageKeepsCursors(s, s');
    assert forall j :: s.released <= j < |s.log| ==> EntryMemory(s, j) ==> EntryMemory(s', j);
    assert forall x :: Free(s', x) ==> Free(s, x);
  }

  lemma ProducerStepBytes(s: State, t: nat, step: ProducerStep)
    requires Sized(s.size, s.buf) && Chain(s) && Ordered(s) && Entries(s) && Placed(s) && Window(s)
    requires Memory(s) && ClearInside(s) && ProducersOk(s) && Enabled(s, Produce(t, step))
    ensures var s' := Apply(s, Produce(t, step));
      Sized(s'.size, s'.buf) && Chain(s') && Ordered(s') && Entries(s') && Placed(s') && Window(s') && Memory(s')
  {
    ProducerBytes(s, s.producers[t], step);
    SameMemory(ProducerEffect(s, s.producers[t], step), Apply(s, Produce(t, step)));
  }

  lemma ProducerStepConsumer(s: State, t: nat, step: ProducerStep)
    requires ProducersOk(s) && ConsumerOk(s) && Delivered(s) && Enabled(s, Produce(t, step))
    ensures ConsumerOk(Apply(s, Produce(t, step))) && Delivered(Apply(s, Produce(t, step)))
  {
    var p := s.producers[t];
    var s1 := ProducerEffect(s, p, step);
    ProducerGrows(s, p, step);
    GrowKeepsConsumer(s, s1);
    SameConsumer(s1, Apply(s, Produce(t, step)));
  }

  lemma ProducerStepInv(s: State, t: nat, step: ProducerStep)
    requires Inv(s) && Enabled(s, Produce(t, step))
    ensures Inv(Apply(s, Produce(t, step)))
  {
    ConsumerClearInside(s);
    ProducerStepBytes(s, t, step);
    ProducersStep(s, t, step);
    ProducerStepConsumer(s, t, step);
  }

  lemma SamePlace(s: State, s': State, idx: nat, cur: nat)
    requires s'.log == s.log && s'.released == s.released && s'.head == s.head
    requires AtEntry(s, idx, cur)
    ensures AtEntry(s', idx, cur)
  {
  }

  lemma SameBuffers(s: State, s': State, bufs: map<nat, Buffer>)
    requires s'.log == s.log && s'.released >= s.released
    requires forall m :: m in bufs && m >= s.released ==> BufferOk(s, m, bufs[m])
    ensures forall m :: m in bufs && m >= s'.released ==> BufferOk(s', m, bufs[m])
  {
    forall m | m in bufs && m >= s'.released
      ensures BufferOk(s', m, bufs[m])
    {
      assert BufferOk(s, m, bufs[m]);
    }
  }

  lemma SameConsumer(s: State, s': State)
    requires s'.log == s.log && s'.released == s.released && s'.head == s.head && s'.consumer == s.consumer
    requires ConsumerOk(s)
    ensures ConsumerOk(s')
  {
    var c := s.consumer;
    SameBuffers(s, s', c.bufs);
    if !c.stale {
      SamePlace(s, s', c.cachedIndex, c.cachedTail);
    }
    if c.pc.Scan? {
      SamePlace(s, s', c.pc.idx, c.pc.cur);
    }
  }
}
