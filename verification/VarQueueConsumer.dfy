/** Every consumer step of the variable-size queue keeps its invariant, and so does every run. */
module VarQueueConsumer {
  import opened Bytes
  import opened QueueEntry
  import opened VarQueue
  import opened VarQueueMemory
  import opened VarQueueProducers

  /** Everything about the memory that a scan relies on. */
  ghost predicate Readable(s: State) {
    && Sized(s.size, s.buf) && Entries(s) && Placed(s) && Memory(s) && Cleared(s) == 0
  }

  /** The header of every unreleased entry reads as what the log says about the entry. */
  ghost predicate Decodes(s: State)
    requires s.size > 0 && s.size + HEADER <= |s.buf|
  {
    forall m :: s.released <= m < |s.log| ==> HeaderReads(s, m)
  }

  ghost predicate HeaderReads(s: State, m: nat)
    requires m < |s.log|
  {
    var e := s.log[m];
    && e.pos + HEADER <= |s.buf|
    && 0 < e.len <= MAX_ENTRY
    && HighWord(s.buf, e.pos) == (if e.stage == Committed then COMMITTED else 0)
    && (e.stage == Committed ==> LowWord(s.buf, e.pos) == e.len)
  }

  lemma LiveDecodes(s: State)
    requires Readable(s)
    ensures Decodes(s)
  {
    forall m | s.released <= m < |s.log|
      ensures HeaderReads(s, m)
    {
      assert EntryMemory(s, m) && EntryOk(s.log[m]);
      ImageReads(s.buf, s.log[m]);
    }
  }

  lemma ImageReads(buf: seq<Byte>, e: Entry)
    requires Image(buf, e)
    ensures HighWord(buf, e.pos) == if e.stage == Committed then COMMITTED else 0
    ensures e.stage == Committed ==> LowWord(buf, e.pos) == e.len
  {
    match e.stage
    case Claimed => WordReads(buf, e.pos, 0, 0);
    case Marked => WordReads(buf, e.pos, e.len, 0);
    case Committed => WordReads(buf, e.pos, e.len, COMMITTED);
  }

  /** What the consumer reads at the entry its cursor is on. */
  lemma ReadEntry(s: State, idx: nat, cur: nat)
    requires Sized(s.size, s.buf) && Placed(s) && Decodes(s)
    requires AtEntry(s, idx, cur) && s.released + idx < |s.log|
    ensures cur % s.size == s.log[s.released + idx].pos && HeaderReads(s, s.released + idx)
  {
  }

  lemma NextEntry(s: State, idx: nat, cur: nat)
    requires Chain(s) && AtEntry(s, idx, cur) && s.released + idx < |s.log|
    requires s.log[s.released + idx].stage == Committed
    ensures AtEntry(s, idx + 1, cur + (s.log[s.released + idx].len + HEADER))
  {
    assert Cursor(s, s.released + idx + 1) == End(s.log[s.released + idx]);
  }

  /** A cursor below an observed head is the cursor of an entry. */
  lemma BelowHead(s: State, idx: nat, cur: nat)
    requires AtEntry(s, idx, cur) && cur < s.head
    ensures s.released + idx < |s.log|
  {
  }

  /** What one round of the peek loop means, in terms of the log instead of the bytes. */
  function ScanOutcome(s: State): Consumer
    requires s.consumer.pc.Scan?
  {
    var c, pc := s.consumer, s.consumer.pc;
    if pc.head <= pc.cur || s.released + pc.idx >= |s.log| || s.log[s.released + pc.idx].stage != Committed then
      Nothing(c)
    else
      var e := s.log[s.released + pc.idx];
      if pc.idx == pc.index then
        c.(pc := Ready, cachedIndex := pc.idx + 1, cachedTail := End(e), stale := false,
           bufs := c.bufs[s.released + pc.index := Buffer(e.pos + HEADER, e.len)])
      else c.(pc := Scan(pc.index, pc.head, End(e), pc.idx + 1))
  }

  /** The bytes at the cursor tell the consumer exactly what the log says; no header is ever inconsistent. */
  lemma ScanMeaning(s: State)
    requires Sized(s.size, s.buf) && Placed(s) && Decodes(s) && ConsumerOk(s)
    requires ConsumerEnabled(s, ScanEntry)
    ensures ConsumerAfter(s, ScanEntry) == ScanOutcome(s)
  {
    var pc := s.consumer.pc;
    if pc.cur < pc.head {
      BelowHead(s, pc.idx, pc.cur);
      ReadEntry(s, pc.idx, pc.cur);
    }
  }

  lemma OutcomeBuffers(s: State)
    requires ConsumerOk(s) && s.consumer.pc.Scan?
    ensures var bufs := ScanOutcome(s).bufs;
      forall m :: m in bufs && m >= s.released ==> BufferOk(s, m, bufs[m])
  {
    var bufs := ScanOutcome(s).bufs;
    forall m | m in bufs && m >= s.released
      ensures BufferOk(s, m, bufs[m])
    {
      if m in s.consumer.bufs {
        assert BufferOk(s, m, s.consumer.bufs[m]);
      }
    }
  }

  /** One step of the peek loop: the cursor stays on entry boundaries. */
  lemma ScanStep(s: State, s': State)
    requires Chain(s) && ConsumerOk(s) && s.consumer.pc.Scan? && s' == s.(consumer := ScanOutcome(s))
    ensures ConsumerOk(s')
  {
    var pc := s.consumer.pc;
    OutcomeBuffers(s);
    SameBuffers(s, s', s'.consumer.bufs);
    SamePlace(s, s', pc.idx, pc.cur);
    if s.released + pc.idx < |s.log| && s.log[s.released + pc.idx].stage == Committed {
      NextEntry(s, pc.idx, pc.cur);
      SamePlace(s, s', pc.idx + 1, pc.cur + (s.log[s.released + pc.idx].len + HEADER));
    }
  }

  lemma UserHeaderMemory(s: State, m: nat, off: nat, val: Byte)
    requires Separate(s) && Memory(s) && Cleared(s) == 0 && ConsumerEnabled(s, WriteUserHeader(m, off, val))
    requires BufferOk(s, m, s.consumer.bufs[m])
    ensures Memory(ConsumerEffect(s, WriteUserHeader(m, off, val)))
  {
    var s', e := ConsumerEffect(s, WriteUserHeader(m, off, val)), s.log[m];
    assert EntryMemory(s, m);
    assert s'.buf[e.pos..e.pos + HEADER] == s.buf[e.pos..e.pos + HEADER];
    var lo, hi := e.pos + HEADER + USER_HEADER, e.pos + HEADER + e.len;
    assert s'.buf[lo..hi] == s.buf[lo..hi];
    RegionWrite(s, s', m);
  }

  lemma ClearMemory(s: State)
    requires Separate(s) && Memory(s) && ConsumerEnabled(s, ClearByte)
    requires BufferOk(s, s.released, s.consumer.bufs[s.released])
    ensures Memory(Apply(s, Consume(ClearByte)))
  {
    var s', e := Apply(s, Consume(ClearByte)), s.log[s.released];
    assert EntryMemory(s, s.released);
    RegionWrite(s, s', s.released);
  }

  lemma AdvanceMemory(s: State)
    requires Memory(s) && ConsumerEnabled(s, AdvanceTail)
    requires BufferOk(s, s.released, s.consumer.bufs[s.released])
    ensures Memory(Apply(s, Consume(AdvanceTail)))
  {
    var s', e := Apply(s, Consume(AdvanceTail)), s.log[s.released];
    assert EntryMemory(s, s.released);
    forall j | s'.released <= j < |s'.log|
      ensures EntryMemory(s', j)
    {
      assert EntryMemory(s, j);
    }
    forall x | 0 <= x < |s'.buf| && Free(s', x)
      ensures s'.buf[x] == 0
    {
      if !InRegion(e, x) {
        forall j | s.released <= j < |s.log|
          ensures !InRegion(s.log[j], x)
        {
          assert j > s.released ==> !InRegion(s'.log[j], x);
        }
        assert Free(s, x);
      }
    }
  }

  lemma AdvanceWindow(s: State)
    requires Chain(s) && Ordered(s) && Window(s) && ConsumerEnabled(s, AdvanceTail)
    requires BufferOk(s, s.released, s.consumer.bufs[s.released])
    ensures Window(Apply(s, Consume(AdvanceTail)))
  {
    assert Cursor(s, s.released + 1) == End(s.log[s.released]);
  }

  lemma AdvanceProducers(s: State)
    requires ProducersOk(s) && ConsumerEnabled(s, AdvanceTail)
    requires BufferOk(s, s.released, s.consumer.bufs[s.released])
    ensures ProducersOk(Apply(s, Consume(AdvanceTail)))
  {
    var s' := Apply(s, Consume(AdvanceTail));
    forall t | 0 <= t < |s'.producers|
      ensures ProducerOk(s', s'.producers[t])
    {
      assert ProducerOk(s, s.producers[t]);
    }
  }

  lemma UserHeaderBytes(s: State, step: ConsumerStep)
    requires Sized(s.size, s.buf) && Chain(s) && Ordered(s) && Entries(s) && Placed(s) && Window(s) && Memory(s)
    requires ConsumerOk(s) && ConsumerEnabled(s, step) && step.WriteUserHeader?
    ensures var s' := Apply(s, Consume(step));
      Chain(s') && Ordered(s') && Entries(s') && Placed(s') && Window(s') && Memory(s')
  {
    var s1, s' := ConsumerEffect(s, step), Apply(s, Consume(step));
    LiveApart(s);
    assert BufferOk(s, step.m, s.consumer.bufs[step.m]);
    UserHeaderMemory(s, step.m, step.off, step.val);
    StageKeepsCursors(s, s1);
    SameMemory(s1, s');
  }

  lemma ClearBytes(s: State)
    requires Sized(s.size, s.buf) && Chain(s) && Ordered(s) && Entries(s) && Placed(s) && Window(s) && Memory(s)
    requires ConsumerOk(s) && ConsumerEnabled(s, ClearByte)
    ensures var s' := Apply(s, Consume(ClearByte));
      Chain(s') && Ordered(s') && Entries(s') && Placed(s') && Window(s') && Memory(s')
  {
    LiveApart(s);
    assert BufferOk(s, s.released, s.consumer.bufs[s.released]);
    ClearMemory(s);
    StageKeepsCursors(s, Apply(s, Consume(ClearByte)));
  }

  lemma AdvanceBytes(s: State)
    requires Chain(s) && Ordered(s) && Entries(s) && s.size > 0 && Placed(s) && Window(s) && Memory(s)
    requires ConsumerOk(s) && ConsumerEnabled(s, AdvanceTail)
    ensures var s' := Apply(s, Consume(AdvanceTail));
      Chain(s') && Ordered(s') && Entries(s') && Placed(s') && Window(s') && Memory(s')
  {
    var s' := Apply(s, Consume(AdvanceTail));
    assert BufferOk(s, s.released, s.consumer.bufs[s.released]);
    AdvanceMemory(s);
    AdvanceWindow(s);
    assert forall j :: 0 <= j <= |s.log| ==> Cursor(s', j) == Cursor(s, j);
  }

  lemma QuietStep(s: State, step: ConsumerStep)
    requires ConsumerEnabled(s, step) && !step.WriteUserHeader? && !step.ClearByte? && !step.AdvanceTail?
    ensures var s' := Apply(s, Consume(step));
      && s'.buf == s.buf && s'.log == s.log && s'.released == s.released && s'.size == s.size
      && s'.head == s.head && s'.tail == s.tail && Cleared(s') == Cleared(s)
  {
  }

  lemma ConsumerBytes(s: State, step: ConsumerStep)
    requires Sized(s.size, s.buf) && Chain(s) && Ordered(s) && Entries(s) && Placed(s) && Window(s) && Memory(s)
    requires ConsumerOk(s) && ConsumerEnabled(s, step)
    ensures var s' := Apply(s, Consume(step));
      Chain(s') && Ordered(s') && Entries(s') && Placed(s') && Window(s') && Memory(s')
  {
    match step {
      case WriteUserHeader(_, _, _) => UserHeaderBytes(s, step);
      case ClearByte => ClearBytes(s);
      case AdvanceTail => AdvanceBytes(s);
      case _ =>
        QuietStep(s, step);
        SameMemory(s, Apply(s, Consume(step)));
    }
  }

  lemma PeekStartState(s: State, step: ConsumerStep)
    requires Window(s) && ConsumerOk(s) && ConsumerEnabled(s, step)
    requires step.PeekStart? || step.PeekReadHead?
    ensures ConsumerOk(Apply(s, Consume(step)))
  {
    var s', c := Apply(s, Consume(step)), s.consumer;
    SameBuffers(s, s', c.bufs);
    if !c.stale {
      SamePlace(s, s', c.cachedIndex, c.cachedTail);
    }
    assert AtEntry(s', 0, s.tail);
  }

  lemma ReleaseState(s: State, step: ConsumerStep)
    requires Window(s) && ConsumerOk(s) && ConsumerEnabled(s, step)
    requires step.WriteUserHeader? || step.ReleaseStart? || step.ClearByte? || step.AdvanceTail?
    ensures ConsumerOk(Apply(s, Consume(step)))
  {
    var s', c := Apply(s, Consume(step)), s.consumer;
    SameBuffers(s, s', c.bufs);
    if !step.AdvanceTail? && !c.stale {
      SamePlace(s, s', c.cachedIndex, c.cachedTail);
    }
  }

  lemma ConsumerState(s: State, step: ConsumerStep)
    requires Sized(s.size, s.buf) && Chain(s) && Entries(s) && Placed(s) && Window(s) && Memory(s) && ConsumerOk(s)
    requires ConsumerEnabled(s, step)
    ensures ConsumerOk(Apply(s, Consume(step)))
  {
    match step {
      case ScanEntry =>
        LiveDecodes(s);
        ScanMeaning(s);
        ScanStep(s, Apply(s, Consume(step)));
      case PeekStart(_, _) => PeekStartState(s, step);
      case PeekReadHead => PeekStartState(s, step);
      case _ => ReleaseState(s, step);
    }
  }

  lemma ConsumerKeepsProducers(s: State, step: ConsumerStep)
    requires ProducersOk(s) && ConsumerOk(s) && ConsumerEnabled(s, step)
    ensures ProducersOk(Apply(s, Consume(step)))
  {
    var s' := Apply(s, Consume(step));
    if step.AdvanceTail? {
      assert BufferOk(s, s.released, s.consumer.bufs[s.released]);
      AdvanceProducers(s);
    } else {
      forall t | 0 <= t < |s'.producers|
        ensures ProducerOk(s', s'.producers[t])
      {
        assert ProducerOk(s, s.producers[t]);
      }
    }
  }

  lemma ConsumerDelivers(s: State, step: ConsumerStep)
    requires Sized(s.size, s.buf) && Delivered(s) && ConsumerEnabled(s, step)
    requires step.ScanEntry? ==> ConsumerAfter(s, ScanEntry) == ScanOutcome(s)
    ensures Sized(s.size, Apply(s, Consume(step)).buf) && Delivered(Apply(s, Consume(step)))
  {
  }

  lemma ConsumerStepInv(s: State, step: ConsumerStep)
    requires Inv(s) && ConsumerEnabled(s, step)
    ensures Inv(Apply(s, Consume(step)))
  {
    ConsumerBytes(s, step);
    ConsumerState(s, step);
    ConsumerKeepsProducers(s, step);
    if step.ScanEntry? {
      LiveDecodes(s);
      ScanMeaning(s);
    }
    ConsumerDelivers(s, step);
    assert Apply(s, Consume(step)).size == s.size;
  }

  lemma StepInv(s: State, a: Action)
    requires Inv(s) && Enabled(s, a)
    ensures Inv(Apply(s, a))
  {
    match a
    case Produce(t, p) => ProducerStepInv(s, t, p);
    case Consume(c) => ConsumerStepInv(s, c);
  }

  lemma {:induction false} RunInv(s: State, acts: seq<Action>, s': State)
    requires Inv(s) && Steps(s, acts, s')
    ensures Inv(s')
    decreases |acts|
  {
    if acts != [] {
      StepInv(s, acts[0]);
      RunInv(Apply(s, acts[0]), acts[1..], s');
    }
  }

  lemma InitInv(size: nat, producerCount: nat)
    requires Sized(size, Zeros(size + MAX_ENTRY + HEADER))
    ensures Inv(Init(size, producerCount))
  {
    var s := Init(size, producerCount);
    assert forall x :: 0 <= x < |s.buf| ==> s.buf[x] == 0;
  }
}
