/** Every consumer step of the fixed-size queue keeps its invariant, and so does every run. */
module FixQueueConsumer {
  import opened QueueEntry
  import opened FixQueue
  import opened FixQueueProducers

  /** The header at a peek position: the slot of the entry, whose header tells the stage of the entry. */
  lemma PeekPosition(s: State, index: nat)
    requires |s.slots| > 0 && Window(s) && Placed(s) && Memory(s) && !s.consumer.pc.Advance?
    requires s.released + index < |s.log|
    ensures var e := s.log[s.released + index];
      && SlotAt(s.tail + index * SLOT_SIZE, BufferSize(s)) == e.slot < |s.slots|
      && s.slots[e.slot].header == HeaderOf(e)
  {
    SlotOfEntry(s.released + index, |s.slots|);
    assert s.tail + index * SLOT_SIZE == (s.released + index) * SLOT_SIZE;
    assert EntryMemory(s, s.released + index);
  }

  /**
    Peek ahead, even past entries that are not committed: the entry with this index is returned if
    it was below the observed head and is committed; the header is never inconsistent.
   */
  lemma PeekMeaning(s: State)
    requires Shape(s) && Window(s) && Placed(s) && Memory(s) && ConsumerOk(s) && ConsumerEnabled(s, PeekReadEntry)
    ensures var c, j := s.consumer, s.released + s.consumer.pc.index;
      ConsumerAfter(s, PeekReadEntry) ==
        if c.pc.head > j * SLOT_SIZE && j < |s.log| && s.log[j].stage == Committed then
          c.(pc := Ready, bufs := c.bufs[j := Buffer(s.log[j].slot, s.log[j].len)])
        else c.(pc := Ready)
  {
    var j := s.released + s.consumer.pc.index;
    assert s.tail + s.consumer.pc.index * SLOT_SIZE == j * SLOT_SIZE;
    if s.consumer.pc.head > j * SLOT_SIZE {
      PeekPosition(s, s.consumer.pc.index);
    }
  }

  lemma PeekState(s: State)
    requires Shape(s) && Window(s) && Placed(s) && Memory(s) && ConsumerOk(s) && ConsumerEnabled(s, PeekReadEntry)
    ensures ConsumerOk(Apply(s, Consume(PeekReadEntry)))
  {
    PeekMeaning(s);
    var s' := Apply(s, Consume(PeekReadEntry));
    forall m | m in s'.consumer.bufs && m >= s.released
      ensures BufferOk(s', m, s'.consumer.bufs[m])
    {
      assert m in s.consumer.bufs ==> BufferOk(s, m, s.consumer.bufs[m]);
    }
  }

  lemma OtherState(s: State, step: ConsumerStep)
    requires Window(s) && ConsumerOk(s) && ConsumerEnabled(s, step) && !step.PeekReadEntry?
    ensures ConsumerOk(Apply(s, Consume(step)))
  {
    var s', bufs := Apply(s, Consume(step)), s.consumer.bufs;
    forall m | m in bufs && m >= s.released
      ensures BufferOk(s, m, bufs[m])
    {
    }
    forall m | m in bufs && m >= s'.released
      ensures BufferOk(s', m, bufs[m])
    {
      assert BufferOk(s, m, bufs[m]);
    }
  }

  lemma ConsumerWriteMemory(s: State, step: ConsumerStep)
    requires Separate(s) && Memory(s) && ConsumerOk(s) && ConsumerEnabled(s, step)
    requires (step.WriteUserHeader? || step.ClearHeader?)
    ensures Memory(Apply(s, Consume(step)))
    ensures OnlyEntryChanged(s, Apply(s, Consume(step)), if step.ClearHeader? then s.released else step.m)
  {
    var s', m := Apply(s, Consume(step)), if step.ClearHeader? then s.released else step.m;
    assert BufferOk(s, m, s.consumer.bufs[m]) && EntryMemory(s, m);
    var e := s.log[m];
    assert s'.slots[e.slot].data[USER_HEADER..e.len] == s.slots[e.slot].data[USER_HEADER..e.len];
    SlotWrite(s, s', m);
  }

  lemma AdvanceMemory(s: State)
    requires Memory(s) && ConsumerOk(s) && ConsumerEnabled(s, AdvanceTail)
    ensures Memory(Apply(s, Consume(AdvanceTail)))
  {
    var s' := Apply(s, Consume(AdvanceTail));
    assert EntryMemory(s, s.released);
    forall j | s'.released <= j < |s'.log|
      ensures EntryMemory(s', j)
    {
      assert EntryMemory(s, j);
    }
    forall i | 0 <= i < |s'.slots| && Free(s', i)
      ensures s'.slots[i].header == CLEAR
    {
      if i != s.log[s.released].slot {
        forall j | s.released <= j < |s.log|
          ensures s.log[j].slot != i
        {
          assert j > s.released ==> s'.log[j].slot != i;
        }
        assert Free(s, i);
      }
    }
  }

  lemma ConsumerMemory(s: State, step: ConsumerStep)
    requires Shape(s) && Window(s) && Placed(s) && Memory(s) && ConsumerOk(s) && ConsumerEnabled(s, step)
    ensures var s' := Apply(s, Consume(step)); Shape(s') && Window(s') && Placed(s') && Memory(s')
  {
    var s' := Apply(s, Consume(step));
    if step.WriteUserHeader? || step.ClearHeader? {
      LiveApart(s);
      ConsumerWriteMemory(s, step);
      SameWindow(s, s');
    } else if step.AdvanceTail? {
      AdvanceMemory(s);
    } else {
      if step.PeekReadEntry? {
        PeekMeaning(s);
      }
      SameWindow(s, s');
      SameMemory(s, s');
    }
  }

  lemma ConsumerKeepsProducers(s: State, step: ConsumerStep)
    requires Window(s) && ProducersOk(s) && ConsumerOk(s) && ConsumerEnabled(s, step)
    ensures ProducersOk(Apply(s, Consume(step)))
  {
    var s' := Apply(s, Consume(step));
    forall t | 0 <= t < |s'.producers|
      ensures ProducerOk(s', s'.producers[t])
    {
      assert ProducerOk(s, s.producers[t]);
    }
  }

  lemma ConsumerDelivers(s: State, step: ConsumerStep)
    requires Delivered(s) && ConsumerEnabled(s, step)
    ensures Delivered(Apply(s, Consume(step)))
  {
  }

  lemma ConsumerStepInv(s: State, step: ConsumerStep)
    requires Inv(s) && ConsumerEnabled(s, step)
    ensures Inv(Apply(s, Consume(step)))
  {
    ConsumerMemory(s, step);
    if step.PeekReadEntry? {
      PeekState(s);
    } else {
      OtherState(s, step);
    }
    ConsumerKeepsProducers(s, step);
    ConsumerDelivers(s, step);
  }

  lemma StepInv(s: State, a: Action)
    requires Inv(s) && Enabled(s, a)
    ensures Inv(Apply(s, a))
  {
    match a
    case Produce(t, p) => ProducerStepInv(s, t, p);
    case Consume(c) => ConsumerStepInv(s, c);
  }

  lemma {:induction false} RunInv(s: State, acts: seq<Action>, s': State)
    requires Inv(s) && Steps(s, acts, s')
    ensures Inv(s')
    decreases |acts|
  {
    if acts != [] {
      StepInv(s, acts[0]);
      RunInv(Apply(s, acts[0]), acts[1..], s');
    }
  }

  lemma InitInv(slotCount: nat, producerCount: nat)
    requires slotCount > 0
    ensures Inv(Init(slotCount, producerCount))
  {
  }
}
