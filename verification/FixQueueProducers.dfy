/** Every producer step of the fixed-size queue keeps its invariant. */
module FixQueueProducers {
  import opened QueueEntry
  import opened FixQueue

  lemma ReserveWindow(s: State, p: Producer)
    requires |s.slots| > 0 && Window(s) && ProducerOk(s, p) && p.Reserve? && Reserves(s, p, false)
    ensures |s.log| < s.released + |s.slots|
  {
    OverrunIsFull(|s.slots|, p.len, p.tail, p.head);
  }

  lemma ReserveCursors(s: State, p: Producer)
    requires Shape(s) && Window(s) && Placed(s) && ProducerOk(s, p) && p.Reserve? && Reserves(s, p, false)
    requires ProducerEnabled(s, p, TryReserve(false))
    ensures var s' := ProducerEffect(s, p, TryReserve(false)); Shape(s') && Window(s') && Placed(s')
  {
    ReserveWindow(s, p);
    SlotOfEntry(|s.log|, |s.slots|);
  }

  lemma ReserveMemory(s: State, p: Producer)
    requires Memory(s) && p.Reserve? && Reserves(s, p, false) && ProducerEnabled(s, p, TryReserve(false))
    requires s.released <= |s.log| && (s.consumer.pc.Advance? ==> s.released < |s.log|)
    requires Separate(ProducerEffect(s, p, TryReserve(false)))
    ensures Memory(ProducerEffect(s, p, TryReserve(false)))
  {
    var s', n := ProducerEffect(s, p, TryReserve(false)), |s.log|;
    forall j | s.released <= j < n
      ensures s.log[j].slot != s'.log[n].slot && EntryMemory(s', j)
    {
      assert EntryMemory(s, j) && s'.log[j] == s.log[j];
    }
    assert Free(s, s'.log[n].slot);
    assert EntryMemory(s', n);
    forall i | 0 <= i < |s'.slots| && Free(s', i)
      ensures s'.slots[i].header == CLEAR
    {
      forall j | s.released <= j < n
        ensures s.log[j].slot != i
      {
        assert s'.log[j].slot != i;
      }
      assert Free(s, i);
    }
  }

  /** `s'` differs from `s` at most in the slot and the log entry of entry `j`. */
  ghost predicate OnlyEntryChanged(s: State, s': State, j: nat) {
    && s'.released == s.released && s'.head == s.head && s'.tail == s.tail
    && |s'.slots| == |s.slots| && |s'.log| == |s.log| && j < |s.log|
    && (forall i :: 0 <= i < |s.log| && i != j ==> s'.log[i] == s.log[i])
    && s'.log[j].slot == s.log[j].slot && s'.log[j].len == s.log[j].len && |s'.log[j].payload| == |s.log[j].payload|
    && (forall i :: 0 <= i < |s.slots| && i != s.log[j].slot ==> s'.slots[i] == s.slots[i])
    && (forall i :: 0 <= i < |s.slots| ==> |s'.slots[i].data| == |s.slots[i].data|)
  }

  lemma SlotWrite(s: State, s': State, j: nat)
    requires Separate(s) && Memory(s) && s.released <= j && OnlyEntryChanged(s, s', j)
    requires j == s.released || s'.consumer.pc.Advance? == s.consumer.pc.Advance?
    requires EntryMemory(s', j)
    ensures Memory(s')
  {
    forall i | s'.released <= i < |s'.log|
      ensures EntryMemory(s', i)
    {
      assert EntryMemory(s, i);
    }
    forall i | 0 <= i < |s'.slots| && Free(s', i)
      ensures s'.slots[i].header == CLEAR
    {
      assert s'.log[j].slot != i;
      forall m | s.released <= m < |s.log|
        ensures s.log[m].slot != i
      {
        assert s'.log[m].slot != i;
      }
      assert Free(s, i);
    }
  }

  lemma SameWindow(s: State, s': State)
    requires Shape(s) && Window(s) && Placed(s)
    requires |s'.slots| == |s.slots| && |s'.log| == |s.log| && s'.head == s.head && s'.tail == s.tail
    requires s'.released == s.released
    requires forall i :: 0 <= i < |s.slots| ==> |s'.slots[i].data| == |s.slots[i].data|
    requires forall j :: 0 <= j < |s.log| ==> s'.log[j].slot == s.log[j].slot && s'.log[j].len == s.log[j].len &&
                                              |s'.log[j].payload| == |s.log[j].payload|
    ensures Shape(s') && Window(s') && Placed(s')
  {
  }

  lemma SameMemory(s: State, s': State)
    requires Memory(s) && s'.slots == s.slots && s'.log == s.log && s'.released == s.released
    requires s'.consumer.pc.Advance? == s.consumer.pc.Advance?
    ensures Memory(s')
  {
    assert forall j :: s.released <= j < |s.log| ==> EntryMemory(s, j) ==> EntryMemory(s', j);
    assert forall i: nat :: Free(s', i) ==> Free(s, i);
  }

  predicate Writes(step: ProducerStep) { step.StoreReserved? || step.WriteByte? || step.Push? }

  lemma OwnEntry(s: State, p: Producer, step: ProducerStep)
    requires ProducerOk(s, p) && ProducerEnabled(s, p, step) && Writes(step)
    requires EntryMemory(s, p.e) && !Leaving(s, p.e)
    ensures EntryMemory(ProducerEffect(s, p, step), p.e)
    ensures OnlyEntryChanged(s, ProducerEffect(s, p, step), p.e)
  {
    if step.WriteByte? {
      var data, data' := s.slots[p.slot].data, ProducerEffect(s, p, step).slots[p.slot].data;
      assert data'[USER_HEADER..p.len] == data[USER_HEADER..p.len][step.off := step.val];
    }
  }

  lemma ProducerMemory(s: State, p: Producer, step: ProducerStep)
    requires Shape(s) && Window(s) && Placed(s) && Memory(s) && ConsumerOk(s) && ProducerOk(s, p)
    requires ProducerEnabled(s, p, step)
    ensures var s' := ProducerEffect(s, p, step); Shape(s') && Window(s') && Placed(s') && Memory(s')
  {
    var s' := ProducerEffect(s, p, step);
    if step.TryReserve? && Reserves(s, p, step.spurious) {
      ReserveCursors(s, p);
      LiveApart(s');
      ReserveMemory(s, p);
    } else if Writes(step) {
      LiveApart(s);
      assert EntryMemory(s, p.e);
      OwnEntry(s, p, step);
      SlotWrite(s, s', p.e);
      SameWindow(s, s');
    } else {
      SameWindow(s, s');
      SameMemory(s, s');
    }
  }

  lemma ProducersStep(s: State, t: nat, step: ProducerStep)
    requires Window(s) && ProducersOk(s) && Enabled(s, Produce(t, step))
    ensures ProducersOk(Apply(s, Produce(t, step)))
  {
    var s', p := Apply(s, Produce(t, step)), s.producers[t];
    assert ProducerOk(s, p);
    CursorsAreBoundaries(s);
    OwnProducerOk(s, p, step);
    forall u | 0 <= u < |s.producers| && u != t
      ensures ProducerOk(s', s'.producers[u])
      ensures Owns(s'.producers[u]) && Owns(s'.producers[t]) ==> s'.producers[u].e != s'.producers[t].e
    {
      assert ProducerOk(s, s.producers[u]);
      OtherProducerOk(s, p, step, s.producers[u]);
    }
  }

  lemma OtherProducerOk(s: State, p: Producer, step: ProducerStep, q: Producer)
    requires ProducerOk(s, p) && ProducerEnabled(s, p, step) && ProducerOk(s, q)
    requires Owns(p) && Owns(q) ==> p.e != q.e
    ensures ProducerOk(ProducerEffect(s, p, step), q)
  {
  }

  lemma CursorsAreBoundaries(s: State)
    requires Window(s)
    ensures s.head % SLOT_SIZE == 0 && s.tail % SLOT_SIZE == 0
  {
  }

  lemma OwnProducerOk(s: State, p: Producer, step: ProducerStep)
    requires s.released <= |s.log| && s.head % SLOT_SIZE == 0 && s.tail % SLOT_SIZE == 0
    requires ProducerOk(s, p) && ProducerEnabled(s, p, step)
    ensures ProducerOk(ProducerEffect(s, p, step), ProducerAfter(s, p, step))
    ensures var p' := ProducerAfter(s, p, step); Owns(p') ==> (Owns(p) && p'.e == p.e) || (!Owns(p) && p'.e == |s.log|)
  {
    if step.AcquireStart? && ValidPacket(step.packetLen, MAX_PAYLOAD) {
      EntryLengthFits(step.packetLen, MAX_PAYLOAD);
    }
  }

  lemma ProducerKeepsConsumer(s: State, p: Producer, step: ProducerStep)
    requires ConsumerOk(s) && ProducerOk(s, p) && ProducerEnabled(s, p, step)
    ensures ConsumerOk(ProducerEffect(s, p, step))
  {
    var s', bufs := ProducerEffect(s, p, step), s.consumer.bufs;
    forall m | m in bufs && m >= s.released
      ensures BufferOk(s', m, bufs[m])
    {
      assert BufferOk(s, m, bufs[m]);
    }
  }

  lemma SameConsumer(s: State, s': State)
    requires ConsumerOk(s) && s'.log == s.log && s'.released == s.released && s'.head == s.head
    requires s'.consumer == s.consumer
    ensures ConsumerOk(s')
  {
    assert forall m :: m in s.consumer.bufs && m >= s.released ==> BufferOk(s, m, s.consumer.bufs[m]) ==>
      BufferOk(s', m, s.consumer.bufs[m]);
  }

  lemma ProducerStepInv(s: State, t: nat, step: ProducerStep)
    requires Inv(s) && Enabled(s, Produce(t, step))
    ensures Inv(Apply(s, Produce(t, step)))
  {
    var p, s' := s.producers[t], Apply(s, Produce(t, step));
    var s1 := ProducerEffect(s, p, step);
    ProducerMemory(s, p, step);
    SameWindow(s1, s');
    SameMemory(s1, s');
    ProducersStep(s, t, step);
    ProducerKeepsConsumer(s, p, step);
    SameConsumer(s1, s');
  }
}
