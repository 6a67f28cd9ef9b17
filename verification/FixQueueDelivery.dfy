/** The fixed-size queue refines the abstract queue: delivery, conservation and slots over whole runs. */
module FixQueueDelivery {
  import opened Counting
  import opened QueueEntry
  import opened FixQueue
  import opened FixQueueConsumer

  /** An acquire that is neither granted nor counted as lost yet. */
  predicate Undecided(p: Producer) { p.LoadTail? || p.LoadHead? || p.Reserve? || p.Refresh? || p.Overrun? }

  function Flags(producers: seq<Producer>): (flags: seq<bool>)
    ensures |flags| == |producers|
  {
    seq(|producers|, t requires 0 <= t < |producers| => Undecided(producers[t]))
  }

  /** The number of undecided acquires. */
  function Pending(producers: seq<Producer>): nat { CountTrue(Flags(producers)) }

  lemma PendingUpdate(producers: seq<Producer>, t: nat, p: Producer)
    requires t < |producers|
    ensures Pending(producers[t := p]) + (if Undecided(producers[t]) then 1 else 0) ==
            Pending(producers) + (if Undecided(p) then 1 else 0)
  {
    CountUpdate(Flags(producers), t, Undecided(p));
    assert Flags(producers[t := p]) == Flags(producers)[t := Undecided(p)];
  }

  function AbsSlot(e: Entry): R.Slot { if e.stage == Committed then R.Committed(e.payload) else R.Reserved }

  function AbsSlots(log: seq<Entry>): (slots: seq<R.Slot>)
    ensures |slots| == |log|
  {
    seq(|log|, i requires 0 <= i < |log| => AbsSlot(log[i]))
  }

  /** What the algorithm means: the abstract queue it implements. */
  function Abs(s: State): R.Queue {
    R.Queue(AbsSlots(s.log), s.received, s.acquires, Pending(s.producers), s.lost, s.reported)
  }

  function ProducerOp(s: State, p: Producer, step: ProducerStep): R.Op
    requires ProducerEnabled(s, p, step)
  {
    match step
    case AcquireStart(packetLen) => if ValidPacket(packetLen, MAX_PAYLOAD) then R.Begin else R.Skip
    case TryReserve(spurious) => if Reserves(s, p, spurious) then R.Reserve else R.Skip
    case CountLost => R.Lose
    case Push => R.Commit(p.e, s.log[p.e].payload)
    case _ => R.Skip
  }

  function ConsumerOp(step: ConsumerStep): R.Op {
    match step
    case PeekStart(_, collectLost) => if collectLost then R.Report else R.Skip
    case ClearHeader => R.Receive
    case _ => R.Skip
  }

  function OpOf(s: State, a: Action): R.Op
    requires Enabled(s, a)
  {
    match a
    case Produce(t, p) => ProducerOp(s, s.producers[t], p)
    case Consume(c) => ConsumerOp(c)
  }

  function Ops(s: State, acts: seq<Action>): seq<R.Op>
    decreases |acts|
  {
    if acts == [] || !Enabled(s, acts[0]) then []
    else [OpOf(s, acts[0])] + Ops(Apply(s, acts[0]), acts[1..])
  }

  lemma ProducerRefines(s: State, t: nat, step: ProducerStep)
    requires ProducersOk(s) && Enabled(s, Produce(t, step))
    ensures R.Enabled(Abs(s), OpOf(s, Produce(t, step)))
    ensures Abs(Apply(s, Produce(t, step))) == R.Apply(Abs(s), OpOf(s, Produce(t, step)))
  {
    var p, s' := s.producers[t], Apply(s, Produce(t, step));
    assert ProducerOk(s, p);
    PendingUpdate(s.producers, t, ProducerAfter(s, p, step));
    assert AbsSlots(s'.log) == R.Apply(Abs(s), OpOf(s, Produce(t, step))).slots;
  }

  lemma ConsumerRefines(s: State, step: ConsumerStep)
    requires Memory(s) && ConsumerOk(s) && Delivered(s) && ConsumerEnabled(s, step)
    ensures R.Enabled(Abs(s), ConsumerOp(step))
    ensures Abs(Apply(s, Consume(step))) == R.Apply(Abs(s), ConsumerOp(step))
  {
    if step.ClearHeader? {
      assert BufferOk(s, s.released, s.consumer.bufs[s.released]) && EntryMemory(s, s.released);
      assert AbsSlots(s.log)[s.released] == AbsSlot(s.log[s.released]);
    }
  }

  lemma {:induction false} RunRefines(s: State, acts: seq<Action>, s': State)
    requires Inv(s) && Steps(s, acts, s')
    ensures R.Runs(Abs(s), Ops(s, acts), Abs(s'))
    decreases |acts|
  {
    if acts != [] {
      match acts[0] {
        case Produce(t, p) => ProducerRefines(s, t, p);
        case Consume(c) => ConsumerRefines(s, c);
      }
      StepInv(s, acts[0]);
      RunRefines(Apply(s, acts[0]), acts[1..], s');
    }
  }

  // ---------------------------------------------------------------- main results

  /** Every run of the algorithm is a run of the abstract queue. */
  lemma RefinesQueue(slotCount: nat, producerCount: nat, acts: seq<Action>, s: State)
    requires slotCount > 0 && Steps(Init(slotCount, producerCount), acts, s)
    ensures Inv(s)
    ensures R.Runs(R.EMPTY, Ops(Init(slotCount, producerCount), acts), Abs(s))
  {
    var s0 := Init(slotCount, producerCount);
    InitInv(slotCount, producerCount);
    RunInv(s0, acts, s);
    RunRefines(s0, acts, s);
    CountNone(Flags(s0.producers));
    assert Abs(s0) == R.EMPTY;
  }

  /**
    Delivery over whole runs, for any number of producers with arbitrarily stale tails: the consumer
    received exactly the committed payloads, each once, in the order of the successful
    compare-and-swaps; and every acquire is delivered, queued, undecided or counted as lost.
   */
  lemma DeliversInOrder(slotCount: nat, producerCount: nat, acts: seq<Action>, s: State)
    requires slotCount > 0 && Steps(Init(slotCount, producerCount), acts, s)
    ensures |s.received| <= |s.log|
    ensures forall i :: 0 <= i < |s.received| ==> s.log[i].stage == Committed && s.received[i] == s.log[i].payload
    ensures s.acquires == |s.received| + (|s.log| - |s.received|) + Pending(s.producers) + s.lost + s.reported
  {
    RefinesQueue(slotCount, producerCount, acts, s);
    R.RunFifo(R.EMPTY, Ops(Init(slotCount, producerCount), acts), Abs(s));
    forall i | 0 <= i < |s.received|
      ensures s.log[i].stage == Committed && s.received[i] == s.log[i].payload
    {
      assert Abs(s).slots[i] == AbsSlot(s.log[i]);
    }
  }

  /** No unreleased slot is reused, the fill level never exceeds the buffer, and no header is ever inconsistent. */
  lemma SlotsInOrder(slotCount: nat, producerCount: nat, acts: seq<Action>, s: State)
    requires slotCount > 0 && Steps(Init(slotCount, producerCount), acts, s)
    ensures Separate(s) && Memory(s)
    ensures s.tail <= s.head <= s.tail + BufferSize(s)
    ensures s.consumer.pc != Fault
  {
    RefinesQueue(slotCount, producerCount, acts, s);
    LiveApart(s);
  }

  /** A buffer the consumer has peeked and not released is committed and still holds its payload. */
  lemma PeekedIsStable(s: State, m: nat)
    requires Memory(s) && ConsumerOk(s) && !s.consumer.pc.Advance? && m in s.consumer.bufs && m >= s.released
    ensures m < |s.log| && s.log[m].stage == Committed
    ensures Holds(s, m) &&
      s.slots[s.consumer.bufs[m].slot].data[USER_HEADER..s.consumer.bufs[m].len] == s.log[m].payload
  {
    assert BufferOk(s, m, s.consumer.bufs[m]) && EntryMemory(s, m);
  }

  /** No access of a producer or of a peek leaves the slots: the memory conditions of the steps always hold. */
  lemma NeverOutOfBounds(s: State, t: nat)
    requires Inv(s) && t < |s.producers|
    ensures var p := s.producers[t];
      Owns(p) ==>
        InSlots(s, p.e, p.slot) && p.len <= |s.slots[p.slot].data| && |s.log[p.e].payload| == p.len - USER_HEADER
    ensures s.producers[t].Reserve? ==> forall spurious :: ProducerEnabled(s, s.producers[t], TryReserve(spurious))
    ensures s.consumer.pc.PeekEntry? ==> ConsumerEnabled(s, PeekReadEntry)
  {
    var p := s.producers[t];
    assert ProducerOk(s, p);
    if Owns(p) {
      assert EntryMemory(s, p.e);
    }
    if p.Reserve? {
      SlotOfEntry(p.head / SLOT_SIZE, |s.slots|);
      assert p.head / SLOT_SIZE * SLOT_SIZE == p.head;
    }
    if s.consumer.pc.PeekEntry? {
      SlotOfEntry(s.released + s.consumer.pc.index, |s.slots|);
    }
  }
}
