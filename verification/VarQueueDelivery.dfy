/** The variable-size queue refines the abstract queue: delivery, conservation and memory over whole runs. */
module VarQueueDelivery {
  import opened Bytes
  import opened Counting
  import opened QueueEntry
  import opened VarQueue
  import opened VarQueueConsumer
  import opened VarQueueProducers
  import opened VarQueueMemory

  /** An acquire that is neither granted nor counted as lost yet. */
  predicate Undecided(p: Producer) { p.LoadTail? || p.LoadHead? || p.Reserve? || p.Overrun? }

  function Flags(producers: seq<Producer>): (flags: seq<bool>)
    ensures |flags| == |producers|
  {
    seq(|producers|, t requires 0 <= t < |producers| => Undecided(producers[t]))
  }

  /** The number of undecided acquires. */
  function Pending(producers: seq<Producer>): nat { CountTrue(Flags(producers)) }

  lemma PendingUpdate(producers: seq<Producer>, t: nat, p: Producer)
    requires t < |producers|
    ensures Pending(producers[t := p]) + (if Undecided(producers[t]) then 1 else 0) ==
            Pending(producers) + (if Undecided(p) then 1 else 0)
  {
    CountUpdate(Flags(producers), t, Undecided(p));
    assert Flags(producers[t := p]) == Flags(producers)[t := Undecided(p)];
  }

  function Slot(e: Entry): R.Slot { if e.stage == Committed then R.Committed(e.payload) else R.Reserved }

  function Slots(log: seq<Entry>): (slots: seq<R.Slot>)
    ensures |slots| == |log|
  {
    seq(|log|, i requires 0 <= i < |log| => Slot(log[i]))
  }

  /** What the algorithm means: the abstract queue it implements. */
  function Abs(s: State): R.Queue {
    R.Queue(Slots(s.log), s.received, s.acquires, Pending(s.producers), s.lost, s.reported)
  }

  function ProducerOp(s: State, p: Producer, step: ProducerStep): R.Op
    requires ProducerEnabled(s, p, step)
  {
    match step
    case AcquireStart(packetLen) => if ValidPacket(packetLen, MAX_PAYLOAD) then R.Begin else R.Skip
    case TryReserve(spurious) => if Reserves(s, p, spurious) then R.Reserve else R.Skip
    case CountLost => R.Lose
    case Push => R.Commit(p.e, s.log[p.e].payload)
    case _ => R.Skip
  }

  function ConsumerOp(step: ConsumerStep): R.Op {
    match step
    case PeekStart(_, collectLost) => if collectLost then R.Report else R.Skip
    case ReleaseStart => R.Receive
    case _ => R.Skip
  }

  function OpOf(s: State, a: Action): R.Op
    requires Enabled(s, a)
  {
    match a
    case Produce(t, p) => ProducerOp(s, s.producers[t], p)
    case Consume(c) => ConsumerOp(c)
  }

  function Ops(s: State, acts: seq<Action>): seq<R.Op>
    decreases |acts|
  {
    if acts == [] || !Enabled(s, acts[0]) then []
    else [OpOf(s, acts[0])] + Ops(Apply(s, acts[0]), acts[1..])
  }

  lemma ProducerRefines(s: State, t: nat, step: ProducerStep)
    requires ProducersOk(s) && Enabled(s, Produce(t, step))
    ensures R.Enabled(Abs(s), OpOf(s, Produce(t, step)))
    ensures Abs(Apply(s, Produce(t, step))) == R.Apply(Abs(s), OpOf(s, Produce(t, step)))
  {
    var p, s' := s.producers[t], Apply(s, Produce(t, step));
    assert ProducerOk(s, p);
    PendingUpdate(s.producers, t, ProducerAfter(s, p, step));
    assert Slots(s'.log) == R.Apply(Abs(s), OpOf(s, Produce(t, step))).slots;
  }

  /** A released buffer still holds exactly what its producer committed. */
  lemma ReleasedPayload(s: State)
    requires Memory(s) && ConsumerOk(s) && ConsumerEnabled(s, ReleaseStart)
    ensures s.released < |s.log| && s.log[s.released].stage == Committed
    ensures var b := s.consumer.bufs[s.released]; s.buf[b.off + USER_HEADER..b.off + b.len] == s.log[s.released].payload
  {
    assert BufferOk(s, s.released, s.consumer.bufs[s.released]);
    assert EntryMemory(s, s.released);
  }

  lemma ConsumerRefines(s: State, step: ConsumerStep)
    requires Memory(s) && ConsumerOk(s) && Delivered(s) && ConsumerEnabled(s, step)
    ensures R.Enabled(Abs(s), ConsumerOp(step))
    ensures Abs(Apply(s, Consume(step))) == R.Apply(Abs(s), ConsumerOp(step))
  {
    if step.ReleaseStart? {
      ReleasedPayload(s);
      assert Slots(s.log)[s.released] == Slot(s.log[s.released]);
    }
  }

  lemma {:induction false} RunRefines(s: State, acts: seq<Action>, s': State)
    requires Inv(s) && Steps(s, acts, s')
    ensures R.Runs(Abs(s), Ops(s, acts), Abs(s'))
    decreases |acts|
  {
    if acts != [] {
      match acts[0] {
        case Produce(t, p) => ProducerRefines(s, t, p);
        case Consume(c) => ConsumerRefines(s, c);
      }
      StepInv(s, acts[0]);
      RunRefines(Apply(s, acts[0]), acts[1..], s');
    }
  }

  // ---------------------------------------------------------------- main results

  /** Every run of the algorithm is a run of the abstract queue. */
  lemma RefinesQueue(size: nat, producerCount: nat, acts: seq<Action>, s: State)
    requires Sized(size, Zeros(size + MAX_ENTRY + HEADER)) && Steps(Init(size, producerCount), acts, s)
    ensures Inv(s)
    ensures R.Runs(R.EMPTY, Ops(Init(size, producerCount), acts), Abs(s))
  {
    var s0 := Init(size, producerCount);
    InitInv(size, producerCount);
    RunInv(s0, acts, s);
    RunRefines(s0, acts, s);
    CountNone(Flags(s0.producers));
    assert Abs(s0) == R.EMPTY;
  }

  /**
    Delivery over whole runs, for any number of producers: the consumer received exactly the
    payloads that the producers committed, each once, in the order of the successful
    compare-and-swaps; and every acquire is delivered, queued, undecided or counted as lost.
   */
  lemma DeliversInOrder(size: nat, producerCount: nat, acts: seq<Action>, s: State)
    requires Sized(size, Zeros(size + MAX_ENTRY + HEADER)) && Steps(Init(size, producerCount), acts, s)
    ensures |s.received| <= |s.log|
    ensures forall i :: 0 <= i < |s.received| ==> s.log[i].stage == Committed && s.received[i] == s.log[i].payload
    ensures s.acquires == |s.received| + (|s.log| - |s.received|) + Pending(s.producers) + s.lost + s.reported
  {
    RefinesQueue(size, producerCount, acts, s);
    R.RunFifo(R.EMPTY, Ops(Init(size, producerCount), acts), Abs(s));
    forall i | 0 <= i < |s.received|
      ensures s.log[i].stage == Committed && s.received[i] == s.log[i].payload
    {
      assert Abs(s).slots[i] == Slot(s.log[i]);
    }
  }

  /**
    The memory invariant over whole runs: unreleased entries do not overlap, bytes outside them are
    zero, headers are aligned inside the buffer proper, and the fill level never exceeds the size.
   */
  lemma MemoryInOrder(size: nat, producerCount: nat, acts: seq<Action>, s: State)
    requires Sized(size, Zeros(size + MAX_ENTRY + HEADER)) && Steps(Init(size, producerCount), acts, s)
    ensures Separate(s) && Memory(s)
    ensures s.tail <= s.head <= s.tail + s.size
    ensures forall j :: 0 <= j < |s.log| ==> s.log[j].pos % ALIGNMENT == 0 && s.log[j].pos + HEADER <= s.size
    ensures s.consumer.pc != Fault
  {
    RefinesQueue(size, producerCount, acts, s);
    LiveApart(s);
    forall j | 0 <= j < |s.log|
      ensures s.log[j].pos % ALIGNMENT == 0 && s.log[j].pos + HEADER <= s.size
    {
      HeaderIsAligned(s, j);
    }
  }

  /** A slot that is reserved but not marked yet reads as "not committed", whatever lay there before. */
  lemma ClaimedReadsEmpty(s: State, j: nat)
    requires Inv(s) && s.released <= j < |s.log| && s.log[j].stage == Claimed
    ensures LowWord(s.buf, s.log[j].cur % s.size) == 0 && HighWord(s.buf, s.log[j].cur % s.size) == 0
  {
    Fits(s, j);
    ConsumerClearInside(s);
    assert EntryMemory(s, j);
    WordReads(s.buf, s.log[j].pos, 0, 0);
  }

  /** A buffer the consumer has peeked and not released is committed and still holds its payload. */
  lemma PeekedIsStable(s: State, m: nat)
    requires Memory(s) && ConsumerOk(s) && Cleared(s) == 0 && m in s.consumer.bufs && m >= s.released
    ensures m < |s.log| && s.log[m].stage == Committed
    ensures var b := s.consumer.bufs[m];
      USER_HEADER <= b.len && b.off + b.len <= |s.buf| && s.buf[b.off + USER_HEADER..b.off + b.len] == s.log[m].payload
  {
    assert BufferOk(s, m, s.consumer.bufs[m]);
    assert EntryMemory(s, m);
  }

  /** No access of a producer or the consumer leaves the buffer: the memory conditions of the steps always hold. */
  lemma NeverOutOfBounds(s: State, t: nat)
    requires Inv(s) && t < |s.producers|
    ensures Owns(s.producers[t]) ==>
      var p := s.producers[t];
      p.e < |s.log| && p.pos + HEADER + p.len <= |s.buf| && p.len < 0x10000 &&
        |s.log[p.e].payload| == p.len - USER_HEADER
    ensures forall m :: m in s.consumer.bufs && m >= s.released ==> Holds(s, m)
  {
    var p := s.producers[t];
    assert ProducerOk(s, p);
    if Owns(p) {
      Fits(s, p.e);
      assert EntryOk(s.log[p.e]);
    }
    forall m | m in s.consumer.bufs && m >= s.released
      ensures Holds(s, m)
    {
      assert BufferOk(s, m, s.consumer.bufs[m]);
      Fits(s, m);
      assert EntryOk(s.log[m]);
    }
  }
}
