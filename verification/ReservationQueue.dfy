/**
  The abstract specification of the lock-free queues: a first-in first-out sequence of slots.

  Producers reserve slots in one global order and commit them in any order; the consumer receives
  the oldest slot once it is committed. An acquire that finds no room is counted as lost, and the
  consumer collects the lost count from time to time.
 */
module ReservationQueue {
  import opened Bytes

  type Payload = seq<Byte>

  datatype Slot = Reserved | Committed(payload: Payload)

  /** `slots` keeps every slot ever reserved, in order of reservation; `pending` acquires are undecided. */
  datatype Queue = Queue(
    slots: seq<Slot>,
    received: seq<Payload>,
    acquires: nat,
    pending: nat,
    lost: nat,
    reported: nat)

  datatype Op =
    | Skip
    | Begin
    | Reserve
    | Lose
    | Commit(i: nat, payload: Payload)
    | Receive
    | Report

  const EMPTY := Queue([], [], 0, 0, 0, 0)

  predicate Enabled(q: Queue, op: Op) {
    match op
    case Reserve => q.pending > 0
    case Lose => q.pending > 0
    case Commit(i, _) => i < |q.slots| && q.slots[i] == Reserved
    case Receive => |q.received| < |q.slots| && q.slots[|q.received|].Committed?
    case _ => true
  }

  function Apply(q: Queue, op: Op): Queue
    requires Enabled(q, op)
  {
    match op
    case Skip => q
    case Begin => q.(acquires := q.acquires + 1, pending := q.pending + 1)
    case Reserve => q.(slots := q.slots + [Reserved], pending := q.pending - 1)
    case Lose => q.(pending := q.pending - 1, lost := q.lost + 1)
    case Commit(i, payload) => q.(slots := q.slots[i := Committed(payload)])
    case Receive => q.(received := q.received + [q.slots[|q.received|].payload])
    case Report => q.(lost := 0, reported := q.reported + q.lost)
  }

  ghost predicate Runs(q: Queue, ops: seq<Op>, q': Queue)
    decreases |ops|
  {
    if ops == [] then q' == q
    else Enabled(q, ops[0]) && Runs(Apply(q, ops[0]), ops[1..], q')
  }

  /** The consumer received the committed payloads in order of reservation, each exactly once. */
  ghost predicate Fifo(q: Queue) {
    && |q.received| <= |q.slots|
    && forall i :: 0 <= i < |q.received| ==> q.slots[i] == Committed(q.received[i])
  }

  /** Every acquire is delivered, still queued, undecided, lost, or lost and already reported. */
  predicate Balanced(q: Queue) {
    q.acquires == |q.received| + (|q.slots| - |q.received|) + q.pending + q.lost + q.reported
  }

  /** A slot is committed at most once, and what was received stays received. */
  ghost predicate Grows(q: Queue, q': Queue) {
    && |q.slots| <= |q'.slots|
    && (forall i :: 0 <= i < |q.slots| && q.slots[i].Committed? ==> q'.slots[i] == q.slots[i])
    && q.received <= q'.received
  }

  lemma {:induction false} RunFifo(q: Queue, ops: seq<Op>, q': Queue)
    requires Fifo(q) && Balanced(q) && Runs(q, ops, q')
    ensures Fifo(q') && Balanced(q') && Grows(q, q')
    decreases |ops|
  {
    if ops != [] {
      var q1 := Apply(q, ops[0]);
      assert Fifo(q1) && Balanced(q1) && Grows(q, q1);
      RunFifo(q1, ops[1..], q');
    }
  }
}
