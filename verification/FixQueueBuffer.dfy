/**
  The fixed size queue as one thread sees it: the operations of queue64f.c on the slot array, in
  place, with no other thread moving. A slot number stands for the entry pointer.
 */
module FixQueueBuffer {
  import opened Bytes
  import E = QueueEntry
  import F = FixQueue

  datatype Acquired = NoRoom | Room(slot: nat, len: nat)

  datatype Peeked = Nothing | Corrupt | Found(buffer: F.Buffer)

  /** What queuePeek returns for an observed header. */
  function PeekHeader(slot: nat, header: F.Header): Peeked {
    if header.state != E.COMMITTED then (if header.state != 0 then Corrupt else Nothing)
    else if !(0 < header.len <= F.MAX_ENTRY) then Corrupt
    else Found(F.Buffer(slot, header.len))
  }

  /** The last step of a peek of the machine does what the object makes of the header that it finds. */
  lemma PeekAgreesWithMachine(s: F.State)
    requires F.ConsumerEnabled(s, F.PeekReadEntry)
    ensures var c, cur := s.consumer, s.tail + s.consumer.pc.index * F.SLOT_SIZE;
      F.ConsumerAfter(s, F.PeekReadEntry) ==
        if c.pc.head <= cur then c.(pc := F.Ready)
        else
          var slot := F.SlotAt(cur, F.BufferSize(s));
          match PeekHeader(slot, s.slots[slot].header)
          case Nothing => c.(pc := F.Ready)
          case Corrupt => c.(pc := F.Fault)
          case Found(b) => c.(pc := F.Ready, bufs := c.bufs[s.released + c.pc.index := b])
  {
  }

  lemma SlotInRange(cur: nat, slotCount: nat)
    requires slotCount > 0 && cur % F.SLOT_SIZE == 0
    ensures F.SlotAt(cur, slotCount * F.SLOT_SIZE) < slotCount
  {
    F.SlotOfEntry(cur / F.SLOT_SIZE, slotCount);
    assert cur / F.SLOT_SIZE * F.SLOT_SIZE == cur;
  }

  lemma NextCursor(head: nat, tail: nat, slotCount: nat)
    requires head % F.SLOT_SIZE == 0 && tail % F.SLOT_SIZE == 0 && head < tail + slotCount * F.SLOT_SIZE
    ensures (head + F.SLOT_SIZE) % F.SLOT_SIZE == 0 && head + F.SLOT_SIZE <= tail + slotCount * F.SLOT_SIZE
  {
    var h, q := head / F.SLOT_SIZE, tail / F.SLOT_SIZE;
    assert head == h * F.SLOT_SIZE && tail == q * F.SLOT_SIZE;
    assert h < q + slotCount;
  }

  class Queue {
    const slots: array<F.Slot>
    var head: nat
    var tail: nat
    var lost: nat

    /** Cursors are slot boundaries, and at most all slots are in use. */
    ghost predicate Valid()
      reads this, slots
    {
      && slots.Length > 0
      && (forall i :: 0 <= i < slots.Length ==> |slots[i].data| == F.MAX_ENTRY)
      && head % F.SLOT_SIZE == 0 && tail % F.SLOT_SIZE == 0
      && tail <= head <= tail + slots.Length * F.SLOT_SIZE
    }

    constructor (slotCount: nat)
      requires slotCount > 0
      ensures Valid() && fresh(slots) && slots.Length == slotCount && head == tail == lost == 0
      ensures slots[..] == F.Init(slotCount, 0).slots
    {
      slots := new F.Slot[slotCount](_ => F.Slot(F.CLEAR, Zeros(F.MAX_ENTRY)));
      head, tail, lost := 0, 0, 0;
    }

    /** queueClear: an empty queue again, whatever was in it. */
    method Clear()
      requires Valid()
      modifies this, slots
      ensures Valid() && head == tail == lost == 0
      ensures slots[..] == F.Init(slots.Length, 0).slots
    {
      head, tail, lost := 0, 0, 0;
      var off := 0;
      while off < slots.Length * F.SLOT_SIZE
        invariant off % F.SLOT_SIZE == 0 && off <= slots.Length * F.SLOT_SIZE
        invariant forall i :: 0 <= i < off / F.SLOT_SIZE ==> slots[i] == F.Slot(F.CLEAR, Zeros(F.MAX_ENTRY))
        invariant head == tail == lost == 0
      {
        slots[off / F.SLOT_SIZE] := F.Slot(F.CLEAR, Zeros(F.MAX_ENTRY));
        off := off + F.SLOT_SIZE;
      }
    }

    /** queueAcquire: granted exactly if a slot is free. */
    method Acquire(packetLen: nat) returns (r: Acquired)
      requires Valid()
      modifies this`head, this`lost, slots
      ensures Valid()
      ensures packetLen == 0 || packetLen > F.MAX_PAYLOAD ==>
                r == NoRoom && head == old(head) && lost == old(lost) && slots[..] == old(slots[..])
      ensures 0 < packetLen <= F.MAX_PAYLOAD ==>
        var len, slot := E.EntryLength(packetLen), F.SlotAt(old(head), slots.Length * F.SLOT_SIZE);
        if old(head) - tail < slots.Length * F.SLOT_SIZE then
          && slot < slots.Length && packetLen + E.USER_HEADER <= len <= F.MAX_ENTRY
          && r == Room(slot, len - E.USER_HEADER)
          && head == old(head) + F.SLOT_SIZE && lost == old(lost)
          && slots[..] == F.SetHeader(old(slots[..]), slot, F.Header(len, 0))
        else
          r == NoRoom && head == old(head) && lost == old(lost) + 1 && slots[..] == old(slots[..])
    {
      if !E.ValidPacket(packetLen, F.MAX_PAYLOAD) {
        return NoRoom;
      }
      E.EntryLengthFits(packetLen, F.MAX_PAYLOAD);
      var len := E.EntryLength(packetLen);
      F.OverrunIsFull(slots.Length, len, tail, head);
      if E.Overruns(slots.Length * F.SLOT_SIZE, len, tail, head) {
        lost := lost + 1;
        return NoRoom;
      }
      var slot := TakeSlot(len);
      r := Room(slot, len - E.USER_HEADER);
    }

    /** The slot at the head gets its reserved header. */
    method TakeSlot(len: nat) returns (slot: nat)
      requires Valid() && head < tail + slots.Length * F.SLOT_SIZE
      modifies this`head, slots
      ensures Valid() && slot == F.SlotAt(old(head), slots.Length * F.SLOT_SIZE) < slots.Length
      ensures head == old(head) + F.SLOT_SIZE && slots[..] == F.SetHeader(old(slots[..]), slot, F.Header(len, 0))
    {
      SlotInRange(head, slots.Length);
      NextCursor(head, tail, slots.Length);
      slot := F.SlotAt(head, slots.Length * F.SLOT_SIZE);
      head := head + F.SLOT_SIZE;
      slots[slot] := slots[slot].(header := F.Header(len, 0));
    }

    /** queuePush: store the committed header of an acquired slot. */
    method Push(slot: nat, len: nat)
      requires Valid() && slot < slots.Length
      modifies slots
      ensures Valid()
      ensures slots[..] == F.SetHeader(old(slots[..]), slot, F.Header(len + E.USER_HEADER, E.COMMITTED))
    {
      slots[slot] := slots[slot].(header := F.Header(len + E.USER_HEADER, E.COMMITTED));
    }

    /** queuePeek: nothing at or behind the head, otherwise what the header of the slot says. */
    method Peek(index: nat) returns (r: Peeked, packetsLost: nat)
      requires Valid()
      modifies this`lost
      ensures packetsLost == old(lost) && lost == 0
      ensures var cur := tail + index * F.SLOT_SIZE;
        if head <= cur then r == Nothing
        else
          var slot := F.SlotAt(cur, slots.Length * F.SLOT_SIZE);
          slot < slots.Length && r == PeekHeader(slot, slots[slot].header)
    {
      packetsLost := lost;
      lost := 0;
      var cur := tail + index * F.SLOT_SIZE;
      if head <= cur {
        return Nothing, packetsLost;
      }
      SlotInRange(cur, slots.Length);
      var slot := F.SlotAt(cur, slots.Length * F.SLOT_SIZE);
      r := PeekHeader(slot, slots[slot].header);
    }

    /** queueRelease: clear the header only, then give the slot back. */
    method Release(slot: nat)
      requires Valid() && slot < slots.Length && tail < head
      modifies this`tail, slots
      ensures Valid() && tail == old(tail) + F.SLOT_SIZE
      ensures slots[..] == F.SetHeader(old(slots[..]), slot, F.CLEAR)
    {
      slots[slot] := slots[slot].(header := F.CLEAR);
      tail := tail + F.SLOT_SIZE;
    }
  }
}
