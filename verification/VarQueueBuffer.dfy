/**
  The variable size queue as one thread sees it: the operations of queue64v.c on a block of bytes,
  in place, with no other thread moving. Positions in the block stand for the pointers.
 */
module VarQueueBuffer {
  import opened Bytes
  import E = QueueEntry
  import P = VarQueuePeek
  import V = VarQueue

  const QUEUE_HEADER := 64

  /** The size that queueInitFromMemory computes: header and slack are reserved, the rest is aligned down. */
  function DataSize(memorySize: nat): nat
    requires memorySize >= QUEUE_HEADER + V.MAX_ENTRY + E.HEADER
  {
    (memorySize - QUEUE_HEADER - (V.MAX_ENTRY + E.HEADER)) / E.ALIGNMENT * E.ALIGNMENT
  }

  /** Buffer and slack fit the memory, and at most three bytes are lost to the alignment. */
  lemma DataSizeFits(memorySize: nat)
    requires memorySize >= QUEUE_HEADER + 2 * (V.MAX_ENTRY + E.HEADER)
    ensures var size := DataSize(memorySize);
      && V.Sized(size, Zeros(size + V.MAX_ENTRY + E.HEADER))
      && QUEUE_HEADER + size + V.MAX_ENTRY + E.HEADER <= memorySize < QUEUE_HEADER + size + V.MAX_ENTRY + E.HEADER +
        E.ALIGNMENT
  {
  }

  datatype Acquired = NoRoom | Room(off: nat, len: nat)

  class Queue {
    const size: nat
    const buffer: array<Byte>
    var head: nat
    var tail: nat
    var lost: nat
    var cachedIndex: nat
    var cachedTail: nat

    ghost predicate Valid()
      reads this, buffer
    {
      V.Sized(size, buffer[..]) && tail <= head <= tail + size
    }

    constructor (memorySize: nat)
      requires memorySize >= QUEUE_HEADER + 2 * (V.MAX_ENTRY + E.HEADER)
      ensures Valid() && fresh(buffer)
      ensures size == DataSize(memorySize) && buffer[..] == Zeros(size + V.MAX_ENTRY + E.HEADER)
      ensures head == tail == lost == cachedIndex == cachedTail == 0
    {
      size := DataSize(memorySize);
      buffer := new Byte[DataSize(memorySize) + V.MAX_ENTRY + E.HEADER](_ => 0);
      head, tail, lost := 0, 0, 0;
      cachedIndex, cachedTail := 0, 0;
      new;
      DataSizeFits(memorySize);
    }

    /** queueAcquire: room for the user payload of a packet, behind entry header and user header. */
    method Acquire(packetLen: nat) returns (r: Acquired)
      requires Valid()
      modifies this`head, this`lost, buffer
      ensures Valid()
      ensures packetLen == 0 || packetLen > V.MAX_PAYLOAD ==>
        r == NoRoom && head == old(head) && lost == old(lost) && buffer[..] == old(buffer[..])
      ensures 0 < packetLen <= V.MAX_PAYLOAD ==>
        var len, p := E.EntryLength(packetLen), old(head) % size;
        && E.USER_HEADER < len <= V.MAX_ENTRY && p + E.HEADER + len <= buffer.Length
        && if old(head) - tail + len + E.HEADER <= size then
             && r == Room(p + E.HEADER + E.USER_HEADER, len - E.USER_HEADER) && packetLen <= r.len
             && head == old(head) + len + E.HEADER && lost == old(lost)
             && buffer[..] == Splice(old(buffer[..]), p, Word(len, 0))
           else
             r == NoRoom && head == old(head) && lost == old(lost) + 1 && buffer[..] == old(buffer[..])
    {
      if !E.ValidPacket(packetLen, V.MAX_PAYLOAD) {
        return NoRoom;
      }
      E.EntryLengthFits(packetLen, V.MAX_PAYLOAD);
      var len := E.EntryLength(packetLen);
      if E.Overruns(size, len, tail, head) {
        lost := lost + 1;
        return NoRoom;
      }
      var p := head % size;
      head := head + (len + E.HEADER);
      StoreBytes(buffer, p, Word(len, 0));
      r := Room(p + E.HEADER + E.USER_HEADER, len - E.USER_HEADER);
    }

    /** queuePush: store the committed header in front of an acquired buffer. */
    method Push(off: nat, len: nat)
      requires Valid()
      requires E.HEADER + E.USER_HEADER <= off && off <= buffer.Length && len + E.USER_HEADER < 0x10000
      modifies buffer
      ensures Valid()
      ensures buffer[..] ==
        Splice(old(buffer[..]), off - E.HEADER - E.USER_HEADER, Word(len + E.USER_HEADER, E.COMMITTED))
    {
      StoreBytes(buffer, off - E.HEADER - E.USER_HEADER, Word(len + E.USER_HEADER, E.COMMITTED));
    }

    /** queuePeek: the peek loop with its cache, and the collection of the lost count. */
    method Peek(index: nat) returns (r: P.PeekResult, packetsLost: nat)
      requires Valid()
      modifies this`lost, this`cachedIndex, this`cachedTail
      ensures Valid()
      ensures packetsLost == old(lost) && lost == 0
      ensures r == P.PeekFrom(size, buffer[..], head, tail, old(cachedIndex), old(cachedTail), index)
      ensures r.None? ==> cachedIndex == r.idx && cachedTail == r.cur
      ensures r.Found? ==> cachedIndex == r.idx + 1 && cachedTail == r.cur + r.buffer.len + E.HEADER
    {
      packetsLost := lost;
      lost := 0;
      var cur, idx := tail, 0;
      if index > 0 && index >= cachedIndex {
        cur, idx := cachedTail, cachedIndex;
      }
      while head > cur
        invariant P.ScanFrom(size, buffer[..], head, cur, idx, index) ==
                  P.PeekFrom(size, buffer[..], head, tail, cachedIndex, cachedTail, index)
        invariant cachedIndex == old(cachedIndex) && cachedTail == old(cachedTail)
        decreases head - cur
      {
        var p := cur % size;
        var len: nat := (buffer[p] as int) + 256 * (buffer[p + 1] as int);
        var state: nat := (buffer[p + 2] as int) + 256 * (buffer[p + 3] as int);
        assert len == LowWord(buffer[..], p) && state == HighWord(buffer[..], p);
        if state != E.COMMITTED {
          if state != 0 {
            return P.Corrupt, packetsLost;
          }
          cachedIndex, cachedTail := idx, cur;
          return P.None(idx, cur), packetsLost;
        }
        if !(0 < len <= V.MAX_ENTRY) {
          return P.Corrupt, packetsLost;
        }
        if idx == index {
          cachedIndex, cachedTail := idx + 1, cur + (len + E.HEADER);
          return P.Found(idx, cur, V.Buffer(p + E.HEADER, len)), packetsLost;
        }
        idx := idx + 1;
        cur := cur + (len + E.HEADER);
      }
      cachedIndex, cachedTail := idx, cur;
      r := P.None(idx, cur);
    }

    /** queueRelease: clear the whole entry, then give it back to the producers. */
    method Release(b: V.Buffer)
      requires Valid()
      requires E.HEADER <= b.off && b.off + b.len <= buffer.Length && tail + b.len + E.HEADER <= head
      modifies this`tail, this`cachedIndex, this`cachedTail, buffer
      ensures Valid()
      ensures tail == old(tail) + b.len + E.HEADER && cachedIndex == 0 && cachedTail == 0
      ensures buffer[..] == Splice(old(buffer[..]), b.off - E.HEADER, Zeros(b.len + E.HEADER))
    {
      StoreBytes(buffer, b.off - E.HEADER, Zeros(b.len + E.HEADER));
      tail := tail + (b.len + E.HEADER);
      cachedIndex, cachedTail := 0, 0;
    }
  }
}
