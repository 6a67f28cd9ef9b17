/** What the two lock-free queues have in common: entry lengths, header constants and the overrun test. */
module QueueEntry {
  const HEADER := 4
  const USER_HEADER := 4
  const ALIGNMENT := 4
  const COMMITTED := 0xCCCC

  predicate ValidPacket(packetLen: nat, maxPayload: nat) { 0 < packetLen <= maxPayload }

  /** The entry length (user header and payload) of a packet, rounded up to the alignment. */
  function EntryLength(packetLen: nat): nat {
    (packetLen + USER_HEADER + (ALIGNMENT - 1)) / ALIGNMENT * ALIGNMENT
  }

  predicate ValidLength(len: nat, maxPayload: nat) {
    USER_HEADER < len <= maxPayload + USER_HEADER && len % ALIGNMENT == 0
  }

  /** A valid packet fits its entry, which wastes at most three bytes and never exceeds the maximum. */
  lemma EntryLengthFits(packetLen: nat, maxPayload: nat)
    requires 0 < packetLen <= maxPayload && maxPayload % ALIGNMENT == 0
    ensures ValidLength(EntryLength(packetLen), maxPayload)
    ensures packetLen + 4 <= EntryLength(packetLen) < packetLen + 8
  {
  }

  /** The overrun test of queueAcquire, on the cursors that the producer has observed. */
  predicate Overruns(size: nat, len: nat, tail: nat, head: nat) {
    head > tail && size - (len + HEADER) < head - tail
  }
}
