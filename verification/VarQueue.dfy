/**
  The lock-free queue with entries of variable size: many producers, one consumer.

  Producers reserve room by a compare-and-swap on the `head` cursor, store a reserved header, fill
  the payload and store the committed header. Entries lie in raw bytes at `cursor % size` and may
  run into the slack behind the buffer. The consumer peeks, clears a released entry byte by byte
  and advances `tail`. One action is one atomic access, or one byte of a payload copy or a memset.
 */
module VarQueue {
  import opened Bytes
  import opened QueueEntry
  import R = ReservationQueue

  type Payload = R.Payload

  const MAX_PAYLOAD := 1024
  const MAX_ENTRY := MAX_PAYLOAD + USER_HEADER

  /** `Claimed`: reserved by the compare-and-swap, but the header is not stored yet. */
  datatype Stage = Claimed | Marked | Committed

  /** One entry of the log of all reservations. `cur` is its cursor, `pos` where it lies in the buffer. */
  datatype Entry = Entry(cur: nat, pos: nat, len: nat, stage: Stage, payload: Payload)

  /** The consumer's buffer: the entry without its header. */
  datatype Buffer = Buffer(off: nat, len: nat)

  datatype Producer =
    | Idle
    | LoadTail(len: nat)
    | LoadHead(len: nat, tail: nat)
    | Reserve(len: nat, tail: nat, head: nat)
    | Overrun
    | Mark(e: nat, pos: nat, len: nat)
    | Fill(e: nat, pos: nat, len: nat)

  datatype ConsumerPc =
    | Ready
    | PeekHead(index: nat)
    | Scan(index: nat, head: nat, cur: nat, idx: nat)
    | Clear(k: nat)
    | Fault

  /**
    `bufs` are the buffers peeked so far, by absolute entry number; `stale` says that an entry was
    released since the last peek. Both are what the user of the queue has to keep track of.
   */
  datatype Consumer = Consumer(pc: ConsumerPc, cachedIndex: nat, cachedTail: nat, bufs: map<nat, Buffer>, stale: bool)

  /** `log`, `released`, `received`, `acquires` and `reported` are bookkeeping that no branch depends on. */
  datatype State = State(
    size: nat,
    buf: seq<Byte>,
    head: nat,
    tail: nat,
    lost: nat,
    producers: seq<Producer>,
    consumer: Consumer,
    log: seq<Entry>,
    released: nat,
    received: seq<Payload>,
    acquires: nat,
    reported: nat)

  datatype ProducerStep =
    | AcquireStart(packetLen: nat)
    | ReadTail
    | ReadHead
    | TryReserve(spurious: bool)
    | CountLost
    | StoreReserved
    | WriteByte(off: nat, val: Byte)
    | Push

  datatype ConsumerStep =
    | PeekStart(index: nat, collectLost: bool)
    | PeekReadHead
    | ScanEntry
    | WriteUserHeader(m: nat, off: nat, val: Byte)
    | ReleaseStart
    | ClearByte
    | AdvanceTail

  datatype Action = Produce(t: nat, p: ProducerStep) | Consume(c: ConsumerStep)

  /** The buffer proper is followed by slack for one entry of maximal size (queueInitFromMemory). */
  predicate Sized(size: nat, buf: seq<Byte>) {
    && size >= MAX_ENTRY + HEADER
    && size % ALIGNMENT == 0
    && |buf| == size + MAX_ENTRY + HEADER
  }

  function Init(size: nat, producerCount: nat): State {
    State(size, Zeros(size + MAX_ENTRY + HEADER), 0, 0, 0, seq(producerCount, _ => Idle),
          Consumer(Ready, 0, 0, map[], false), [], 0, [], 0, 0)
  }

  // ---------------------------------------------------------------- the producers

  predicate Reserves(s: State, p: Producer, spurious: bool)
    requires p.Reserve?
  {
    !Overruns(s.size, p.len, p.tail, p.head) && !spurious && s.head == p.head
  }

  predicate ProducerEnabled(s: State, p: Producer, step: ProducerStep) {
    match step
    case AcquireStart(_) => p.Idle?
    case ReadTail => p.LoadTail?
    case ReadHead => p.LoadHead?
    case TryReserve(_) => p.Reserve? && s.size > 0 && p.len >= USER_HEADER
    case CountLost => p.Overrun?
    case StoreReserved => p.Mark? && InLog(s, p.e) && p.pos + HEADER <= |s.buf| && p.len < 0x10000
    case WriteByte(off, _) =>
      p.Fill? && InLog(s, p.e) && off < p.len - USER_HEADER &&
      p.pos + HEADER + p.len <= |s.buf| && off < |s.log[p.e].payload|
    case Push => p.Fill? && InLog(s, p.e) && p.pos + HEADER <= |s.buf| && p.len < 0x10000
  }

  predicate InLog(s: State, e: nat) { e < |s.log| }

  function ProducerAfter(s: State, p: Producer, step: ProducerStep): Producer
    requires ProducerEnabled(s, p, step)
  {
    match step
    case AcquireStart(packetLen) =>
      if ValidPacket(packetLen, MAX_PAYLOAD) then LoadTail(EntryLength(packetLen)) else Idle
    case ReadTail => LoadHead(p.len, s.tail)
    case ReadHead => Reserve(p.len, p.tail, s.head)
    case TryReserve(spurious) =>
      if Overruns(s.size, p.len, p.tail, p.head) then Overrun
      else if Reserves(s, p, spurious) then Mark(|s.log|, p.head % s.size, p.len)
      else Reserve(p.len, p.tail, s.head)
    case StoreReserved => Fill(p.e, p.pos, p.len)
    case WriteByte(_, _) => p
    case CountLost => Idle
    case Push => Idle
  }

  /** What a producer step does to everything but its own program counter. */
  function ProducerEffect(s: State, p: Producer, step: ProducerStep): State
    requires ProducerEnabled(s, p, step)
  {
    match step
    case AcquireStart(packetLen) =>
      if ValidPacket(packetLen, MAX_PAYLOAD) then s.(acquires := s.acquires + 1) else s
    case TryReserve(spurious) =>
      if Reserves(s, p, spurious) then
        s.(head := p.head + (p.len + HEADER),
           log := s.log + [Entry(p.head, p.head % s.size, p.len, Claimed, Zeros(p.len - USER_HEADER))])
      else s
    case CountLost => s.(lost := s.lost + 1)
    case StoreReserved => s.(buf := Splice(s.buf, p.pos, Word(p.len, 0)),
      log := s.log[p.e := s.log[p.e].(stage := Marked)])
    case WriteByte(off, val) =>
      s.(buf := Put(s.buf, p.pos + HEADER + USER_HEADER + off, val),
         log := s.log[p.e := s.log[p.e].(payload := Put(s.log[p.e].payload, off, val))])
    case Push =>
      s.(buf := Splice(s.buf, p.pos, Word(p.len, COMMITTED)), log := s.log[p.e := s.log[p.e].(stage := Committed)])
    case _ => s
  }

  // ---------------------------------------------------------------- the consumer

  predicate Holds(s: State, m: nat) {
    && m in s.consumer.bufs
    && HEADER <= s.consumer.bufs[m].off
    && USER_HEADER <= s.consumer.bufs[m].len
    && s.consumer.bufs[m].off + s.consumer.bufs[m].len <= |s.buf|
  }

  predicate ConsumerEnabled(s: State, step: ConsumerStep) {
    var c := s.consumer;
    match step
    // The user contract: the first peek after a release is at index 0
    case PeekStart(index, _) => c.pc.Ready? && (index == 0 || !c.stale)
    case PeekReadHead => c.pc.PeekHead?
    case ScanEntry => c.pc.Scan? && s.size > 0 && s.size + HEADER <= |s.buf|
    case WriteUserHeader(m, off, _) => c.pc.Ready? && m >= s.released && Holds(s, m) && off < USER_HEADER
    // The user contract: entries are released in order
    case ReleaseStart => c.pc.Ready? && Holds(s, s.released)
    case ClearByte => c.pc.Clear? && Holds(s, s.released) && c.pc.k < c.bufs[s.released].len + HEADER
    case AdvanceTail => c.pc.Clear? && Holds(s, s.released) && c.pc.k == c.bufs[s.released].len + HEADER
  }

  function Nothing(c: Consumer): Consumer
    requires c.pc.Scan?
  {
    c.(pc := Ready, cachedIndex := c.pc.idx, cachedTail := c.pc.cur, stale := false)
  }

  function ConsumerAfter(s: State, step: ConsumerStep): Consumer
    requires ConsumerEnabled(s, step)
  {
    var c := s.consumer;
    match step
    case PeekStart(index, _) => c.(pc := PeekHead(index))
    case PeekReadHead =>
      var index := c.pc.index;
      if index > 0 && index >= c.cachedIndex then c.(pc := Scan(index, s.head, c.cachedTail, c.cachedIndex))
      else c.(pc := Scan(index, s.head, s.tail, 0))
    case ScanEntry =>
      if c.pc.head <= c.pc.cur then Nothing(c)
      else
        var p := c.pc.cur % s.size;
        var len, state := LowWord(s.buf, p), HighWord(s.buf, p);
        if state != COMMITTED then (if state != 0 then c.(pc := Fault) else Nothing(c))
        else if !(0 < len <= MAX_ENTRY) then c.(pc := Fault)
        else if c.pc.idx == c.pc.index then
          c.(pc := Ready, cachedIndex := c.pc.idx + 1, cachedTail := c.pc.cur + (len + HEADER), stale := false,
             bufs := c.bufs[s.released + c.pc.index := Buffer(p + HEADER, len)])
        else c.(pc := Scan(c.pc.index, c.pc.head, c.pc.cur + (len + HEADER), c.pc.idx + 1))
    case WriteUserHeader(_, _, _) => c
    case ReleaseStart => c.(pc := Clear(0))
    case ClearByte => c.(pc := Clear(c.pc.k + 1))
    case AdvanceTail => c.(pc := Ready, cachedIndex := 0, cachedTail := 0, stale := true)
  }

  function ConsumerEffect(s: State, step: ConsumerStep): State
    requires ConsumerEnabled(s, step)
  {
    match step
    case PeekStart(_, collectLost) => if collectLost then s.(lost := 0, reported := s.reported + s.lost) else s
    case WriteUserHeader(m, off, val) => s.(buf := Put(s.buf, s.consumer.bufs[m].off + off, val))
    case ReleaseStart =>
      var b := s.consumer.bufs[s.released];
      s.(received := s.received + [s.buf[b.off + USER_HEADER..b.off + b.len]])
    case ClearByte => s.(buf := Put(s.buf, s.consumer.bufs[s.released].off - HEADER + s.consumer.pc.k, 0))
    case AdvanceTail =>
      s.(tail := s.tail + (s.consumer.bufs[s.released].len + HEADER), released := s.released + 1)
    case _ => s
  }

  // ---------------------------------------------------------------- runs

  predicate Enabled(s: State, a: Action) {
    match a
    case Produce(t, p) => t < |s.producers| && ProducerEnabled(s, s.producers[t], p)
    case Consume(c) => ConsumerEnabled(s, c)
  }

  function Apply(s: State, a: Action): State
    requires Enabled(s, a)
  {
    match a
    case Produce(t, p) =>
      ProducerEffect(s, s.producers[t], p).(producers := s.producers[t := ProducerAfter(s, s.producers[t], p)])
    case Consume(c) => ConsumerEffect(s, c).(consumer := ConsumerAfter(s, c))
  }

  ghost predicate Steps(s: State, acts: seq<Action>, s': State)
    decreases |acts|
  {
    if acts == [] then s' == s
    else Enabled(s, acts[0]) && Steps(Apply(s, acts[0]), acts[1..], s')
  }

  // ---------------------------------------------------------------- the invariant: cursors

  /** The cursor of entry `j`, or the head behind the last one. */
  function Cursor(s: State, j: nat): nat
    requires j <= |s.log|
  {
    if j < |s.log| then s.log[j].cur else s.head
  }

  function End(e: Entry): nat { e.cur + HEADER + e.len }

  predicate EntryOk(e: Entry) {
    && USER_HEADER < e.len <= MAX_ENTRY
    && e.len % ALIGNMENT == 0
    && e.cur % ALIGNMENT == 0
    && |e.payload| == e.len - USER_HEADER
  }

  /** The entries follow each other without a gap, from cursor 0 up to the head. */
  ghost predicate Chain(s: State) {
    && Cursor(s, 0) == 0
    && forall j :: 0 < j <= |s.log| ==> Cursor(s, j) == End(s.log[j - 1])
  }

  ghost predicate Ordered(s: State) {
    && (forall j :: 0 <= j < |s.log| ==> End(s.log[j]) <= s.head)
    && (forall j, k :: 0 <= j < k < |s.log| ==> End(s.log[j]) <= s.log[k].cur)
  }

  ghost predicate Entries(s: State) {
    s.head % ALIGNMENT == 0 && forall j :: 0 <= j < |s.log| ==> EntryOk(s.log[j])
  }

  /** Entries lie where their cursor says. */
  ghost predicate Placed(s: State)
    requires s.size > 0
  {
    forall j :: 0 <= j < |s.log| ==> s.log[j].pos == s.log[j].cur % s.size
  }

  /** The unreleased entries fit the buffer. */
  ghost predicate Window(s: State) {
    && s.released <= |s.log|
    && s.tail == Cursor(s, s.released)
    && s.tail <= s.head <= s.tail + s.size
  }

  // ---------------------------------------------------------------- the invariant: bytes

  predicate InRegion(e: Entry, x: int) { e.pos <= x < e.pos + HEADER + e.len }

  /** The bytes of an entry that is not being cleared: header and payload, wherever it is in its life. */
  ghost predicate Image(buf: seq<Byte>, e: Entry) {
    && 0 <= e.len < 0x10000 && USER_HEADER <= e.len
    && e.pos + HEADER + e.len <= |buf|
    && buf[e.pos..e.pos + HEADER] == (match e.stage
                                      case Claimed => Word(0, 0)
                                      case Marked => Word(e.len, 0)
                                      case Committed => Word(e.len, COMMITTED))
    && buf[e.pos + HEADER + USER_HEADER..e.pos + HEADER + e.len] == e.payload
  }

  /** How much of the oldest entry the consumer has cleared. */
  function Cleared(s: State): nat { if s.consumer.pc.Clear? then s.consumer.pc.k else 0 }

  ghost predicate EntryMemory(s: State, j: nat)
    requires j < |s.log|
  {
    if j == s.released && Cleared(s) > 0 then
      forall x :: s.log[j].pos <= x < s.log[j].pos + Cleared(s) && x < |s.buf| ==> s.buf[x] == 0
    else Image(s.buf, s.log[j])
  }

  /** Byte `x` belongs to no unreleased entry. */
  ghost predicate Free(s: State, x: int) {
    forall j :: s.released <= j < |s.log| ==> !InRegion(s.log[j], x)
  }

  /** Unreleased entries hold what was written into them, and every other byte is zero. */
  ghost predicate Memory(s: State) {
    && (forall j :: s.released <= j < |s.log| ==> EntryMemory(s, j))
    && (forall x :: 0 <= x < |s.buf| && Free(s, x) ==> s.buf[x] == 0)
  }

  // ---------------------------------------------------------------- the invariant: threads

  predicate Owns(p: Producer) { p.Mark? || p.Fill? }

  ghost predicate ProducerOk(s: State, p: Producer) {
    match p
    case LoadTail(len) => ValidLength(len, MAX_PAYLOAD)
    case LoadHead(len, tail) => ValidLength(len, MAX_PAYLOAD) && tail <= s.tail
    case Reserve(len, tail, head) => ValidLength(len, MAX_PAYLOAD) && tail <= s.tail
    case Mark(e, pos, len) =>
      s.released <= e < |s.log| && s.log[e].stage == Claimed && pos == s.log[e].pos && len == s.log[e].len
    case Fill(e, pos, len) =>
      s.released <= e < |s.log| && s.log[e].stage == Marked && pos == s.log[e].pos && len == s.log[e].len
    case _ => true
  }

  ghost predicate ProducersOk(s: State) {
    && (forall t :: 0 <= t < |s.producers| ==> ProducerOk(s, s.producers[t]))
    && (forall t, u :: 0 <= t < u < |s.producers| && Owns(s.producers[t]) && Owns(s.producers[u]) ==>
          s.producers[t].e != s.producers[u].e)
  }

  /** `cur` is the cursor of the entry with peek index `idx`, and everything before it is committed. */
  ghost predicate AtEntry(s: State, idx: nat, cur: nat) {
    && s.released + idx <= |s.log|
    && cur == Cursor(s, s.released + idx)
    && forall m :: s.released <= m < s.released + idx ==> s.log[m].stage == Committed
  }

  ghost predicate BufferOk(s: State, m: nat, b: Buffer) {
    m < |s.log| && s.log[m].stage == Committed && b == Buffer(s.log[m].pos + HEADER, s.log[m].len)
  }

  ghost predicate ConsumerOk(s: State) {
    var c := s.consumer;
    && (if c.stale then c.cachedIndex == 0 && c.cachedTail == 0 && s.released > 0
        else AtEntry(s, c.cachedIndex, c.cachedTail))
    && (forall m :: m in c.bufs && m >= s.released ==> BufferOk(s, m, c.bufs[m]))
    && (match c.pc
        case Ready => true
        case PeekHead(index) => index == 0 || !c.stale
        case Scan(index, head, cur, idx) => idx <= index && head <= s.head && AtEntry(s, idx, cur)
        case Clear(k) => s.released in c.bufs && k <= c.bufs[s.released].len + HEADER
        case Fault => false)
  }

  /** What was handed to the consumer and released, or is being released. */
  ghost predicate Delivered(s: State) {
    |s.received| == s.released + (if s.consumer.pc.Clear? then 1 else 0)
  }

  ghost predicate Inv(s: State) {
    && Sized(s.size, s.buf)
    && Chain(s)
    && Ordered(s)
    && Entries(s)
    && Placed(s)
    && Window(s)
    && Memory(s)
    && ProducersOk(s)
    && ConsumerOk(s)
    && Delivered(s)
  }
}
