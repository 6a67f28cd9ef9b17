/** Writing, loading and freezing the binary persistence file. */
module BinFile {
  import opened BinFormat
  import opened Bytes
  import opened CalLayout

  datatype Option<T> = None | Some(value: T)

  /** A calibration segment as far as it persists; `filePos` is where its record lies in the file. */
  datatype Seg = Seg(number: Byte, name: seq<Byte>, page: seq<Byte>, filePos: Word32)

  /** The event list and the segment list, with the counters that creating segments advances. */
  datatype Registry = Registry(events: seq<Event>, segs: seq<Seg>, memorySegments: nat, poolUsed: nat)

  /** Compile time limits, and the size of a segment header in the pool. */
  datatype Limits = Limits(maxEvents: nat, maxSegs: nat, pool: nat, segHeader: nat, pageCount: nat)

  const EMPTY := Registry([], [], 0, 0)

  // ---------------------------------------------------------------- creating

  /** XcpCreateIndexedEvent: the new event gets the next id. */
  function CreateEvent(r: Registry, e: Event, l: Limits): Option<Registry> {
    if |e.name| > MAX_EVENT_NAME || |r.events| >= l.maxEvents then None
    else Some(r.(events := r.events + [e]))
  }

  function PagesSize(pages: nat, alignedSize: nat): nat {
    if pages == 0 then 0 else PagesSize(pages - 1, alignedSize) + alignedSize
  }

  function PoolSize(size: nat, l: Limits): nat { l.segHeader + PagesSize(l.pageCount, Aligned16(size)) }

  /** A header and the pages, each rounded up to 8 bytes. */
  lemma PoolSizeIs(size: nat, l: Limits)
    requires size <= 65528
    ensures PoolSize(size, l) == l.segHeader + l.pageCount * ((size + 7) / 8 * 8)
  {
    AllocatedSizeIsUsedSize(size);
    PagesSizeIs(l.pageCount, (size + 7) / 8 * 8);
  }

  lemma {:induction false} PagesSizeIs(pages: nat, alignedSize: nat)
    ensures PagesSize(pages, alignedSize) == pages * alignedSize
  {
    if pages > 0 {
      PagesSizeIs(pages - 1, alignedSize);
      assert (pages - 1) * alignedSize + alignedSize == pages * alignedSize;
    }
  }

  /** The memory segment number that the next segment gets. */
  function NextNumber(r: Registry, memorySegment: bool): Byte
    requires memorySegment ==> r.memorySegments < 0xFF
  {
    if memorySegment then r.memorySegments else NO_NUMBER
  }

  /** Creating a segment: pool memory, number, list entry. */
  function CreateSeg(r: Registry, name: seq<Byte>, page: seq<Byte>, memorySegment: bool, filePos: Word32,
                     l: Limits): Option<Registry> {
    if r.poolUsed + PoolSize(|page|, l) > l.pool then None
    else if memorySegment && r.memorySegments >= 0xFF then None
    else if |r.segs| + 1 >= l.maxSegs then None
    else
      Some(Registry(r.events, r.segs + [Seg(NextNumber(r, memorySegment), name, page, filePos)],
                    if memorySegment then r.memorySegments + 1 else r.memorySegments, r.poolUsed + PoolSize(|page|, l)))
  }

  /** When an event is created: its name fits its field, and the list has room. */
  lemma CreateEventIff(r: Registry, e: Event, l: Limits)
    ensures CreateEvent(r, e, l) ==
      if |e.name| <= 15 && |r.events| < l.maxEvents then Some(r.(events := r.events + [e])) else None
  {
  }

  /** When a segment is created: pool, numbers and list have room; only a memory segment takes a number. */
  lemma CreateSegIff(r: Registry, name: seq<Byte>, page: seq<Byte>, memorySegment: bool, filePos: Word32, l: Limits)
    requires |page| <= 65528
    ensures var size := l.segHeader + l.pageCount * ((|page| + 7) / 8 * 8);
      var r' := CreateSeg(r, name, page, memorySegment, filePos, l);
      && (r'.Some? <==> r.poolUsed + size <= l.pool && |r.segs| + 1 < l.maxSegs &&
                        (memorySegment ==> r.memorySegments < 255))
      && (r'.Some? ==>
            && r'.value.events == r.events && r'.value.poolUsed == r.poolUsed + size
            && r'.value.segs ==
                 r.segs + [Seg(if memorySegment then r.memorySegments else 255, name, page, filePos)]
            && r'.value.memorySegments == r.memorySegments + if memorySegment then 1 else 0)
  {
    PoolSizeIs(|page|, l);
  }

  predicate EventsOk(events: seq<Event>) {
    |events| <= 0xFFFF && forall i :: 0 <= i < |events| ==> EventOk(events[i])
  }

  predicate SegOk(s: Seg) { 0 < |s.page| <= 0xFFFF && ValidName(s.name, MAX_SEG_NAME) }

  predicate SegsOk(segs: seq<Seg>) {
    |segs| <= 0xFFFF && forall i :: 0 <= i < |segs| ==> SegOk(segs[i])
  }

  predicate Writable(r: Registry) { EventsOk(r.events) && SegsOk(r.segs) }

  function MemoryCount(segs: seq<Seg>): nat {
    if segs == [] then 0
    else MemoryCount(segs[..|segs| - 1]) + (if segs[|segs| - 1].number != NO_NUMBER then 1 else 0)
  }

  function PoolSum(segs: seq<Seg>, l: Limits): nat {
    if segs == [] then 0
    else PoolSum(segs[..|segs| - 1], l) + PoolSize(|segs[|segs| - 1].page|, l)
  }

  /** What fits the limits under which it was created. */
  ghost predicate Fits(r: Registry, l: Limits) {
    |r.events| <= l.maxEvents && (r.segs != [] ==> |r.segs| < l.maxSegs && PoolSum(r.segs, l) <= l.pool)
  }

  /** The memory segments of the list have the numbers 0, 1, 2, ... */
  ghost predicate NumbersInOrder(segs: seq<Seg>) {
    forall i :: 0 <= i < |segs| ==> NumberOk(segs, i)
  }

  /**
    What creating events and segments one after the other establishes: the counters match, and
    numbers are given in order. Threads that create segments at the same time can leave the numbers
    in another order than the list.
   */
  ghost predicate Consistent(r: Registry, l: Limits) {
    && |r.events| <= l.maxEvents
    && (r.segs != [] ==> |r.segs| < l.maxSegs)
    && r.memorySegments == MemoryCount(r.segs) <= 0xFF
    && r.poolUsed == PoolSum(r.segs, l)
    && (r.segs != [] ==> r.poolUsed <= l.pool)
    && forall i :: 0 <= i < |r.segs| ==> NumberOk(r.segs, i)
  }

  /** A segment has no number, or the one that was due. */
  ghost predicate NumberOk(segs: seq<Seg>, i: nat)
    requires i < |segs|
  {
    segs[i].number == NO_NUMBER || segs[i].number == MemoryCount(segs[..i])
  }

  lemma CreateEventConsistent(r: Registry, e: Event, l: Limits)
    requires Consistent(r, l) && CreateEvent(r, e, l).Some?
    ensures Consistent(CreateEvent(r, e, l).value, l)
  {
  }

  lemma CreateSegConsistent(r: Registry, name: seq<Byte>, page: seq<Byte>, memorySegment: bool, filePos: Word32,
                            l: Limits)
    requires Consistent(r, l) && CreateSeg(r, name, page, memorySegment, filePos, l).Some?
    ensures Consistent(CreateSeg(r, name, page, memorySegment, filePos, l).value, l)
  {
    var r' := CreateSeg(r, name, page, memorySegment, filePos, l).value;
    var n := |r.segs|;
    assert r'.segs[..n] == r.segs;
    forall i | 0 <= i < |r'.segs|
      ensures NumberOk(r'.segs, i)
    {
      if i < n {
        assert NumberOk(r.segs, i);
        assert r'.segs[..i] == r.segs[..i];
      }
    }
  }

  // ---------------------------------------------------------------- writing

  /** The base address in the segment relative addressing mode. */
  function BaseAddress(index: Word16): Word32 { (0x8000_0000 + index * 0x10000) % 0x1_0000_0000 }

  function Describe(index: Word16, s: Seg): (d: SegDesc)
    requires |s.page| <= 0xFFFF
    ensures d.name == s.name
  {
    SegDesc(index, |s.page|, BaseAddress(index), s.number, s.name)
  }

  function EventsBytes(events: seq<Event>): (b: seq<Byte>)
    requires EventsOk(events)
    ensures |b| == RECORD * |events|
  {
    if events == [] then []
    else
      var n := |events| - 1;
      assert EventOk(events[n]);
      EventsBytes(events[..n]) + EventRecord(n, events[n])
  }

  function SegBytes(index: Word16, s: Seg): (b: seq<Byte>)
    requires SegOk(s)
    ensures |b| == RECORD + |s.page|
  {
    SegRecord(Describe(index, s)) + s.page
  }

  function SegsBytes(segs: seq<Seg>): seq<Byte>
    requires SegsOk(segs)
  {
    if segs == [] then []
    else
      var n := |segs| - 1;
      assert SegOk(segs[n]);
      SegsBytes(segs[..n]) + SegBytes(n, segs[n])
  }

  /** The whole file. */
  function FileBytes(epk: seq<Byte>, r: Registry): seq<Byte>
    requires |epk| <= MAX_EPK && Writable(r)
  {
    HeaderRecord(epk, |r.events|, |r.segs|) + EventsBytes(r.events) + SegsBytes(r.segs)
  }

  /** Where the record of segment `i` starts. */
  function SegPos(r: Registry, i: nat): (p: nat)
    requires Writable(r) && i <= |r.segs|
    ensures p >= RECORD
  {
    RECORD + RECORD * |r.events| + |SegsBytes(r.segs[..i])|
  }

  /** The first `k` segments with the file positions that writing records. */
  function PositionedSegs(r: Registry, k: nat): (segs: seq<Seg>)
    requires Writable(r) && k <= |r.segs|
    ensures |segs| == k
    decreases k
  {
    if k == 0 then []
    else PositionedSegs(r, k - 1) + [r.segs[k - 1].(filePos := Low32(SegPos(r, k - 1)))]
  }

  lemma {:induction false} PositionedAt(r: Registry, k: nat, i: nat)
    requires Writable(r) && i < k <= |r.segs|
    ensures PositionedSegs(r, k)[i] == r.segs[i].(filePos := Low32(SegPos(r, i)))
    decreases k
  {
    if i < k - 1 {
      PositionedAt(r, k - 1, i);
    }
  }

  function Positioned(r: Registry): (r': Registry)
    requires Writable(r)
    ensures |r'.segs| == |r.segs|
  {
    r.(segs := PositionedSegs(r, |r.segs|))
  }

  // ---------------------------------------------------------------- loading

  function LoadEvents(file: seq<Byte>, pos: nat, n: nat, r: Registry, l: Limits): Option<Registry>
    decreases n
  {
    if n == 0 then Some(r)
    else if pos + RECORD > |file| then None
    else
      var d := ReadEvent(file[pos..pos + RECORD]);
      var created := CreateEvent(r, d.event, l);
      if created.None? || d.id != |r.events| then None
      else LoadEvents(file, pos + RECORD, n - 1, created.value, l)
  }

  /** One pass of the loop over the segments: the registry with one more segment, and where the next record starts. */
  function LoadSeg(file: seq<Byte>, pos: nat, r: Registry, l: Limits): Option<(Registry, nat)> {
    if pos + RECORD > |file| then None
    else
      var d := ReadSeg(file[pos..pos + RECORD]);
      var start := pos + RECORD;
      if start + d.size > |file| then None
      else
        var created := CreateSeg(r, d.name, file[start..start + d.size], d.number != NO_NUMBER, Low32(pos), l);
        if created.None? || d.index != |r.segs| || created.value.segs[|r.segs|].number != d.number then None
        else Some((created.value, start + d.size))
  }

  function LoadSegs(file: seq<Byte>, pos: nat, n: nat, r: Registry, l: Limits): Option<Registry>
    decreases n
  {
    if n == 0 then Some(r)
    else
      match LoadSeg(file, pos, r, l)
      case None => None
      case Some(next) => LoadSegs(file, next.1, n - 1, next.0, l)
  }

  function Truncated(s: seq<Byte>): seq<Byte> { if |s| > MAX_EPK then s[..MAX_EPK] else s }

  /** The `m` events and the `n` segments behind the header. */
  function LoadLists(file: seq<Byte>, m: nat, n: nat, l: Limits): Option<Registry> {
    match LoadEvents(file, RECORD, m, EMPTY, l)
    case None => None
    case Some(events) => LoadSegs(file, RECORD + RECORD * m, n, events, l)
  }

  /** The checks on the header of a file. */
  predicate HeaderAccepted(h: Header, epk: Option<seq<Byte>>) {
    && h.signature == SIGNATURE && h.version == VERSION
    && (epk.Some? ==> Truncated(h.epk) == Truncated(epk.value))
  }

  /** load, into an empty registry; the result is None if it reports failure. */
  function Load(file: seq<Byte>, epk: Option<seq<Byte>>, l: Limits): Option<Registry> {
    if |file| < RECORD || !HeaderAccepted(ReadHeader(file[..RECORD]), epk) then None
    else
      var h := ReadHeader(file[..RECORD]);
      LoadLists(file, h.events, h.segs, l)
  }
}
