/** Loading a written file recovers what was written, exactly if the segment numbers are in order. */
module BinRoundTrip {
  import opened BinFile
  import opened BinFormat
  import opened Bytes
  import opened BinLayout

  /** The registry after the first `k` events were loaded. */
  function FirstEvents(r: Registry, k: nat): Registry
    requires k <= |r.events|
  {
    Registry(r.events[..k], [], 0, 0)
  }

  /** The event loop on a written file, entered at event `k`. */
  function LoadEventsFrom(epk: seq<Byte>, r: Registry, k: nat, l: Limits): Option<Registry>
    requires |epk| <= MAX_EPK && Writable(r) && k <= |r.events|
  {
    LoadEvents(FileBytes(epk, r), RECORD + RECORD * k, |r.events| - k, FirstEvents(r, k), l)
  }

  lemma LoadsOneEvent(epk: seq<Byte>, r: Registry, k: nat, l: Limits)
    requires |epk| <= MAX_EPK && Writable(r) && |r.events| <= l.maxEvents && k < |r.events|
    ensures LoadEventsFrom(epk, r, k, l) == LoadEventsFrom(epk, r, k + 1, l)
  {
    FileEvent(epk, r, k);
    EventReads(k, r.events[k]);
    assert r.events[..k + 1] == r.events[..k] + [r.events[k]];
  }

  lemma {:induction false} LoadsEvents(epk: seq<Byte>, r: Registry, k: nat, l: Limits)
    requires |epk| <= MAX_EPK && Writable(r) && |r.events| <= l.maxEvents && k <= |r.events|
    ensures LoadEventsFrom(epk, r, k, l) == LoadEventsFrom(epk, r, |r.events|, l)
    decreases |r.events| - k
  {
    if k < |r.events| {
      LoadsOneEvent(epk, r, k, l);
      LoadsEvents(epk, r, k + 1, l);
    }
  }

  /** The registry after all events and the first `k` segments were loaded. */
  function FirstSegs(r: Registry, k: nat, l: Limits): Registry
    requires Writable(r) && k <= |r.segs|
  {
    Registry(r.events, PositionedSegs(r, k), MemoryCount(r.segs[..k]), PoolSum(r.segs[..k], l))
  }

  lemma {:induction false} PrefixSums(segs: seq<Seg>, k: nat, l: Limits)
    requires k <= |segs|
    ensures MemoryCount(segs[..k]) <= MemoryCount(segs) && PoolSum(segs[..k], l) <= PoolSum(segs, l)
    decreases |segs|
  {
    if k < |segs| {
      var n := |segs| - 1;
      PrefixSums(segs[..n], k, l);
      assert segs[..n][..k] == segs[..k];
    } else {
      assert segs[..k] == segs;
    }
  }

  lemma SumsStep(segs: seq<Seg>, k: nat, l: Limits)
    requires k < |segs|
    ensures MemoryCount(segs[..k + 1]) == MemoryCount(segs[..k]) + (if segs[k].number != NO_NUMBER then 1 else 0)
    ensures PoolSum(segs[..k + 1], l) == PoolSum(segs[..k], l) + PoolSize(|segs[k].page|, l)
  {
    assert segs[..k + 1][..k] == segs[..k];
  }

  /** Segment `k` can be created after the first `k`, and gets the number it had. */
  lemma CanRecreate(r: Registry, k: nat, l: Limits)
    requires Writable(r) && Fits(r, l) && k < |r.segs| && NumberOk(r.segs, k)
    ensures var s := r.segs[k];
      && PoolSum(r.segs[..k], l) + PoolSize(|s.page|, l) <= l.pool && k + 1 < l.maxSegs
      && (s.number != NO_NUMBER ==> s.number == MemoryCount(r.segs[..k]) < 0xFF)
  {
    PrefixSums(r.segs, k + 1, l);
    SumsStep(r.segs, k, l);
  }

  lemma FirstSegsStep(r: Registry, k: nat, l: Limits)
    requires Writable(r) && k < |r.segs|
    ensures var s, before := r.segs[k], FirstSegs(r, k, l);
      FirstSegs(r, k + 1, l) ==
        Registry(before.events, before.segs + [s.(filePos := Low32(SegPos(r, k)))],
                 if s.number != NO_NUMBER then before.memorySegments + 1 else before.memorySegments,
                 before.poolUsed + PoolSize(|s.page|, l))
  {
    SumsStep(r.segs, k, l);
  }

  /** Creating a segment for which there is room, and which has the number that is due. */
  lemma CreatesSeg(before: Registry, s: Seg, pos: Word32, l: Limits)
    requires before.poolUsed + PoolSize(|s.page|, l) <= l.pool && |before.segs| + 1 < l.maxSegs
    requires s.number != NO_NUMBER ==> s.number == before.memorySegments < 0xFF
    ensures CreateSeg(before, s.name, s.page, s.number != NO_NUMBER, pos, l) ==
              Some(Registry(before.events, before.segs + [s.(filePos := pos)],
                            if s.number != NO_NUMBER then before.memorySegments + 1 else before.memorySegments,
                            before.poolUsed + PoolSize(|s.page|, l)))
  {
  }

  /** Creating a segment like `s` leads from one registry to the other. */
  ghost predicate Creates(before: Registry, s: Seg, pos: nat, l: Limits, after: Registry) {
    && CreateSeg(before, s.name, s.page, s.number != NO_NUMBER, Low32(pos), l) == Some(after)
    && |after.segs| == |before.segs| + 1 && after.segs[|before.segs|].number == s.number
  }

  /** Loading segment `k` from the file repeats its creation. */
  lemma RecreatesSeg(r: Registry, k: nat, l: Limits)
    requires Writable(r) && Fits(r, l) && k < |r.segs| && NumberOk(r.segs, k)
    ensures Creates(FirstSegs(r, k, l), r.segs[k], SegPos(r, k), l, FirstSegs(r, k + 1, l))
  {
    CanRecreate(r, k, l);
    CreatesSeg(FirstSegs(r, k, l), r.segs[k], Low32(SegPos(r, k)), l);
    FirstSegsStep(r, k, l);
  }

  /** The segment loop on a written file, entered at segment `k`. */
  function LoadFrom(epk: seq<Byte>, r: Registry, k: nat, l: Limits): Option<Registry>
    requires |epk| <= MAX_EPK && Writable(r) && k <= |r.segs|
  {
    LoadSegs(FileBytes(epk, r), SegPos(r, k), |r.segs| - k, FirstSegs(r, k, l), l)
  }

  /** One pass of the loop on a record and a page that lie in the file. */
  lemma LoadsRecord(file: seq<Byte>, pos: nat, before: Registry, index: Word16, s: Seg, after: Registry, l: Limits)
    requires RecordLies(file, pos, index, s) && index == |before.segs|
    requires Creates(before, s, pos, l, after)
    ensures LoadSeg(file, pos, before, l) == Some((after, pos + RECORD + |s.page|))
  {
    SegReads(Describe(index, s));
  }

  lemma OneSegLoads(file: seq<Byte>, pos: nat, r: Registry, k: nat, l: Limits)
    requires Writable(r) && Fits(r, l) && k < |r.segs| && NumberOk(r.segs, k) && pos == SegPos(r, k)
    requires RecordLies(file, pos, k, r.segs[k])
    ensures LoadSeg(file, pos, FirstSegs(r, k, l), l) == Some((FirstSegs(r, k + 1, l), pos + RECORD + |r.segs[k].page|))
  {
    RecreatesSeg(r, k, l);
    FirstSegsShape(r, k, l);
    LoadsRecord(file, pos, FirstSegs(r, k, l), k, r.segs[k], FirstSegs(r, k + 1, l), l);
  }

  lemma FirstSegsShape(r: Registry, k: nat, l: Limits)
    requires Writable(r) && k < |r.segs|
    ensures |FirstSegs(r, k, l).segs| == k && |FirstSegs(r, k + 1, l).segs| == k + 1
    ensures FirstSegs(r, k + 1, l).segs[k].number == r.segs[k].number
  {
  }

  lemma SegLoopStep(file: seq<Byte>, pos: nat, n: nat, r: Registry, l: Limits, next: (Registry, nat))
    requires n > 0 && LoadSeg(file, pos, r, l) == Some(next)
    ensures LoadSegs(file, pos, n, r, l) == LoadSegs(file, next.1, n - 1, next.0, l)
  {
  }

  lemma PassAt(epk: seq<Byte>, r: Registry, k: nat, l: Limits)
    requires |epk| <= MAX_EPK && Writable(r) && Fits(r, l) && k < |r.segs| && NumberOk(r.segs, k)
    ensures LoadSeg(FileBytes(epk, r), SegPos(r, k), FirstSegs(r, k, l), l) ==
              Some((FirstSegs(r, k + 1, l), SegPos(r, k + 1)))
  {
    FileSeg(epk, r, k);
    OneSegLoads(FileBytes(epk, r), SegPos(r, k), r, k, l);
    NextPos(r, k);
  }

  lemma LoadsOneSeg(epk: seq<Byte>, r: Registry, k: nat, l: Limits)
    requires |epk| <= MAX_EPK && Writable(r) && Fits(r, l) && k < |r.segs| && NumberOk(r.segs, k)
    ensures LoadFrom(epk, r, k, l) == LoadFrom(epk, r, k + 1, l)
  {
    PassAt(epk, r, k, l);
    SegLoopStep(FileBytes(epk, r), SegPos(r, k), |r.segs| - k, FirstSegs(r, k, l), l,
                (FirstSegs(r, k + 1, l), SegPos(r, k + 1)));
  }

  /** A record whose number is not the one that is due. */
  lemma RefusesRecord(file: seq<Byte>, pos: nat, before: Registry, index: Word16, s: Seg, l: Limits)
    requires RecordLies(file, pos, index, s) && index == |before.segs|
    requires s.number != NO_NUMBER && s.number != before.memorySegments
    ensures LoadSeg(file, pos, before, l) == None
  {
    SegReads(Describe(index, s));
  }

  lemma RefusesOneSeg(epk: seq<Byte>, r: Registry, k: nat, l: Limits)
    requires |epk| <= MAX_EPK && Writable(r) && k < |r.segs| && !NumberOk(r.segs, k)
    ensures LoadFrom(epk, r, k, l) == None
  {
    FileSeg(epk, r, k);
    FirstSegsShape(r, k, l);
    RefusesRecord(FileBytes(epk, r), SegPos(r, k), FirstSegs(r, k, l), k, r.segs[k], l);
  }

  /** The numbers are in order from segment `k` on. */
  ghost predicate InOrderFrom(segs: seq<Seg>, k: nat) {
    forall j :: k <= j < |segs| ==> NumberOk(segs, j)
  }

  lemma OrderStep(segs: seq<Seg>, k: nat)
    requires k < |segs|
    ensures InOrderFrom(segs, k) <==> NumberOk(segs, k) && InOrderFrom(segs, k + 1)
  {
  }

  /** The loop runs to its end if all numbers are in order, and fails at the first one that is not. */
  lemma {:induction false} LoadsSegs(epk: seq<Byte>, r: Registry, k: nat, l: Limits)
    requires |epk| <= MAX_EPK && Writable(r) && Fits(r, l) && k <= |r.segs|
    ensures LoadFrom(epk, r, k, l) == if InOrderFrom(r.segs, k) then LoadFrom(epk, r, |r.segs|, l) else None
    decreases |r.segs| - k
  {
    if k < |r.segs| {
      OrderStep(r.segs, k);
      if NumberOk(r.segs, k) {
        LoadsOneSeg(epk, r, k, l);
        LoadsSegs(epk, r, k + 1, l);
      } else {
        RefusesOneSeg(epk, r, k, l);
      }
    }
  }

  lemma FileHeader(epk: seq<Byte>, r: Registry)
    requires ValidName(epk, MAX_EPK) && Writable(r)
    ensures var f := FileBytes(epk, r);
      |f| >= RECORD && ReadHeader(f[..RECORD]) == Header(SIGNATURE, VERSION, |r.events|, |r.segs|, epk)
  {
    HeaderReads(epk, |r.events|, |r.segs|);
    assert FileBytes(epk, r)[..RECORD] == HeaderRecord(epk, |r.events|, |r.segs|);
  }

  /** Behind a matching header, load is its two loops. */
  lemma LoadIsLoops(epk: seq<Byte>, expected: Option<seq<Byte>>, r: Registry, l: Limits)
    requires ValidName(epk, MAX_EPK) && Writable(r)
    requires expected.Some? ==> ValidName(expected.value, MAX_EPK)
    ensures expected.Some? && expected.value != epk ==> Load(FileBytes(epk, r), expected, l) == None
    ensures expected == None || expected == Some(epk) ==>
              Load(FileBytes(epk, r), expected, l) ==
                match LoadEventsFrom(epk, r, 0, l)
                case None => None
                case Some(loaded) => LoadSegs(FileBytes(epk, r), SegPos(r, 0), |r.segs|, loaded, l)
  {
    FileHeader(epk, r);
    assert FirstEvents(r, 0) == EMPTY;
  }

  /** What loading recovers: the lists with the file positions, and the counters that belong to them. */
  function Recovered(r: Registry, l: Limits): Registry
    requires Writable(r)
  {
    Registry(r.events, Positioned(r).segs, MemoryCount(r.segs), PoolSum(r.segs, l))
  }

  /**
    Loading what was written recovers every event, every segment with its default page, all
    counters and the file positions - exactly if the memory segment numbers are in the order of the
    list; and a file with another software version is refused.
   */
  lemma LoadRecovers(epk: seq<Byte>, expected: Option<seq<Byte>>, r: Registry, l: Limits)
    requires ValidName(epk, MAX_EPK) && Writable(r) && Fits(r, l)
    requires expected.Some? ==> ValidName(expected.value, MAX_EPK)
    ensures Load(FileBytes(epk, r), expected, l) ==
              if (expected == None || expected == Some(epk)) && NumbersInOrder(r.segs) then Some(Recovered(r, l))
              else None
  {
    LoadIsLoops(epk, expected, r, l);
    LoadsEvents(epk, r, 0, l);
    AllEvents(r, l);
    LoadsSegs(epk, r, 0, l);
    AllSegs(r, l);
  }

  /** A registry that was created by one thread is recovered as it was. */
  lemma RecoversConsistent(epk: seq<Byte>, r: Registry, l: Limits)
    requires ValidName(epk, MAX_EPK) && Writable(r) && Consistent(r, l)
    ensures Load(FileBytes(epk, r), Some(epk), l) == Some(Positioned(r))
  {
    LoadRecovers(epk, Some(epk), r, l);
  }

  /** Two segments whose threads drew their numbers in one order and registered in the other: the file does not load. */
  lemma OutOfOrderRefused(epk: seq<Byte>, r: Registry, l: Limits)
    requires ValidName(epk, MAX_EPK) && Writable(r) && Fits(r, l)
    requires |r.segs| == 2 && r.segs[0].number == 1 && r.segs[1].number == 0
    ensures Load(FileBytes(epk, r), Some(epk), l) == None
  {
    assert !NumberOk(r.segs, 0);
    LoadRecovers(epk, Some(epk), r, l);
  }

  lemma AllEvents(r: Registry, l: Limits)
    requires Writable(r)
    ensures FirstEvents(r, |r.events|) == FirstSegs(r, 0, l)
  {
    assert r.events[..|r.events|] == r.events;
  }

  lemma AllSegs(r: Registry, l: Limits)
    requires Writable(r)
    ensures FirstSegs(r, |r.segs|, l) == Recovered(r, l)
  {
    assert r.segs[..|r.segs|] == r.segs;
  }
}
