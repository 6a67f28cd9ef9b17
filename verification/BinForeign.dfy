/**
  The file byte by byte, and files that this software has not written, or not to the end: what load
  accepts of them, and that it never accepts a truncated file.
 */
module BinForeign {
  import opened BinFile
  import opened BinFormat
  import opened Bytes
  import opened BinLayout
  import opened BinRoundTrip

  // ---------------------------------------------------------------- the records byte by byte

  /** The 16 bit value at these two places, low byte first. */
  predicate HasWord(b: seq<Byte>, i: nat, w: nat) { i + 1 < |b| && b[i] == w % 256 && b[i + 1] == w / 256 }

  predicate HasQuad(b: seq<Byte>, i: nat, v: nat) { HasWord(b, i, v % 0x10000) && HasWord(b, i + 2, v / 0x10000) }

  predicate AllZero(b: seq<Byte>) { forall i :: 0 <= i < |b| ==> b[i] == 0 }

  const TEXT := "XCPLITE__BINARY"

  /** The file begins with these 15 letters and a zero, and the version 0x0205. */
  predicate HasSignature(b: seq<Byte>) {
    && |b| >= 18 && (forall i :: 0 <= i < |TEXT| ==> b[i] == TEXT[i] as int) && b[15] == 0
    && b[16] == 0x05 && b[17] == 0x02
  }

  lemma HeaderBytes(epk: seq<Byte>, events: Word16, segs: Word16)
    requires |epk| <= MAX_EPK
    ensures var r := HeaderRecord(epk, events, segs);
      && HasSignature(r) && HasWord(r, 18, events) && HasWord(r, 20, segs)
      && AllZero(r[22..128]) && r[128..128 + |epk|] == epk && AllZero(r[128 + |epk|..])
  {
    SignatureIsText();
    var r := HeaderRecord(epk, events, segs);
    assert r[..16] == SIGNATURE && r[16..20] == Word(VERSION, events) && r[20..24] == Word(segs, 0);
    assert r[16] == r[16..20][0] && r[17] == r[16..20][1] && r[18] == r[16..20][2] && r[19] == r[16..20][3];
    assert r[20] == r[20..24][0] && r[21] == r[20..24][1];
  }

  lemma SignatureIsText()
    ensures |SIGNATURE| == 16 && |TEXT| == 15 && SIGNATURE[15] == 0
    ensures forall i :: 0 <= i < 15 ==> SIGNATURE[i] == TEXT[i] as int
  {
  }

  lemma EventBytes(id: Word16, e: Event)
    requires EventOk(e)
    ensures var r := EventRecord(id, e);
      && HasWord(r, 0, id) && HasWord(r, 2, e.index) && HasQuad(r, 4, e.cycle)
      && r[8] == (if e.priority then 0xFF else 0) && AllZero(r[9..128])
      && r[128..128 + |e.name|] == e.name && AllZero(r[128 + |e.name|..])
  {
  }

  lemma SegmentBytes(index: Word16, s: Seg)
    requires SegOk(s)
    ensures var r := SegBytes(index, s);
      && |r| == 256 + |s.page|
      && HasWord(r, 0, index) && HasWord(r, 2, |s.page|)
      && HasQuad(r, 4, (0x8000_0000 + index * 0x10000) % 0x1_0000_0000)
      && r[8] == 0 && r[9] == s.number && AllZero(r[10..128])
      && r[128..128 + |s.name|] == s.name && AllZero(r[128 + |s.name|..256]) && r[256..] == s.page
  {
    var r, d := SegBytes(index, s), SegRecord(Describe(index, s));
    assert r[..256] == d && r[256..] == s.page;
    assert d[128..128 + |s.name|] == s.name;
    assert r[128..128 + |s.name|] == d[128..128 + |s.name|];
  }

  // ---------------------------------------------------------------- what load accepts

  lemma {:induction false} EventsCounted(file: seq<Byte>, pos: nat, n: nat, r: Registry, l: Limits)
    requires LoadEvents(file, pos, n, r, l).Some?
    ensures pos + RECORD * n <= |file| || n == 0
    ensures var r' := LoadEvents(file, pos, n, r, l).value;
      |r'.events| == |r.events| + n && r'.segs == r.segs
    decreases n
  {
    if n > 0 {
      var d := ReadEvent(file[pos..pos + RECORD]);
      EventsCounted(file, pos + RECORD, n - 1, CreateEvent(r, d.event, l).value, l);
    }
  }

  /** Where the records of `n` segments end, as the sizes in the file say. */
  function SegsEnd(file: seq<Byte>, pos: nat, n: nat): nat
    decreases n
  {
    if n == 0 || pos + RECORD > |file| then pos
    else SegsEnd(file, pos + RECORD + ReadSeg(file[pos..pos + RECORD]).size, n - 1)
  }

  lemma {:induction false} SegsCounted(file: seq<Byte>, pos: nat, n: nat, r: Registry, l: Limits)
    requires LoadSegs(file, pos, n, r, l).Some?
    ensures SegsEnd(file, pos, n) <= |file| || n == 0
    ensures var r' := LoadSegs(file, pos, n, r, l).value;
      |r'.segs| == |r.segs| + n && r'.events == r.events
    decreases n
  {
    if n > 0 {
      var next := LoadSeg(file, pos, r, l).value;
      SegsCounted(file, next.1, n - 1, next.0, l);
    }
  }

  /**
    Any file that loads has this signature and version, as many events and segments as its header
    says, and ends behind the last of them.
   */
  lemma LoadedIsOurs(file: seq<Byte>, epk: Option<seq<Byte>>, l: Limits)
    requires Load(file, epk, l).Some?
    ensures |file| >= 256 && HasSignature(file)
    ensures var r := Load(file, epk, l).value;
      HasWord(file, 18, |r.events|) && HasWord(file, 20, |r.segs|) &&
        (r.segs != [] ==> SegsEnd(file, 256 + 256 * |r.events|, |r.segs|) <= |file|)
  {
    HeaderIsOurs(file, epk);
    var h := ReadHeader(file[..RECORD]);
    ListsCounted(file, h.events, h.segs, l);
  }

  lemma ListsCounted(file: seq<Byte>, m: nat, n: nat, l: Limits)
    requires LoadLists(file, m, n, l).Some?
    ensures var r := LoadLists(file, m, n, l).value;
      |r.events| == m && |r.segs| == n && (n > 0 ==> SegsEnd(file, RECORD + RECORD * m, n) <= |file|)
  {
    var events := LoadEvents(file, RECORD, m, EMPTY, l).value;
    EventsCounted(file, RECORD, m, EMPTY, l);
    SegsCounted(file, RECORD + RECORD * m, n, events, l);
  }

  lemma HeaderIsOurs(file: seq<Byte>, epk: Option<seq<Byte>>)
    requires |file| >= RECORD && HeaderAccepted(ReadHeader(file[..RECORD]), epk)
    ensures var h := ReadHeader(file[..RECORD]);
      HasSignature(file) && HasWord(file, 18, h.events) && HasWord(file, 20, h.segs)
  {
    SignatureIsText();
    var head := file[..RECORD];
    VersionBytes(head);
    assert head[..16] == SIGNATURE;
    assert forall i :: 0 <= i < 16 ==> head[i] == head[..16][i];
    assert forall i :: 0 <= i < RECORD ==> head[i] == file[i];
  }

  /** A software version is accepted exactly if it agrees with that of the file in the 31 bytes that count. */
  lemma EpkIff(h: Header, epk: seq<Byte>)
    requires HeaderAccepted(h, None)
    ensures HeaderAccepted(h, Some(epk)) <==>
      h.epk == epk || (|h.epk| >= 31 && |epk| >= 31 && h.epk[..31] == epk[..31])
  {
    assert |h.epk| == 31 ==> h.epk[..31] == h.epk;
    assert |epk| == 31 ==> epk[..31] == epk;
  }

  lemma VersionBytes(b: seq<Byte>)
    requires |b| >= 22
    ensures LowWord(b, 16) == 0x0205 <==> b[16] == 0x05 && b[17] == 0x02
    ensures HasWord(b, 18, HighWord(b, 16)) && HasWord(b, 20, LowWord(b, 20))
  {
  }

  lemma RecordWord(file: seq<Byte>, pos: nat, i: nat)
    requires pos + RECORD <= |file| && i + 2 <= RECORD
    ensures HasWord(file, pos + i, LowWord(file[pos..pos + RECORD], i))
  {
    var b := file[pos..pos + RECORD];
    assert b[i] == file[pos + i] && b[i + 1] == file[pos + i + 1];
  }

  /** Every event that loads has the number of its place as its id. */
  lemma {:induction false} EventIds(file: seq<Byte>, pos: nat, n: nat, r: Registry, l: Limits, j: nat)
    requires LoadEvents(file, pos, n, r, l).Some? && j < n
    ensures HasWord(file, pos + RECORD * j, |r.events| + j)
    decreases j
  {
    if j == 0 {
      RecordWord(file, pos, 0);
    } else {
      var d := ReadEvent(file[pos..pos + RECORD]);
      EventIds(file, pos + RECORD, n - 1, CreateEvent(r, d.event, l).value, l, j - 1);
    }
  }

  lemma FirstIndex(file: seq<Byte>, pos: nat, r: Registry, l: Limits)
    requires LoadSeg(file, pos, r, l).Some?
    ensures HasWord(file, pos, |r.segs|)
    ensures var next := LoadSeg(file, pos, r, l).value;
      |next.0.segs| == |r.segs| + 1 && forall j: nat :: j > 0 ==> SegsEnd(file, pos, j) == SegsEnd(file, next.1, j - 1)
  {
    RecordWord(file, pos, 0);
  }

  lemma PassOfLoop(file: seq<Byte>, pos: nat, n: nat, r: Registry, l: Limits) returns (next: (Registry, nat))
    requires LoadSegs(file, pos, n, r, l).Some? && n > 0
    ensures LoadSeg(file, pos, r, l) == Some(next) && LoadSegs(file, next.1, n - 1, next.0, l).Some?
  {
    next := LoadSeg(file, pos, r, l).value;
    SegLoopStep(file, pos, n, r, l, next);
  }

  /** The registries and positions that the loop over the segments goes through. */
  ghost predicate Chain(file: seq<Byte>, c: seq<(Registry, nat)>, l: Limits) {
    forall k :: 0 <= k < |c| - 1 ==> LoadSeg(file, c[k].1, c[k].0, l) == Some(c[k + 1])
  }

  lemma {:induction false} LoopChain(file: seq<Byte>, pos: nat, n: nat, r: Registry, l: Limits)
      returns (c: seq<(Registry, nat)>)
    requires LoadSegs(file, pos, n, r, l).Some?
    ensures |c| == n + 1 && c[0] == (r, pos) && Chain(file, c, l)
    decreases n
  {
    c := [(r, pos)];
    if n > 0 {
      var next := PassOfLoop(file, pos, n, r, l);
      var rest := LoopChain(file, next.1, n - 1, next.0, l);
      c := [(r, pos)] + rest;
    }
  }

  /** Every segment that loads has the number of its place as its index. */
  lemma {:induction false} SegIndices(file: seq<Byte>, c: seq<(Registry, nat)>, l: Limits, k: nat, j: nat)
    requires Chain(file, c, l) && k + j < |c| - 1
    ensures HasWord(file, SegsEnd(file, c[k].1, j), |c[k].0.segs| + j)
    decreases j
  {
    assert LoadSeg(file, c[k].1, c[k].0, l) == Some(c[k + 1]);
    FirstIndex(file, c[k].1, c[k].0, l);
    if j > 0 {
      SegIndices(file, c, l, k + 1, j - 1);
    }
  }

  lemma ListsParts(file: seq<Byte>, m: nat, n: nat, l: Limits) returns (events: Registry)
    requires LoadLists(file, m, n, l).Some?
    ensures LoadEvents(file, RECORD, m, EMPTY, l) == Some(events) && events.segs == []
    ensures LoadSegs(file, RECORD + RECORD * m, n, events, l).Some?
  {
    events := LoadEvents(file, RECORD, m, EMPTY, l).value;
    EventsCounted(file, RECORD, m, EMPTY, l);
  }

  lemma ListsInOrder(file: seq<Byte>, m: nat, n: nat, l: Limits, j: nat)
    requires LoadLists(file, m, n, l).Some?
    ensures j < m ==> HasWord(file, RECORD + RECORD * j, j)
    ensures j < n ==> HasWord(file, SegsEnd(file, RECORD + RECORD * m, j), j)
  {
    var events := ListsParts(file, m, n, l);
    EventsPart(file, m, l, j);
    SegsPart(file, RECORD + RECORD * m, n, events, l, j);
  }

  lemma EventsPart(file: seq<Byte>, m: nat, l: Limits, j: nat)
    requires LoadEvents(file, RECORD, m, EMPTY, l).Some?
    ensures j < m ==> HasWord(file, RECORD + RECORD * j, j)
  {
    if j < m {
      EventIds(file, RECORD, m, EMPTY, l, j);
    }
  }

  lemma SegsPart(file: seq<Byte>, pos: nat, n: nat, events: Registry, l: Limits, j: nat)
    requires LoadSegs(file, pos, n, events, l).Some? && events.segs == []
    ensures j < n ==> HasWord(file, SegsEnd(file, pos, j), j)
  {
    if j < n {
      var c := LoopChain(file, pos, n, events, l);
      SegIndices(file, c, l, 0, j);
    }
  }

  /** Any file that loads has its events and segments in order: id and index are the places in the lists. */
  lemma LoadedIsInOrder(file: seq<Byte>, epk: Option<seq<Byte>>, l: Limits, j: nat)
    requires Load(file, epk, l).Some?
    ensures var r := Load(file, epk, l).value;
      && (j < |r.events| ==> HasWord(file, 256 + 256 * j, j))
      && (j < |r.segs| ==> HasWord(file, SegsEnd(file, 256 + 256 * |r.events|, j), j))
  {
    var h := ReadHeader(file[..RECORD]);
    ListsCounted(file, h.events, h.segs, l);
    ListsInOrder(file, h.events, h.segs, l, j);
  }

  // ---------------------------------------------------------------- truncated files

  lemma SlicePrefix(g: seq<Byte>, f: seq<Byte>, i: nat, j: nat)
    requires g <= f && i <= j <= |g|
    ensures g[i..j] == f[i..j]
  {
  }

  /** What loads from the beginning of a file ends where the records of the whole file end. */
  lemma {:induction false} PrefixEnds(g: seq<Byte>, f: seq<Byte>, pos: nat, n: nat, r: Registry, l: Limits)
    requires g <= f && LoadSegs(g, pos, n, r, l).Some?
    ensures n == 0 || SegsEnd(f, pos, n) <= |g|
    decreases n
  {
    if n > 0 {
      SlicePrefix(g, f, pos, pos + RECORD);
      var next := LoadSeg(g, pos, r, l).value;
      PrefixEnds(g, f, next.1, n - 1, next.0, l);
    }
  }

  lemma RecordEnds(file: seq<Byte>, pos: nat, n: nat, index: Word16, s: Seg)
    requires n > 0 && RecordLies(file, pos, index, s)
    ensures SegsEnd(file, pos, n) == SegsEnd(file, pos + RECORD + |s.page|, n - 1)
  {
    SegReads(Describe(index, s));
  }

  /** Where the records end in a written file, read from segment `k` on. */
  function EndFrom(epk: seq<Byte>, r: Registry, k: nat): nat
    requires |epk| <= MAX_EPK && Writable(r) && k <= |r.segs|
  {
    SegsEnd(FileBytes(epk, r), SegPos(r, k), |r.segs| - k)
  }

  lemma EndStep(epk: seq<Byte>, r: Registry, k: nat)
    requires |epk| <= MAX_EPK && Writable(r) && k < |r.segs|
    ensures EndFrom(epk, r, k) == EndFrom(epk, r, k + 1)
  {
    FileSeg(epk, r, k);
    NextPos(r, k);
    RecordEnds(FileBytes(epk, r), SegPos(r, k), |r.segs| - k, k, r.segs[k]);
  }

  /** In a written file the records end with the file. */
  lemma {:induction false} WrittenEnds(epk: seq<Byte>, r: Registry, k: nat)
    requires |epk| <= MAX_EPK && Writable(r) && k <= |r.segs|
    ensures EndFrom(epk, r, k) == SegPos(r, |r.segs|)
    decreases |r.segs| - k
  {
    if k < |r.segs| {
      EndStep(epk, r, k);
      WrittenEnds(epk, r, k + 1);
    }
  }

  lemma FileLength(epk: seq<Byte>, r: Registry)
    requires |epk| <= MAX_EPK && Writable(r)
    ensures |FileBytes(epk, r)| == SegPos(r, |r.segs|) && SegPos(r, 0) == RECORD + RECORD * |r.events|
  {
    assert r.segs[..|r.segs|] == r.segs && r.segs[..0] == [];
  }

  /** A file that was not written to its end does not load, wherever it is cut off. */
  lemma TruncatedRefused(epk: seq<Byte>, r: Registry, n: nat, expected: Option<seq<Byte>>, l: Limits)
    requires ValidName(epk, MAX_EPK) && Writable(r) && n < |FileBytes(epk, r)|
    ensures Load(FileBytes(epk, r)[..n], expected, l) == None
  {
    var f := FileBytes(epk, r);
    var g := f[..n];
    FileLength(epk, r);
    if n >= RECORD && Load(g, expected, l).Some? {
      FileHeader(epk, r);
      SlicePrefix(g, f, 0, RECORD);
      var events := LoadEvents(g, RECORD, |r.events|, EMPTY, l).value;
      EventsCounted(g, RECORD, |r.events|, EMPTY, l);
      PrefixEnds(g, f, RECORD + RECORD * |r.events|, |r.segs|, events, l);
      WrittenEnds(epk, r, 0);
      assert false;
    }
  }
}
