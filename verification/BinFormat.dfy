/** The records of the binary persistence file: 256 bytes each, little endian, strings padded with zeros. */
module BinFormat {
  import opened Bytes

  const RECORD := 256
  const VERSION := 0x0205
  const SIGNATURE: seq<Byte> := [88, 67, 80, 76, 73, 84, 69, 95, 95, 66, 73, 78, 65, 82, 89, 0]
  const MAX_EPK := 31
  const MAX_EVENT_NAME := 15
  const MAX_SEG_NAME := 27
  const NO_NUMBER := 0xFF

  type Word16 = w: int | 0 <= w < 0x10000
  type Word32 = w: int | 0 <= w < 0x1_0000_0000

  /** The conversion to 32 bits. */
  function Low32(x: nat): (w: Word32)
    ensures x < 0x1_0000_0000 ==> w == x
  {
    x % 0x1_0000_0000
  }

  // ---------------------------------------------------------------- fields

  function Quad(v: Word32): (q: seq<Byte>)
    ensures |q| == 4
  {
    Word(v % 0x10000, v / 0x10000)
  }

  function ReadQuad(b: seq<Byte>, p: nat): Word32
    requires p + 4 <= |b|
  {
    LowWord(b, p) + 0x10000 * HighWord(b, p)
  }

  /** A string without its terminator. */
  predicate IsString(s: seq<Byte>) { forall i :: 0 <= i < |s| ==> s[i] != 0 }

  predicate ValidName(s: seq<Byte>, max: nat) { |s| <= max && IsString(s) }

  function Padded(s: seq<Byte>, n: nat): (p: seq<Byte>)
    requires |s| <= n
    ensures |p| == n
  {
    s + Zeros(n - |s|)
  }

  /** What a string function sees in a field. */
  function CString(field: seq<Byte>): (s: seq<Byte>)
    ensures |s| <= |field| && IsString(s)
  {
    if field == [] || field[0] == 0 then [] else [field[0]] + CString(field[1..])
  }

  lemma {:induction false} PaddedReads(s: seq<Byte>, n: nat)
    requires IsString(s) && |s| < n
    ensures CString(Padded(s, n)) == s
  {
    if s != [] {
      PaddedReads(s[1..], n - 1);
      assert Padded(s, n)[1..] == Padded(s[1..], n - 1);
    }
  }

  lemma QuadReads(b: seq<Byte>, p: nat, v: Word32)
    requires p + 4 <= |b| && b[p..p + 4] == Quad(v)
    ensures ReadQuad(b, p) == v
  {
    WordReads(b, p, v % 0x10000, v / 0x10000);
  }

  // ---------------------------------------------------------------- records

  datatype Event = Event(index: Word16, cycle: Word32, priority: bool, name: seq<Byte>)

  predicate EventOk(e: Event) { ValidName(e.name, MAX_EVENT_NAME) }

  function EventRecord(id: Word16, e: Event): (r: seq<Byte>)
    requires |e.name| <= MAX_EVENT_NAME
    ensures |r| == RECORD
  {
    Word(id, e.index) + Quad(e.cycle) + [if e.priority then 0xFF else 0, 0] + Zeros(118) + Padded(e.name, 16) +
      Zeros(112)
  }

  datatype EventDesc = EventDesc(id: Word16, event: Event)

  function ReadEvent(r: seq<Byte>): EventDesc
    requires |r| == RECORD
  {
    EventDesc(LowWord(r, 0), Event(HighWord(r, 0), ReadQuad(r, 4), r[8] > 0, CString(r[128..144])))
  }

  lemma EventReads(id: Word16, e: Event)
    requires EventOk(e)
    ensures ReadEvent(EventRecord(id, e)) == EventDesc(id, e)
  {
    var r := EventRecord(id, e);
    assert r[0..4] == Word(id, e.index) && r[4..8] == Quad(e.cycle) && r[128..144] == Padded(e.name, 16);
    WordReads(r, 0, id, e.index);
    QuadReads(r, 4, e.cycle);
    PaddedReads(e.name, 16);
  }

  /** What the file says about a segment in front of its page. */
  datatype SegDesc = SegDesc(index: Word16, size: Word16, addr: Word32, number: Byte, name: seq<Byte>)

  function SegRecord(d: SegDesc): (r: seq<Byte>)
    requires |d.name| <= MAX_SEG_NAME
    ensures |r| == RECORD
  {
    Word(d.index, d.size) + Quad(d.addr) + [0, d.number] + Zeros(118) + Padded(d.name, 28) + Zeros(100)
  }

  function ReadSeg(r: seq<Byte>): SegDesc
    requires |r| == RECORD
  {
    SegDesc(LowWord(r, 0), HighWord(r, 0), ReadQuad(r, 4), r[9], CString(r[128..156]))
  }

  lemma SegReads(d: SegDesc)
    requires ValidName(d.name, MAX_SEG_NAME)
    ensures ReadSeg(SegRecord(d)) == d
  {
    var r := SegRecord(d);
    assert r[0..4] == Word(d.index, d.size) && r[4..8] == Quad(d.addr) && r[128..156] == Padded(d.name, 28);
    WordReads(r, 0, d.index, d.size);
    QuadReads(r, 4, d.addr);
    PaddedReads(d.name, 28);
  }

  function HeaderRecord(epk: seq<Byte>, events: Word16, segs: Word16): (r: seq<Byte>)
    requires |epk| <= MAX_EPK
    ensures |r| == RECORD
  {
    SIGNATURE + Word(VERSION, events) + Word(segs, 0) + Zeros(104) + Padded(epk, 32) + Zeros(96)
  }

  datatype Header = Header(signature: seq<Byte>, version: Word16, events: Word16, segs: Word16, epk: seq<Byte>)

  function ReadHeader(r: seq<Byte>): Header
    requires |r| == RECORD
  {
    Header(r[..16], LowWord(r, 16), HighWord(r, 16), LowWord(r, 20), CString(r[128..160]))
  }

  lemma HeaderReads(epk: seq<Byte>, events: Word16, segs: Word16)
    requires ValidName(epk, MAX_EPK)
    ensures ReadHeader(HeaderRecord(epk, events, segs)) == Header(SIGNATURE, VERSION, events, segs, epk)
  {
    var r := HeaderRecord(epk, events, segs);
    assert r[..16] == SIGNATURE && r[16..20] == Word(VERSION, events) && r[20..24] == Word(segs, 0);
    assert r[128..160] == Padded(epk, 32);
    WordReads(r, 16, VERSION, events);
    WordReads(r, 20, segs, 0);
    PaddedReads(epk, 32);
  }
}
