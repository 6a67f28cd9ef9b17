/** Bytes and the small amount of sequence vocabulary that the other modules share. */
module Bytes {
  type Byte = b: int | 0 <= b < 256

  function Zeros(n: nat): (z: seq<Byte>)
    ensures |z| == n
  {
    seq(n, _ => 0)
  }

  function Put(s: seq<Byte>, i: nat, b: Byte): seq<Byte>
    requires i < |s|
  {
    s[i := b]
  }

  /** `buf` with `data` written at `p`. */
  function Splice(buf: seq<Byte>, p: nat, data: seq<Byte>): (r: seq<Byte>)
    requires p + |data| <= |buf|
    ensures |r| == |buf|
    ensures forall x :: 0 <= x < |buf| ==> r[x] == if p <= x < p + |data| then data[x - p] else buf[x]
  {
    buf[..p] + data + buf[p + |data|..]
  }

  /** A 32 bit word made of two 16 bit halves, as it lies in memory on a little endian machine. */
  function Word(low: nat, high: nat): (w: seq<Byte>)
    requires low < 0x10000 && high < 0x10000
    ensures |w| == 4
  {
    [low % 256, low / 256, high % 256, high / 256]
  }

  function LowWord(buf: seq<Byte>, p: nat): (w: nat)
    requires p + 2 <= |buf|
    ensures w < 0x10000
  {
    (buf[p] as int) + 256 * (buf[p + 1] as int)
  }

  function HighWord(buf: seq<Byte>, p: nat): (w: nat)
    requires p + 4 <= |buf|
    ensures w < 0x10000
  {
    LowWord(buf, p + 2)
  }

  lemma WordReads(buf: seq<Byte>, p: nat, low: nat, high: nat)
    requires p + 4 <= |buf| && low < 0x10000 && high < 0x10000
    requires buf[p..p + 4] == Word(low, high)
    ensures LowWord(buf, p) == low && HighWord(buf, p) == high
  {
    var w := buf[p..p + 4];
    assert w[0] == buf[p] && w[1] == buf[p + 1] && w[2] == buf[p + 2] && w[3] == buf[p + 3];
  }

  /** `s` without the element at `i`. */
  function RemoveAt<T>(s: seq<T>, i: nat): (r: seq<T>)
    requires i < |s|
    ensures |r| == |s| - 1
  {
    s[..i] + s[i + 1..]
  }

  /** memcpy from a value into a block. */
  method StoreBytes(b: array<Byte>, dst: nat, data: seq<Byte>)
    requires dst + |data| <= b.Length
    modifies b
    ensures b[dst..dst + |data|] == data
    ensures forall x :: 0 <= x < b.Length && !(dst <= x < dst + |data|) ==> b[x] == old(b[x])
  {
    for k := 0 to |data|
      invariant forall x :: dst <= x < dst + k ==> b[x] == data[x - dst]
      invariant forall x :: 0 <= x < b.Length && !(dst <= x < dst + k) ==> b[x] == old(b[x])
    {
      b[dst + k] := data[k];
    }
  }

  /** memcpy inside a block, between ranges that do not overlap. */
  method CopyBytes(b: array<Byte>, dst: nat, src: nat, n: nat)
    requires dst + n <= b.Length && src + n <= b.Length
    requires dst + n <= src || src + n <= dst
    modifies b
    ensures b[dst..dst + n] == old(b[src..src + n])
    ensures forall x :: 0 <= x < b.Length && !(dst <= x < dst + n) ==> b[x] == old(b[x])
  {
    for k := 0 to n
      invariant forall x :: dst <= x < dst + k ==> b[x] == old(b[..])[x - dst + src]
      invariant forall x :: 0 <= x < b.Length && !(dst <= x < dst + k) ==> b[x] == old(b[x])
    {
      b[dst + k] := b[src + k];
    }
  }
}
