/** The internet checksum (RFC 1071): big endian 16 bit words, summed with end-around carry. */
module Checksum {
  import opened Bytes

  /** The 16 bit word at `i`, high byte first. */
  function BigWord(p: seq<Byte>, i: nat): (w: nat)
    requires i + 2 <= |p|
    ensures w < 0x10000
  {
    256 * (p[i] as int) + (p[i + 1] as int)
  }

  function Big16(w: nat): (b: seq<Byte>)
    requires w < 0x10000
    ensures |b| == 2
  {
    [w / 256, w % 256]
  }

  /** The plain sum of all words; an odd trailing byte is padded with zero. */
  function WordSum(p: seq<Byte>): nat {
    if |p| == 0 then 0
    else if |p| == 1 then 256 * (p[0] as int)
    else BigWord(p, 0) + WordSum(p[2..])
  }

  lemma ShiftedMultiple(a: int, d: int)
    requires a % 0xFFFF == 0
    ensures (a + d) % 0xFFFF == 0 <==> d % 0xFFFF == 0
  {
  }

  /** One round of adding the carries back keeps the sum modulo 65535. */
  lemma CarriesAdded(sum: nat)
    ensures var t := sum % 0x10000 + sum / 0x10000; sum - t == 0xFFFF * (sum / 0x10000) && (sum - t) % 0xFFFF == 0
  {
    MultipleOfMax(sum / 0x10000);
  }

  lemma MultipleOfMax(k: nat)
    ensures 0xFFFF * k % 0xFFFF == 0
  {
  }

  /** Add the carries back until the sum fits 16 bits. */
  function Fold(sum: nat): (r: nat)
    ensures r < 0x10000
    ensures r == 0 <==> sum == 0
    ensures (sum - r) % 0xFFFF == 0
  {
    if sum < 0x10000 then sum
    else
      var t := sum % 0x10000 + sum / 0x10000;
      CarriesAdded(sum);
      var r := Fold(t);
      ShiftedMultiple(sum - t, t - r);
      r
  }

  function Checksum16(p: seq<Byte>, sum: nat): (c: nat)
    ensures c < 0x10000
  {
    0xFFFF - Fold(sum + WordSum(p))
  }

  lemma {:induction false} WordSumBound(p: seq<Byte>)
    ensures WordSum(p) <= 0xFFFF * ((|p| + 1) / 2)
  {
    if |p| > 1 {
      WordSumBound(p[2..]);
    }
  }

  /** Replacing the word at an even position changes the sum by the difference of the words. */
  lemma {:induction false} WordReplaced(p: seq<Byte>, i: nat, w: nat)
    requires i % 2 == 0 && i + 2 <= |p| && w < 0x10000
    ensures WordSum(Splice(p, i, Big16(w))) + BigWord(p, i) == WordSum(p) + w
  {
    var q := Splice(p, i, Big16(w));
    if i == 0 {
      assert q[2..] == p[2..];
    } else {
      WordReplaced(p[2..], i - 2, w);
      assert q[2..] == Splice(p[2..], i - 2, Big16(w));
    }
  }

  /** What a receiver accepts: the sum is a positive multiple of 65535. */
  lemma VerifiesIff(p: seq<Byte>, sum: nat)
    ensures Checksum16(p, sum) == 0 <==> sum + WordSum(p) > 0 && (sum + WordSum(p)) % 0xFFFF == 0
  {
  }

  /** A checksum inserted into a field that was zero makes the data verify, whatever the data is. */
  lemma InsertedVerifies(p: seq<Byte>, i: nat, sum: nat)
    requires i % 2 == 0 && i + 2 <= |p| && BigWord(p, i) == 0
    ensures Checksum16(Splice(p, i, Big16(Checksum16(p, sum))), sum) == 0
  {
    var c := Checksum16(p, sum);
    WordReplaced(p, i, c);
    ComplementVerifies(sum + WordSum(p));
    VerifiesIff(Splice(p, i, Big16(c)), sum);
  }

  lemma ComplementVerifies(s: nat)
    ensures s + (0xFFFF - Fold(s)) > 0 && (s + (0xFFFF - Fold(s))) % 0xFFFF == 0
  {
    ShiftedMultiple(s - Fold(s), 0xFFFF);
  }

  /** For UDP a zero checksum is sent as all ones, which verifies as well (RFC 768). */
  function UdpChecksum(p: seq<Byte>, pseudo: nat): (c: nat)
    ensures 0 < c < 0x10000
  {
    var c := Checksum16(p, pseudo);
    if c == 0 then 0xFFFF else c
  }

  lemma UdpInsertedVerifies(p: seq<Byte>, i: nat, pseudo: nat)
    requires i % 2 == 0 && i + 2 <= |p| && BigWord(p, i) == 0
    ensures Checksum16(Splice(p, i, Big16(UdpChecksum(p, pseudo))), pseudo) == 0
  {
    var q := Splice(p, i, Big16(UdpChecksum(p, pseudo)));
    if Checksum16(p, pseudo) == 0 {
      WordReplaced(p, i, 0xFFFF);
      VerifiesIff(p, pseudo);
      ShiftedMultiple(pseudo + WordSum(p), 0xFFFF);
      VerifiesIff(q, pseudo);
    } else {
      InsertedVerifies(p, i, pseudo);
    }
  }

  /**
    Error detection: after one word of data that verifies was replaced, the data still verifies if
    and only if the two words are equal modulo 65535, that is equal, or 0 in place of 65535 or the
    other way round - and something is left to sum up.
   */
  lemma CorruptionDetected(p: seq<Byte>, i: nat, w: nat)
    requires i % 2 == 0 && i + 2 <= |p| && w < 0x10000 && Checksum16(p, 0) == 0
    ensures Checksum16(Splice(p, i, Big16(w)), 0) == 0 <==>
              (w - BigWord(p, i)) % 0xFFFF == 0 && WordSum(Splice(p, i, Big16(w))) > 0
  {
    var q := Splice(p, i, Big16(w));
    WordReplaced(p, i, w);
    VerifiesIff(p, 0);
    VerifiesIff(q, 0);
    ShiftedMultiple(WordSum(p), w - BigWord(p, i));
    assert WordSum(q) == WordSum(p) + (w - BigWord(p, i));
  }

  lemma {:induction false} WordSumSplit(p: seq<Byte>, n: nat)
    requires n % 2 == 0 && n <= |p|
    ensures WordSum(p) == WordSum(p[..n]) + WordSum(p[n..])
  {
    if n > 0 {
      WordSumSplit(p[2..], n - 2);
      assert p[2..][..n - 2] == p[..n][2..];
      assert p[2..][n - 2..] == p[n..];
    }
  }

  const MAX_LENGTH := 0xFFFF

  /** What is left to sum up from position `p` on. */
  function RestSum(s: seq<Byte>, p: nat): nat
    requires p <= |s|
  {
    WordSum(s[p..])
  }

  lemma RestSumStep(s: seq<Byte>, p: nat)
    requires p <= |s|
    ensures p + 2 <= |s| ==> RestSum(s, p) == BigWord(s, p) + RestSum(s, p + 2)
    ensures p + 1 == |s| ==> RestSum(s, p) == 256 * (s[p] as int)
    ensures p == |s| ==> RestSum(s, p) == 0
  {
    if p + 2 <= |s| {
      assert s[p..][2..] == s[p + 2..];
    }
  }

  /** The summing loop, in 32 bit arithmetic that never overflows; an odd trailing byte is left to the caller. */
  method SumWords(b: array<Byte>, off: nat, len: nat, start: nat) returns (sum: nat)
    requires off + len <= b.Length && len <= MAX_LENGTH && start <= 6 * 0xFFFF
    ensures var s := b[off..off + len]; sum + RestSum(s, len - len % 2) == start + WordSum(s)
    ensures sum < 0xFFFF_0000
  {
    ghost var s, k := b[off..off + len], 0;
    var p, rest := off, len;
    sum := start;
    assert s[0..] == s;
    while rest > 1
      invariant p == off + 2 * k && rest == len - 2 * k && rest >= 0
      invariant sum + RestSum(s, 2 * k) == start + WordSum(s)
      invariant start <= sum <= start + 0xFFFF * k
    {
      RestSumStep(s, 2 * k);
      var word := 256 * (b[p] as int) + (b[p + 1] as int);
      assert word == BigWord(s, 2 * k);
      sum := Add32(sum, word);
      p := p + 2;
      rest := rest - 2;
      k := k + 1;
    }
    EvenPart(len, k);
  }

  function Add32(a: nat, b: nat): (c: nat)
    ensures a + b < 0x1_0000_0000 ==> c == a + b
  {
    (a + b) % 0x1_0000_0000
  }

  lemma EvenPart(len: nat, k: nat)
    requires 2 * k <= len <= 2 * k + 1
    ensures len - len % 2 == 2 * k
  {
  }

  /** checksum16. */
  method ComputeChecksum(b: array<Byte>, off: nat, len: nat, start: nat) returns (c: nat)
    requires off + len <= b.Length && len <= MAX_LENGTH && start <= 6 * 0xFFFF
    ensures c == Checksum16(b[off..off + len], start)
  {
    var sum := SumWords(b, off, len, start);
    sum := AddOddByte(b, off, len, sum);
    c := FoldCarries(sum);
  }

  /** An odd trailing byte is the high byte of a last word. */
  method AddOddByte(b: array<Byte>, off: nat, len: nat, start: nat) returns (sum: nat)
    requires off + len <= b.Length && start < 0xFFFF_0000
    ensures sum == start + RestSum(b[off..off + len], len - len % 2)
  {
    RestSumStep(b[off..off + len], len - len % 2);
    sum := start;
    if len % 2 > 0 {
      sum := Add32(sum, 256 * (b[off + len - 1] as int));
    }
  }

  /** The folding loop. */
  method FoldCarries(start: nat) returns (c: nat)
    ensures c == 0xFFFF - Fold(start)
  {
    var sum := start;
    while sum / 0x10000 != 0
      invariant sum >= 0
      invariant Fold(sum) == Fold(start)
      decreases sum
    {
      sum := sum % 0x10000 + sum / 0x10000;
    }
    c := 0xFFFF - sum;
  }
}
