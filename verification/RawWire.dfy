/**
  The frames byte by byte: what a built frame is on the wire, and for arbitrary received bytes exactly
  which ones are accepted or answered (RFC 768, RFC 791, RFC 792, RFC 826).
 */
module RawWire {
  import opened Bytes
  import opened Checksum
  import opened RawFrame

  // ---------------------------------------------------------------- the checksum

  /** An odd trailing byte counts as if a zero followed it. */
  lemma {:induction false} OddByteIsPadded(p: seq<Byte>)
    requires |p| % 2 == 1
    ensures WordSum(p) == WordSum(p + [0])
  {
    if |p| > 1 {
      OddByteIsPadded(p[2..]);
      assert (p + [0])[2..] == p[2..] + [0];
    } else {
      assert (p + [0])[2..] == [];
    }
  }

  /** The pseudo header of a datagram: both addresses, a zero, the protocol and the length (RFC 768). */
  function PseudoHeader(src: Ip, dst: Ip, udpLen: Word16): seq<Byte> {
    src + dst + [0, 17, udpLen / 256, udpLen % 256]
  }

  lemma PseudoSumIsHeaderSum(src: Ip, dst: Ip, udpLen: Word16)
    ensures PseudoSum(src, dst, udpLen) == WordSum(PseudoHeader(src, dst, udpLen))
  {
    var p := PseudoHeader(src, dst, udpLen);
    SumOfSix(p);
    assert BigWord(p, 0) == BigWord(src, 0) && BigWord(p, 2) == BigWord(src, 2);
    assert BigWord(p, 4) == BigWord(dst, 0) && BigWord(p, 6) == BigWord(dst, 2);
    assert BigWord(p, 8) == 17 && BigWord(p, 10) == udpLen;
  }

  lemma SumOfSix(p: seq<Byte>)
    requires |p| == 12
    ensures WordSum(p) == BigWord(p, 0) + BigWord(p, 2) + BigWord(p, 4) + BigWord(p, 6) + BigWord(p, 8) + BigWord(p, 10)
  {
    assert p[2..][2..] == p[4..] && p[4..][2..] == p[6..] && p[6..][2..] == p[8..] && p[8..][2..] == p[10..];
    assert p[10..][2..] == [];
    assert WordSum(p[10..]) == BigWord(p, 10);
    assert WordSum(p[8..]) == BigWord(p, 8) + WordSum(p[10..]);
    assert WordSum(p[6..]) == BigWord(p, 6) + WordSum(p[8..]);
    assert WordSum(p[4..]) == BigWord(p, 4) + WordSum(p[6..]);
    assert WordSum(p[2..]) == BigWord(p, 2) + WordSum(p[4..]);
  }

  // ---------------------------------------------------------------- a built frame

  /** The 16 bit value at these two places, high byte first. */
  predicate HasWord(f: seq<Byte>, i: nat, w: nat) { i + 1 < |f| && f[i] == w / 256 && f[i + 1] == w % 256 }

  /** Ethernet and IPv4 header of everything that an endpoint sends itself, with `len` bytes behind them. */
  predicate IpFrameBytes(f: seq<Byte>, dst: Mac, src: Mac, proto: Byte, ident: Word16, ip: Ip, addr: Ip, len: nat) {
    && |f| == 34 + len && len + 20 < 0x10000
    && f[0..6] == dst && f[6..12] == src && f[12] == 0x08 && f[13] == 0x00
    && f[14] == 0x45 && f[15] == 0 && HasWord(f, 16, 20 + len) && HasWord(f, 18, ident)
    && f[20] == 0x40 && f[21] == 0 && f[22] == 64 && f[23] == proto
    && f[26..30] == ip && f[30..34] == addr
  }

  lemma IpHeaderBytes(total: Word16, ident: Word16, proto: Byte, src: Ip, dst: Ip)
    ensures var h := IpHeader(total, ident, proto, src, dst);
      && h[0] == 0x45 && h[1] == 0 && HasWord(h, 2, total) && HasWord(h, 4, ident)
      && h[6] == 0x40 && h[7] == 0 && h[8] == 64 && h[9] == proto
  {
    var bare := BareIp(total, ident, proto, src, dst);
    assert HasWord(bare, 2, total) && HasWord(bare, 4, ident);
    assert bare[6] == 0x40 && bare[7] == 0 && bare[8] == 64 && bare[9] == proto;
  }

  lemma IpFrameIs(dst: Mac, src: Mac, proto: Byte, ident: Word16, ip: Ip, addr: Ip, rest: seq<Byte>)
    requires |rest| + 20 < 0x10000
    ensures var f := EthHeader(dst, src, TYPE_IPV4) + IpHeader(20 + |rest|, ident, proto, ip, addr) + rest;
      IpFrameBytes(f, dst, src, proto, ident, ip, addr, |rest|) && Checksum16(f[14..34], 0) == 0 && f[34..] == rest
  {
    var eth, h := EthHeader(dst, src, TYPE_IPV4), IpHeader(20 + |rest|, ident, proto, ip, addr);
    var f := eth + h + rest;
    assert f == eth + (h + rest);
    EthHeaderReads(dst, src, TYPE_IPV4, h + rest);
    IpFrameReads(eth, 20 + |rest|, ident, proto, ip, addr, rest);
    IpHeaderBytes(20 + |rest|, ident, proto, ip, addr);
    assert forall i :: 0 <= i < 20 ==> f[14 + i] == h[i];
    assert eth[12] == 8 && eth[13] == 0;
  }

  /** A datagram on the wire, byte by byte. */
  lemma FrameOnTheWire(n: Node, dst: Mac, payload: seq<Byte>, addr: Ip, port: Word16, cfg: Config)
    requires |payload| <= MAX_SEGMENT
    ensures var f := Frame(n, dst, payload, addr, port, cfg);
      && IpFrameBytes(f, dst, n.mac, 17, n.ident, n.ip, addr, 8 + |payload|) && Checksum16(f[14..34], 0) == 0
      && HasWord(f, 34, n.port) && HasWord(f, 36, port) && HasWord(f, 38, 8 + |payload|) && f[42..] == payload
  {
    var udp := Splice(BareUdp(n.port, port, UDP_LEN + |payload|), UDP_CHECKSUM,
                      Big16(UdpField(n, payload, addr, port, cfg)));
    var rest := udp + payload;
    var eth, h := EthHeader(dst, n.mac, TYPE_IPV4), IpHeader(20 + |rest|, n.ident, PROTO_UDP, n.ip, addr);
    var f := Frame(n, dst, payload, addr, port, cfg);
    assert f == eth + h + rest;
    IpFrameIs(dst, n.mac, PROTO_UDP, n.ident, n.ip, addr, rest);
    assert udp[..6] == BareUdp(n.port, port, UDP_LEN + |payload|)[..6];
    assert forall i :: 0 <= i < 8 ==> f[34 + i] == udp[i];
    assert HasWord(udp, 0, n.port) && HasWord(udp, 2, port) && HasWord(udp, 4, 8 + |payload|);
    assert f[42..] == rest[8..] == payload;
  }

  /** The checksum field of a datagram: it verifies together with the pseudo header, or is left out as zero. */
  lemma ChecksumOnTheWire(n: Node, dst: Mac, payload: seq<Byte>, addr: Ip, port: Word16, cfg: Config)
    requires |payload| <= MAX_SEGMENT
    ensures var f := Frame(n, dst, payload, addr, port, cfg);
      |f| == 42 + |payload| &&
      if cfg.computeUdp then
        && !(f[40] == 0 && f[41] == 0)
        && (WordSum(PseudoHeader(n.ip, addr, 8 + |payload|)) + WordSum(f[34..])) % 0xFFFF == 0
      else f[40] == 0 && f[41] == 0
  {
    var udpLen, field := UDP_LEN + |payload|, UdpField(n, payload, addr, port, cfg);
    var bare := BareUdp(n.port, port, udpLen);
    var f := Frame(n, dst, payload, addr, port, cfg);
    assert f[34..] == Splice(bare, UDP_CHECKSUM, Big16(field)) + payload;
    assert Splice(bare, UDP_CHECKSUM, Big16(field)) + payload == Splice(bare + payload, UDP_CHECKSUM, Big16(field));
    assert f[40] == f[34..][6] == field / 256 && f[41] == f[34..][7] == field % 256;
    if cfg.computeUdp {
      UdpChecksumVerifies(n, payload, addr, port, cfg);
      VerifiesIff(f[34..], PseudoSum(n.ip, addr, udpLen));
      PseudoSumIsHeaderSum(n.ip, addr, udpLen);
    }
  }

  // ---------------------------------------------------------------- arbitrary received bytes

  /** Where the IPv4 payload of received bytes begins and ends, as the header says. */
  function Body(f: seq<Byte>): nat requires |f| >= 34 { 14 + (f[14] as int) % 16 * 4 }
  function BodyEnd(f: seq<Byte>): nat requires |f| >= 34 { 14 + 256 * (f[16] as int) + (f[17] as int) }

  /**
    An IPv4 packet for this endpoint, byte by byte: version 4 with a header of at least 20 bytes, of
    full length, not a fragment and without the flag for more of them, to its address or the broadcast.
   */
  predicate IpPacketFor(n: Node, f: seq<Byte>, cfg: Config) {
    && |f| >= 34 && f[12] == 0x08 && f[13] == 0x00
    && (f[0..6] == n.mac || f[0..6] == [255, 255, 255, 255, 255, 255])
    && (f[14] as int) / 16 == 4 && 34 <= Body(f) <= BodyEnd(f) <= |f|
    && (f[20] as int) % 64 == 0 && f[21] == 0
    && (f[30..34] == n.ip || f[30..34] == [255, 255, 255, 255])
    && (cfg.verifyRx ==> WordSum(f[14..Body(f)]) % 0xFFFF == 0)
  }

  lemma {:induction false} FirstByteSums(p: seq<Byte>)
    requires |p| > 0 && p[0] > 0
    ensures WordSum(p) > 0
  {
  }

  lemma FragmentBits(f: seq<Byte>)
    requires |f| >= 34
    ensures BigWord(f, 20) % 0x4000 == 0 <==> (f[20] as int) % 64 == 0 && f[21] == 0
  {
  }

  lemma IpForUsIff(n: Node, f: seq<Byte>, cfg: Config)
    ensures IpForUs(n, f, cfg) <==> IpPacketFor(n, f, cfg)
  {
    if |f| >= 34 {
      FragmentBits(f);
      if (f[14] as int) / 16 == 4 && 34 <= Body(f) <= BodyEnd(f) <= |f| {
        FirstByteSums(f[14..Body(f)]);
        VerifiesIff(f[14..Body(f)], 0);
      }
    }
  }

  /**
    Any received bytes are a datagram for the caller exactly if they are such a packet with protocol 17,
    to the port of the endpoint, with a length that fits the packet and a payload that fits the buffer.
   */
  lemma AcceptedIff(n: Node, f: seq<Byte>, bufferSize: nat, cfg: Config)
    ensures Handle(n, f, bufferSize, cfg).Datagram? <==>
      && IpPacketFor(n, f, cfg) && f[23] == 17 && Body(f) + 8 <= BodyEnd(f)
      && HasWord(f, Body(f) + 2, n.port)
      && 8 <= BigWord(f, Body(f) + 4) <= BodyEnd(f) - Body(f) && BigWord(f, Body(f) + 4) - 8 <= bufferSize
    ensures Handle(n, f, bufferSize, cfg).Datagram? ==>
      Handle(n, f, bufferSize, cfg) ==
        Datagram(f[Body(f) + 8..Body(f) + BigWord(f, Body(f) + 4)], f[26..30], BigWord(f, Body(f)),
                 if f[0..6] == [255, 255, 255, 255, 255, 255] then None else Some(SrcMac(f)))
  {
    IpForUsIff(n, f, cfg);
    if IpPacketFor(n, f, cfg) && Body(f) + 8 <= BodyEnd(f) {
      WordIs(f, Body(f) + 2, n.port);
    }
  }

  lemma WordIs(f: seq<Byte>, i: nat, w: Word16)
    requires i + 2 <= |f|
    ensures BigWord(f, i) == w <==> HasWord(f, i, w)
  {
  }

  /** An echo reply: type 0, the code and data of the request, to its sender, and both checksums verify (RFC 792). */
  predicate EchoAnswer(n: Node, f: seq<Byte>, r: seq<Byte>) {
    && |f| >= 34 && Body(f) + 4 <= BodyEnd(f) <= |f|
    && IpFrameBytes(r, f[6..12], n.mac, 1, n.ident, n.ip, f[26..30], BodyEnd(f) - Body(f))
    && Checksum16(r[14..34], 0) == 0 && Checksum16(r[34..], 0) == 0
    && r[34] == 0 && r[35] == f[Body(f) + 1] && r[38..] == f[Body(f) + 4..BodyEnd(f)]
  }

  lemma EchoAnswers(n: Node, f: seq<Byte>)
    requires |f| >= 34 && IpConsistent(f) && HandleIcmp(n, f).Reply?
    ensures EchoAnswer(n, f, HandleIcmp(n, f).frame)
  {
    var icmp := At(f, Body(f), BodyEnd(f) - Body(f));
    var reply := EchoReply(icmp);
    var front := EthHeader(SrcMac(f), n.mac, TYPE_IPV4) + IpHeader(20 + |icmp|, n.ident, PROTO_ICMP, n.ip, IpSrc(f));
    IpFrameIs(SrcMac(f), n.mac, PROTO_ICMP, n.ident, n.ip, IpSrc(f), reply);
    EchoReplyIs(icmp);
    assert icmp[4..] == f[Body(f) + 4..BodyEnd(f)] && icmp[1] == f[Body(f) + 1];
    assert HandleIcmp(n, f).frame == front + reply;
    assert (front + reply)[34..] == reply && (front + reply)[38..] == reply[4..];
    assert (front + reply)[34] == reply[0] && (front + reply)[35] == reply[1];
  }

  lemma IcmpDecides(n: Node, f: seq<Byte>)
    requires |f| >= 34 && IpConsistent(f)
    ensures if 4 <= BodyEnd(f) - Body(f) <= 8 + MAX_SEGMENT && f[Body(f)] == 8 && f[Body(f) + 1] == 0
            then HandleIcmp(n, f).Reply? else HandleIcmp(n, f) == Ignored
  {
  }

  /** Exactly the echo requests (type 8, code 0) are answered that fit the reply buffer. */
  lemma PingAnsweredIff(n: Node, f: seq<Byte>, bufferSize: nat, cfg: Config)
    requires IpPacketFor(n, f, cfg) && f[23] == 1
    ensures var o, len := Handle(n, f, bufferSize, cfg), BodyEnd(f) - Body(f);
      if cfg.icmpEcho && 4 <= len <= 8 + MAX_SEGMENT && f[Body(f)] == 8 && f[Body(f) + 1] == 0 then
        o.Reply? && EchoAnswer(n, f, o.frame)
      else o == Ignored
  {
    IpForUsIff(n, f, cfg);
    assert Handle(n, f, bufferSize, cfg) == if cfg.icmpEcho then HandleIcmp(n, f) else Ignored;
    IcmpDecides(n, f);
    if HandleIcmp(n, f).Reply? {
      EchoAnswers(n, f);
    }
  }

  // ---------------------------------------------------------------- ARP

  /** An ARP packet for Ethernet and IPv4, byte by byte (RFC 826). */
  predicate ArpBytes(f: seq<Byte>, oper: Byte) {
    && |f| >= 42 && f[12] == 0x08 && f[13] == 0x06
    && f[14] == 0 && f[15] == 1 && f[16] == 8 && f[17] == 0 && f[18] == 6 && f[19] == 4 && f[20] == 0 && f[21] == oper
  }

  /**
    Of all bytes received as ARP exactly the requests for the own address are answered, with a reply of
    42 bytes that gives the own addresses to the requester.
   */
  lemma ArpAnsweredIff(n: Node, f: seq<Byte>, bufferSize: nat, cfg: Config)
    requires |f| >= 14 && f[12] == 0x08 && f[13] == 0x06
    ensures var o := Handle(n, f, bufferSize, cfg);
      if ArpBytes(f, 1) && f[38..42] == n.ip then
        && o.Reply? && |o.frame| == 42 && ArpBytes(o.frame, 2)
        && o.frame[0..6] == f[22..28] && o.frame[6..12] == n.mac
        && o.frame[22..28] == n.mac && o.frame[28..32] == n.ip && o.frame[32..38] == f[22..28]
        && o.frame[38..42] == f[28..32]
      else o == Ignored
  {
    if ArpBytes(f, 1) && f[38..42] == n.ip {
      ArpFrameBytes(f[22..28], n.mac, 2, n.mac, n.ip, f[22..28], f[28..32]);
    }
  }

  lemma ArpFrameBytes(dst: Mac, src: Mac, oper: Byte, sha: Mac, spa: Ip, tha: Mac, tpa: Ip)
    ensures var f := ArpFrame(dst, src, oper, sha, spa, tha, tpa);
      && ArpBytes(f, oper) && f[0..6] == dst && f[6..12] == src
      && f[22..28] == sha && f[28..32] == spa && f[32..38] == tha && f[38..42] == tpa
  {
    var f, body := ArpFrame(dst, src, oper, sha, spa, tha, tpa), ArpBody(oper, sha, spa, tha, tpa);
    ArpReads(dst, src, oper, sha, spa, tha, tpa);
    assert f == EthHeader(dst, src, TYPE_ARP) + body;
    EthHeaderReads(dst, src, TYPE_ARP, body);
    ArpBodyReads(oper, sha, spa, tha, tpa);
    assert body[18..24] == tha;
    assert forall i :: 0 <= i < 28 ==> f[14 + i] == body[i];
    assert f[32..38] == body[18..24];
  }

  // ---------------------------------------------------------------- what an endpoint remembers

  /**
    What received bytes change in the endpoint: an accepted datagram that was not a broadcast teaches it
    the MAC address of its peer, an answered ping takes one identifier, and nothing else changes anything.
   */
  lemma RememberedIff(n: Node, f: seq<Byte>, bufferSize: nat, cfg: Config)
    ensures var o := Handle(n, f, bufferSize, cfg);
      After(n, o, f) ==
        if o.Datagram? && f[0..6] != [255, 255, 255, 255, 255, 255] then n.(peer := Some(SrcMac(f)))
        else if o.Reply? && f[12] == 0x08 && f[13] == 0x00 then n.(ident := (n.ident + 1) % 0x10000)
        else n
  {
    if Handle(n, f, bufferSize, cfg).Datagram? {
      AcceptedIff(n, f, bufferSize, cfg);
    }
  }
}
