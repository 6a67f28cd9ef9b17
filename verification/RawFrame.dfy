/** Ethernet, IPv4 and UDP frames of the raw transport: how they are built and what an endpoint makes of them. */
module RawFrame {
  import opened Bytes
  import opened Checksum

  const ETH_LEN := 14
  const IP_LEN := 20
  const UDP_LEN := 8
  const ARP_LEN := 28
  const ICMP_LEN := 4
  const HEADER_LEN := ETH_LEN + IP_LEN + UDP_LEN
  const MAX_SEGMENT := (1500 - 20 - 8) / 8 * 8
  const MAX_FRAME := HEADER_LEN + MAX_SEGMENT

  const TYPE_IPV4 := 0x0800
  const TYPE_ARP := 0x0806
  const PROTO_ICMP: Byte := 1
  const PROTO_UDP: Byte := 17

  type Mac = m: seq<Byte> | |m| == 6 witness [0, 0, 0, 0, 0, 0]
  type Ip = a: seq<Byte> | |a| == 4 witness [0, 0, 0, 0]
  type Word16 = w: int | 0 <= w < 0x10000

  const BROADCAST_MAC: Mac := [255, 255, 255, 255, 255, 255]
  const BROADCAST_IP: Ip := [255, 255, 255, 255]

  datatype Option<T> = None | Some(value: T)

  /** Compile time options: verify received headers, compute UDP checksums, answer pings. */
  datatype Config = Config(verifyRx: bool, computeUdp: bool, icmpEcho: bool)

  /** The part of the socket state that frames depend on. `peer` is the learned MAC address. */
  datatype Node = Node(mac: Mac, ip: Ip, port: Word16, peer: Option<Mac>, ident: Word16)

  // ---------------------------------------------------------------- building

  function EthHeader(dst: Mac, src: Mac, etherType: Word16): (h: seq<Byte>)
    ensures |h| == ETH_LEN
  {
    dst + src + Big16(etherType)
  }

  /** The IPv4 header with a zero checksum field: no options, do not fragment, 64 hops. */
  function BareIp(total: Word16, ident: Word16, proto: Byte, src: Ip, dst: Ip): (h: seq<Byte>)
    ensures |h| == IP_LEN
  {
    [0x45, 0] + Big16(total) + Big16(ident) + Big16(0x4000) + [64, proto] + [0, 0] + src + dst
  }

  const IP_CHECKSUM := 10

  function IpHeader(total: Word16, ident: Word16, proto: Byte, src: Ip, dst: Ip): (h: seq<Byte>)
    ensures |h| == IP_LEN
  {
    var bare := BareIp(total, ident, proto, src, dst);
    Splice(bare, IP_CHECKSUM, Big16(Checksum16(bare, 0)))
  }

  /** The pseudo header of RFC 768 as a sum. */
  function PseudoSum(src: Ip, dst: Ip, udpLen: Word16): (s: nat)
    ensures s <= 6 * 0xFFFF
  {
    BigWord(src, 0) + BigWord(src, 2) + BigWord(dst, 0) + BigWord(dst, 2) + PROTO_UDP + udpLen
  }

  function BareUdp(srcPort: Word16, dstPort: Word16, udpLen: Word16): (h: seq<Byte>)
    ensures |h| == UDP_LEN
  {
    Big16(srcPort) + Big16(dstPort) + Big16(udpLen) + [0, 0]
  }

  const UDP_CHECKSUM := 6

  function UdpField(n: Node, payload: seq<Byte>, addr: Ip, port: Word16, cfg: Config): Word16
    requires |payload| <= MAX_SEGMENT
  {
    var udpLen := UDP_LEN + |payload|;
    if cfg.computeUdp then UdpChecksum(BareUdp(n.port, port, udpLen) + payload, PseudoSum(n.ip, addr, udpLen)) else 0
  }

  /** The 42 bytes that buildFrameHeader writes in front of a payload. */
  function FrameHeader(n: Node, dst: Mac, payload: seq<Byte>, addr: Ip, port: Word16, cfg: Config): (h: seq<Byte>)
    requires |payload| <= MAX_SEGMENT
    ensures |h| == HEADER_LEN
  {
    EthHeader(dst, n.mac, TYPE_IPV4) +
    IpHeader(IP_LEN + UDP_LEN + |payload|, n.ident, PROTO_UDP, n.ip, addr) +
    Splice(BareUdp(n.port, port, UDP_LEN + |payload|), UDP_CHECKSUM, Big16(UdpField(n, payload, addr, port, cfg)))
  }

  function Frame(n: Node, dst: Mac, payload: seq<Byte>, addr: Ip, port: Word16, cfg: Config): (f: seq<Byte>)
    requires |payload| <= MAX_SEGMENT
    ensures |f| == HEADER_LEN + |payload|
  {
    FrameHeader(n, dst, payload, addr, port, cfg) + payload
  }

  function ArpFrame(dst: Mac, src: Mac, oper: Word16, sha: Mac, spa: Ip, tha: Mac, tpa: Ip): (f: seq<Byte>)
    ensures |f| == ETH_LEN + ARP_LEN
  {
    EthHeader(dst, src, TYPE_ARP) + ArpBody(oper, sha, spa, tha, tpa)
  }

  function ArpBody(oper: Word16, sha: Mac, spa: Ip, tha: Mac, tpa: Ip): (b: seq<Byte>)
    ensures |b| == ARP_LEN
  {
    Big16(1) + Big16(TYPE_IPV4) + [6, 4] + Big16(oper) + sha + spa + tha + tpa
  }

  const ARP_REQUEST := 1
  const ARP_REPLY := 2

  // ---------------------------------------------------------------- receiving

  datatype Outcome =
    | Ignored
    | Reply(frame: seq<Byte>)
    | Datagram(payload: seq<Byte>, srcAddr: Ip, srcPort: Word16, learn: Option<Mac>)

  /** The return value of handleFrame: the size of the payload, and 0 for all that is no datagram for the caller. */
  function Returned(o: Outcome): nat { if o.Datagram? then |o.payload| else 0 }

  function At(f: seq<Byte>, i: nat, n: nat): (s: seq<Byte>)
    requires i + n <= |f|
    ensures |s| == n
  {
    f[i..i + n]
  }

  function EtherType(f: seq<Byte>): Word16
    requires |f| >= ETH_LEN
  {
    BigWord(f, 12)
  }

  function DstMac(f: seq<Byte>): Mac requires |f| >= ETH_LEN { At(f, 0, 6) }
  function SrcMac(f: seq<Byte>): Mac requires |f| >= ETH_LEN { At(f, 6, 6) }

  predicate HasIp(f: seq<Byte>) { |f| >= ETH_LEN + IP_LEN }

  function IpHeaderLen(f: seq<Byte>): nat requires HasIp(f) { (f[ETH_LEN] as int) % 16 * 4 }
  function TotalLen(f: seq<Byte>): Word16 requires HasIp(f) { BigWord(f, ETH_LEN + 2) }
  function IpSrc(f: seq<Byte>): Ip requires HasIp(f) { At(f, ETH_LEN + 12, 4) }
  function IpDst(f: seq<Byte>): Ip requires HasIp(f) { At(f, ETH_LEN + 16, 4) }
  function IpProto(f: seq<Byte>): Byte requires HasIp(f) { f[ETH_LEN + 9] }

  /** The IPv4 header is consistent with the frame. */
  predicate IpConsistent(f: seq<Byte>)
    requires HasIp(f)
  {
    && (f[ETH_LEN] as int) / 16 == 4
    && IpHeaderLen(f) >= IP_LEN
    && IpHeaderLen(f) <= TotalLen(f)
    && ETH_LEN + TotalLen(f) <= |f|
  }

  /** The checks of handleFrame up to the protocol, in their order. */
  predicate IpForUs(n: Node, f: seq<Byte>, cfg: Config) {
    && |f| >= ETH_LEN && EtherType(f) == TYPE_IPV4
    && (DstMac(f) == n.mac || DstMac(f) == BROADCAST_MAC)
    && HasIp(f) && IpConsistent(f)
    && BigWord(f, ETH_LEN + 6) % 0x4000 == 0
    && (IpDst(f) == n.ip || IpDst(f) == BROADCAST_IP)
    && (cfg.verifyRx ==> Checksum16(At(f, ETH_LEN, IpHeaderLen(f)), 0) == 0)
  }

  function HandleUdp(n: Node, f: seq<Byte>, bufferSize: nat): Outcome
    requires HasIp(f) && IpConsistent(f)
  {
    var u := ETH_LEN + IpHeaderLen(f);
    if TotalLen(f) < IpHeaderLen(f) + UDP_LEN then Ignored
    else if BigWord(f, u + 2) != n.port then Ignored
    else
      var udpLen := BigWord(f, u + 4);
      if udpLen < UDP_LEN || udpLen > TotalLen(f) - IpHeaderLen(f) then Ignored
      else if udpLen - UDP_LEN > bufferSize then Ignored
      else Datagram(At(f, u + UDP_LEN, udpLen - UDP_LEN), IpSrc(f), BigWord(f, u),
                    if DstMac(f) == BROADCAST_MAC then None else Some(SrcMac(f)))
  }

  /** The ICMP message of an echo reply: the request with another type and its checksum recomputed. */
  function EchoReply(request: seq<Byte>): (r: seq<Byte>)
    requires |request| >= ICMP_LEN
    ensures |r| == |request|
  {
    var bare := Splice(Put(request, 0, 0), 2, Big16(0));
    Splice(bare, 2, Big16(Checksum16(bare, 0)))
  }

  function HandleIcmp(n: Node, f: seq<Byte>): Outcome
    requires HasIp(f) && IpConsistent(f)
  {
    var icmpLen := TotalLen(f) - IpHeaderLen(f);
    if icmpLen < ICMP_LEN || ETH_LEN + IP_LEN + icmpLen > MAX_FRAME then Ignored
    else
      var icmp := At(f, ETH_LEN + IpHeaderLen(f), icmpLen);
      if icmp[0] != 8 || icmp[1] != 0 then Ignored
      else Reply(EthHeader(SrcMac(f), n.mac, TYPE_IPV4) +
        IpHeader(IP_LEN + icmpLen, n.ident, PROTO_ICMP, n.ip, IpSrc(f)) +
                 EchoReply(icmp))
  }

  function HandleArp(n: Node, f: seq<Byte>): Outcome
    requires |f| >= ETH_LEN
  {
    if |f| < ETH_LEN + ARP_LEN then Ignored
    else if BigWord(f, 14) != 1 || BigWord(f, 16) != TYPE_IPV4 || f[18] != 6 || f[19] != 4 then Ignored
    else if BigWord(f, 20) != ARP_REQUEST || At(f, 38, 4) != n.ip then Ignored
    else Reply(ArpFrame(At(f, 22, 6), n.mac, ARP_REPLY, n.mac, n.ip, At(f, 22, 6), At(f, 28, 4)))
  }

  /** handleFrame: what an endpoint makes of a received frame. */
  function Handle(n: Node, f: seq<Byte>, bufferSize: nat, cfg: Config): Outcome {
    if |f| < ETH_LEN then Ignored
    else if EtherType(f) == TYPE_ARP then HandleArp(n, f)
    else if !IpForUs(n, f, cfg) then Ignored
    else if cfg.icmpEcho && IpProto(f) == PROTO_ICMP then HandleIcmp(n, f)
    else if IpProto(f) != PROTO_UDP then Ignored
    else HandleUdp(n, f, bufferSize)
  }

  /**
    The endpoint after it handled a frame: a datagram that was not a broadcast teaches it its peer,
    a ping takes an identifier.
   */
  function After(n: Node, o: Outcome, f: seq<Byte>): Node {
    match o
    case Datagram(_, _, _, Some(mac)) => n.(peer := Some(mac))
    case Reply(_) => if |f| >= ETH_LEN && EtherType(f) == TYPE_IPV4 then n.(ident := (n.ident + 1) % 0x10000) else n
    case _ => n
  }

  // ---------------------------------------------------------------- what a built frame reads as

  lemma IpHeaderVerifies(total: Word16, ident: Word16, proto: Byte, src: Ip, dst: Ip)
    ensures Checksum16(IpHeader(total, ident, proto, src, dst), 0) == 0
  {
    var bare := BareIp(total, ident, proto, src, dst);
    assert bare[IP_CHECKSUM] == 0 && bare[IP_CHECKSUM + 1] == 0;
    InsertedVerifies(bare, IP_CHECKSUM, 0);
  }

  lemma IpHeaderReads(total: Word16, ident: Word16, proto: Byte, src: Ip, dst: Ip)
    ensures var h := IpHeader(total, ident, proto, src, dst);
      && h[0] == 0x45 && BigWord(h, 2) == total && BigWord(h, 6) == 0x4000 && h[9] == proto
      && h[12..16] == src && h[16..20] == dst
  {
    var bare := BareIp(total, ident, proto, src, dst);
    assert bare[2] == total / 256 && bare[3] == total % 256 && bare[6] == 0x40 && bare[7] == 0;
    assert bare[12..16] == src && bare[16..20] == dst;
    var h := IpHeader(total, ident, proto, src, dst);
    assert h[12..16] == bare[12..16] && h[16..20] == bare[16..20];
  }

  lemma EthHeaderReads(dst: Mac, src: Mac, etherType: Word16, rest: seq<Byte>)
    ensures var f := EthHeader(dst, src, etherType) + rest;
      EtherType(f) == etherType && DstMac(f) == dst && SrcMac(f) == src
  {
    var h := EthHeader(dst, src, etherType);
    var f := h + rest;
    assert h[12] == etherType / 256 && h[13] == etherType % 256;
    assert f[0..6] == dst && f[6..12] == src;
  }

  /** Reading an IPv4 header behind an Ethernet header. */
  lemma IpFrameReads(eth: seq<Byte>, total: Word16, ident: Word16, proto: Byte, src: Ip, dst: Ip, rest: seq<Byte>)
    requires |eth| == ETH_LEN
    ensures var f := eth + IpHeader(total, ident, proto, src, dst) + rest;
      && HasIp(f) && IpHeaderLen(f) == IP_LEN && (f[ETH_LEN] as int) / 16 == 4
      && TotalLen(f) == total && IpProto(f) == proto && IpSrc(f) == src && IpDst(f) == dst
      && BigWord(f, ETH_LEN + 6) == 0x4000 && Checksum16(At(f, ETH_LEN, IP_LEN), 0) == 0
  {
    var h := IpHeader(total, ident, proto, src, dst);
    var f := eth + h + rest;
    IpHeaderReads(total, ident, proto, src, dst);
    IpHeaderVerifies(total, ident, proto, src, dst);
    assert forall i :: 0 <= i < IP_LEN ==> f[ETH_LEN + i] == h[i];
    assert At(f, ETH_LEN, IP_LEN) == h;
    assert f[ETH_LEN + 12..ETH_LEN + 16] == h[12..16] && f[ETH_LEN + 16..ETH_LEN + 20] == h[16..20];
  }

  lemma UdpReads(front: seq<Byte>, srcPort: Word16, dstPort: Word16, udpLen: Word16, field: Word16, payload: seq<Byte>)
    requires |front| == ETH_LEN + IP_LEN
    ensures var f := front + Splice(BareUdp(srcPort, dstPort, udpLen), UDP_CHECKSUM, Big16(field)) + payload;
      && |f| == HEADER_LEN + |payload|
      && BigWord(f, 34) == srcPort && BigWord(f, 36) == dstPort && BigWord(f, 38) == udpLen
      && f[HEADER_LEN..] == payload
  {
    var bare := BareUdp(srcPort, dstPort, udpLen);
    assert bare[0] == srcPort / 256 && bare[1] == srcPort % 256 && bare[2] == dstPort / 256 && bare[3] == dstPort % 256;
    assert bare[4] == udpLen / 256 && bare[5] == udpLen % 256;
    var u := Splice(bare, UDP_CHECKSUM, Big16(field));
    var f := front + u + payload;
    assert forall i :: 0 <= i < UDP_LEN ==> f[34 + i] == u[i];
  }

  /** Everything a receiver reads in a frame that buildFrameHeader and the payload make up. */
  lemma FrameReads(n: Node, dst: Mac, payload: seq<Byte>, addr: Ip, port: Word16, cfg: Config)
    requires |payload| <= MAX_SEGMENT
    ensures var f := Frame(n, dst, payload, addr, port, cfg);
      && EtherType(f) == TYPE_IPV4 && DstMac(f) == dst && SrcMac(f) == n.mac
      && HasIp(f) && IpConsistent(f) && IpHeaderLen(f) == IP_LEN && TotalLen(f) == IP_LEN + UDP_LEN + |payload|
      && IpProto(f) == PROTO_UDP && IpSrc(f) == n.ip && IpDst(f) == addr
      && BigWord(f, ETH_LEN + 6) == 0x4000 && Checksum16(At(f, ETH_LEN, IP_LEN), 0) == 0
      && BigWord(f, 34) == n.port && BigWord(f, 36) == port && BigWord(f, 38) == UDP_LEN + |payload|
      && f[HEADER_LEN..] == payload
  {
    var eth := EthHeader(dst, n.mac, TYPE_IPV4);
    var total := IP_LEN + UDP_LEN + |payload|;
    var ip := IpHeader(total, n.ident, PROTO_UDP, n.ip, addr);
    var field := UdpField(n, payload, addr, port, cfg);
    var udp := Splice(BareUdp(n.port, port, UDP_LEN + |payload|), UDP_CHECKSUM, Big16(field));
    var f := Frame(n, dst, payload, addr, port, cfg);
    assert f == eth + (ip + udp + payload);
    EthHeaderReads(dst, n.mac, TYPE_IPV4, ip + udp + payload);
    assert f == eth + ip + (udp + payload);
    IpFrameReads(eth, total, n.ident, PROTO_UDP, n.ip, addr, udp + payload);
    assert f == (eth + ip) + udp + payload;
    UdpReads(eth + ip, n.port, port, UDP_LEN + |payload|, field, payload);
  }

  // ---------------------------------------------------------------- main results

  predicate Addressed(n: Node, dst: Mac, addr: Ip, port: Word16) {
    (dst == n.mac || dst == BROADCAST_MAC) && (addr == n.ip || addr == BROADCAST_IP) && port == n.port
  }

  /**
    A frame is accepted by exactly the endpoints it is addressed to: MAC address or broadcast, IP
    address or broadcast, port, and room for the payload. An endpoint that accepts it gets exactly
    the payload, source address and source port, and learns the sender unless the frame was a
    broadcast. This holds for every combination of the options. An empty datagram is accepted as
    well, and teaches the peer; but its return value is that of a frame for somebody else.
   */
  lemma FrameRoundTrip(a: Node, b: Node, dst: Mac, payload: seq<Byte>, addr: Ip, port: Word16, bufferSize: nat,
                       cfgA: Config, cfgB: Config)
    requires |payload| <= MAX_SEGMENT
    ensures var o := Handle(b, Frame(a, dst, payload, addr, port, cfgA), bufferSize, cfgB);
      o == if Addressed(b, dst, addr, port) && |payload| <= bufferSize then
             Datagram(payload, a.ip, a.port, if dst == BROADCAST_MAC then None else Some(a.mac))
           else Ignored
    ensures var o := Handle(b, Frame(a, dst, payload, addr, port, cfgA), bufferSize, cfgB);
      Returned(o) > 0 <==> payload != [] && Addressed(b, dst, addr, port) && |payload| <= bufferSize
  {
    FrameReads(a, dst, payload, addr, port, cfgA);
    var f := Frame(a, dst, payload, addr, port, cfgA);
    assert |f| == HEADER_LEN + |payload|;
    assert At(f, HEADER_LEN, |payload|) == f[HEADER_LEN..];
  }

  /** A conversation: after b received a's datagram, its answer to the reported source reaches a and teaches it b. */
  lemma AnswerReachesSender(a: Node, b: Node, payload: seq<Byte>, answer: seq<Byte>, cfgA: Config, cfgB: Config)
    requires |payload| <= MAX_SEGMENT && |answer| <= MAX_SEGMENT
    requires a.mac != BROADCAST_MAC && b.mac != BROADCAST_MAC
    ensures var f := Frame(a, b.mac, payload, b.ip, b.port, cfgA);
      var o := Handle(b, f, MAX_SEGMENT, cfgB);
      && o.Datagram? && o.payload == payload && After(b, o, f).peer == Some(a.mac)
      && Handle(a, Frame(After(b, o, f), a.mac, answer, o.srcAddr, o.srcPort, cfgB), MAX_SEGMENT, cfgA) ==
           Datagram(answer, b.ip, b.port, Some(b.mac))
  {
    FrameRoundTrip(a, b, b.mac, payload, b.ip, b.port, MAX_SEGMENT, cfgA, cfgB);
    var f := Frame(a, b.mac, payload, b.ip, b.port, cfgA);
    var o := Handle(b, f, MAX_SEGMENT, cfgB);
    FrameRoundTrip(After(b, o, f), a, a.mac, answer, o.srcAddr, o.srcPort, MAX_SEGMENT, cfgB, cfgA);
  }

  /** The UDP checksum of a built frame verifies against the pseudo header, and is never sent as zero (RFC 768). */
  lemma UdpChecksumVerifies(n: Node, payload: seq<Byte>, addr: Ip, port: Word16, cfg: Config)
    requires |payload| <= MAX_SEGMENT && cfg.computeUdp
    ensures var udpLen, field := UDP_LEN + |payload|, UdpField(n, payload, addr, port, cfg);
      && field != 0
      && Checksum16(Splice(BareUdp(n.port, port, udpLen) + payload, UDP_CHECKSUM, Big16(field)),
        PseudoSum(n.ip, addr, udpLen)) == 0
  {
    var udpLen := UDP_LEN + |payload|;
    var p := BareUdp(n.port, port, udpLen) + payload;
    assert p[UDP_CHECKSUM] == 0 && p[UDP_CHECKSUM + 1] == 0;
    UdpInsertedVerifies(p, UDP_CHECKSUM, PseudoSum(n.ip, addr, udpLen));
  }

  lemma ArpReads(dst: Mac, src: Mac, oper: Word16, sha: Mac, spa: Ip, tha: Mac, tpa: Ip)
    ensures var f := ArpFrame(dst, src, oper, sha, spa, tha, tpa);
      && EtherType(f) == TYPE_ARP && BigWord(f, 14) == 1 && BigWord(f, 16) == TYPE_IPV4 && f[18] == 6 && f[19] == 4
      && BigWord(f, 20) == oper && At(f, 22, 6) == sha && At(f, 28, 4) == spa && At(f, 38, 4) == tpa
  {
    var f := ArpFrame(dst, src, oper, sha, spa, tha, tpa);
    var rest := ArpBody(oper, sha, spa, tha, tpa);
    assert f == EthHeader(dst, src, TYPE_ARP) + rest;
    EthHeaderReads(dst, src, TYPE_ARP, rest);
    ArpBodyReads(oper, sha, spa, tha, tpa);
    assert forall i :: 0 <= i < ARP_LEN ==> f[ETH_LEN + i] == rest[i];
    assert At(f, 22, 6) == rest[8..14] && At(f, 28, 4) == rest[14..18] && At(f, 38, 4) == rest[24..28];
  }

  lemma ArpBodyReads(oper: Word16, sha: Mac, spa: Ip, tha: Mac, tpa: Ip)
    ensures var rest := ArpBody(oper, sha, spa, tha, tpa);
      && rest[0] == 0 && rest[1] == 1 && rest[2] == 8 && rest[3] == 0 && rest[4] == 6 && rest[5] == 4
      && rest[6] == oper / 256 && rest[7] == oper % 256
      && rest[8..14] == sha && rest[14..18] == spa && rest[24..28] == tpa
  {
    var rest := Big16(1) + Big16(TYPE_IPV4) + [6, 4] + Big16(oper) + sha + spa + tha + tpa;
    assert rest[0] == 0 && rest[1] == 1 && rest[2] == 8 && rest[3] == 0 && rest[4] == 6 && rest[5] == 4;
    assert rest[6] == oper / 256 && rest[7] == oper % 256;
    assert rest[8..14] == sha && rest[14..18] == spa && rest[24..28] == tpa;
  }

  /**
    ARP: an endpoint answers exactly the requests for its own address, with its own addresses, to
    the requester; it ignores every reply, so that answers are never answered; and no ARP frame
    ever changes the learned peer.
   */
  lemma ArpAnswered(n: Node, dst: Mac, src: Mac, oper: Word16, sha: Mac, spa: Ip, tha: Mac, tpa: Ip, bufferSize: nat,
                    cfg: Config)
    ensures var f := ArpFrame(dst, src, oper, sha, spa, tha, tpa);
      var o := Handle(n, f, bufferSize, cfg);
      && o == (if oper == ARP_REQUEST && tpa == n.ip then
                 Reply(ArpFrame(sha, n.mac, ARP_REPLY, n.mac, n.ip, sha, spa))
               else Ignored)
      && After(n, o, f) == n
  {
    ArpReads(dst, src, oper, sha, spa, tha, tpa);
  }

  /** Whatever frame an endpoint answers, nobody answers the answer. */
  lemma AnswersAreNotAnswered(n: Node, other: Node, f: seq<Byte>, bufferSize: nat, cfg: Config, cfgOther: Config)
    requires Handle(n, f, bufferSize, cfg).Reply?
    ensures Handle(other, Handle(n, f, bufferSize, cfg).frame, bufferSize, cfgOther) == Ignored
  {
    if EtherType(f) == TYPE_ARP {
      ArpAnswered(other, At(f, 22, 6), n.mac, ARP_REPLY, n.mac, n.ip, At(f, 22, 6), At(f, 28, 4), bufferSize, cfgOther);
    } else {
      EchoReplyReads(n, f);
      EchoIgnored(n, other, f, bufferSize, cfgOther);
    }
  }

  lemma EchoReplyReads(n: Node, f: seq<Byte>)
    requires |f| >= ETH_LEN && HasIp(f) && IpConsistent(f) && HandleIcmp(n, f).Reply?
    ensures var r, icmpLen := HandleIcmp(n, f).frame, TotalLen(f) - IpHeaderLen(f);
      && |r| == ETH_LEN + IP_LEN + icmpLen && ICMP_LEN <= icmpLen
      && EtherType(r) == TYPE_IPV4 && DstMac(r) == SrcMac(f) && HasIp(r) && IpHeaderLen(r) == IP_LEN &&
        TotalLen(r) == IP_LEN + icmpLen
      && IpProto(r) == PROTO_ICMP && IpSrc(r) == n.ip && IpDst(r) == IpSrc(f)
      && Checksum16(At(r, ETH_LEN, IP_LEN), 0) == 0
      && r[ETH_LEN + IP_LEN..] == EchoReply(At(f, ETH_LEN + IpHeaderLen(f), icmpLen))
  {
    var icmpLen := TotalLen(f) - IpHeaderLen(f);
    var icmp := EchoReply(At(f, ETH_LEN + IpHeaderLen(f), icmpLen));
    var eth, ip := EthHeader(SrcMac(f), n.mac, TYPE_IPV4),
      IpHeader(IP_LEN + icmpLen, n.ident, PROTO_ICMP, n.ip, IpSrc(f));
    var r := HandleIcmp(n, f).frame;
    assert r == eth + (ip + icmp);
    EthHeaderReads(SrcMac(f), n.mac, TYPE_IPV4, ip + icmp);
    IpFrameReads(eth, IP_LEN + icmpLen, n.ident, PROTO_ICMP, n.ip, IpSrc(f), icmp);
  }

  lemma EchoIgnored(n: Node, other: Node, f: seq<Byte>, bufferSize: nat, cfg: Config)
    requires |f| >= ETH_LEN && HasIp(f) && IpConsistent(f) && HandleIcmp(n, f).Reply?
    ensures Handle(other, HandleIcmp(n, f).frame, bufferSize, cfg) == Ignored
  {
    EchoReplyReads(n, f);
    var r, icmpLen := HandleIcmp(n, f).frame, TotalLen(f) - IpHeaderLen(f);
    EchoReplyIs(At(f, ETH_LEN + IpHeaderLen(f), icmpLen));
    assert r[ETH_LEN + IP_LEN] == r[ETH_LEN + IP_LEN..][0] == 0;
    if HasIp(r) && IpConsistent(r) {
      assert At(r, ETH_LEN + IP_LEN, icmpLen)[0] == 0;
    }
  }

  /** An echo reply has type 0, carries the data of the request, and its checksum verifies. */
  lemma EchoReplyIs(request: seq<Byte>)
    requires |request| >= ICMP_LEN
    ensures var r := EchoReply(request);
      && r[0] == 0 && r[1] == request[1] && r[ICMP_LEN..] == request[ICMP_LEN..]
      && Checksum16(r, 0) == 0
  {
    var bare := Splice(Put(request, 0, 0), 2, Big16(0));
    assert bare[2] == 0 && bare[3] == 0;
    InsertedVerifies(bare, 2, 0);
    assert EchoReply(request)[ICMP_LEN..] == request[ICMP_LEN..];
  }

  /** A ping is answered with the data of the request, and both checksums of the answer verify. */
  lemma EchoAnswered(n: Node, f: seq<Byte>)
    requires |f| >= ETH_LEN && HasIp(f) && IpConsistent(f) && HandleIcmp(n, f).Reply?
    ensures var r, icmp := HandleIcmp(n, f).frame, At(f, ETH_LEN + IpHeaderLen(f), TotalLen(f) - IpHeaderLen(f));
      && |r| == ETH_LEN + IP_LEN + |icmp| && DstMac(r) == SrcMac(f) && IpDst(r) == IpSrc(f) && IpSrc(r) == n.ip
      && Checksum16(At(r, ETH_LEN, IP_LEN), 0) == 0
      && Checksum16(r[ETH_LEN + IP_LEN..], 0) == 0
      && r[ETH_LEN + IP_LEN + ICMP_LEN..] == icmp[ICMP_LEN..]
  {
    EchoReplyReads(n, f);
    var r, icmp := HandleIcmp(n, f).frame, At(f, ETH_LEN + IpHeaderLen(f), TotalLen(f) - IpHeaderLen(f));
    EchoReplyIs(icmp);
    assert r[ETH_LEN + IP_LEN + ICMP_LEN..] == r[ETH_LEN + IP_LEN..][ICMP_LEN..];
  }

  /**
    Any received bytes: what is accepted lies inside the IPv4 datagram and inside the frame, fits the
    buffer, was addressed to this endpoint, and had an intact IPv4 header if that is verified.
   */
  lemma AcceptedIsAddressed(n: Node, f: seq<Byte>, bufferSize: nat, cfg: Config)
    requires Handle(n, f, bufferSize, cfg).Datagram?
    ensures HasIp(f)
    ensures var o, body := Handle(n, f, bufferSize, cfg), ETH_LEN + IpHeaderLen(f) + UDP_LEN;
      && HEADER_LEN <= body && body + |o.payload| <= ETH_LEN + TotalLen(f) <= |f|
      && o.payload == f[body..body + |o.payload|] && |o.payload| <= bufferSize
      && (DstMac(f) == n.mac || DstMac(f) == BROADCAST_MAC) && (IpDst(f) == n.ip || IpDst(f) == BROADCAST_IP)
      && BigWord(f, body - 6) == n.port && o.srcAddr == IpSrc(f)
      && (cfg.verifyRx ==> WordSum(f[ETH_LEN..body - UDP_LEN]) % 0xFFFF == 0)
      && (o.learn == None || o.learn == Some(SrcMac(f)))
  {
    if cfg.verifyRx {
      VerifiesIff(At(f, ETH_LEN, IpHeaderLen(f)), 0);
    }
  }
}
