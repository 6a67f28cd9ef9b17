/** The socket object of the raw transport: header fields written in place, received frames classified step by step. */
module RawSocket {
  import opened Bytes
  import opened Checksum
  import opened RawFrame

  datatype Error = NoError | BadSocket | TooBig | NoPeer | HalError

  const NO_MAC: Mac := [0, 0, 0, 0, 0, 0]

  datatype Sent = Sent(frame: seq<Byte>) | Closed | Failed

  /** Bytes stored inside a part of a block, seen in that part. */
  lemma StoredInside(before: seq<Byte>, after: seq<Byte>, at: nat, n: nat, off: nat, data: seq<Byte>)
    requires at + n <= |before| == |after| && off + |data| <= n
    requires after[at + off..at + off + |data|] == data
    requires forall x :: 0 <= x < |before| && !(at + off <= x < at + off + |data|) ==> after[x] == before[x]
    ensures after[at..at + n] == Splice(before[at..at + n], off, data)
  {
    var part := before[at..at + n];
    assert after[at..at + off] == part[..off];
    assert after[at + off + |data|..at + n] == part[off + |data|..];
    assert after[at..at + n] == after[at..at + off] + after[at + off..at + off + |data|] +
                                after[at + off + |data|..at + n];
  }

  lemma ThreeParts(s: seq<Byte>, i: nat, j: nat)
    requires i <= j <= |s|
    ensures s == s[..i] + s[i..j] + s[j..]
  {
  }

  class Socket {
    const cfg: Config
    var localMac: Mac
    var localIp: Ip
    var localPort: Word16
    var peerMac: Mac
    var peerMacValid: bool
    var ipIdent: Word16
    var isOpen: bool
    var lastError: Error

    /** The static socket before it is opened. */
    constructor (config: Config)
      ensures !isOpen && !peerMacValid && ipIdent == 0 && cfg == config && lastError == NoError
    {
      cfg, localMac := config, NO_MAC;
      localIp, localPort := [0, 0, 0, 0], 0;
      peerMac, peerMacValid := NO_MAC, false;
      ipIdent, isOpen, lastError := 0, false, NoError;
    }

    /**
      socketOpen: one UDP socket, with a MAC address that can be used. `hal` is what the driver
      reports, and None if it does not open or has no address.
     */
    method Open(tcp: bool, hal: Option<Mac>) returns (ok: bool)
      modifies this
      ensures ok <==> !tcp && !old(isOpen) && hal.Some? && hal.value[0] % 2 == 0 && hal.value != NO_MAC
      ensures tcp || old(isOpen) ==> View() == old(View()) && isOpen == old(isOpen) && lastError == old(lastError)
      ensures !tcp && !old(isOpen) ==> isOpen == ok && lastError == if ok then old(lastError) else HalError
      ensures !tcp && !old(isOpen) ==>
        View() == Node(if hal.Some? then hal.value else NO_MAC, [0, 0, 0, 0], 0, None, 0)
    {
      if tcp || isOpen {
        return false;
      }
      localIp, localPort, peerMac, peerMacValid, ipIdent := [0, 0, 0, 0], 0, NO_MAC, false, 0;
      localMac := if hal.Some? then hal.value else NO_MAC;
      if hal.None? || hal.value[0] % 2 != 0 || hal.value == NO_MAC {
        lastError := HalError;
        return false;
      }
      isOpen := true;
      return true;
    }

    function View(): Node
      reads this
    {
      Node(localMac, localIp, localPort, if peerMacValid then Some(peerMac) else None, ipIdent)
    }

    /** socketBind: only a concrete unicast address. */
    method Bind(addr: Ip, port: Word16) returns (ok: bool)
      modifies this`localIp, this`localPort
      ensures ok <==> addr[0] != 0 && addr[0] != 127 && !(224 <= addr[0] <= 239) && addr != BROADCAST_IP
      ensures View() == if ok then old(View()).(ip := addr, port := port) else old(View())
    {
      ok := !(addr[0] == 0 || addr == [255, 255, 255, 255] || (addr[0] >= 224 && addr[0] <= 239) || addr[0] == 127);
      if ok {
        localIp, localPort := addr, port;
      }
    }

    method WriteEthHeader(hdr: array<Byte>)
      requires hdr.Length >= HEADER_LEN
      modifies hdr
      ensures hdr[..ETH_LEN] == EthHeader(peerMac, localMac, TYPE_IPV4)
      ensures hdr[ETH_LEN..] == old(hdr[ETH_LEN..])
    {
      StoreBytes(hdr, 0, peerMac);
      StoreBytes(hdr, 6, localMac);
      StoreBytes(hdr, 12, Big16(TYPE_IPV4));
      assert hdr[0..6] == peerMac && hdr[6..12] == localMac;
      assert hdr[..ETH_LEN] == hdr[0..6] + hdr[6..12] + hdr[12..14];
    }

    /** The Ethernet and IPv4 part of buildFrameHeader. */
    method WriteIpHeader(hdr: array<Byte>, payloadLen: nat, addr: Ip)
      requires hdr.Length >= HEADER_LEN && payloadLen <= MAX_SEGMENT
      modifies hdr
      ensures hdr[..ETH_LEN] == EthHeader(peerMac, localMac, TYPE_IPV4)
      ensures hdr[ETH_LEN..ETH_LEN + IP_LEN] ==
        IpHeader(IP_LEN + UDP_LEN + payloadLen, ipIdent, PROTO_UDP, localIp, addr)
      ensures hdr[ETH_LEN + IP_LEN..] == old(hdr[ETH_LEN + IP_LEN..])
    {
      WriteEthHeader(hdr);
      assert hdr[ETH_LEN + IP_LEN..] == hdr[ETH_LEN..][IP_LEN..] == old(hdr[ETH_LEN..])[IP_LEN..];
      ghost var eth, rest := hdr[..ETH_LEN], hdr[ETH_LEN + IP_LEN..];
      ghost var bare := BareIp(IP_LEN + UDP_LEN + payloadLen, ipIdent, PROTO_UDP, localIp, addr);
      StoreBytes(hdr, ETH_LEN, BareIp(IP_LEN + UDP_LEN + payloadLen, ipIdent, PROTO_UDP, localIp, addr));
      var c := ComputeChecksum(hdr, ETH_LEN, IP_LEN, 0);
      ghost var before := hdr[..];
      assert before[ETH_LEN..ETH_LEN + IP_LEN] == bare;
      StoreBytes(hdr, ETH_LEN + IP_CHECKSUM, Big16(c));
      StoredInside(before, hdr[..], ETH_LEN, IP_LEN, IP_CHECKSUM, Big16(c));
      assert hdr[ETH_LEN..ETH_LEN + IP_LEN] == hdr[..][ETH_LEN..ETH_LEN + IP_LEN];
      assert hdr[..ETH_LEN] == eth && hdr[ETH_LEN + IP_LEN..] == rest;
    }

    /** The UDP part; a computed checksum covers the payload behind the header. */
    method WriteUdpHeader(hdr: array<Byte>, payloadLen: nat, addr: Ip, port: Word16)
      requires hdr.Length == HEADER_LEN + payloadLen && payloadLen <= MAX_SEGMENT
      modifies hdr
      ensures hdr[..ETH_LEN + IP_LEN] == old(hdr[..ETH_LEN + IP_LEN]) && hdr[HEADER_LEN..] == old(hdr[HEADER_LEN..])
      ensures hdr[ETH_LEN + IP_LEN..HEADER_LEN] ==
                Splice(BareUdp(localPort, port, UDP_LEN + payloadLen), UDP_CHECKSUM,
                       Big16(UdpField(View(), hdr[HEADER_LEN..], addr, port, cfg)))
    {
      var u, udpLen := ETH_LEN + IP_LEN, UDP_LEN + payloadLen;
      ghost var payload, bare := hdr[HEADER_LEN..], BareUdp(localPort, port, udpLen);
      StoreBytes(hdr, u, BareUdp(localPort, port, udpLen));
      assert hdr[HEADER_LEN..] == payload;
      assert hdr[u..u + udpLen] == bare + payload;
      var c := 0;
      if cfg.computeUdp {
        c := ComputeChecksum(hdr, u, udpLen, PseudoSum(localIp, addr, udpLen));
        c := if c == 0 then 0xFFFF else c;
      }
      StoreBytes(hdr, u + UDP_CHECKSUM, Big16(c));
      assert hdr[HEADER_LEN..] == payload;
      assert hdr[u..HEADER_LEN] == Splice(bare, UDP_CHECKSUM, Big16(c));
    }

    /** buildFrameHeader: 42 bytes in front of a payload that is already in place. */
    method BuildFrameHeader(hdr: array<Byte>, payloadLen: nat, addr: Ip, port: Word16)
      requires hdr.Length == HEADER_LEN + payloadLen && payloadLen <= MAX_SEGMENT
      modifies this`ipIdent, hdr
      ensures hdr[..] == Frame(old(View()), peerMac, old(hdr[HEADER_LEN..]), addr, port, cfg)
      ensures View() == old(View()).(ident := (old(ipIdent) + 1) % 0x10000)
    {
      ghost var payload := hdr[HEADER_LEN..];
      WriteIpHeader(hdr, payloadLen, addr);
      assert hdr[HEADER_LEN..] == hdr[ETH_LEN + IP_LEN..][UDP_LEN..];
      assert payload == old(hdr[ETH_LEN + IP_LEN..])[UDP_LEN..];
      ghost var front := hdr[..ETH_LEN + IP_LEN];
      assert front == hdr[..ETH_LEN] + hdr[ETH_LEN..ETH_LEN + IP_LEN];
      WriteUdpHeader(hdr, payloadLen, addr, port);
      ThreeParts(hdr[..], ETH_LEN + IP_LEN, HEADER_LEN);
      assert hdr[..][..ETH_LEN + IP_LEN] == hdr[..ETH_LEN + IP_LEN] && hdr[..][HEADER_LEN..] == hdr[HEADER_LEN..];
      assert hdr[..][ETH_LEN + IP_LEN..HEADER_LEN] == hdr[ETH_LEN + IP_LEN..HEADER_LEN];
      ipIdent := (ipIdent + 1) % 0x10000;
    }

    /** socketSendTo, up to the driver: the checks, and the frame that goes out. */
    method SendTo(payload: seq<Byte>, addr: Ip, port: Word16) returns (r: Sent)
      modifies this`ipIdent, this`lastError
      ensures r.Sent? <==> old(isOpen) && 0 < |payload| <= MAX_SEGMENT && old(peerMacValid)
      ensures r.Sent? ==> r.frame == Frame(old(View()), peerMac, payload, addr, port, cfg) &&
                          View() == old(View()).(ident := (old(ipIdent) + 1) % 0x10000) && lastError == old(lastError)
      ensures !r.Sent? ==> View() == old(View())
      ensures !old(isOpen) ==> r == Closed && lastError == BadSocket
      ensures old(isOpen) && !(0 < |payload| <= MAX_SEGMENT) ==> r == Failed && lastError == TooBig
      ensures old(isOpen) && 0 < |payload| <= MAX_SEGMENT && !old(peerMacValid) ==> r == Failed && lastError == NoPeer
    {
      if !isOpen {
        lastError := BadSocket;
        return Closed;
      }
      if |payload| == 0 || |payload| > MAX_SEGMENT {
        lastError := TooBig;
        return Failed;
      }
      if !peerMacValid {
        lastError := NoPeer;
        return Failed;
      }
      var frame := new Byte[HEADER_LEN + |payload|];
      StoreBytes(frame, HEADER_LEN, payload);
      assert frame[HEADER_LEN..] == payload;
      BuildFrameHeader(frame, |payload|, addr, port);
      r := Sent(frame[..]);
    }

    /** handleFrame, and what it does to the socket. */
    method HandleFrame(f: seq<Byte>, bufferSize: nat) returns (o: Outcome)
      modifies this`peerMac, this`peerMacValid, this`ipIdent
      ensures o == Handle(old(View()), f, bufferSize, cfg)
      ensures View() == After(old(View()), o, f)
    {
      if |f| < ETH_LEN {
        return Ignored;
      }
      var etherType := EtherType(f);
      if etherType == TYPE_ARP {
        o := HandleArp(View(), f);
        return;
      }
      if etherType != TYPE_IPV4 || (DstMac(f) != localMac && DstMac(f) != BROADCAST_MAC) || |f| < ETH_LEN + IP_LEN {
        return Ignored;
      }
      if (f[ETH_LEN] as int) / 16 != 4 || IpHeaderLen(f) < IP_LEN || TotalLen(f) < IpHeaderLen(f) ||
        ETH_LEN + TotalLen(f) > |f| {
        return Ignored;
      }
      if BigWord(f, ETH_LEN + 6) % 0x4000 != 0 || (IpDst(f) != localIp && IpDst(f) != BROADCAST_IP) {
        return Ignored;
      }
      if cfg.verifyRx && Checksum16(At(f, ETH_LEN, IpHeaderLen(f)), 0) != 0 {
        return Ignored;
      }
      if cfg.icmpEcho && IpProto(f) == PROTO_ICMP {
        o := HandleIcmp(View(), f);
        if o.Reply? {
          ipIdent := (ipIdent + 1) % 0x10000;
        }
        return;
      }
      if IpProto(f) != PROTO_UDP {
        return Ignored;
      }
      o := HandleUdp(View(), f, bufferSize);
      if o.Datagram? && DstMac(f) != BROADCAST_MAC {
        peerMac, peerMacValid := SrcMac(f), true;
      }
    }
  }
}
