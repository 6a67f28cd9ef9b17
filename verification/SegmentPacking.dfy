/** How messages are packed into one segment, and what the walk of queuePop finds in it. */
module SegmentPacking {
  import opened Bytes
  import opened Counting
  import opened SegmentRing

  /** `Granted`: room is taken but the header is not written yet (queue32m.c). */
  datatype Stage = Granted | Reserved | Committed | Stamped

  /** A message as its producer knows it; `id` is the number of the acquire that granted it. */
  datatype Msg = Msg(id: nat, off: nat, dlc: nat, stage: Stage, ctr: nat, payload: seq<Byte>)

  function End(m: Msg): nat { m.off + HEADER + m.dlc }

  /** The counter field of a message whose header is written. */
  function CtrField(m: Msg): nat {
    match m.stage
    case Stamped => m.ctr
    case Committed => COMMITTED
    case _ => RESERVED
  }

  predicate Open(m: Msg) { m.stage == Granted || m.stage == Reserved }

  function OpenFlags(msgs: seq<Msg>): (flags: seq<bool>)
    ensures |flags| == |msgs|
  {
    seq(|msgs|, i requires 0 <= i < |msgs| => Open(msgs[i]))
  }

  predicate MsgOk(m: Msg) {
    && 0 < m.dlc <= MAX_DTO && m.dlc % ALIGNMENT == 0
    && |m.payload| == m.dlc
    && m.ctr < 0x10000
  }

  ghost predicate Image(bytes: seq<Byte>, m: Msg) {
    && MsgOk(m)
    && End(m) <= |bytes|
    && (m.stage != Granted ==> bytes[m.off..m.off + HEADER] == Word(m.dlc, CtrField(m)))
    && bytes[m.off + HEADER..End(m)] == m.payload
  }

  /** The offset of message `i`, or the end of the last one. */
  function Off(b: Segment, msgs: seq<Msg>, i: nat): nat
    requires i <= |msgs|
  {
    if i < |msgs| then msgs[i].off else b.size
  }

  ghost predicate Chain(b: Segment, msgs: seq<Msg>) {
    && Off(b, msgs, 0) == 0
    && forall i :: 0 < i <= |msgs| ==> Off(b, msgs, i) == End(msgs[i - 1])
  }

  ghost predicate Ordered(b: Segment, msgs: seq<Msg>) {
    && (forall i :: 0 <= i < |msgs| ==> End(msgs[i]) <= b.size)
    && (forall i, j :: 0 <= i < j < |msgs| ==> End(msgs[i]) <= msgs[j].off)
  }

  ghost predicate Images(b: Segment, msgs: seq<Msg>) {
    forall i :: 0 <= i < |msgs| ==> Image(b.bytes, msgs[i])
  }

  /** The messages fill the segment without gaps, fit a datagram, and are counted while they are open. */
  ghost predicate Packed(b: Segment, msgs: seq<Msg>) {
    && b.size <= MAX_SEGMENT == |b.bytes|
    && |msgs| <= b.size
    && Chain(b, msgs)
    && Ordered(b, msgs)
    && Images(b, msgs)
    && b.uncommitted == CountTrue(OpenFlags(msgs))
  }

  // ---------------------------------------------------------------- steps on one segment

  lemma EmptyPacked(b: Segment)
    requires b.size == 0 && b.uncommitted == 0 && |b.bytes| == MAX_SEGMENT
    ensures Packed(b, [])
  {
  }

  function Granting(b: Segment, id: nat, dlc: nat): (m: Msg)
    requires b.size + HEADER + dlc <= |b.bytes|
  {
    Msg(id, b.size, dlc, Granted, 0, b.bytes[b.size + HEADER..b.size + HEADER + dlc])
  }

  function WithMessage(b: Segment, dlc: nat): Segment {
    b.(size := b.size + dlc + HEADER, uncommitted := Inc16(b.uncommitted))
  }

  lemma GrantChain(b: Segment, msgs: seq<Msg>, m: Msg)
    requires Chain(b, msgs) && Ordered(b, msgs) && m.off == b.size
    ensures Chain(WithMessage(b, m.dlc), msgs + [m]) && Ordered(WithMessage(b, m.dlc), msgs + [m])
  {
    var b', msgs' := WithMessage(b, m.dlc), msgs + [m];
    forall i | 0 <= i <= |msgs|
      ensures Off(b', msgs', i) == Off(b, msgs, i)
    {
    }
    assert Off(b', msgs', |msgs'|) == End(m);
  }

  lemma GrantPacked(b: Segment, msgs: seq<Msg>, id: nat, dlc: nat)
    requires Packed(b, msgs) && 0 < dlc <= MAX_DTO && dlc % ALIGNMENT == 0 && b.size + HEADER + dlc <= MAX_SEGMENT
    ensures Packed(WithMessage(b, dlc), msgs + [Granting(b, id, dlc)])
  {
    var m := Granting(b, id, dlc);
    GrantChain(b, msgs, m);
    assert OpenFlags(msgs + [m]) == OpenFlags(msgs) + [true];
    CountAppend(OpenFlags(msgs), true);
    CountBound(OpenFlags(msgs));
    GrantImages(b, msgs, m);
  }

  lemma GrantImages(b: Segment, msgs: seq<Msg>, m: Msg)
    requires Images(b, msgs) && Image(b.bytes, m)
    ensures Images(WithMessage(b, m.dlc), msgs + [m])
  {
  }

  /** `bytes'` differs from `bytes` at most in the room of message `m`. */
  ghost predicate OnlyRoomChanged(bytes: seq<Byte>, bytes': seq<Byte>, m: Msg) {
    |bytes'| == |bytes| && forall x :: 0 <= x < |bytes| && !(m.off <= x < End(m)) ==> bytes'[x] == bytes[x]
  }

  lemma ImageFrame(bytes: seq<Byte>, bytes': seq<Byte>, m: Msg, other: Msg)
    requires Image(bytes, other) && OnlyRoomChanged(bytes, bytes', m)
    requires End(m) <= other.off || End(other) <= m.off
    ensures Image(bytes', other)
  {
    assert other.stage != Granted ==> bytes'[other.off..other.off + HEADER] == bytes[other.off..other.off + HEADER];
    assert bytes'[other.off + HEADER..End(other)] == bytes[other.off + HEADER..End(other)];
  }

  lemma RoomWritten(b: Segment, b': Segment, msgs: seq<Msg>, i: nat, m: Msg)
    requires Packed(b, msgs) && i < |msgs| && b'.size == b.size
    requires m.off == msgs[i].off && m.dlc == msgs[i].dlc
    requires OnlyRoomChanged(b.bytes, b'.bytes, m) && Image(b'.bytes, m)
    requires b'.uncommitted + (if Open(msgs[i]) then 1 else 0) == b.uncommitted + (if Open(m) then 1 else 0)
    ensures Packed(b', msgs[i := m])
  {
    var msgs' := msgs[i := m];
    forall j | 0 <= j < |msgs|
      ensures Image(b'.bytes, msgs'[j])
    {
      if j != i {
        assert Image(b.bytes, msgs[j]);
        ImageFrame(b.bytes, b'.bytes, m, msgs[j]);
      }
    }
    assert OpenFlags(msgs') == OpenFlags(msgs)[i := Open(m)];
    CountUpdate(OpenFlags(msgs), i, Open(m));
    SameOffsets(b, b', msgs, msgs');
  }

  lemma SameOffsets(b: Segment, b': Segment, msgs: seq<Msg>, msgs': seq<Msg>)
    requires Chain(b, msgs) && Ordered(b, msgs) && b'.size == b.size && |msgs'| == |msgs|
    requires forall j :: 0 <= j < |msgs| ==> msgs'[j].off == msgs[j].off && msgs'[j].dlc == msgs[j].dlc
    ensures Chain(b', msgs') && Ordered(b', msgs')
  {
    assert forall j :: 0 <= j <= |msgs| ==> Off(b', msgs', j) == Off(b, msgs, j);
  }

  /** Writing the header of message `i`, whatever the stage it moves to. */
  lemma HeaderWritten(b: Segment, msgs: seq<Msg>, i: nat, m: Msg)
    requires Packed(b, msgs) && i < |msgs| && m.stage != Granted && m.ctr < 0x10000
    requires m == msgs[i].(stage := m.stage, ctr := m.ctr)
    requires CtrField(m) < 0x10000 && End(m) <= |b.bytes|
    ensures var bytes' := Splice(b.bytes, m.off, Word(m.dlc, CtrField(m)));
      OnlyRoomChanged(b.bytes, bytes', m) && Image(bytes', m)
  {
    assert Image(b.bytes, msgs[i]);
    var bytes' := Splice(b.bytes, m.off, Word(m.dlc, CtrField(m)));
    assert bytes'[m.off..m.off + HEADER] == Word(m.dlc, CtrField(m));
    assert bytes'[m.off + HEADER..End(m)] == b.bytes[m.off + HEADER..End(m)];
  }

  lemma MessageFits(b: Segment, msgs: seq<Msg>, i: nat)
    requires Packed(b, msgs) && i < |msgs|
    ensures End(msgs[i]) <= b.size && MsgOk(msgs[i])
    ensures Off(b, msgs, i + 1) == End(msgs[i])
  {
    assert Image(b.bytes, msgs[i]);
  }

  /** The header of a message that is written reads as its length and its counter field. */
  lemma HeaderReads(b: Segment, msgs: seq<Msg>, i: nat)
    requires Packed(b, msgs) && i < |msgs| && msgs[i].stage != Granted
    ensures msgs[i].off + HEADER <= |b.bytes|
    ensures LowWord(b.bytes, msgs[i].off) == msgs[i].dlc && HighWord(b.bytes, msgs[i].off) == CtrField(msgs[i])
  {
    assert Image(b.bytes, msgs[i]);
    WordReads(b.bytes, msgs[i].off, msgs[i].dlc, CtrField(msgs[i]));
  }

  lemma ByteImage(bytes: seq<Byte>, m: Msg, k: nat, val: Byte)
    requires Image(bytes, m) && k < m.dlc
    ensures Image(Splice(bytes, m.off + HEADER + k, [val]), m.(payload := Put(m.payload, k, val)))
  {
    var bytes' := Splice(bytes, m.off + HEADER + k, [val]);
    assert m.stage != Granted ==> bytes'[m.off..m.off + HEADER] == bytes[m.off..m.off + HEADER];
    assert bytes'[m.off + HEADER..End(m)] == bytes[m.off + HEADER..End(m)][k := val];
  }

  lemma ByteWritten(b: Segment, msgs: seq<Msg>, i: nat, k: nat, val: Byte)
    requires Packed(b, msgs) && i < |msgs| && k < msgs[i].dlc
    ensures |msgs[i].payload| == msgs[i].dlc && msgs[i].off + HEADER + k < |b.bytes|
    ensures Packed(b.(bytes := Splice(b.bytes, msgs[i].off + HEADER + k, [val])),
                   msgs[i := msgs[i].(payload := Put(msgs[i].payload, k, val))])
  {
    var m := msgs[i];
    assert Image(b.bytes, m);
    ByteImage(b.bytes, m, k, val);
    RoomWritten(b, b.(bytes := Splice(b.bytes, m.off + HEADER + k, [val])), msgs, i,
      m.(payload := Put(m.payload, k, val)));
  }

  /** The counter field goes from nothing to reserved, to committed, to stamped; only the first two are counted. */
  lemma HeaderPacked(b: Segment, msgs: seq<Msg>, i: nat, stage: Stage, ctr: nat)
    requires Packed(b, msgs) && i < |msgs| && ctr < 0x10000 && stage != Granted
    requires Open(msgs[i].(stage := stage)) ==> Open(msgs[i])
    ensures End(msgs[i]) <= |b.bytes|
    ensures var m := msgs[i].(stage := stage, ctr := ctr);
      Packed(b.(bytes := Splice(b.bytes, m.off, Word(m.dlc, CtrField(m))),
                uncommitted := if Open(msgs[i]) && !Open(m) then Dec16(b.uncommitted) else b.uncommitted), msgs[i := m])
  {
    MessageFits(b, msgs, i);
    var m := msgs[i].(stage := stage, ctr := ctr);
    HeaderWritten(b, msgs, i, m);
    if Open(msgs[i]) {
      CountPositive(OpenFlags(msgs), i);
    }
    RoomWritten(b, b.(bytes := Splice(b.bytes, m.off, Word(m.dlc, CtrField(m))),
                      uncommitted := if Open(msgs[i]) && !Open(m) then Dec16(b.uncommitted) else b.uncommitted), msgs,
                        i, m);
  }

  /** With no message open, none of them is granted or reserved. */
  lemma NoneOpen(b: Segment, msgs: seq<Msg>, i: nat)
    requires Packed(b, msgs) && b.uncommitted == 0 && i < |msgs|
    ensures !Open(msgs[i])
  {
    if Open(msgs[i]) {
      CountPositive(OpenFlags(msgs), i);
    }
  }

  lemma SizePositive(b: Segment, msgs: seq<Msg>)
    requires Packed(b, msgs)
    ensures b.size > 0 <==> msgs != []
  {
    if msgs != [] {
      assert Image(b.bytes, msgs[0]);
      assert End(msgs[0]) <= b.size;
    }
  }

  // ---------------------------------------------------------------- the datagram

  function EncodeMsg(m: Msg): (bytes: seq<Byte>)
    requires m.dlc < 0x10000 && m.ctr < 0x10000
  {
    Word(m.dlc, CtrField(m)) + m.payload
  }

  ghost predicate AllOk(msgs: seq<Msg>) {
    forall i :: 0 <= i < |msgs| ==> MsgOk(msgs[i])
  }

  /** The messages on the wire, one after the other. */
  function EncodeAll(msgs: seq<Msg>): seq<Byte>
    requires AllOk(msgs)
  {
    if msgs == [] then []
    else EncodeAll(msgs[..|msgs| - 1]) + EncodeMsg(msgs[|msgs| - 1])
  }

  lemma PackedAllOk(b: Segment, msgs: seq<Msg>)
    requires Packed(b, msgs)
    ensures AllOk(msgs)
  {
    forall i | 0 <= i < |msgs|
      ensures MsgOk(msgs[i])
    {
      assert Image(b.bytes, msgs[i]);
    }
  }

  lemma MessageEncoded(bytes: seq<Byte>, m: Msg)
    requires Image(bytes, m) && m.stage != Granted
    ensures bytes[..End(m)] == bytes[..m.off] + EncodeMsg(m)
  {
    assert bytes[..End(m)] == bytes[..m.off] + (bytes[m.off..m.off + HEADER] + bytes[m.off + HEADER..End(m)]);
  }

  lemma {:induction false} PrefixEncoded(b: Segment, msgs: seq<Msg>, n: nat)
    requires |b.bytes| == MAX_SEGMENT >= b.size && Chain(b, msgs) && Images(b, msgs) && n <= |msgs| && AllOk(msgs)
    requires forall i :: 0 <= i < |msgs| ==> msgs[i].stage != Granted
    ensures Off(b, msgs, n) <= |b.bytes| && b.bytes[..Off(b, msgs, n)] == EncodeAll(msgs[..n])
  {
    if n > 0 {
      PrefixEncoded(b, msgs, n - 1);
      assert Image(b.bytes, msgs[n - 1]);
      MessageEncoded(b.bytes, msgs[n - 1]);
      assert Off(b, msgs, n) == End(msgs[n - 1]);
      assert msgs[..n][..n - 1] == msgs[..n - 1];
    }
  }

  /** The bytes of a segment are exactly its messages, in order, each with its header. */
  lemma SegmentEncoded(b: Segment, msgs: seq<Msg>)
    requires Packed(b, msgs)
    requires forall i :: 0 <= i < |msgs| ==> msgs[i].stage != Granted
    ensures AllOk(msgs) && b.bytes[..b.size] == EncodeAll(msgs)
  {
    PackedAllOk(b, msgs);
    PrefixEncoded(b, msgs, |msgs|);
    assert msgs[..|msgs|] == msgs;
  }

  lemma {:induction false} EncodeConcat(a: seq<Msg>, c: seq<Msg>)
    requires AllOk(a) && AllOk(c)
    ensures AllOk(a + c) && EncodeAll(a + c) == EncodeAll(a) + EncodeAll(c)
  {
    if c == [] {
      assert a + c == a;
    } else {
      var last := |c| - 1;
      EncodeConcat(a, c[..last]);
      assert (a + c)[..|a + c| - 1] == a + c[..last];
    }
  }

  // ---------------------------------------------------------------- the walk

  /** The offsets that the loop of queuePop visits, from `p` on. */
  function Walk(bytes: seq<Byte>, size: nat, p: nat): seq<nat>
    requires size <= |bytes|
    decreases size - p
  {
    if p + HEADER >= size then [] else [p] + Walk(bytes, size, p + LowWord(bytes, p) + HEADER)
  }

  function Offsets(msgs: seq<Msg>): (offs: seq<nat>)
    ensures |offs| == |msgs|
  {
    seq(|msgs|, i requires 0 <= i < |msgs| => msgs[i].off)
  }

  /** One round of the walk: it is on a message, and goes to the next one. */
  lemma WalkRound(b: Segment, msgs: seq<Msg>, n: nat)
    requires Packed(b, msgs) && n < |msgs| && msgs[n].stage != Granted
    ensures Walk(b.bytes, b.size, Off(b, msgs, n)) == [msgs[n].off] + Walk(b.bytes, b.size, Off(b, msgs, n + 1))
  {
    MessageFits(b, msgs, n);
    HeaderReads(b, msgs, n);
  }

  lemma OffsetsStep(msgs: seq<Msg>, n: nat)
    requires n < |msgs|
    ensures Offsets(msgs)[n..] == [msgs[n].off] + Offsets(msgs)[n + 1..]
  {
  }

  lemma WalkEnds(b: Segment, msgs: seq<Msg>)
    requires Packed(b, msgs)
    ensures Walk(b.bytes, b.size, Off(b, msgs, |msgs|)) == []
  {
  }

  lemma {:induction false} WalkFrom(b: Segment, msgs: seq<Msg>, n: nat)
    requires Packed(b, msgs) && n <= |msgs|
    requires forall i :: 0 <= i < |msgs| ==> msgs[i].stage != Granted
    ensures Walk(b.bytes, b.size, Off(b, msgs, n)) == Offsets(msgs)[n..]
    decreases |msgs| - n
  {
    if n < |msgs| {
      WalkRound(b, msgs, n);
      WalkFrom(b, msgs, n + 1);
      OffsetsStep(msgs, n);
    } else {
      WalkEnds(b, msgs);
    }
  }

  /** The walk visits exactly the messages that were packed, in packing order. */
  lemma WalkVisitsMessages(b: Segment, msgs: seq<Msg>)
    requires Packed(b, msgs)
    requires forall i :: 0 <= i < |msgs| ==> msgs[i].stage != Granted
    ensures Walk(b.bytes, b.size, 0) == Offsets(msgs)
  {
    WalkFrom(b, msgs, 0);
  }

  // ---------------------------------------------------------------- the loop that writes the counters

  /** The bytes after the loop of queuePop has run from `p` on, with the counter starting at `ctr`. */
  function StampAll(bytes: seq<Byte>, size: nat, p: nat, ctr: nat): (r: seq<Byte>)
    requires size <= |bytes| && ctr < 0x10000
    ensures |r| == |bytes|
    decreases size - p
  {
    if p + HEADER >= size then bytes
    else
      var dlc := LowWord(bytes, p);
      StampAll(Splice(bytes, p, Word(dlc, ctr)), size, p + dlc + HEADER, Inc16(ctr))
  }

  /** The messages from number `n` on, stamped with consecutive counters. */
  function StampMsgs(msgs: seq<Msg>, n: nat, ctr: nat): (r: seq<Msg>)
    ensures |r| == |msgs|
  {
    seq(|msgs|, i requires 0 <= i < |msgs| =>
      if i < n then msgs[i] else msgs[i].(stage := Stamped, ctr := (ctr + (i - n)) % 0x10000))
  }

  lemma StampMsgsStep(msgs: seq<Msg>, n: nat, ctr: nat)
    requires n < |msgs| && ctr < 0x10000
    ensures StampMsgs(msgs[n := msgs[n].(stage := Stamped, ctr := ctr)], n + 1, Inc16(ctr)) == StampMsgs(msgs, n, ctr)
  {
    var left, right := StampMsgs(msgs[n := msgs[n].(stage := Stamped, ctr := ctr)], n + 1, Inc16(ctr)),
      StampMsgs(msgs, n, ctr);
    forall i | 0 <= i < |msgs|
      ensures left[i] == right[i]
    {
    }
  }

  lemma StampHeader(b: Segment, msgs: seq<Msg>, n: nat)
    requires Packed(b, msgs) && n < |msgs| && msgs[n].stage == Committed
    ensures msgs[n].off + HEADER < b.size <= |b.bytes| && LowWord(b.bytes, msgs[n].off) == msgs[n].dlc < 0x10000
  {
    MessageFits(b, msgs, n);
    HeaderReads(b, msgs, n);
  }

  lemma StampRound(b: Segment, msgs: seq<Msg>, n: nat, ctr: nat)
    requires Packed(b, msgs) && n < |msgs| && msgs[n].stage == Committed && ctr < 0x10000
    ensures msgs[n].off + HEADER < |b.bytes| && msgs[n].dlc < 0x10000
    ensures var bytes' := Splice(b.bytes, msgs[n].off, Word(msgs[n].dlc, ctr));
      Packed(b.(bytes := bytes'), msgs[n := msgs[n].(stage := Stamped, ctr := ctr)])
  {
    StampHeader(b, msgs, n);
    HeaderPacked(b, msgs, n, Stamped, ctr);
  }

  lemma StampOnce(bytes: seq<Byte>, size: nat, p: nat, dlc: nat, ctr: nat)
    requires size <= |bytes| && ctr < 0x10000 && p + HEADER < size && LowWord(bytes, p) == dlc < 0x10000
    ensures StampAll(bytes, size, p, ctr) ==
      StampAll(Splice(bytes, p, Word(dlc, ctr)), size, p + dlc + HEADER, Inc16(ctr))
  {
  }

  lemma NextOff(b: Segment, msgs: seq<Msg>, n: nat, bytes: seq<Byte>, m: Msg)
    requires Packed(b, msgs) && n < |msgs|
    ensures Off(b.(bytes := bytes), msgs[n := m], n + 1) == msgs[n].off + msgs[n].dlc + HEADER
  {
    MessageFits(b, msgs, n);
  }

  lemma StampUnfolds(b: Segment, msgs: seq<Msg>, n: nat, ctr: nat)
    requires Packed(b, msgs) && n < |msgs| && msgs[n].stage == Committed && ctr < 0x10000
    ensures msgs[n].off + HEADER < |b.bytes| && msgs[n].dlc < 0x10000
    ensures var bytes' := Splice(b.bytes, msgs[n].off, Word(msgs[n].dlc, ctr));
      var msgs' := msgs[n := msgs[n].(stage := Stamped, ctr := ctr)];
      StampAll(b.bytes, b.size, Off(b, msgs, n), ctr) ==
        StampAll(bytes', b.size, Off(b.(bytes := bytes'), msgs', n + 1), Inc16(ctr))
  {
    StampHeader(b, msgs, n);
    NextOff(b, msgs, n, Splice(b.bytes, msgs[n].off, Word(msgs[n].dlc, ctr)), msgs[n].(stage := Stamped, ctr := ctr));
    StampOnce(b.bytes, b.size, msgs[n].off, msgs[n].dlc, ctr);
  }

  /** On committed messages the loop stamps each one once, with consecutive counters, and changes nothing else. */
  lemma {:induction false} StampAllPacked(b: Segment, msgs: seq<Msg>, n: nat, ctr: nat)
    requires Packed(b, msgs) && n <= |msgs| && ctr < 0x10000
    requires forall i :: n <= i < |msgs| ==> msgs[i].stage == Committed
    ensures Packed(b.(bytes := StampAll(b.bytes, b.size, Off(b, msgs, n), ctr)), StampMsgs(msgs, n, ctr))
    decreases |msgs| - n
  {
    if n < |msgs| {
      var b' := b.(bytes := Splice(b.bytes, msgs[n].off, Word(msgs[n].dlc, ctr)));
      var msgs' := msgs[n := msgs[n].(stage := Stamped, ctr := ctr)];
      StampRound(b, msgs, n, ctr);
      StampUnfolds(b, msgs, n, ctr);
      StampMsgsStep(msgs, n, ctr);
      StampAllPacked(b', msgs', n + 1, Inc16(ctr));
    } else {
      assert StampMsgs(msgs, n, ctr) == msgs;
    }
  }

  /** So the datagram is the concatenation of the committed messages with consecutive counters. */
  lemma DatagramEncoded(b: Segment, msgs: seq<Msg>, ctr: nat)
    requires Packed(b, msgs) && ctr < 0x10000
    requires forall i :: 0 <= i < |msgs| ==> msgs[i].stage == Committed
    ensures AllOk(StampMsgs(msgs, 0, ctr))
    ensures StampAll(b.bytes, b.size, 0, ctr)[..b.size] == EncodeAll(StampMsgs(msgs, 0, ctr))
  {
    StampAllPacked(b, msgs, 0, ctr);
    SegmentEncoded(b.(bytes := StampAll(b.bytes, b.size, 0, ctr)), StampMsgs(msgs, 0, ctr));
  }
}
