/** The persistence functions on the event and segment lists and the file, record by record. */
module BinStore {
  import opened BinFile
  import opened BinFormat
  import opened BinLayout
  import opened Bytes

  class Store {
    const limits: Limits
    var events: seq<Event>
    var segs: seq<Seg>
    var memorySegments: nat
    var poolUsed: nat
    /** The content of the file on disk. */
    var file: seq<Byte>

    function View(): Registry
      reads this
    {
      Registry(events, segs, memorySegments, poolUsed)
    }

    constructor (l: Limits, content: seq<Byte>)
      ensures limits == l && View() == EMPTY && file == content
    {
      limits, file := l, content;
      events, segs, memorySegments, poolUsed := [], [], 0, 0;
    }

    /** writeCalseg: descriptor and default page; the position of the descriptor is kept in the segment. */
    method WriteSeg(i: nat)
      requires i < |segs| <= 0xFFFF && SegOk(segs[i])
      modifies this`segs, this`file
      ensures file == old(file) + SegBytes(i, old(segs[i]))
      ensures segs == old(segs)[i := old(segs[i]).(filePos := Low32(|old(file)|))]
    {
      var s := segs[i];
      var descPos := Low32(|file|);
      file := file + SegRecord(Describe(i, s));
      segs := segs[i := s.(filePos := descPos)];
      file := file + s.page;
    }

    /** The loop of XcpBinWrite over the events. */
    method WriteEvents()
      requires EventsOk(events)
      modifies this`file
      ensures file == old(file) + EventsBytes(events)
    {
      ghost var front := file;
      for i := 0 to |events|
        invariant file == front + EventsBytes(events[..i])
      {
        assert EventOk(events[i]);
        assert events[..i + 1][..i] == events[..i];
        file := file + EventRecord(i, events[i]);
      }
      assert events[..|events|] == events;
    }

    /** One pass of the loop over the segments; `r` is the state before the loop. */
    method WriteNext(i: nat, ghost r: Registry, ghost front: seq<Byte>)
      requires Writable(r) && i < |r.segs| && segs == PartlyPositioned(r, i)
      requires file == front + SegsBytes(r.segs[..i]) && |front| == RECORD + RECORD * |r.events|
      modifies this`segs, this`file
      ensures segs == PartlyPositioned(r, i + 1) && file == front + SegsBytes(r.segs[..i + 1])
    {
      SegsBytesStep(r.segs, i);
      PositionedStep(r, i);
      assert |file| == SegPos(r, i);
      WriteSeg(i);
    }

    /** The loop of XcpBinWrite over the segments. */
    method WriteSegs()
      requires SegsOk(segs)
      requires |file| == RECORD + RECORD * |events| && EventsOk(events)
      modifies this`segs, this`file
      ensures file == old(file) + SegsBytes(old(segs)) && segs == Positioned(old(View())).segs
    {
      ghost var r, front := View(), file;
      assert r.segs[..0] == [];
      for i := 0 to |segs|
        invariant |segs| == |r.segs| && segs == PartlyPositioned(r, i)
        invariant file == front + SegsBytes(r.segs[..i])
      {
        WriteNext(i, r, front);
      }
      assert r.segs[..|r.segs|] == r.segs;
    }

    /** XcpBinWrite: the file holds exactly the current lists, and every segment knows its position. */
    method Write(epk: seq<Byte>)
      requires |epk| <= MAX_EPK && Writable(View())
      modifies this`segs, this`file
      ensures file == FileBytes(epk, old(View())) && View() == Positioned(old(View()))
    {
      file := HeaderRecord(epk, |events|, |segs|);
      WriteEvents();
      WriteSegs();
    }

    /** XcpBinFreezeCalSeg: overwrite the page of one segment in the file with its ECU page. */
    method Freeze(i: nat, ecuPage: seq<Byte>) returns (ok: bool)
      requires i < |segs| ==> |ecuPage| == |segs[i].page| && segs[i].filePos + RECORD + |ecuPage| <= |file|
      modifies this`file
      ensures ok <==> i < |segs|
      ensures !ok ==> file == old(file)
      ensures ok ==> file == Splice(old(file), segs[i].filePos + RECORD, ecuPage)
    {
      ok := i < |segs|;
      if ok {
        file := Splice(file, segs[i].filePos + RECORD, ecuPage);
      }
    }

    /** The loop of load over the events. */
    method ReadEvents(n: nat) returns (ok: bool)
      modifies this`events
      ensures ok <==> LoadEvents(file, RECORD, n, old(View()), limits).Some?
      ensures ok ==> LoadEvents(file, RECORD, n, old(View()), limits) == Some(View())
    {
      var pos := RECORD;
      for i := 0 to n
        invariant pos == RECORD + RECORD * i
        invariant LoadEvents(file, pos, n - i, View(), limits) == LoadEvents(file, RECORD, n, old(View()), limits)
      {
        if pos + RECORD > |file| {
          return false;
        }
        var d := ReadEvent(file[pos..pos + RECORD]);
        var created := CreateEvent(View(), d.event, limits);
        if created.None? || d.id != |events| {
          return false;
        }
        events := created.value.events;
        pos := pos + RECORD;
      }
      ok := true;
    }

    /** One pass of that loop. */
    method ReadOneSeg(pos: nat) returns (ok: bool, next: nat)
      modifies this`events, this`segs, this`memorySegments, this`poolUsed
      ensures ok <==> LoadSeg(file, pos, old(View()), limits).Some?
      ensures ok ==> LoadSeg(file, pos, old(View()), limits) == Some((View(), next))
    {
      next := pos + RECORD;
      if next > |file| {
        return false, pos;
      }
      var d := ReadSeg(file[pos..next]);
      if next + d.size > |file| {
        return false, pos;
      }
      var created := CreateSeg(View(), d.name, file[next..next + d.size], d.number != NO_NUMBER, Low32(pos), limits);
      if created.None? || d.index != |segs| || created.value.segs[|segs|].number != d.number {
        return false, pos;
      }
      var r := created.value;
      events, segs, memorySegments, poolUsed := r.events, r.segs, r.memorySegments, r.poolUsed;
      return true, next + d.size;
    }

    /** The loop of load over the segments. */
    method ReadSegs(start: nat, n: nat) returns (ok: bool)
      modifies this`events, this`segs, this`memorySegments, this`poolUsed
      ensures ok <==> LoadSegs(file, start, n, old(View()), limits).Some?
      ensures ok ==> LoadSegs(file, start, n, old(View()), limits) == Some(View())
    {
      ok := true;
      var pos := start;
      for i := 0 to n
        invariant LoadSegs(file, pos, n - i, View(), limits) == LoadSegs(file, start, n, old(View()), limits)
      {
        ok, pos := ReadOneSeg(pos);
        if !ok {
          return;
        }
      }
      ok := true;
    }

    /** Both loops of load, which refuses lists that are not empty. */
    method ReadLists(m: nat, n: nat) returns (ok: bool)
      requires segs == [] ==> memorySegments == 0 && poolUsed == 0
      modifies this`events, this`segs, this`memorySegments, this`poolUsed
      ensures ok <==> old(events) == [] && old(segs) == [] && LoadLists(file, m, n, limits).Some?
      ensures ok ==> LoadLists(file, m, n, limits) == Some(View())
    {
      if |events| != 0 {
        return false;
      }
      ok := ReadEvents(m);
      if ok {
        ok := ReadFirstSegs(RECORD + RECORD * m, n);
      }
    }

    /** The second loop, into an empty list. */
    method ReadFirstSegs(start: nat, n: nat) returns (ok: bool)
      modifies this`events, this`segs, this`memorySegments, this`poolUsed
      ensures ok <==> old(segs) == [] && LoadSegs(file, start, n, old(View()), limits).Some?
      ensures ok ==> LoadSegs(file, start, n, old(View()), limits) == Some(View())
    {
      if |segs| != 0 {
        return false;
      }
      ok := ReadSegs(start, n);
    }

    /** load: header checks, then both lists. */
    method LoadFile(epk: BinFile.Option<seq<Byte>>) returns (ok: bool)
      requires segs == [] ==> memorySegments == 0 && poolUsed == 0
      modifies this`events, this`segs, this`memorySegments, this`poolUsed
      ensures ok <==> old(events) == [] && old(segs) == [] && Load(file, epk, limits).Some?
      ensures ok ==> Load(file, epk, limits) == Some(View())
    {
      if |file| < RECORD {
        return false;
      }
      var h := ReadHeader(file[..RECORD]);
      if !HeaderAccepted(h, epk) {
        return false;
      }
      ok := ReadLists(h.events, h.segs);
    }
  }
}
