/** The capture ring writer: canring/ring.go, Writer.  Each method is one or two steps of the ring
    state machine, so everything proved of the machine's runs holds of the object.  The writer also keeps the
    ledger of the frames it has accepted. */
module CaptureRingWriter {
  import opened CaptureRing
  import opened CaptureRingReader
  import opened CaptureRingFrames
  import opened CaptureRingResume
  import opened Wrappers
  import opened Wrapping

  class Writer {
    var disk: Disk
    var geometry: Geometry
    var nextChunk: nat
    var totalChunks: nat
    var totalRecords: nat
    var generation: nat
    var buffer: seq<Record>
    var closed: bool
    ghost var phase: Phase
    ghost var log: seq<seq<Record>>
    ghost var base: nat
    ghost var ledger: Ledger

    /** All frames accepted and not lost: those committed, and behind them those buffered. */
    ghost function Frames(): seq<Frame>
      reads this
    {
      ledger.committed + ledger.pending
    }

    ghost function State(): Ring
      reads this
    {
      var memory := Memory(geometry, nextChunk, totalChunks, totalRecords, generation, buffer);
      Ring(disk, if closed then None else Some(memory), phase, log, base)
    }

    ghost predicate Valid()
      reads this
    {
      && Inv(State()) && phase.Ready? && Agrees(State(), ledger)
      && (!closed ==> ValidGeometry(geometry) && |buffer| < MaxRecords(geometry))
    }

    /** Opens the file; a fresh or differently shaped ring is initialised with a new header. */
    constructor (file: Disk, g: Geometry, ghost history: seq<seq<Record>>, ghost cleared: nat, ghost known: Ledger)
      requires ValidGeometry(g) && Inv(Ring(file, None, Ready, history, cleared))
      requires Agrees(Ring(file, None, Ready, history, cleared), known)
      ensures Valid() && !closed && buffer == []
      ensures Frames() ==
              if Latest(file.supers).Some? && Latest(file.supers).value.geometry == g then known.committed else []
      ensures var s := Open(Ring(file, None, Ready, history, cleared), g);
              State() == if s.phase.InitDue? then WriteHeader(s) else s
    {
      ghost var s := Open(Ring(file, None, Ready, history, cleared), g);
      OpenKeeps(Ring(file, None, Ready, history, cleared), g);
      var latest := Latest(file.supers);
      geometry, buffer, closed := g, [], false;
      log, base, phase := history, s.base, s.phase;
      ledger := known.After(Opened(s.phase.InitDue?));
      OpenAgrees(Ring(file, None, Ready, history, cleared), known, g);
      if latest.Some? && latest.value.geometry == g {
        disk := if file.geometry == g then file else file.(geometry := g, chunks := Blank(g));
        nextChunk := latest.value.nextChunk % g.chunkCount;
        ModIsRemainder(latest.value.nextChunk, g.chunkCount);
        totalChunks, totalRecords := latest.value.totalChunks, latest.value.totalRecords;
        generation := latest.value.generation;
      } else {
        disk := file.(geometry := g, chunks := Blank(g));
        nextChunk, totalChunks, totalRecords := 0, 0, 0;
        generation := if latest.Some? then latest.value.generation else 0;
      }
      new;
      if !(latest.Some? && latest.value.geometry == g) {
        WriteHeaderKeeps(State());
        HeaderAgrees(State(), ledger);
        CommitHeader();
      }
    }

    /** writeHeader: the next generation goes to the slot of its parity. */
    method CommitHeader()
      requires !closed && !phase.Ready?
      modifies this
      ensures State() == WriteHeader(old(State())) && ledger == old(ledger).Counted()
      ensures geometry == old(geometry) && buffer == old(buffer) && !closed
    {
      ghost var next := WriteHeader(State());
      var h := Header(generation + 1, geometry, nextChunk, totalChunks, totalRecords);
      disk, generation := disk.(supers := disk.supers[(generation + 1) % 2 := Slot.Valid(h)]), generation + 1;
      log, base, phase, ledger := next.log, next.base, Ready, ledger.Counted();
      assert State() == next;
    }

    /** The chunk write of flushChunk. */
    method StoreChunk()
      requires Inv(State()) && !closed && phase.Ready? && buffer != []
      modifies this
      ensures State() == WriteChunk(old(State())) && ledger == old(ledger).Stored()
      ensures geometry == old(geometry) && buffer == [] && !closed && phase.HeaderDue?
    {
      ModIsRemainder(nextChunk + 1, geometry.chunkCount);
      var chunk := Chunk(totalChunks, totalRecords - |buffer|, buffer);
      disk, nextChunk, totalChunks, buffer, phase :=
        disk.(chunks := disk.chunks[nextChunk := Slot.Valid(chunk)]), (nextChunk + 1) % geometry.chunkCount,
        totalChunks + 1, [], HeaderDue;
      ledger := ledger.Stored();
    }

    /** flushChunk: the chunk first, then the header that makes it count. */
    method FlushChunk()
      requires Inv(State()) && !closed && phase.Ready? && buffer != [] && Agrees(State(), ledger)
      modifies this
      ensures State() == WriteHeader(WriteChunk(old(State())))
      ensures Agrees(State(), ledger) && Frames() == old(Frames()) && ledger.pending == []
      ensures Inv(State()) && geometry == old(geometry) && buffer == [] && !closed
    {
      ghost var written := WriteChunk(State());
      assert Inv(written) by { WriteChunkKeeps(State()); }
      assert Inv(WriteHeader(written)) by { WriteHeaderKeeps(written); }
      FlushAgrees(State(), ledger);
      StoreChunk();
      CommitHeader();
    }

    /** Append: refused when closed or when the frame is no classic CAN frame; otherwise exactly this frame comes behind
        those accepted before. */
    method AppendFrame(f: Frame) returns (accepted: bool)
      requires Valid()
      modifies this
      ensures Valid()
      ensures accepted <==> !old(closed) && f.dlc <= 8
      ensures accepted ==> !closed && geometry == old(geometry)
      ensures !accepted ==> State() == old(State())
      ensures Frames() == if accepted then old(Frames()) + [f] else old(Frames())
      ensures accepted ==>
                var s := Append(old(State()), f);
                State() == if |s.memory.value.buffer| >= MaxRecords(geometry) then WriteHeader(WriteChunk(s)) else s
    {
      if closed || f.dlc > 8 {
        return false;
      }
      ghost var next := Append(State(), f);
      assert Inv(next) by { AppendKeeps(State(), f); }
      assert Agrees(next, ledger.After(Accepted(f))) by { AcceptAgrees(State(), ledger, f); }
      buffer, totalRecords := buffer + [Record(totalRecords, f)], totalRecords + 1;
      ledger := ledger.(pending := ledger.pending + [f]);
      assert Frames() == old(Frames()) + [f];
      assert State() == next;
      if |buffer| >= MaxRecords(geometry) {
        FlushChunk();
      }
      return true;
    }

    method Close()
      requires Valid()
      modifies this
      ensures Valid() && closed && ledger.pending == [] && Frames() == old(Frames())
      ensures var s := old(State());
              State() == if s.memory.None? then s
                         else Halt(if s.memory.value.buffer == [] then s else WriteHeader(WriteChunk(s)))
    {
      if closed {
        return;
      }
      if buffer != [] {
        FlushChunk();
      }
      HaltKeeps(State());
      closed := true;
    }

    /** As long as no chunk has been overwritten, a closed file gives back every frame accepted, in order. */
    lemma GivesAllBack()
      requires Valid() && closed && Latest(disk.supers).Some? && base == 0 && |log| < |disk.chunks|
      ensures FramesOf(Snapshot(disk, 0).value) == Frames()
    {
      FullSnapshotFrames(State(), ledger);
      assert ledger.committed[0..] + [] == ledger.committed == Frames();
    }

    /** What a reader gets from the file at any moment between two calls: under every number the frame accepted under
        it. */
    lemma Recorded(limit: int)
      requires Valid() && Latest(disk.supers).Some?
      ensures forall r :: r in Snapshot(disk, limit).value ==>
                r.seqNo < |ledger.committed + ledger.written| && r.frame == (ledger.committed + ledger.written)[r.seqNo]
    {
      forall r | r in Snapshot(disk, limit).value
        ensures r.seqNo < |ledger.committed + ledger.written| && r.frame == (ledger.committed + ledger.written)[r.seqNo]
      {
        ReadFromChunks(disk, Latest(disk.supers).value, limit, r);
        NothingLost(State());
        ChunkShowsLedger(State(), State(), {}, ledger, Latest(disk.supers).value, r);
      }
    }
  }

  lemma HeaderAgrees(s: Ring, l: Ledger)
    requires Inv(s) && Agrees(s, l) && CanWriteHeader(s)
    ensures Agrees(WriteHeader(s), l.Counted())
  {
    NothingLost(s);
    CommitAgrees(s, s, {}, l);
  }

  lemma FlushAgrees(s: Ring, l: Ledger)
    requires Inv(s) && Agrees(s, l) && CanWriteChunk(s)
    ensures Agrees(WriteHeader(WriteChunk(s)), l.Stored().Counted())
  {
    NothingLost(s);
    StoreAgrees(s, s, {}, l);
    WriteChunkKeeps(s);
    HeaderAgrees(WriteChunk(s), l.Stored());
  }
}
