/** Which frames a snapshot shows: canring/ring.go, Writer.Append to Reader.Snapshot.

    A ledger is kept of the frames the writer has accepted, from the events of a run alone: it knows nothing of records,
    chunks and slots.  Every record a reader ever gets carries the frame that the ledger has under its number.
  */
module CaptureRingFrames {
  import opened CaptureRing
  import opened CaptureRingReader
  import opened CaptureRingLoss
  import opened CaptureRingResize
  import opened CaptureRingResume
  import opened Sequences
  import opened Wrappers
  import opened Wrapping

  // ---------- The ledger ----------

  /** What happens in a step; `anew` says that the ring starts empty, `chunk` and `header` what reached the disk
      before the process died. */
  datatype Event =
    | Opened(anew: bool)
    | Accepted(frame: Frame)
    | ChunkStored
    | HeaderStored
    | Closed
    | Died(chunk: bool, header: bool)
    | Cut

  /** The frames that count, those of the last chunk stored, and those accepted since. */
  datatype Ledger = Ledger(committed: seq<Frame>, written: seq<Frame>, pending: seq<Frame>, anew: bool) {

    function Stored(): Ledger {
      this.(written := pending, pending := [])
    }

    function Counted(): Ledger {
      if anew then Ledger([], [], [], false) else this.(committed := committed + written, written := [])
    }

    function After(e: Event): Ledger {
      match e
      case Opened(a) => this.(pending := [], anew := a)
      case Accepted(f) => this.(pending := pending + [f])
      case ChunkStored => Stored()
      case HeaderStored => Counted()
      case Closed => this
      case Died(chunk, header) =>
        (if chunk then Stored() else if header then Counted() else this).(pending := [], anew := false)
      case Cut => this
    }
  }

  const NoFrames: Ledger := Ledger([], [], [], false)

  function LedgerAt(events: seq<Event>, n: nat): Ledger
    requires n <= |events|
  {
    if n == 0 then NoFrames else LedgerAt(events, n - 1).After(events[n - 1])
  }

  // ---------- Runs with their events ----------

  ghost predicate StepBy(x: Ring, e: Event, y: Ring) {
    match e
    case Opened(anew) =>
      x.memory.None? && ValidGeometry(y.disk.geometry) && y == Open(x, y.disk.geometry) && anew == y.phase.InitDue?
    case Accepted(f) => CanAppend(x) && y == Append(x, f)
    case ChunkStored => CanWriteChunk(x) && y == WriteChunk(x)
    case HeaderStored => CanWriteHeader(x) && y == WriteHeader(x)
    case Closed => CanClose(x) && y == Halt(x)
    case Died(chunk, header) =>
      && x.memory.Some? && !(chunk && header)
      && if chunk then CanWriteChunk(x) && y == Halt(x).(disk := WriteChunk(x).disk)
         else if header then CanWriteHeader(x) && y == Halt(WriteHeader(x))
         else
           || y == Halt(x)
           || (CanWriteChunk(x) &&
               y == Halt(x).(disk := x.disk.(chunks := x.disk.chunks[x.memory.value.nextChunk := Invalid])))
           || (CanWriteHeader(x) && y == Halt(SetSuper(x, Invalid)))
    case Cut => Interrupted(x, y)
  }

  ghost predicate StepAt(states: seq<Ring>, events: seq<Event>, i: nat)
    requires i + 1 < |states| && i < |events|
  {
    StepBy(states[i], events[i], states[i + 1])
  }

  /** A run with the event of every step. */
  ghost predicate EventRun(states: seq<Ring>, events: seq<Event>) {
    && |states| == |events| + 1 && Initial(states[0])
    && forall i {:trigger StepAt(states, events, i)} :: 0 <= i < |events| ==> StepAt(states, events, i)
  }

  /** Events add nothing to runs: every step has one. */
  lemma StepHasEvent(x: Ring, y: Ring)
    ensures Next(x, y) || Interrupted(x, y) <==> exists e :: StepBy(x, e, y)
  {
    if Next(x, y) {
      var e :=
        if x.memory.None? then Opened(y.phase.InitDue?)
        else if y.memory.Some? then
          if CanWriteHeader(x) && y == WriteHeader(x) then HeaderStored
          else if CanWriteChunk(x) && y == WriteChunk(x) then ChunkStored
          else Accepted(y.memory.value.buffer[|y.memory.value.buffer| - 1].frame)
        else if CanWriteChunk(x) && y == Halt(x).(disk := WriteChunk(x).disk) then Died(true, false)
        else Died(false, CanWriteHeader(x) && y == Halt(WriteHeader(x)));
      assert StepBy(x, e, y);
    }
    if Interrupted(x, y) { assert StepBy(x, Cut, y); }
    if e :| StepBy(x, e, y) {
      if e.Accepted? {
        var b := y.memory.value.buffer;
        assert b[|b| - 1] == Record(x.memory.value.totalRecords, e.frame);
      }
    }
  }

  lemma EventRunIsHard(states: seq<Ring>, events: seq<Event>)
    requires EventRun(states, events)
    ensures HardRun(states)
  {
    forall i | 0 <= i < |states| - 1 ensures HardStep(states, i) {
      assert StepAt(states, events, i);
      StepHasEvent(states[i], states[i + 1]);
    }
  }

  // ---------- Ring and ledger agree ----------

  function FramesOf(rs: seq<Record>): (fs: seq<Frame>)
    ensures |fs| == |rs|
  {
    seq(|rs|, i requires 0 <= i < |rs| => rs[i].frame)
  }

  lemma FramesConcat(a: seq<Record>, b: seq<Record>)
    ensures FramesOf(a + b) == FramesOf(a) + FramesOf(b)
  {
  }

  /** All committed records. */
  function AllRecords(log: seq<seq<Record>>): seq<Record> {
    Join(log, 0, |log|)
  }

  lemma {:induction false} JoinPrefix(log: seq<seq<Record>>, rs: seq<Record>, a: nat, b: nat)
    requires a <= b <= |log|
    ensures Join(log + [rs], a, b) == Join(log, a, b)
    decreases b
  {
    if a < b { JoinPrefix(log, rs, a, b - 1); }
  }

  lemma AllRecordsSnoc(log: seq<seq<Record>>, rs: seq<Record>)
    ensures AllRecords(log + [rs]) == AllRecords(log) + rs
  {
    JoinPrefix(log, rs, 0, |log|);
  }

  /** The chunk that was stored last and has not been committed holds the frames written last. */
  ghost predicate StoredAgrees(x: Ring, l: Ledger) {
    |x.disk.chunks| > 0 ==>
      var slot := x.disk.chunks[Mod(|x.log|, |x.disk.chunks|)];
      slot.Valid? && slot.content.chunkSeq == |x.log| ==> FramesOf(slot.content.records) == l.written
  }

  ghost predicate Agrees(x: Ring, l: Ledger) {
    && FramesOf(AllRecords(x.log)) == l.committed
    && (if x.memory.Some? then FramesOf(x.memory.value.buffer) == l.pending else l.pending == [])
    && (l.anew <==> x.phase.InitDue?)
    && StoredAgrees(x, l)
  }

  lemma AcceptAgrees(x: Ring, l: Ledger, f: Frame)
    requires Agrees(x, l) && CanAppend(x)
    ensures Agrees(Append(x, f), l.After(Accepted(f)))
  {
    var m := x.memory.value;
    FramesConcat(m.buffer, [Record(m.totalRecords, f)]);
  }

  lemma StoreAgrees(x: Ring, s: Ring, lost: set<nat>, l: Ledger)
    requires Shadows(x, s, lost) && Agrees(x, l) && CanWriteChunk(x)
    ensures Agrees(WriteChunk(x), l.Stored())
    ensures Agrees(Halt(x).(disk := WriteChunk(x).disk), l.After(Died(true, false)))
    ensures Agrees(Halt(x).(disk := x.disk.(chunks := x.disk.chunks[x.memory.value.nextChunk := Invalid])),
                   l.After(Died(false, false)))
  {
  }

  /** Committing adds the frames of the chunk stored last, initialising leaves none. */
  lemma CommitAgrees(x: Ring, s: Ring, lost: set<nat>, l: Ledger)
    requires Shadows(x, s, lost) && Agrees(x, l) && CanWriteHeader(x)
    ensures Agrees(WriteHeader(x), l.Counted())
    ensures Agrees(Halt(WriteHeader(x)), l.After(Died(false, true)))
    ensures Agrees(Halt(SetSuper(x, Invalid)), l.After(Died(false, false)))
  {
    if x.phase.HeaderDue? {
      var c := x.disk.chunks[Mod(|x.log|, |x.disk.chunks|)].content;
      AllRecordsSnoc(x.log, c.records);
      FramesConcat(AllRecords(x.log), c.records);
      NothingAhead(x, s, lost, |x.log| + 1);
    } else {
      NothingAhead(x, s, lost, 0);
    }
  }

  /** No slot holds a chunk of a number yet to come. */
  lemma NothingAhead(x: Ring, s: Ring, lost: set<nat>, c: nat)
    requires Shadows(x, s, lost) && (c > |x.log| || x.phase.InitDue?) && |x.disk.chunks| > 0
    ensures var slot := x.disk.chunks[Mod(c, |x.disk.chunks|)]; slot.Valid? ==> slot.content.chunkSeq != c
  {
    var i, n := Mod(c, |x.disk.chunks|), |x.disk.chunks|;
    var h := Latest(s.disk.supers);
    if x.disk.chunks[i].Valid? && h.Some? && h.value.geometry == s.disk.geometry {
      assert SlotOk(s.disk.chunks[i].content, i, s.log, s.base, n);
    }
  }

  lemma OpenAgrees(x: Ring, l: Ledger, g: Geometry)
    requires Agrees(x, l) && x.memory.None? && ValidGeometry(g)
    ensures Agrees(Open(x, g), l.After(Opened(Open(x, g).phase.InitDue?)))
  {
    var y := Open(x, g);
    assert y.disk == x.disk || y.disk.chunks == Blank(g);
  }

  lemma StepAgrees(x: Ring, s: Ring, lost: set<nat>, e: Event, y: Ring, l: Ledger)
    requires Shadows(x, s, lost) && Agrees(x, l) && StepBy(x, e, y)
    ensures Agrees(y, l.After(e))
  {
    match e
    case Opened(_) => OpenAgrees(x, l, y.disk.geometry);
    case Accepted(f) => AcceptAgrees(x, l, f);
    case ChunkStored => StoreAgrees(x, s, lost, l);
    case HeaderStored => CommitAgrees(x, s, lost, l);
    case Closed =>
    case Died(_, _) =>
      if CanWriteChunk(x) { StoreAgrees(x, s, lost, l); } else if CanWriteHeader(x) { CommitAgrees(x, s, lost, l); }
    case Cut =>
  }

  /** In every state of every run, with any crashes and interrupted resizes, ring and ledger agree. */
  lemma {:induction false} RunAgrees(states: seq<Ring>, events: seq<Event>, i: nat)
    requires EventRun(states, events) && i < |states|
    ensures Agrees(states[i], LedgerAt(events, i))
  {
    if i > 0 {
      RunAgrees(states, events, i - 1);
      EventRunIsHard(states, events);
      var s, lost := RunShadow(states, i - 1);
      assert StepAt(states, events, i - 1);
      StepAgrees(states[i - 1], s, lost, events[i - 1], states[i], LedgerAt(events, i - 1));
    }
  }

  // ---------- What a reader gets ----------

  /** The record is in a chunk that the reader can read. */
  ghost predicate FromChunk(d: Disk, h: Header, r: Record) {
    exists i: nat :: ReadChunk(d, h, i).Valid? && r in ReadChunk(d, h, i).content.records
  }

  ghost predicate AllRead(d: Disk, h: Header, chunks: seq<Chunk>) {
    forall c :: c in chunks ==> exists i: nat :: ReadChunk(d, h, i) == Valid(c)
  }

  lemma {:induction false} RecentRead(d: Disk, h: Header, scanned: nat, records: nat, limit: nat)
    requires scanned <= MaxChunks(h)
    ensures AllRead(d, h, Recent(d, h, scanned, records, limit))
    decreases MaxChunks(h) - scanned
  {
    if scanned < MaxChunks(h) {
      var slot := ReadChunk(d, h, ScanIndex(h, scanned));
      RecentRead(d, h, scanned + 1, if slot.Valid? then records + |slot.content.records| else records, limit);
    }
  }

  lemma {:induction false} FlatHas(chunks: seq<Chunk>, n: nat, r: Record) returns (c: Chunk)
    requires n <= |chunks| && r in FlatTo(chunks, n)
    ensures c in chunks && r in c.records
  {
    if r in chunks[n - 1].records { c := chunks[n - 1]; } else { c := FlatHas(chunks, n - 1, r); }
  }

  /** Whatever the disk holds, a snapshot shows only records of chunks that can be read. */
  lemma ReadFromChunks(d: Disk, h: Header, limit: int, r: Record)
    requires r in Read(d, h, limit)
    ensures FromChunk(d, h, r)
  {
    var chunks := SnapshotChunks(d, h, limit);
    if limit <= 0 {
      CollectMembers(d, h, MaxChunks(h));
    } else {
      RecentRead(d, h, 0, 0, limit);
    }
    assert r in Flat(SortChunks(chunks));
    var c := FlatHas(SortChunks(chunks), |SortChunks(chunks)|, r);
    var i: nat :| ReadChunk(d, h, i) == Valid(c);
  }

  /** The record of number `q` of the log is the one at place `q`. */
  lemma {:induction false} PlaceInLog(log: seq<seq<Record>>, c: nat, j: nat)
    requires LogOk(log) && c < |log| && j < |log[c]|
    ensures log[c][j].seqNo == Count(log, c) + j < |AllRecords(log)|
    ensures AllRecords(log)[Count(log, c) + j] == log[c][j]
    decreases |log|
  {
    assert Filled(ChunkAt(log, c));
    var b := |log| - 1;
    var rest := log[..b];
    assert log == rest + [log[b]];
    ChunksSnoc(rest, log[b]);
    AllRecordsSnoc(rest, log[b]);
    RestOk(log);
    JoinNumbered(rest, 0, b);
    if c < b { PlaceInLog(rest, c, j); }
  }

  lemma RestOk(log: seq<seq<Record>>)
    requires LogOk(log) && log != []
    ensures LogOk(log[..|log| - 1])
  {
    var rest := log[..|log| - 1];
    assert log == rest + [log[|log| - 1]];
    ChunksSnoc(rest, log[|log| - 1]);
    forall c | 0 <= c < |rest| ensures Filled(ChunkAt(rest, c)) { assert Filled(ChunkAt(log, c)); }
  }

  lemma CommittedShows(x: Ring, l: Ledger, c: nat, j: nat)
    requires LogOk(x.log) && Agrees(x, l) && c < |x.log| && j < |x.log[c]|
    ensures var r := x.log[c][j]; r.seqNo < |l.committed| && r.frame == l.committed[r.seqNo]
  {
    PlaceInLog(x.log, c, j);
    assert FramesOf(AllRecords(x.log))[Count(x.log, c) + j] == x.log[c][j].frame;
  }

  lemma StoredShows(x: Ring, l: Ledger, c: Chunk, j: nat)
    requires LogOk(x.log) && FramesOf(AllRecords(x.log)) == l.committed && FramesOf(c.records) == l.written
    requires Follows(c, x.log) && j < |c.records|
    ensures var r, all := c.records[j], l.committed + l.written; r.seqNo < |all| && r.frame == all[r.seqNo]
  {
    JoinNumbered(x.log, 0, |x.log|);
    assert FramesOf(c.records)[j] == c.records[j].frame && c.records[j].seqNo == |l.committed| + j;
  }

  /** A record that can be read carries the frame of its number. */
  lemma ChunkShowsLedger(x: Ring, s: Ring, lost: set<nat>, l: Ledger, h: Header, r: Record)
    requires Shadows(x, s, lost) && Agrees(x, l) && Latest(x.disk.supers) == Some(h) && FromChunk(x.disk, h, r)
    ensures var all := l.committed + l.written; r.seqNo < |all| && r.frame == all[r.seqNo]
  {
    var i: nat :| ReadChunk(x.disk, h, i).Valid? && r in ReadChunk(x.disk, h, i).content.records;
    var c := ReadChunk(x.disk, h, i).content;
    assert SlotOk(s.disk.chunks[i].content, i, s.log, s.base, |s.disk.chunks|);
    var j :| 0 <= j < |c.records| && c.records[j] == r;
    if c.chunkSeq < |x.log| { CommittedShows(x, l, c.chunkSeq, j); } else { StoredShows(x, l, c, j); }
  }

  /** In every state of every run, with any crashes and interrupted resizes, and for every limit: each record of a
      snapshot carries, field by field, the frame that was accepted under its number. */
  lemma SnapshotShowsLedger(states: seq<Ring>, events: seq<Event>, i: nat, limit: int)
    requires EventRun(states, events) && i < |states| && Latest(states[i].disk.supers).Some?
    ensures var l := LedgerAt(events, i);
            forall r :: r in Snapshot(states[i].disk, limit).value ==>
              var all := l.committed + l.written;
              && r.seqNo < |all|
              && r.frame.id == all[r.seqNo].id && r.frame.dlc == all[r.seqNo].dlc
              && r.frame.data == all[r.seqNo].data && r.frame.wallNs == all[r.seqNo].wallNs
              && r.frame.elapsedNs == all[r.seqNo].elapsedNs
  {
    RunAgrees(states, events, i);
    EventRunIsHard(states, events);
    var s, lost := RunShadow(states, i);
    var x, h := states[i], Latest(states[i].disk.supers).value;
    forall r | r in Snapshot(x.disk, limit).value
      ensures var all := LedgerAt(events, i).committed + LedgerAt(events, i).written;
              r.seqNo < |all| && r.frame == all[r.seqNo]
    {
      ReadFromChunks(x.disk, h, limit, r);
      ChunkShowsLedger(x, s, lost, LedgerAt(events, i), h, r);
    }
  }

  // ---------- Nothing is forgotten ----------

  lemma {:induction false} JoinSplit(log: seq<seq<Record>>, a: nat, b: nat)
    requires a <= b <= |log|
    ensures Join(log, 0, b) == Join(log, 0, a) + Join(log, a, b)
    decreases b
  {
    if a < b { JoinSplit(log, a, b - 1); }
  }

  /** The frames of a full snapshot of a ring that has lost no slot: the end of those committed, then those of a chunk
      that was stored but not committed, if it is in view. */
  lemma FullSnapshotFrames(x: Ring, l: Ledger)
    requires Inv(x) && Agrees(x, l) && Latest(x.disk.supers).Some?
    ensures ViewOk(ViewOf(x))
    ensures var v := ViewOf(x);
            var from := Count(x.log, From(v));
            && from <= |l.committed|
            && FramesOf(Snapshot(x.disk, 0).value)
            == l.committed[from..] + if StaleVisible(v) then l.written else []
    ensures var v := ViewOf(x); x.base == 0 && |x.log| < |x.disk.chunks| ==> From(v) == 0 && !StaleVisible(v)
  {
    var v, t := ViewOf(x), |x.log|;
    FullSnapshot(v);
    JoinSplit(x.log, From(v), t);
    JoinNumbered(x.log, 0, From(v));
    JoinNumbered(x.log, From(v), t);
    FramesConcat(Join(x.log, 0, From(v)), Join(x.log, From(v), t));
    FramesConcat(Join(x.log, From(v), t), StaleRecords(v));
    if StaleVisible(v) { OldestIs(v); }
  }
}
