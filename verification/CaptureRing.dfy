/** The CAN capture ring file as a crash-prone state machine: canring/ring.go.

    The file is two superblock slots and a fixed number of chunk slots, each
    either valid with some content or invalid.  A write that the process does not
    survive leaves its slot old, new or invalid, and writes take effect in program order.
  */
module CaptureRing {
  import opened Wrappers
  import opened Wrapping

  const SUPERBLOCK_BYTES := 2 * 4096
  const MIN_CHUNK_BYTES := 64 * 1024
  const CHUNK_HEADER_BYTES := 64
  const RECORD_BYTES := 48

  datatype Frame = Frame(id: nat, dlc: nat, data: seq<nat>, wallNs: int, elapsedNs: int)
  datatype Record = Record(seqNo: nat, frame: Frame)
  datatype Chunk = Chunk(chunkSeq: nat, firstSeq: nat, records: seq<Record>)
  datatype Geometry = Geometry(chunkBytes: nat, chunkCount: nat)
  datatype Header = Header(generation: nat, geometry: Geometry, nextChunk: nat, totalChunks: nat, totalRecords: nat)
  datatype Slot<T> = Valid(content: T) | Invalid
  type Supers = s: seq<Slot<Header>> | |s| == 2 witness [Invalid, Invalid]
  datatype Disk = Disk(supers: Supers, geometry: Geometry, chunks: seq<Slot<Chunk>>)

  /** The writer's fields; the first sequence number of the buffered chunk is totalRecords - |buffer|. */
  datatype Memory = Memory(geometry: Geometry, nextChunk: nat, totalChunks: nat, totalRecords: nat,
                           generation: nat, buffer: seq<Record>)

  datatype Phase = Ready | HeaderDue | InitDue

  /** The file, the writer if one is open, and two history variables: `log` lists the records of every
      committed chunk since the ring was initialised, and chunks below `base` were cleared. */
  datatype Ring = Ring(disk: Disk, memory: Option<Memory>, phase: Phase, log: seq<seq<Record>>, base: nat)

  predicate ValidGeometry(g: Geometry) {
    g.chunkBytes >= MIN_CHUNK_BYTES && g.chunkCount >= 2
  }

  /** The geometry a configuration asks for, or a refusal. */
  function PlanGeometry(sizeBytes: int, chunkBytes: int): (g: Option<Geometry>)
    ensures g.Some? ==> ValidGeometry(g.value) && g.value.chunkBytes == chunkBytes
                        && SUPERBLOCK_BYTES + g.value.chunkCount * chunkBytes <= sizeBytes
                           < SUPERBLOCK_BYTES + (g.value.chunkCount + 1) * chunkBytes
    ensures g.None? <==> chunkBytes < MIN_CHUNK_BYTES || sizeBytes < SUPERBLOCK_BYTES + 2 * chunkBytes
  {
    if sizeBytes <= 0 || chunkBytes < MIN_CHUNK_BYTES then None
    else
      var usable := sizeBytes - SUPERBLOCK_BYTES;
      if usable < chunkBytes * 2 then None
      else
        var n := usable / chunkBytes;
        assert chunkBytes * n <= usable < chunkBytes * n + chunkBytes;
        assert chunkBytes * (2 - n) == chunkBytes * 2 - chunkBytes * n;
        assert n >= 2 by { Multiple(chunkBytes, 2 - n); }
        Some(Geometry(chunkBytes, n))
  }

  /** As many records as fit into a chunk behind its header. */
  function MaxRecords(g: Geometry): (n: nat)
    requires ValidGeometry(g)
    ensures 64 + 48 * n <= g.chunkBytes < 64 + 48 * (n + 1)
  {
    (g.chunkBytes - CHUNK_HEADER_BYTES) / RECORD_BYTES
  }

  // ---------- Superblocks ----------

  /** The valid superblock with the highest generation; the first slot wins a tie. */
  function Latest(supers: Supers): Option<Header> {
    match (supers[0], supers[1])
    case (Valid(a), Valid(b)) => if b.generation > a.generation then Some(b) else Some(a)
    case (Valid(a), Invalid) => Some(a)
    case (Invalid, Valid(b)) => Some(b)
    case (Invalid, Invalid) => None
  }

  method ReadLatestHeader(disk: Disk) returns (best: Option<Header>)
    ensures best == Latest(disk.supers)
  {
    best := None;
    var i := 0;
    while i < 2
      invariant 0 <= i <= 2
      invariant i == 0 ==> best == None
      invariant i == 1 ==> best == if disk.supers[0].Valid? then Some(disk.supers[0].content) else None
      invariant i == 2 ==> best == Latest(disk.supers)
    {
      var slot := disk.supers[i];
      if slot.Valid? && (best.None? || slot.content.generation > best.value.generation) {
        best := Some(slot.content);
      }
      i := i + 1;
    }
  }

  function HeaderFor(m: Memory): Header {
    Header(m.generation + 1, m.geometry, m.nextChunk, m.totalChunks, m.totalRecords)
  }

  // ---------- Steps ----------

  function Blank(g: Geometry): seq<Slot<Chunk>> {
    seq(g.chunkCount, _ => Invalid)
  }

  function BufferedChunk(m: Memory): Chunk
    requires |m.buffer| <= m.totalRecords
  {
    Chunk(m.totalChunks, m.totalRecords - |m.buffer|, m.buffer)
  }

  /** OpenWriter: resume under a matching header, otherwise clear the data region and owe a header. */
  function Open(s: Ring, g: Geometry): Ring {
    match Latest(s.disk.supers)
    case Some(h) =>
      if h.geometry == g && g.chunkCount > 0 then
        s.(disk := if s.disk.geometry == g then s.disk else s.disk.(geometry := g, chunks := Blank(g)),
           memory := Some(Memory(g, Mod(h.nextChunk, g.chunkCount), h.totalChunks, h.totalRecords, h.generation, [])),
           phase := Ready)
      else
        s.(disk := s.disk.(geometry := g, chunks := Blank(g)),
           memory := Some(Memory(g, 0, 0, 0, h.generation, [])), phase := InitDue, base := |s.log|)
    case None =>
      s.(disk := s.disk.(geometry := g, chunks := Blank(g)),
         memory := Some(Memory(g, 0, 0, 0, 0, [])), phase := InitDue, base := |s.log|)
  }

  predicate CanAppend(s: Ring) {
    s.memory.Some? && s.phase.Ready? && ValidGeometry(s.memory.value.geometry)
    && |s.memory.value.buffer| < MaxRecords(s.memory.value.geometry)
  }

  function Append(s: Ring, f: Frame): Ring
    requires CanAppend(s)
  {
    var m := s.memory.value;
    s.(memory := Some(m.(buffer := m.buffer + [Record(m.totalRecords, f)], totalRecords := m.totalRecords + 1)))
  }

  predicate CanWriteChunk(s: Ring) {
    && s.memory.Some? && s.phase.Ready?
    && var m := s.memory.value;
       m.buffer != [] && |m.buffer| <= m.totalRecords && m.nextChunk < |s.disk.chunks| && m.geometry.chunkCount > 0
  }

  function WriteChunk(s: Ring): Ring
    requires CanWriteChunk(s)
  {
    var m := s.memory.value;
    s.(disk := s.disk.(chunks := s.disk.chunks[m.nextChunk := Valid(BufferedChunk(m))]),
       memory := Some(m.(nextChunk := Mod(m.nextChunk + 1, m.geometry.chunkCount),
                         totalChunks := m.totalChunks + 1, buffer := [])),
       phase := HeaderDue)
  }

  predicate CanWriteHeader(s: Ring) {
    s.memory.Some? && !s.phase.Ready?
  }

  /** The history after the header of `s` is committed. */
  function CommittedLog(s: Ring): seq<seq<Record>> {
    if s.phase.InitDue? || s.disk.geometry.chunkCount == 0 || |s.disk.chunks| != s.disk.geometry.chunkCount then []
    else
      match s.disk.chunks[Mod(|s.log|, s.disk.geometry.chunkCount)]
      case Valid(c) => s.log + [c.records]
      case Invalid => s.log
  }

  function SetSuper(s: Ring, slot: Slot<Header>): Ring
    requires CanWriteHeader(s)
  {
    s.(disk := s.disk.(supers := s.disk.supers[(s.memory.value.generation + 1) % 2 := slot]))
  }

  function WriteHeader(s: Ring): Ring
    requires CanWriteHeader(s)
  {
    var m := s.memory.value;
    SetSuper(s, Valid(HeaderFor(m))).(memory := Some(m.(generation := m.generation + 1)), phase := Ready,
      log := CommittedLog(s), base := if s.phase.InitDue? then 0 else s.base)
  }

  predicate CanClose(s: Ring) {
    s.memory.Some? && s.phase.Ready? && s.memory.value.buffer == []
  }

  function Halt(s: Ring): Ring {
    s.(memory := None, phase := Ready)
  }

  /** The process dies, possibly inside a chunk or superblock write. */
  predicate Crash(s: Ring, s': Ring) {
    && s.memory.Some?
    && (|| s' == Halt(s)
        || (CanWriteChunk(s) && s' == Halt(s).(disk := WriteChunk(s).disk))
        || (CanWriteChunk(s)
            && s' == Halt(s).(disk := s.disk.(chunks := s.disk.chunks[s.memory.value.nextChunk := Invalid])))
        || (CanWriteHeader(s) && s' == Halt(WriteHeader(s)))
        || (CanWriteHeader(s) && s' == Halt(SetSuper(s, Invalid))))
  }

  predicate Next(s: Ring, s': Ring) {
    || (s.memory.None? && ValidGeometry(s'.disk.geometry) && s' == Open(s, s'.disk.geometry))
    || (CanAppend(s) && s'.memory.Some? && s'.memory.value.buffer != []
        && var b := s'.memory.value.buffer; s' == Append(s, b[|b| - 1].frame))
    || (CanWriteChunk(s) && s' == WriteChunk(s))
    || (CanWriteHeader(s) && s' == WriteHeader(s))
    || (CanClose(s) && s' == Halt(s))
    || Crash(s, s')
  }

  predicate Initial(s: Ring) {
    && s.memory.None? && s.phase.Ready? && s.log == [] && s.base == 0
    && s.disk.supers == [Invalid, Invalid]
    && ValidGeometry(s.disk.geometry) && s.disk.chunks == Blank(s.disk.geometry)
  }

  ghost predicate Run(states: seq<Ring>) {
    && states != [] && Initial(states[0])
    && forall i :: 0 <= i < |states| - 1 ==> Next(states[i], states[i + 1])
  }

  // ---------- The invariant ----------

  /** The number of records in the first `c` chunks. */
  function Count(log: seq<seq<Record>>, c: nat): nat
    requires c <= |log|
  {
    if c == 0 then 0 else Count(log, c - 1) + |log[c - 1]|
  }

  ghost predicate Numbered(rs: seq<Record>, first: nat) {
    forall k :: 0 <= k < |rs| ==> rs[k].seqNo == first + k
  }

  function ChunkAt(log: seq<seq<Record>>, c: nat): Chunk
    requires c < |log|
  {
    Chunk(c, Count(log, c), log[c])
  }

  ghost predicate Filled(c: Chunk) {
    c.records != [] && Numbered(c.records, c.firstSeq)
  }

  ghost predicate LogOk(log: seq<seq<Record>>) {
    forall c {:trigger ChunkAt(log, c)} :: 0 <= c < |log| ==> Filled(ChunkAt(log, c))
  }

  /** A chunk that could be committed next. */
  ghost predicate Follows(c: Chunk, log: seq<seq<Record>>) {
    c.chunkSeq == |log| && c.firstSeq == Count(log, |log|) && Filled(c)
  }

  ghost predicate SlotOk(c: Chunk, i: nat, log: seq<seq<Record>>, base: nat, n: nat)
    requires n > 0
  {
    && i == Mod(c.chunkSeq, n)
    && base <= c.chunkSeq <= |log| <= c.chunkSeq + n
    && (c.chunkSeq < |log| ==> c == ChunkAt(log, c.chunkSeq))
    && (c.chunkSeq == |log| ==> Follows(c, log))
  }

  ghost predicate ChunksOk(chunks: seq<Slot<Chunk>>, log: seq<seq<Record>>, base: nat) {
    var n := |chunks|;
    && n > 0
    && (forall c {:trigger ChunkAt(log, c)} ::
          base <= c < |log| < c + n ==> chunks[Mod(c, n)] == Valid(ChunkAt(log, c)))
    && (forall i :: 0 <= i < n && chunks[i].Valid? ==> SlotOk(chunks[i].content, i, log, base, n))
  }

  ghost predicate SupersOk(supers: Supers, h: Header) {
    && supers[h.generation % 2] == Valid(h)
    && var other := supers[1 - h.generation % 2];
       other.Valid? ==> other.content.generation < h.generation
  }

  ghost predicate HeaderOk(h: Header, log: seq<seq<Record>>) {
    && ValidGeometry(h.geometry) && h.totalChunks == |log| && h.totalRecords == Count(log, |log|)
    && h.nextChunk == Mod(|log|, h.geometry.chunkCount)
  }

  ghost predicate Shaped(s: Ring) {
    ValidGeometry(s.disk.geometry) && |s.disk.chunks| == s.disk.geometry.chunkCount
  }

  ghost predicate MemoryOk(s: Ring)
    requires Shaped(s)
  {
    s.memory.Some? ==>
      var m, h, n := s.memory.value, Latest(s.disk.supers), s.disk.geometry.chunkCount;
      && m.geometry == s.disk.geometry
      && (s.phase.InitDue? ==>
            && m == Memory(m.geometry, 0, 0, 0, if h.Some? then h.value.generation else 0, [])
            && s.disk.chunks == Blank(m.geometry)
            && (h.Some? ==> h.value.geometry != m.geometry))
      && (!s.phase.InitDue? ==> h.Some? && h.value.geometry == m.geometry && m.generation == h.value.generation)
      && (s.phase.Ready? ==>
            && m.totalChunks == |s.log| && m.nextChunk == Mod(|s.log|, n)
            && m.totalRecords == Count(s.log, |s.log|) + |m.buffer| && Numbered(m.buffer, Count(s.log, |s.log|)))
      && (s.phase.HeaderDue? ==>
            && m.buffer == [] && m.totalChunks == |s.log| + 1 && m.nextChunk == Mod(|s.log| + 1, n)
            && var slot := s.disk.chunks[Mod(|s.log|, n)];
               slot.Valid? && slot.content.chunkSeq == |s.log|
               && m.totalRecords == Count(s.log, |s.log|) + |slot.content.records|)
  }

  ghost predicate DiskOk(s: Ring)
    requires Shaped(s)
  {
    var h := Latest(s.disk.supers);
    match h
    case None => s.log == [] && s.disk.supers == [Invalid, Invalid] && s.disk.chunks == Blank(s.disk.geometry)
    case Some(h) =>
      && SupersOk(s.disk.supers, h) && HeaderOk(h, s.log)
      && (if h.geometry == s.disk.geometry then ChunksOk(s.disk.chunks, s.log, s.base)
          else s.disk.chunks == Blank(s.disk.geometry) && s.base == |s.log|)
  }

  ghost predicate Inv(s: Ring) {
    && Shaped(s) && LogOk(s.log) && s.base <= |s.log|
    && DiskOk(s) && MemoryOk(s)
  }

  // ---------- Every step keeps the invariant ----------

  lemma {:induction false} CountPrefix(log: seq<seq<Record>>, rs: seq<Record>, c: nat)
    requires c <= |log|
    ensures Count(log + [rs], c) == Count(log, c)
  {
    if c > 0 { CountPrefix(log, rs, c - 1); }
  }

  lemma CountSnoc(log: seq<seq<Record>>, rs: seq<Record>)
    ensures forall c :: 0 <= c <= |log| ==> Count(log + [rs], c) == Count(log, c)
    ensures Count(log + [rs], |log| + 1) == Count(log, |log|) + |rs|
  {
    forall c | 0 <= c <= |log| ensures Count(log + [rs], c) == Count(log, c) { CountPrefix(log, rs, c); }
  }

  lemma ChunksSnoc(log: seq<seq<Record>>, rs: seq<Record>)
    ensures forall c :: 0 <= c < |log| ==> ChunkAt(log + [rs], c) == ChunkAt(log, c)
    ensures ChunkAt(log + [rs], |log|) == Chunk(|log|, Count(log, |log|), rs)
  {
    CountSnoc(log, rs);
  }

  lemma LogSnoc(log: seq<seq<Record>>, c: Chunk)
    requires LogOk(log) && Follows(c, log)
    ensures LogOk(log + [c.records]) && ChunkAt(log + [c.records], |log|) == c
  {
    ChunksSnoc(log, c.records);
    forall k | 0 <= k < |log| ensures Filled(ChunkAt(log + [c.records], k)) {
      assert Filled(ChunkAt(log, k));
    }
  }

  lemma BlankOk(g: Geometry, log: seq<seq<Record>>)
    requires g.chunkCount > 0
    ensures ChunksOk(Blank(g), log, |log|)
  {
  }

  lemma OpenKeeps(s: Ring, g: Geometry)
    requires Inv(s) && s.memory.None? && ValidGeometry(g)
    ensures Inv(Open(s, g))
  {
    BlankOk(g, s.log);
    if Latest(s.disk.supers).Some? {
      var h := Latest(s.disk.supers).value;
      if h.geometry == g {
        assert Mod(h.nextChunk, g.chunkCount) == h.nextChunk;
      }
    }
  }

  lemma AppendKeeps(s: Ring, f: Frame)
    requires Inv(s) && CanAppend(s)
    ensures Inv(Append(s, f))
  {
  }

  /** Overwriting the oldest slot with the next chunk, or with nothing, keeps every other chunk. */
  lemma OldestSlotFree(chunks: seq<Slot<Chunk>>, log: seq<seq<Record>>, base: nat, slot: Slot<Chunk>)
    requires ChunksOk(chunks, log, base) && base <= |log|
    requires slot.Valid? ==> Follows(slot.content, log)
    ensures ChunksOk(chunks[Mod(|log|, |chunks|) := slot], log, base)
  {
    var n := |chunks|;
    forall c | base <= c < |log| < c + n ensures Mod(c, n) != Mod(|log|, n) {
      ModDistinct(c, |log|, n);
    }
  }

  lemma WriteChunkKeeps(s: Ring)
    requires Inv(s) && CanWriteChunk(s)
    ensures Inv(WriteChunk(s))
    ensures Inv(Halt(s).(disk := WriteChunk(s).disk))
    ensures Inv(Halt(s).(disk := s.disk.(chunks := s.disk.chunks[s.memory.value.nextChunk := Invalid])))
  {
    var m, n := s.memory.value, s.disk.geometry.chunkCount;
    OldestSlotFree(s.disk.chunks, s.log, s.base, Valid(BufferedChunk(m)));
    OldestSlotFree(s.disk.chunks, s.log, s.base, Invalid);
    ModAdd(|s.log|, 1, n);
  }

  lemma SlotSurvives(d: Chunk, i: nat, log: seq<seq<Record>>, base: nat, n: nat, c: Chunk)
    requires n > 0 && SlotOk(d, i, log, base, n) && LogOk(log) && Follows(c, log)
    requires i == Mod(|log|, n) ==> d == c
    ensures SlotOk(d, i, log + [c.records], base, n)
  {
    ChunksSnoc(log, c.records);
    assert Mod(d.chunkSeq + n, n) == Mod(d.chunkSeq, n);
    assert d.chunkSeq + n != |log|;
    if d.chunkSeq == |log| {
      assert d == c;
    }
  }

  /** Committing the chunk in the oldest slot turns it into the newest of the log. */
  lemma CommitChunks(chunks: seq<Slot<Chunk>>, log: seq<seq<Record>>, base: nat, c: Chunk)
    requires ChunksOk(chunks, log, base) && LogOk(log) && base <= |log|
    requires chunks[Mod(|log|, |chunks|)] == Valid(c) && c.chunkSeq == |log|
    ensures ChunksOk(chunks, log + [c.records], base)
  {
    var n, log' := |chunks|, log + [c.records];
    assert SlotOk(c, Mod(|log|, n), log, base, n);
    ChunksSnoc(log, c.records);
    forall i | 0 <= i < n && chunks[i].Valid? ensures SlotOk(chunks[i].content, i, log', base, n) {
      SlotSurvives(chunks[i].content, i, log, base, n, c);
    }
    assert ChunkAt(log', |log|) == c;
    forall k | base <= k < |log'| < k + n ensures chunks[Mod(k, n)] == Valid(ChunkAt(log', k)) {
      if k < |log| { assert ChunkAt(log', k) == ChunkAt(log, k); }
    }
  }

  lemma SupersAfter(supers: Supers, h: Option<Header>, h': Header)
    requires h == Latest(supers)
    requires h.Some? ==> SupersOk(supers, h.value) && h'.generation == h.value.generation + 1
    requires h.None? ==> h'.generation == 1
    ensures var i := h'.generation % 2;
            SupersOk(supers[i := Valid(h')], h') && Latest(supers[i := Valid(h')]) == Some(h')
            && Latest(supers[i := Invalid]) == h && (h.Some? ==> SupersOk(supers[i := Invalid], h.value))
  {
  }

  lemma TornHeaderKeeps(s: Ring)
    requires Inv(s) && CanWriteHeader(s)
    ensures Inv(Halt(SetSuper(s, Invalid)))
    ensures Latest(WriteHeader(s).disk.supers) == Some(HeaderFor(s.memory.value))
    ensures Latest(SetSuper(s, Invalid).disk.supers) == Latest(s.disk.supers)
  {
    SupersAfter(s.disk.supers, Latest(s.disk.supers), HeaderFor(s.memory.value));
  }

  lemma InitHeaderKeeps(s: Ring)
    requires Inv(s) && CanWriteHeader(s) && s.phase.InitDue?
    ensures Inv(WriteHeader(s))
  {
    var m := s.memory.value;
    SupersAfter(s.disk.supers, Latest(s.disk.supers), HeaderFor(m));
    BlankOk(m.geometry, []);
  }

  lemma CommitParts(s: Ring)
    requires Inv(s) && CanWriteHeader(s) && s.phase.HeaderDue?
    ensures var s' := WriteHeader(s);
            && LogOk(s'.log) && ChunksOk(s'.disk.chunks, s'.log, s'.base) && s'.base <= |s'.log|
            && HeaderOk(HeaderFor(s.memory.value), s'.log)
  {
    var c := s.disk.chunks[Mod(|s.log|, |s.disk.chunks|)].content;
    CommitChunks(s.disk.chunks, s.log, s.base, c);
    assert SlotOk(c, Mod(|s.log|, |s.disk.chunks|), s.log, s.base, |s.disk.chunks|);
    LogSnoc(s.log, c);
    CountSnoc(s.log, c.records);
  }

  /** A ring just committed under header `h`. */
  lemma Committed(s: Ring, h: Header)
    requires Shaped(s) && LogOk(s.log) && s.base <= |s.log| && ChunksOk(s.disk.chunks, s.log, s.base)
    requires Latest(s.disk.supers) == Some(h) && SupersOk(s.disk.supers, h) && HeaderOk(h, s.log)
    requires h.geometry == s.disk.geometry && s.phase.Ready?
    requires s.memory == Some(Memory(h.geometry, h.nextChunk, h.totalChunks, h.totalRecords, h.generation, []))
    ensures Inv(s)
  {
  }

  lemma CommitHeaderKeeps(s: Ring)
    requires Inv(s) && CanWriteHeader(s) && s.phase.HeaderDue?
    ensures Inv(WriteHeader(s))
  {
    var h := HeaderFor(s.memory.value);
    SupersAfter(s.disk.supers, Latest(s.disk.supers), h);
    CommitParts(s);
    Committed(WriteHeader(s), h);
  }

  lemma WriteHeaderKeeps(s: Ring)
    requires Inv(s) && CanWriteHeader(s)
    ensures Inv(WriteHeader(s))
  {
    if s.phase.InitDue? { InitHeaderKeeps(s); } else { CommitHeaderKeeps(s); }
  }

  lemma HaltKeeps(s: Ring)
    requires Inv(s)
    ensures Inv(Halt(s))
  {
  }

  lemma CrashKeeps(s: Ring, s': Ring)
    requires Inv(s) && Crash(s, s')
    ensures Inv(s')
  {
    HaltKeeps(s);
    if CanWriteChunk(s) {
      WriteChunkKeeps(s);
    } else if CanWriteHeader(s) {
      TornHeaderKeeps(s);
      WriteHeaderKeeps(s);
      HaltKeeps(WriteHeader(s));
    }
  }

  lemma NextKeeps(s: Ring, s': Ring)
    requires Inv(s) && Next(s, s')
    ensures Inv(s')
  {
    if s.memory.None? {
      OpenKeeps(s, s'.disk.geometry);
    } else if Crash(s, s') {
      CrashKeeps(s, s');
    } else if CanWriteChunk(s) && s' == WriteChunk(s) {
      WriteChunkKeeps(s);
    } else if CanWriteHeader(s) && s' == WriteHeader(s) {
      WriteHeaderKeeps(s);
    } else if CanClose(s) && s' == Halt(s) {
      HaltKeeps(s);
    } else {
      var b := s'.memory.value.buffer;
      AppendKeeps(s, b[|b| - 1].frame);
    }
  }

  lemma {:induction false} RunKeeps(states: seq<Ring>, i: nat)
    requires Run(states) && i < |states|
    ensures Inv(states[i])
  {
    if i == 0 {
    } else {
      RunKeeps(states, i - 1);
      assert Next(states[i - 1], states[i - 1 + 1]);
      NextKeeps(states[i - 1], states[i]);
    }
  }

  /** The header found after any step is the one found before it, unless a superblock was being
      written; then it is that one or the one before it, and after a completed write it is that one. */
  lemma HeaderRecovery(states: seq<Ring>, i: nat)
    requires Run(states) && i + 1 < |states|
    ensures var before, after := Latest(states[i].disk.supers), Latest(states[i + 1].disk.supers);
            && (after == before || (CanWriteHeader(states[i]) && after == Some(HeaderFor(states[i].memory.value))))
            && (CanWriteHeader(states[i]) && states[i + 1].memory.Some? ==>
                  after == Some(HeaderFor(states[i].memory.value)))
            && (before.Some? ==> after.Some? && before.value.generation <= after.value.generation)
  {
    RunKeeps(states, i);
    var s := states[i];
    assert Next(states[i], states[i + 1]);
    if CanWriteHeader(s) { TornHeaderKeeps(s); }
  }
}
