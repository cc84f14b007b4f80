/** A capture ring that lives on after an interrupted resize: canring/ring.go, OpenWriter.

    Opening the file with its old size again finds the old header and goes on writing, with a hole in the data region.
    Every state is that of an undamaged ring with some slots lost; a gap stays until all chunks before it have been
    overwritten.
  */
module CaptureRingResume {
  import opened CaptureRing
  import opened CaptureRingReader
  import opened CaptureRingLoss
  import opened CaptureRingResize
  import opened Wrappers
  import opened Wrapping

  /** The process dies while it re-opens the ring with another size. */
  ghost predicate Interrupted(x: Ring, x': Ring) {
    && x.memory.None?
    && exists k, m :: 0 <= k <= m <= |x.disk.chunks| && x' == x.(disk := Resized(x.disk, k, m))
  }

  ghost predicate PlainStep(states: seq<Ring>, i: nat)
    requires i + 1 < |states|
  {
    Next(states[i], states[i + 1])
  }

  ghost predicate HardStep(states: seq<Ring>, i: nat)
    requires i + 1 < |states|
  {
    PlainStep(states, i) || Interrupted(states[i], states[i + 1])
  }

  /** A run of the ring with interrupted resizes. */
  ghost predicate HardRun(states: seq<Ring>) {
    && states != [] && Initial(states[0])
    && forall i {:trigger HardStep(states, i)} :: 0 <= i < |states| - 1 ==> HardStep(states, i)
  }

  // ---------- The undamaged ring behind a damaged one ----------

  ghost function Broken(s: Ring, lost: set<nat>): Ring {
    s.(disk := Damaged(s.disk, lost))
  }

  /** `x` is `s` with the slots of `lost` gone; a chunk whose header is due is not among them. */
  ghost predicate Shadows(x: Ring, s: Ring, lost: set<nat>) {
    && Inv(s) && x == Broken(s, lost) && (s.memory.None? ==> s.phase.Ready?)
    && (s.phase.HeaderDue? ==> Mod(|s.log|, |s.disk.chunks|) !in lost)
  }

  lemma NothingLost(s: Ring)
    ensures Broken(s, {}) == s
  {
    assert Damaged(s.disk, {}).chunks == s.disk.chunks;
  }

  lemma LoseMore(d: Disk, lost: set<nat>, more: set<nat>)
    ensures Damaged(Damaged(d, lost), more) == Damaged(d, lost + more)
  {
  }

  /** A slot that is written is no longer lost. */
  lemma SlotWritten(d: Disk, lost: set<nat>, i: nat, slot: Slot<Chunk>)
    requires i < |d.chunks|
    ensures Damaged(d, lost).chunks[i := slot] == Damaged(d.(chunks := d.chunks[i := slot]), lost - {i}).chunks
  {
  }

  lemma OpenShadow(x: Ring, s: Ring, lost: set<nat>, g: Geometry) returns (s': Ring, lost': set<nat>)
    requires Shadows(x, s, lost) && x.memory.None? && ValidGeometry(g)
    ensures Shadows(Open(x, g), s', lost')
  {
    OpenKeeps(s, g);
    s' := Open(s, g);
    lost' := if s'.disk == s.disk then lost else {};
    NothingLost(s');
  }

  lemma WriteShadow(x: Ring, s: Ring, lost: set<nat>) returns (lost': set<nat>)
    requires Shadows(x, s, lost) && CanWriteChunk(x)
    ensures CanWriteChunk(s) && Shadows(WriteChunk(x), WriteChunk(s), lost')
    ensures Shadows(Halt(x).(disk := WriteChunk(x).disk), Halt(s).(disk := WriteChunk(s).disk), lost')
    ensures var i := s.memory.value.nextChunk;
            Shadows(Halt(x).(disk := x.disk.(chunks := x.disk.chunks[i := Invalid])),
                    Halt(s).(disk := s.disk.(chunks := s.disk.chunks[i := Invalid])), lost')
  {
    var m := s.memory.value;
    WriteChunkKeeps(s);
    lost' := lost - {m.nextChunk};
    SlotWritten(s.disk, lost, m.nextChunk, Valid(BufferedChunk(m)));
    SlotWritten(s.disk, lost, m.nextChunk, Invalid);
  }

  lemma HeaderShadow(x: Ring, s: Ring, lost: set<nat>)
    requires Shadows(x, s, lost) && CanWriteHeader(x)
    ensures CanWriteHeader(s) && Shadows(WriteHeader(x), WriteHeader(s), lost)
    ensures Shadows(Halt(WriteHeader(x)), Halt(WriteHeader(s)), lost)
    ensures Shadows(Halt(SetSuper(x, Invalid)), Halt(SetSuper(s, Invalid)), lost)
  {
    WriteHeaderKeeps(s);
    TornHeaderKeeps(s);
    HaltKeeps(WriteHeader(s));
    assert CommittedLog(x) == CommittedLog(s);
  }

  lemma CrashShadow(x: Ring, s: Ring, lost: set<nat>, x': Ring) returns (s': Ring, lost': set<nat>)
    requires Shadows(x, s, lost) && Crash(x, x')
    ensures Shadows(x', s', lost')
  {
    HaltKeeps(s);
    if x' == Halt(x) {
      s', lost' := Halt(s), lost;
    } else if CanWriteChunk(x) {
      lost' := WriteShadow(x, s, lost);
      s' := if x' == Halt(x).(disk := WriteChunk(x).disk) then Halt(s).(disk := WriteChunk(s).disk)
            else Halt(s).(disk := s.disk.(chunks := s.disk.chunks[s.memory.value.nextChunk := Invalid]));
    } else {
      HeaderShadow(x, s, lost);
      lost' := lost;
      s' := if x' == Halt(WriteHeader(x)) then Halt(WriteHeader(s)) else Halt(SetSuper(s, Invalid));
    }
  }

  lemma StepShadow(x: Ring, s: Ring, lost: set<nat>, x': Ring) returns (s': Ring, lost': set<nat>)
    requires Shadows(x, s, lost) && Next(x, x')
    ensures Shadows(x', s', lost')
  {
    if x.memory.None? {
      s', lost' := OpenShadow(x, s, lost, x'.disk.geometry);
    } else if Crash(x, x') {
      s', lost' := CrashShadow(x, s, lost, x');
    } else if CanWriteChunk(x) && x' == WriteChunk(x) {
      lost' := WriteShadow(x, s, lost);
      s' := WriteChunk(s);
    } else if CanWriteHeader(x) && x' == WriteHeader(x) {
      HeaderShadow(x, s, lost);
      s', lost' := WriteHeader(s), lost;
    } else {
      var b := x'.memory.value.buffer;
      s', lost' := Append(s, b[|b| - 1].frame), lost;
      AppendKeeps(s, b[|b| - 1].frame);
    }
  }

  lemma InterruptedShadow(x: Ring, s: Ring, lost: set<nat>, x': Ring) returns (lost': set<nat>)
    requires Shadows(x, s, lost) && Interrupted(x, x')
    ensures Shadows(x', s, lost')
  {
    var k, m :| 0 <= k <= m <= |x.disk.chunks| && x' == x.(disk := Resized(x.disk, k, m));
    ResizedIsDamaged(x.disk, k, m);
    LoseMore(s.disk, lost, Gone(|x.disk.chunks|, k, m));
    lost' := lost + Gone(|x.disk.chunks|, k, m);
  }

  /** Every state, after any crashes and interrupted resizes, is an undamaged ring with some slots lost. */
  lemma {:induction false} RunShadow(states: seq<Ring>, i: nat) returns (s: Ring, lost: set<nat>)
    requires HardRun(states) && i < |states|
    ensures Shadows(states[i], s, lost)
  {
    if i == 0 {
      s, lost := states[0], {};
      NothingLost(s);
    } else {
      s, lost := RunShadow(states, i - 1);
      assert HardStep(states, i - 1);
      if PlainStep(states, i - 1) {
        s, lost := StepShadow(states[i - 1], s, lost, states[i]);
      } else {
        lost := InterruptedShadow(states[i - 1], s, lost, states[i]);
      }
    }
  }

  // ---------- What a reader finds ----------

  /** The reader finds chunk number `c`. */
  ghost predicate Finds(d: Disk, h: Header, c: nat) {
    && h.geometry.chunkCount > 0
    && var i := Mod(c, h.geometry.chunkCount);
       i < MaxChunks(h) && ReadChunk(d, h, i).Valid? && ReadChunk(d, h, i).content.chunkSeq == c
  }

  lemma FindsExactly(s: View, lost: set<nat>, c: nat)
    requires ViewOk(s)
    ensures Finds(Damaged(s.disk, lost), s.header, c) <==>
            From(s) <= c < |Seen(s)| && Readable(s, lost)(c)
  {
    var d, h := Damaged(s.disk, lost), s.header;
    VisibleIsWindow(s);
    if Finds(d, h, c) {
      var i := Mod(c, h.geometry.chunkCount);
      ReadDamaged(s.disk, h, lost, i);
      StoredIsVisible(s, i);
      var j := WindowMember(Seen(s), From(s), |Seen(s)|, ReadChunk(s.disk, h, i).content);
    }
    if From(s) <= c < |Seen(s)| && Readable(s, lost)(c) {
      var chunk := Window(Seen(s), From(s), |Seen(s)|)[c - From(s)];
      assert chunk in Visible(s);
      VisibleIsStored(s, chunk);
      var i: nat :| i < MaxChunks(h) && ReadChunk(s.disk, h, i) == Valid(chunk);
      StoredInSlot(s, i);
      ReadDamaged(s.disk, h, lost, i);
    }
  }

  /** A chunk that is not found lies between two that are. */
  ghost predicate Hole(d: Disk, h: Header) {
    exists a, b, c :: 0 <= a < b < c && Finds(d, h, a) && !Finds(d, h, b) && Finds(d, h, c)
  }

  lemma HoleIsGap(s: View, lost: set<nat>)
    requires ViewOk(s)
    ensures Hole(Damaged(s.disk, lost), s.header) <==> Gap(s, lost, 0)
  {
    var d, h, left := Damaged(s.disk, lost), s.header, Readable(s, lost);
    var log, from, to := Seen(s), From(s), |Seen(s)|;
    if Hole(d, h) {
      var a, b, c :| 0 <= a < b < c && Finds(d, h, a) && !Finds(d, h, b) && Finds(d, h, c);
      FindsExactly(s, lost, a);
      FindsExactly(s, lost, b);
      FindsExactly(s, lost, c);
      assert Reaches(log, b, to, left, 0);
    }
    if Gap(s, lost, 0) {
      var x, y, z :| from <= x < y < z < to && left(x) && !left(y) && left(z)
                     && Reaches(log, y, to, left, 0);
      FindsExactly(s, lost, x);
      FindsExactly(s, lost, y);
      FindsExactly(s, lost, z);
    }
  }

  /** In every state, after any crashes and interrupted resizes: the full snapshot has a gap exactly if a chunk is
      missing between two that are found, and without one no snapshot has a gap. */
  lemma HardRunGap(states: seq<Ring>, i: nat, limit: int)
    requires HardRun(states) && i < |states| && Latest(states[i].disk.supers).Some?
    ensures var d := states[i].disk;
            && (GapFree(Snapshot(d, 0).value) <==> !Hole(d, Latest(d.supers).value))
            && (GapFree(Snapshot(d, 0).value) ==> GapFree(Snapshot(d, limit).value))
  {
    var s, lost := RunShadow(states, i);
    var v := ViewOf(s);
    GapExactly(v, lost, 0);
    GapExactly(v, lost, limit);
    HoleIsGap(v, lost);
    if Gap(v, lost, limit) { LimitAddsNoGap(v, lost, limit); }
  }

  // ---------- How long a gap stays ----------

  /** The header in force is of the file's own geometry. */
  ghost predicate Settled(x: Ring) {
    && Latest(x.disk.supers).Some? && Latest(x.disk.supers).value.geometry == x.disk.geometry
    && |x.disk.chunks| > 0
  }

  /** Chunk `c` is in its slot. */
  ghost predicate Held(x: Ring, c: nat) {
    && |x.disk.chunks| > 0
    && var slot := x.disk.chunks[Mod(c, |x.disk.chunks|)];
       slot.Valid? && slot.content.chunkSeq == c
  }

  /** From `x` to `y` committed chunks are only added, no chunk comes back, and a chunk goes only when its slot is
      needed again. */
  ghost predicate Advances(x: Ring, y: Ring) {
    var n := |x.disk.chunks|;
    && |y.disk.chunks| == n && |x.log| <= |y.log|
    && (forall c: nat :: c < |x.log| && Held(y, c) ==> Held(x, c))
    && (forall c: nat :: c < |x.log| && |y.log| < c + n && Held(x, c) ==> Held(y, c))
    && (forall c: nat :: |x.log| <= c < |y.log| < c + n ==> Held(y, c))
  }

  lemma AdvancesOn(x: Ring, y: Ring, z: Ring)
    requires Advances(x, y) && Advances(y, z)
    ensures Advances(x, z)
  {
  }

  /** Writing the slot of the next chunk touches no chunk that is still due to stay. */
  lemma SlotAdvances(x: Ring, y: Ring, slot: Slot<Chunk>)
    requires |x.disk.chunks| > 0 && y.log == x.log
    requires y.disk.chunks == x.disk.chunks[Mod(|x.log|, |x.disk.chunks|) := slot]
    requires slot.Valid? ==> slot.content.chunkSeq == |x.log|
    ensures Advances(x, y)
  {
    var n := |x.disk.chunks|;
    forall c: nat | c < |x.log| < c + n ensures Mod(c, n) != Mod(|x.log|, n) {
      ModDistinct(c, |x.log|, n);
    }
  }

  lemma SameAdvances(x: Ring, y: Ring)
    requires y.log == x.log && y.disk.chunks == x.disk.chunks
    ensures Advances(x, y)
  {
  }

  /** Committing the chunk whose header is due. */
  lemma CommitAdvances(x: Ring, s: Ring, lost: set<nat>)
    requires Shadows(x, s, lost) && CanWriteHeader(x) && x.phase.HeaderDue?
    ensures Advances(x, WriteHeader(x)) && Settled(WriteHeader(x))
  {
    TornHeaderKeeps(s);
    var n := |x.disk.chunks|;
    assert Held(x, |x.log|);
    assert |WriteHeader(x).log| == |x.log| + 1;
  }

  /** A step of a writer with frames in its buffer: another frame, the chunk, or the end. */
  lemma WriteAdvances(x: Ring, s: Ring, lost: set<nat>, y: Ring)
    requires Shadows(x, s, lost) && Next(x, y) && Settled(x) && CanWriteChunk(x)
    ensures Advances(x, y) && Settled(y)
  {
    var m := x.memory.value;
    assert m.nextChunk == Mod(|x.log|, |x.disk.chunks|) && m.totalChunks == |x.log|;
    assert y.log == x.log && y.disk.supers == x.disk.supers && y.disk.geometry == x.disk.geometry;
    if y.disk.chunks == x.disk.chunks {
      SameAdvances(x, y);
    } else if y.disk.chunks == x.disk.chunks[m.nextChunk := Invalid] {
      SlotAdvances(x, y, Invalid);
    } else {
      SlotAdvances(x, y, Valid(BufferedChunk(m)));
    }
  }

  /** A step of a writer that owes a header: the header, complete or not, or the end. */
  lemma HeaderAdvances(x: Ring, s: Ring, lost: set<nat>, y: Ring)
    requires Shadows(x, s, lost) && Next(x, y) && Settled(x) && CanWriteHeader(x)
    ensures Advances(x, y) && Settled(y)
  {
    TornHeaderKeeps(s);
    CommitAdvances(x, s, lost);
    if y == WriteHeader(x) || y == Halt(WriteHeader(x)) {
      SameAdvances(WriteHeader(x), y);
      AdvancesOn(x, WriteHeader(x), y);
    } else {
      SameAdvances(x, y);
    }
  }

  lemma StepAdvances(x: Ring, s: Ring, lost: set<nat>, y: Ring)
    requires Shadows(x, s, lost) && Next(x, y) && Settled(x) && y.disk.geometry == x.disk.geometry
    ensures Advances(x, y) && Settled(y)
  {
    if CanWriteChunk(x) {
      WriteAdvances(x, s, lost, y);
    } else if CanWriteHeader(x) {
      HeaderAdvances(x, s, lost, y);
    } else {
      SameAdvances(x, y);
    }
  }

  /** From state `i` to state `j` nobody opens the file with another size. */
  ghost predicate SameSize(states: seq<Ring>, i: nat, j: nat)
    requires i <= j < |states|
  {
    && (forall k {:trigger PlainStep(states, k)} :: i <= k < j ==> PlainStep(states, k))
    && (forall k :: i <= k <= j ==> states[k].disk.geometry == states[i].disk.geometry)
  }

  lemma LastAdvances(states: seq<Ring>, j: nat)
    requires HardRun(states) && j + 1 < |states| && PlainStep(states, j) && Settled(states[j])
    requires states[j + 1].disk.geometry == states[j].disk.geometry
    ensures Advances(states[j], states[j + 1]) && Settled(states[j + 1])
  {
    var s, lost := RunShadow(states, j);
    StepAdvances(states[j], s, lost, states[j + 1]);
  }

  lemma {:induction false} RunAdvances(states: seq<Ring>, i: nat, j: nat)
    requires HardRun(states) && i <= j < |states| && SameSize(states, i, j) && Settled(states[i])
    ensures Advances(states[i], states[j]) && Settled(states[j])
    decreases j - i
  {
    if i == j {
      SameAdvances(states[i], states[i]);
    } else {
      RunAdvances(states, i, j - 1);
      assert PlainStep(states, j - 1);
      LastAdvances(states, j - 1);
      AdvancesOn(states[i], states[j - 1], states[j]);
    }
  }

  /** A committed chunk is found exactly if it is in its slot. */
  lemma HeldIsFound(x: Ring, s: Ring, lost: set<nat>, c: nat)
    requires Shadows(x, s, lost) && Settled(x) && c < |x.log|
    ensures Finds(x.disk, Latest(x.disk.supers).value, c) <==> Held(x, c)
  {
  }

  lemma HeldRecent(x: Ring, s: Ring, lost: set<nat>, c: nat)
    requires Shadows(x, s, lost) && Settled(x) && Held(x, c)
    ensures c <= |x.log| <= c + |x.disk.chunks|
  {
    var n := |x.disk.chunks|;
    assert SlotOk(s.disk.chunks[Mod(c, n)].content, Mod(c, n), s.log, s.base, n);
  }

  /** A missing chunk among those in view was missing before, and everything behind it is newer. */
  lemma HoleIsOld(x: Ring, y: Ring, s: Ring, lost: set<nat>, a: nat, b: nat)
    requires Shadows(y, s, lost) && Settled(y) && Advances(x, y) && a < b < |y.log| && Held(y, a) && !Held(y, b)
    ensures b < |x.log| && !Held(x, b)
  {
    HeldRecent(y, s, lost, a);
  }

  /** A gap stays as long as a chunk older than one that was missing is still there: writing on with the old size, once
      something has been committed, the full snapshot has a gap exactly then. */
  lemma GapPersists(states: seq<Ring>, i: nat, j: nat)
    requires HardRun(states) && i <= j < |states| && SameSize(states, i, j) && Settled(states[i])
    requires |states[i].log| < |states[j].log|
    ensures Settled(states[j])
    ensures !GapFree(Snapshot(states[j].disk, 0).value) <==>
            exists a, b :: 0 <= a < b < |states[i].log| && Held(states[j], a) && !Held(states[i], b)
  {
    var x, y := states[i], states[j];
    RunAdvances(states, i, j);
    HardRunGap(states, j, 0);
    var s, lost := RunShadow(states, j);
    var d, h := y.disk, Latest(y.disk.supers).value;
    if Hole(d, h) {
      var a, b, c :| 0 <= a < b < c && Finds(d, h, a) && !Finds(d, h, b) && Finds(d, h, c);
      FindsExactly(ViewOf(s), lost, c);
      HeldIsFound(y, s, lost, a);
      HeldIsFound(y, s, lost, b);
      HoleIsOld(x, y, s, lost, a, b);
    }
    if a, b :| 0 <= a < b < |x.log| && Held(y, a) && !Held(x, b) {
      var c := |y.log| - 1;
      assert Held(y, c) && !Held(y, b);
      HeldIsFound(y, s, lost, a);
      HeldIsFound(y, s, lost, b);
      HeldIsFound(y, s, lost, c);
    }
  }
}
