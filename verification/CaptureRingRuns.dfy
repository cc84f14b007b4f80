/** Runs of the capture ring that reach the states in which the code falls short of the obvious laws. */
module CaptureRingRuns {
  import opened CaptureRing
  import opened CaptureRingReader
  import opened Sequences
  import opened CaptureRingResize
  import opened CaptureRingResume
  import opened Wrappers
  import opened Wrapping

  lemma ExtendRun(states: seq<Ring>, s: Ring)
    requires Run(states) && Next(states[|states| - 1], s)
    ensures Run(states + [s])
  {
    var longer := states + [s];
    forall i | 0 <= i < |longer| - 1 ensures Next(longer[i], longer[i + 1]) {
      if i < |states| - 1 { assert Next(states[i], states[i + 1]); }
    }
  }

  /** An open ring of the given geometry with nothing buffered and nothing lost. */
  ghost predicate AtRest(s: Ring, g: Geometry, t: nat) {
    && Inv(s) && s.memory.Some? && s.phase.Ready? && s.memory.value.buffer == []
    && s.disk.geometry == g && |s.log| == t && s.base == 0
  }

  function Empty(g: Geometry): Ring {
    Ring(Disk([Invalid, Invalid], g, Blank(g)), None, Ready, [], 0)
  }

  lemma FreshRun(g: Geometry) returns (states: seq<Ring>)
    requires ValidGeometry(g)
    ensures Run(states) && AtRest(states[|states| - 1], g, 0)
  {
    var s0 := Empty(g);
    var s1 := Open(s0, g);
    var s2 := WriteHeader(s1);
    assert Run([s0]);
    ExtendRun([s0], s1);
    ExtendRun([s0, s1], s2);
    states := [s0, s1, s2];
    assert states == [s0, s1] + [s2] && [s0, s1] == [s0] + [s1];
    RunKeeps(states, 2);
  }

  /** Buffering one frame and writing it as a chunk. */
  lemma ChunkWritten(s: Ring, g: Geometry, t: nat, f: Frame)
    requires AtRest(s, g, t)
    ensures CanAppend(s) && CanWriteChunk(Append(s, f))
    ensures Next(s, Append(s, f)) && Next(Append(s, f), WriteChunk(Append(s, f)))
    ensures Inv(WriteChunk(Append(s, f)))
  {
    AppendKeeps(s, f);
    WriteChunkKeeps(Append(s, f));
    var b := Append(s, f).memory.value.buffer;
    assert b == [Record(s.memory.value.totalRecords, f)];
  }

  lemma ChunkCommitted(s: Ring, g: Geometry, t: nat, f: Frame)
    requires AtRest(s, g, t)
    ensures ChunkStep(s, f) && AtRest(WriteHeader(WriteChunk(Append(s, f))), g, t + 1)
  {
    ChunkWritten(s, g, t, f);
    WriteHeaderKeeps(WriteChunk(Append(s, f)));
  }

  ghost predicate ChunkStep(s: Ring, f: Frame) {
    CanAppend(s) && CanWriteChunk(Append(s, f)) && CanWriteHeader(WriteChunk(Append(s, f)))
  }

  const SomeFrame: Frame := Frame(1, 0, [], 0, 0)

  /** Every geometry and every number of committed chunks is reached. */
  lemma {:induction false} FullRun(g: Geometry, t: nat) returns (states: seq<Ring>)
    requires ValidGeometry(g)
    ensures Run(states) && AtRest(states[|states| - 1], g, t)
  {
    if t == 0 {
      states := FreshRun(g);
    } else {
      states := FullRun(g, t - 1);
      var s := states[|states| - 1];
      ChunkWritten(s, g, t - 1, SomeFrame);
      ChunkCommitted(s, g, t - 1, SomeFrame);
      var a := Append(s, SomeFrame);
      var b := WriteChunk(a);
      ExtendRun(states, a);
      ExtendRun(states + [a], b);
      ExtendRun(states + [a] + [b], WriteHeader(b));
      states := states + [a] + [b] + [WriteHeader(b)];
    }
  }

  /** Every geometry has a run that ends, in a crash between a chunk and its header, with a stale chunk in view. */
  lemma StaleRun(g: Geometry) returns (states: seq<Ring>)
    requires ValidGeometry(g)
    ensures Run(states) && Latest(states[|states| - 1].disk.supers).Some?
    ensures var v := ViewOf(states[|states| - 1]); ViewOk(v) && StaleVisible(v)
    ensures var d := states[|states| - 1].disk;
            Snapshot(d, 1) != Some(KeepLast(Snapshot(d, 0).value, 1))
  {
    states := FullRun(g, g.chunkCount);
    var s := states[|states| - 1];
    ChunkWritten(s, g, g.chunkCount, SomeFrame);
    var a := Append(s, SomeFrame);
    var b := WriteChunk(a);
    ExtendRun(states, a);
    ExtendRun(states + [a], b);
    ExtendRun(states + [a] + [b], Halt(b));
    states := states + [a] + [b] + [Halt(b)];
    RunKeeps(states, |states| - 1);
    var v := ViewOf(Halt(b));
    SecureHolds(v);
    RecentAgrees(states, |states| - 1, 1);
  }

  /** With two or more slots some record is secure once the ring has wrapped. */
  lemma SecureHolds(v: View)
    requires ViewOk(v) && StaleVisible(v) && v.base == 0
    ensures |Flat(Secure(v))| >= 1
  {
    FlatWindow(v.log, Kept(v), |v.log|);
    JoinNumbered(v.log, Kept(v), |v.log|);
    CountGrows(v.log, Kept(v), |v.log|);
  }

  /** Making a wrapped ring of four slots one slot smaller and dying before anything is cleared leaves a gap. */
  lemma ShrinkingLeavesGap() returns (states: seq<Ring>)
    ensures Run(states) && Latest(states[|states| - 1].disk.supers).Some? && |states[|states| - 1].disk.chunks| == 4
    ensures !GapFree(Snapshot(Resized(states[|states| - 1].disk, 0, 3), 0).value)
  {
    var g := Geometry(MIN_CHUNK_BYTES, 4);
    states := FullRun(g, 5);
    var i := |states| - 1;
    assert Mod(5, 4) == 1;
    InterruptedResize(states, i, 0, 3, 0);
  }

  lemma ExtendHardRun(states: seq<Ring>, s: Ring)
    requires HardRun(states) && (Next(states[|states| - 1], s) || Interrupted(states[|states| - 1], s))
    ensures HardRun(states + [s])
  {
    var longer := states + [s];
    forall i | 0 <= i < |longer| - 1 ensures HardStep(longer, i) {
      if i < |states| - 1 { assert HardStep(states, i); }
    }
  }

  lemma RunIsHard(states: seq<Ring>)
    requires Run(states)
    ensures HardRun(states)
  {
    forall i | 0 <= i < |states| - 1 ensures HardStep(states, i) {
      assert Next(states[i], states[i + 1]);
    }
  }

  /** Closing, dying while making the ring of four slots one slot smaller, and opening it with its old size again. */
  lemma ReopenedRun() returns (states: seq<Ring>, s: Ring)
    ensures |states| >= 2 && HardRun(states) && AtRest(s, Geometry(MIN_CHUNK_BYTES, 4), 5)
    ensures states[|states| - 2] == Halt(s).(disk := Resized(s.disk, 0, 3))
    ensures states[|states| - 1] == Open(states[|states| - 2], s.disk.geometry)
    ensures Next(states[|states| - 2], states[|states| - 1])
  {
    var g := Geometry(MIN_CHUNK_BYTES, 4);
    states := FullRun(g, 5);
    RunIsHard(states);
    s := states[|states| - 1];
    var x := Halt(s).(disk := Resized(s.disk, 0, 3));
    ExtendHardRun(states, Halt(s));
    ExtendHardRun(states + [Halt(s)], x);
    ExtendHardRun(states + [Halt(s)] + [x], Open(x, g));
    states := states + [Halt(s)] + [x] + [Open(x, g)];
  }

  /** Another chunk is committed and the gap is still there. */
  lemma GapStays() returns (states: seq<Ring>)
    ensures HardRun(states) && |states[|states| - 1].log| == 6 && Latest(states[|states| - 1].disk.supers).Some?
    ensures !GapFree(Snapshot(states[|states| - 1].disk, 0).value)
  {
    var s: Ring;
    states, s := ReopenedRun();
    var i := |states| - 2;
    var x, o := states[i], states[i + 1];
    var a := Append(o, SomeFrame);
    var b := WriteChunk(a);
    var y := WriteHeader(b);
    ExtendHardRun(states, a);
    ExtendHardRun(states + [a], b);
    ExtendHardRun(states + [a] + [b], y);
    states := states + [a] + [b] + [y];
    assert Mod(5, 4) == 1 && Mod(2, 4) == 2 && Mod(3, 4) == 3;
    assert s.disk.chunks[2] == Valid(ChunkAt(s.log, 2));
    assert Held(y, 2) && !Held(x, 3);
    GapPersists(states, i, i + 4);
  }
}
