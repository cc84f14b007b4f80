/** Reading a capture ring that has lost slots: canring/ring.go, Reader.Snapshot.

    Whatever slots are lost, a snapshot holds the records of the chunks left, and its sequence numbers have a gap
    exactly if a lost chunk lies between two of the chunks read.
  */
module CaptureRingLoss {
  import opened CaptureRing
  import opened CaptureRingReader
  import opened Sequences
  import opened Wrapping

  function Damaged(d: Disk, lost: set<nat>): Disk {
    d.(chunks := seq(|d.chunks|, i requires 0 <= i < |d.chunks| => if i in lost then Invalid else d.chunks[i]))
  }

  lemma ReadDamaged(d: Disk, h: Header, lost: set<nat>, i: nat)
    ensures ReadChunk(Damaged(d, lost), h, i) == if i in lost then Invalid else ReadChunk(d, h, i)
  {
  }

  /** The chunks of a list that are left. */
  function Keeping(v: seq<Chunk>, left: nat -> bool): seq<Chunk>
  {
    if v == [] then []
    else
      var c := v[|v| - 1];
      Keeping(v[..|v| - 1], left) + if left(c.chunkSeq) then [c] else []
  }

  lemma {:induction false} KeepingMember(v: seq<Chunk>, left: nat -> bool, c: Chunk)
    ensures c in Keeping(v, left) <==> c in v && left(c.chunkSeq)
  {
    if v != [] {
      var v', last := v[..|v| - 1], v[|v| - 1];
      KeepingMember(v', left, c);
      assert v == v' + [last];
    }
  }

  lemma KeepingOne(c: Chunk, left: nat -> bool)
    ensures Keeping([c], left) == if left(c.chunkSeq) then [c] else []
  {
    assert [] + [c] == [c];
    KeepingSnoc([], c, left);
  }

  lemma KeepingSnoc(v: seq<Chunk>, c: Chunk, left: nat -> bool)
    ensures Keeping(v + [c], left) == Keeping(v, left) + if left(c.chunkSeq) then [c] else []
  {
    assert (v + [c])[..|v|] == v;
  }

  lemma {:induction false} KeepingConcat(v: seq<Chunk>, w: seq<Chunk>, left: nat -> bool)
    ensures Keeping(v + w, left) == Keeping(v, left) + Keeping(w, left)
    decreases w
  {
    if w == [] {
      assert v + w == v;
    } else {
      var w', c := w[..|w| - 1], w[|w| - 1];
      KeepingConcat(v, w', left);
      KeepingSnoc(v + w', c, left);
      KeepingSnoc(w', c, left);
      assert w' + [c] == w && v + w' + [c] == v + w;
    }
  }

  lemma {:induction false} KeepingAscending(v: seq<Chunk>, left: nat -> bool)
    requires Ascending(v)
    ensures Ascending(Keeping(v, left))
  {
    if v != [] {
      var v', c := v[..|v| - 1], v[|v| - 1];
      KeepingAscending(v', left);
      var w := Keeping(v', left);
      forall i | 0 <= i < |w| ensures ChunkBefore(w[i], c) {
        KeepingMember(v', left, w[i]);
      }
      AscendingSnoc(w, c);
    }
  }

  // ---------- What is read ----------

  /** Whether the slot of a chunk is not lost. */
  function Readable(s: View, lost: set<nat>): nat -> bool
    requires |s.disk.chunks| > 0
  {
    (c: nat) => Mod(c, |s.disk.chunks|) !in lost
  }

  /** A chunk that can be read is in the slot of its number. */
  lemma StoredInSlot(s: View, i: nat)
    requires ViewOk(s) && ReadChunk(s.disk, s.header, i).Valid?
    ensures i == Mod(ReadChunk(s.disk, s.header, i).content.chunkSeq, |s.disk.chunks|)
  {
    assert SlotOk(s.disk.chunks[i].content, i, s.log, s.base, |s.disk.chunks|);
  }

  lemma DamagedDistinctive(s: View, lost: set<nat>)
    requires ViewOk(s)
    ensures Distinctive(Damaged(s.disk, lost))
  {
    ViewDistinctive(s);
  }

  /** The full scan of a damaged ring. */
  lemma AllIsKept(s: View, lost: set<nat>)
    requires ViewOk(s)
    ensures var d := Damaged(s.disk, lost);
            SortChunks(Collect(d, s.header, MaxChunks(s.header))) == Keeping(Visible(s), Readable(s, lost))
  {
    var d, h := Damaged(s.disk, lost), s.header;
    var found, w := Collect(d, h, MaxChunks(h)), Keeping(Visible(s), Readable(s, lost));
    DamagedDistinctive(s, lost);
    CollectDistinct(d, h, MaxChunks(h));
    CollectMembers(d, h, MaxChunks(h));
    VisibleAscending(s);
    KeepingAscending(Visible(s), Readable(s, lost));
    forall c ensures c in found <==> c in w {
      KeepingMember(Visible(s), Readable(s, lost), c);
      if c in found {
        var i: nat :| i < MaxChunks(h) && ReadChunk(d, h, i) == Valid(c);
        ReadDamaged(s.disk, h, lost, i);
        StoredIsVisible(s, i);
        StoredInSlot(s, i);
      }
      if c in w {
        VisibleIsStored(s, c);
        var i: nat :| i < MaxChunks(h) && ReadChunk(s.disk, h, i) == Valid(c);
        StoredInSlot(s, i);
        ReadDamaged(s.disk, h, lost, i);
        assert ReadChunk(d, h, i) == Valid(c);
      }
    }
    SortsTo(found, w);
  }

  /** One step of the backward scan of a damaged ring. */
  lemma KeptStep(s: View, lost: set<nat>, scanned: nat)
    requires ViewOk(s) && scanned < MaxChunks(s.header)
    ensures var rest, left := Ahead(s, scanned + 1), Readable(s, lost);
            match ReadChunk(Damaged(s.disk, lost), s.header, ScanIndex(s.header, scanned))
            case Invalid => Keeping(Ahead(s, scanned), left) == Keeping(rest, left)
            case Valid(c) => Keeping(Ahead(s, scanned), left) == Keeping(rest, left) + [c]
  {
    var i := ScanIndex(s.header, scanned);
    var slot, rest := ReadChunk(s.disk, s.header, i), Ahead(s, scanned + 1);
    ScanStep(s, scanned);
    ReadDamaged(s.disk, s.header, lost, i);
    if slot.Valid? {
      StoredInSlot(s, i);
      KeepingSnoc(rest, slot.content, Readable(s, lost));
    }
  }

  /** The backward scan of a damaged ring. */
  lemma {:induction false} RecentIsKept(s: View, lost: set<nat>, scanned: nat, limit: nat)
    requires ViewOk(s) && scanned <= MaxChunks(s.header)
    ensures forall r: nat :: Recent(Damaged(s.disk, lost), s.header, scanned, r, limit) ==
                             Back(Keeping(Ahead(s, scanned), Readable(s, lost)), r, limit)
    decreases MaxChunks(s.header) - scanned
  {
    if scanned == MaxChunks(s.header) {
      AheadEnds(s);
    } else {
      RecentIsKept(s, lost, scanned + 1, limit);
      KeptStep(s, lost, scanned);
      var d, h := Damaged(s.disk, lost), s.header;
      var v := Keeping(Ahead(s, scanned), Readable(s, lost));
      var rest := Keeping(Ahead(s, scanned + 1), Readable(s, lost));
      forall r: nat ensures Recent(d, h, scanned, r, limit) == Back(v, r, limit) {
        RecentStep(d, h, scanned, r, limit, rest);
      }
    }
  }

  /** The backward scan has it all, newest first, until there are enough records. */
  lemma KeptWalk(s: View, lost: set<nat>, limit: nat)
    requires ViewOk(s) && limit > 0
    ensures var older, newer := Keeping(Oldest(s), Readable(s, lost)), Keeping(Secure(s), Readable(s, lost));
            Read(Damaged(s.disk, lost), s.header, limit) ==
            KeepLast(Flat(SortChunks(Back(older + newer, 0, limit))), limit)
  {
    RecentIsKept(s, lost, 0, limit);
    assert Ahead(s, 0) == Oldest(s) + Secure(s);
    KeepingConcat(Oldest(s), Secure(s), Readable(s, lost));
  }

  lemma KeptVisible(s: View, lost: set<nat>)
    requires ViewOk(s)
    ensures var older, newer := Keeping(Oldest(s), Readable(s, lost)), Keeping(Secure(s), Readable(s, lost));
            Keeping(Visible(s), Readable(s, lost)) == if StaleVisible(s) then newer + older else older + newer
    ensures Ascending(Keeping(Visible(s), Readable(s, lost)))
    ensures Ascending(Keeping(Secure(s), Readable(s, lost)))
  {
    var left := Readable(s, lost);
    KeepingConcat(Oldest(s), Secure(s), left);
    KeepingConcat(Secure(s), Oldest(s), left);
    VisibleAscending(s);
    WindowAscending(s.log, Kept(s), |s.log|);
    KeepingAscending(Visible(s), left);
    KeepingAscending(Secure(s), left);
  }

  lemma StaleKept(s: View, lost: set<nat>)
    requires ViewOk(s) && StaleVisible(s)
    ensures Keeping(Oldest(s), Readable(s, lost)) ==
            if Readable(s, lost)(|s.log|) then [Oldest(s)[0]] else []
  {
    assert Oldest(s) == [Oldest(s)[0]];
    KeepingOne(Oldest(s)[0], Readable(s, lost));
  }

  /** The backward scan has enough records before it comes to the stale chunk. */
  ghost predicate StopsShort(s: View, lost: set<nat>, limit: int)
    requires ViewOk(s)
  {
    && StaleVisible(s) && Readable(s, lost)(|s.log|)
    && 0 < limit <= |Flat(Keeping(Secure(s), Readable(s, lost)))|
  }

  lemma RecentWithoutStale(s: View, lost: set<nat>, limit: nat)
    requires ViewOk(s) && limit > 0 && !(StaleVisible(s) && Readable(s, lost)(|s.log|))
    ensures Read(Damaged(s.disk, lost), s.header, limit) ==
            KeepLast(Flat(Keeping(Visible(s), Readable(s, lost))), limit)
  {
    KeptWalk(s, lost, limit);
    KeptVisible(s, lost);
    var w := Keeping(Secure(s), Readable(s, lost));
    if StaleVisible(s) {
      StaleKept(s, lost);
      assert w + [] == [] + w;
    }
    RecentOf(Keeping(Visible(s), Readable(s, lost)), limit);
  }

  lemma RecentWithStale(s: View, lost: set<nat>, limit: nat)
    requires ViewOk(s) && limit > 0 && StaleVisible(s) && Readable(s, lost)(|s.log|)
    ensures Read(Damaged(s.disk, lost), s.header, limit) ==
            KeepLast(Flat(Keeping(if StopsShort(s, lost, limit) then Secure(s) else Visible(s),
                                  Readable(s, lost))), limit)
  {
    KeptWalk(s, lost, limit);
    KeptVisible(s, lost);
    StaleKept(s, lost);
    var c, w := Oldest(s)[0], Keeping(Secure(s), Readable(s, lost));
    if StopsShort(s, lost, limit) {
      BackEnough(c, w, 0, limit);
      RecentOf(w, limit);
    } else {
      StaleMet(c, w, limit);
    }
  }

  /** The chunks a snapshot draws on, were nothing lost. */
  ghost function Scope(s: View, lost: set<nat>, limit: int): seq<Chunk>
    requires ViewOk(s)
  {
    if StopsShort(s, lost, limit) then Secure(s) else Visible(s)
  }

  /** What a snapshot with any limit returns, whatever slots are lost. */
  lemma DamagedReads(s: View, lost: set<nat>, limit: int)
    requires ViewOk(s)
    ensures Read(Damaged(s.disk, lost), s.header, limit) ==
            KeepLast(Flat(Keeping(Scope(s, lost, limit), Readable(s, lost))), limit)
  {
    if limit <= 0 {
      AllIsKept(s, lost);
    } else if StaleVisible(s) && Readable(s, lost)(|s.log|) {
      RecentWithStale(s, lost, limit);
    } else {
      RecentWithoutStale(s, lost, limit);
    }
  }

  // ---------- Gaps ----------

  /** The records of chunks [a, b) of the log whose slots are not lost. */
  function Remnant(log: seq<seq<Record>>, a: nat, b: nat, left: nat -> bool): seq<Record>
    requires a <= b <= |log|
    decreases b - a
  {
    if a == b then [] else (if left(a) then log[a] else []) + Remnant(log, a + 1, b, left)
  }

  lemma {:induction false} RemnantSnoc(log: seq<seq<Record>>, a: nat, b: nat, left: nat -> bool)
    requires a <= b < |log|
    ensures Remnant(log, a, b + 1, left) == Remnant(log, a, b, left) + if left(b) then log[b] else []
    decreases b - a
  {
    if a < b {
      RemnantSnoc(log, a + 1, b, left);
    }
  }

  /** The records of those of the first `n` chunks that are left. */
  function Salvage(v: seq<Chunk>, n: nat, left: nat -> bool): seq<Record>
    requires n <= |v|
  {
    if n == 0 then [] else Salvage(v, n - 1, left) + if left(v[n - 1].chunkSeq) then v[n - 1].records else []
  }

  lemma {:induction false} SalvageIsKept(v: seq<Chunk>, n: nat, left: nat -> bool)
    requires n <= |v|
    ensures Flat(Keeping(v[..n], left)) == Salvage(v, n, left)
  {
    if n == 0 {
      assert v[..0] == [];
    } else {
      var w, c := v[..n - 1], v[n - 1];
      SalvageIsKept(v, n - 1, left);
      assert v[..n] == w + [c];
      KeepingSnoc(w, c, left);
      FlatSnoc(Keeping(w, left), c);
      if !left(c.chunkSeq) { assert Keeping(w, left) + [] == Keeping(w, left); }
    }
  }

  lemma SalvageAll(v: seq<Chunk>, left: nat -> bool)
    ensures Flat(Keeping(v, left)) == Salvage(v, |v|, left)
  {
    SalvageIsKept(v, |v|, left);
    assert v[..|v|] == v;
  }

  lemma {:induction false} SalvageIsRemnant(v: seq<Chunk>, log: seq<seq<Record>>, a: nat, n: nat, left: nat -> bool)
    requires n <= |v| && a + n <= |log| && forall i :: 0 <= i < n ==> v[i] == ChunkAt(log, a + i)
    ensures Salvage(v, n, left) == Remnant(log, a, a + n, left)
  {
    if n > 0 {
      SalvageIsRemnant(v, log, a, n - 1, left);
      RemnantSnoc(log, a, a + n - 1, left);
    }
  }

  lemma KeptIsRemnant(v: seq<Chunk>, log: seq<seq<Record>>, a: nat, left: nat -> bool)
    requires a + |v| <= |log| && forall i :: 0 <= i < |v| ==> v[i] == ChunkAt(log, a + i)
    ensures Flat(Keeping(v, left)) == Remnant(log, a, a + |v|, left)
  {
    SalvageAll(v, left);
    SalvageIsRemnant(v, log, a, |v|, left);
  }

  lemma RemnantIsKept(log: seq<seq<Record>>, a: nat, b: nat, left: nat -> bool)
    requires a <= b <= |log|
    ensures Flat(Keeping(Window(log, a, b), left)) == Remnant(log, a, b, left)
  {
    KeptIsRemnant(Window(log, a, b), log, a, left);
  }

  /** The snapshot gets back beyond chunk `y`. */
  ghost predicate Reaches(log: seq<seq<Record>>, y: nat, b: nat, left: nat -> bool, limit: int)
    requires y <= b <= |log|
  {
    limit <= 0 || |Remnant(log, y, b, left)| < limit
  }

  /** A lost chunk with a chunk left behind it, and one left before it that the snapshot still reaches. */
  ghost predicate ShowsHole(log: seq<seq<Record>>, a: nat, b: nat, left: nat -> bool, limit: int)
    requires a <= b <= |log|
  {
    exists x, y, z :: a <= x < y < z < b && left(x) && !left(y) && left(z)
                      && Reaches(log, y, b, left, limit)
  }

  /** Records in front of others make a gap exactly if the numbers do not meet. */
  lemma GapInFront(xs: seq<Record>, ys: seq<Record>, first: nat)
    requires xs != [] && Numbered(xs, first)
    ensures GapFree(xs + ys) <==> GapFree(ys) && (ys == [] || ys[0].seqNo == first + |xs|)
  {
    var rs := xs + ys;
    if GapFree(rs) {
      var f: nat :| Numbered(rs, f);
      assert rs[0] == xs[0];
      assert forall k :: 0 <= k < |ys| ==> ys[k] == rs[|xs| + k];
      assert Numbered(ys, f + |xs|);
      if ys != [] { assert rs[|xs|] == ys[0]; }
    }
    if GapFree(ys) && (ys == [] || ys[0].seqNo == first + |xs|) {
      var f: nat :| Numbered(ys, f);
      NumberedConcat(xs, ys, first);
    }
  }

  /** The first chunk left of a stretch, or its end. */
  lemma {:induction false} FirstLeft(log: seq<seq<Record>>, a: nat, b: nat, left: nat -> bool) returns (f: nat)
    requires LogOk(log) && a <= b <= |log|
    ensures a <= f <= b && forall x :: a <= x < f ==> !left(x)
    ensures var rest := Remnant(log, a, b, left);
            if f == b then rest == [] else left(f) && rest != [] && rest[0].seqNo == Count(log, f)
    decreases b - a
  {
    if a == b {
      f := b;
    } else if left(a) {
      f := a;
      assert Filled(ChunkAt(log, a));
    } else {
      f := FirstLeft(log, a + 1, b, left);
    }
  }

  lemma {:induction false} NoneLeft(log: seq<seq<Record>>, a: nat, y: nat, b: nat, left: nat -> bool)
    requires a <= y <= b <= |log| && forall x :: a <= x < y ==> !left(x)
    ensures Remnant(log, a, b, left) == Remnant(log, y, b, left)
    decreases y - a
  {
    if a < y {
      NoneLeft(log, a + 1, y, b, left);
    }
  }

  /** Records in front of chunk `y` come from a chunk that is left. */
  lemma {:induction false} LeftBefore(log: seq<seq<Record>>, a: nat, y: nat, b: nat, left: nat -> bool) returns (x: nat)
    requires a <= y <= b <= |log| && |Remnant(log, a, b, left)| != |Remnant(log, y, b, left)|
    ensures a <= x < y && left(x)
    decreases y - a
  {
    if left(a) { x := a; } else { x := LeftBefore(log, a + 1, y, b, left); }
  }

  /** A first chunk that is lost or that the snapshot does not reach does not matter. */
  lemma HoleBehind(log: seq<seq<Record>>, a: nat, b: nat, left: nat -> bool, limit: int)
    requires a < b <= |log| && (!left(a) || 0 < limit <= |Remnant(log, a + 1, b, left)|)
    ensures ShowsHole(log, a, b, left, limit) <==> ShowsHole(log, a + 1, b, left, limit)
  {
    if ShowsHole(log, a, b, left, limit) {
      var x, y, z :| a <= x < y < z < b && left(x) && !left(y) && left(z)
                     && Reaches(log, y, b, left, limit);
      if x == a {
        var x' := LeftBefore(log, a + 1, y, b, left);
        assert a + 1 <= x' < y && left(x');
      }
    }
  }

  /** A first chunk that is reached makes a gap exactly if the next one is lost and another is left. */
  lemma HoleInFront(log: seq<seq<Record>>, a: nat, b: nat, left: nat -> bool, limit: int)
    requires LogOk(log) && a < b <= |log| && left(a) && Reaches(log, a + 1, b, left, limit)
    ensures ShowsHole(log, a, b, left, limit) <==>
            || ShowsHole(log, a + 1, b, left, limit)
            || (a + 1 < b && !left(a + 1) && Remnant(log, a + 1, b, left) != [])
  {
    var f := FirstLeft(log, a + 1, b, left);
    if a + 1 < b && !left(a + 1) && Remnant(log, a + 1, b, left) != [] {
      assert a < a + 1 < f && left(a) && !left(a + 1) && left(f);
    }
    if ShowsHole(log, a, b, left, limit) && left(a + 1) {
      var x, y, z :| a <= x < y < z < b && left(x) && !left(y) && left(z)
                     && Reaches(log, y, b, left, limit);
      var x' := if x == a then a + 1 else x;
      assert a + 1 <= x' < y && left(x');
    }
  }

  /** The cut falls into the first chunk, or before it. */
  lemma CutInside(log: seq<seq<Record>>, a: nat, b: nat, left: nat -> bool, limit: int)
    requires LogOk(log) && a < b <= |log| && left(a) && Reaches(log, a + 1, b, left, limit)
    ensures var rest := Remnant(log, a + 1, b, left);
            GapFree(KeepLast(log[a] + rest, limit)) <==>
            GapFree(rest) && !(a + 1 < b && !left(a + 1) && rest != [])
  {
    var rest := Remnant(log, a + 1, b, left);
    assert Filled(ChunkAt(log, a));
    CutRecords(log[a], rest, Count(log, a), limit);
    var f := FirstLeft(log, a + 1, b, left);
    if rest != [] && f > a + 1 { CountGrows(log, a + 1, f); }
  }

  lemma CutRecords(xs: seq<Record>, ys: seq<Record>, first: nat, limit: int)
    requires xs != [] && Numbered(xs, first) && (limit <= 0 || |ys| < limit)
    ensures GapFree(KeepLast(xs + ys, limit)) <==> GapFree(ys) && (ys == [] || ys[0].seqNo == first + |xs|)
  {
    var cut := |xs + ys| - |KeepLast(xs + ys, limit)|;
    assert KeepLast(xs + ys, limit) == xs[cut..] + ys;
    GapInFront(xs[cut..], ys, first + cut);
  }

  /** The first chunk does not matter. */
  lemma ExactBehind(log: seq<seq<Record>>, a: nat, b: nat, left: nat -> bool, limit: int)
    requires a < b <= |log| && (!left(a) || 0 < limit <= |Remnant(log, a + 1, b, left)|)
    ensures KeepLast(Remnant(log, a, b, left), limit) == KeepLast(Remnant(log, a + 1, b, left), limit)
  {
    var rest := Remnant(log, a + 1, b, left);
    if left(a) { KeepLastOfSuffix(log[a], rest, limit); } else { assert [] + rest == rest; }
  }

  /** A stretch of the log with losses, cut to a limit, has a gap exactly if it shows a hole. */
  lemma {:induction false} HoleExactly(log: seq<seq<Record>>, a: nat, b: nat, left: nat -> bool, limit: int)
    requires LogOk(log) && a <= b <= |log|
    ensures GapFree(KeepLast(Remnant(log, a, b, left), limit)) <==> !ShowsHole(log, a, b, left, limit)
    decreases b - a
  {
    if a == b {
      assert Numbered([], 0);
    } else {
      HoleExactly(log, a + 1, b, left, limit);
      if !left(a) || 0 < limit <= |Remnant(log, a + 1, b, left)| {
        ExactBehind(log, a, b, left, limit);
        HoleBehind(log, a, b, left, limit);
      } else {
        HoleInFront(log, a, b, left, limit);
        CutInside(log, a, b, left, limit);
      }
    }
  }

  /** The committed log, with the stale chunk if there is one in view. */
  ghost function Seen(s: View): seq<seq<Record>>
    requires ViewOk(s)
  {
    if StaleVisible(s) then s.log + [Oldest(s)[0].records] else s.log
  }

  lemma {:induction false} WindowPrefix(log: seq<seq<Record>>, rs: seq<Record>, a: nat, b: nat)
    requires a <= b <= |log|
    ensures Window(log + [rs], a, b) == Window(log, a, b)
  {
    ChunksSnoc(log, rs);
  }

  lemma VisibleIsWindow(s: View)
    requires ViewOk(s)
    ensures LogOk(Seen(s)) && Visible(s) == Window(Seen(s), From(s), |Seen(s)|)
    ensures Secure(s) == Window(Seen(s), Kept(s), |s.log|)
  {
    if StaleVisible(s) {
      OldestIs(s);
      var c := Oldest(s)[0];
      assert Oldest(s) == [c];
      LogSnoc(s.log, c);
      WindowPrefix(s.log, c.records, Kept(s), |s.log|);
    } else {
      VisibleWindow(s);
    }
  }

  /** A snapshot of the damaged ring shows a hole. */
  ghost predicate Gap(s: View, lost: set<nat>, limit: int)
    requires ViewOk(s)
  {
    if StopsShort(s, lost, limit) then ShowsHole(s.log, Kept(s), |s.log|, Readable(s, lost), limit)
    else ShowsHole(Seen(s), From(s), |Seen(s)|, Readable(s, lost), limit)
  }

  /** Whatever slots are lost, a snapshot with any limit has a gap exactly if a lost chunk lies between two chunks that
      it draws records from. */
  lemma GapExactly(s: View, lost: set<nat>, limit: int)
    requires ViewOk(s)
    ensures GapFree(Read(Damaged(s.disk, lost), s.header, limit)) <==> !Gap(s, lost, limit)
  {
    DamagedReads(s, lost, limit);
    VisibleIsWindow(s);
    if StopsShort(s, lost, limit) {
      RemnantIsKept(s.log, Kept(s), |s.log|, Readable(s, lost));
      HoleExactly(s.log, Kept(s), |s.log|, Readable(s, lost), limit);
    } else {
      RemnantIsKept(Seen(s), From(s), |Seen(s)|, Readable(s, lost));
      HoleExactly(Seen(s), From(s), |Seen(s)|, Readable(s, lost), limit);
    }
  }

  /** If the full snapshot has no gap, no snapshot has one. */
  lemma LimitAddsNoGap(s: View, lost: set<nat>, limit: int)
    requires ViewOk(s) && Gap(s, lost, limit)
    ensures Gap(s, lost, 0)
  {
    var left := Readable(s, lost);
    var log, a, b := Seen(s), From(s), |Seen(s)|;
    if StopsShort(s, lost, limit) {
      var x, y, z :| Kept(s) <= x < y < z < |s.log| && left(x) && !left(y) && left(z)
                     && Reaches(s.log, y, |s.log|, left, limit);
      assert Reaches(log, y, b, left, 0);
    } else {
      var x, y, z :| a <= x < y < z < b && left(x) && !left(y) && left(z)
                     && Reaches(log, y, b, left, limit);
      assert Reaches(log, y, b, left, 0);
    }
  }
}
