/** Reading the capture ring: canring/ring.go, Reader.Snapshot with its "all" and "recent" paths.

    In every state the writer can leave behind, crashes included, a snapshot is a gap-free
    run of sequence numbers: the tail of the committed log, possibly followed by the one
    chunk whose header never made it to disk.
  */
module CaptureRingReader {
  import opened CaptureRing
  import opened Sequences
  import opened Wrappers
  import opened Wrapping

  // ---------- The reader ----------

  /** Under another geometry the data region was cleared, so nothing decodes. */
  function ReadChunk(d: Disk, h: Header, i: nat): Slot<Chunk> {
    if h.geometry == d.geometry && i < |d.chunks| then d.chunks[i] else Invalid
  }

  function MaxChunks(h: Header): nat {
    if h.totalChunks < h.geometry.chunkCount then h.totalChunks else h.geometry.chunkCount
  }

  function Collect(d: Disk, h: Header, n: nat): seq<Chunk> {
    if n == 0 then []
    else
      match ReadChunk(d, h, n - 1)
      case Valid(c) => Collect(d, h, n - 1) + [c]
      case Invalid => Collect(d, h, n - 1)
  }

  method ReadAllChunks(d: Disk, h: Header) returns (chunks: seq<Chunk>)
    ensures chunks == Collect(d, h, MaxChunks(h))
  {
    chunks := [];
    for i := 0 to MaxChunks(h)
      invariant chunks == Collect(d, h, i)
    {
      var slot := ReadChunk(d, h, i);
      if slot.Valid? {
        chunks := chunks + [slot.content];
      }
    }
  }

  function ScanIndex(h: Header, scanned: nat): nat
    requires scanned < h.geometry.chunkCount
  {
    Mod(h.nextChunk + h.geometry.chunkCount - 1 - scanned, h.geometry.chunkCount)
  }

  /** The chunks met when walking back from the newest until `limit` records are in hand. */
  function Recent(d: Disk, h: Header, scanned: nat, records: nat, limit: nat): seq<Chunk>
    requires scanned <= MaxChunks(h)
    decreases MaxChunks(h) - scanned
  {
    if scanned == MaxChunks(h) then []
    else
      match ReadChunk(d, h, ScanIndex(h, scanned))
      case Invalid => Recent(d, h, scanned + 1, records, limit)
      case Valid(c) =>
        if records + |c.records| >= limit then [c]
        else [c] + Recent(d, h, scanned + 1, records + |c.records|, limit)
  }

  method ReadRecentChunks(d: Disk, h: Header, limit: nat) returns (chunks: seq<Chunk>)
    ensures chunks == Recent(d, h, 0, 0, limit)
  {
    chunks := [];
    var records: nat, scanned: nat := 0, 0;
    while scanned < MaxChunks(h)
      invariant scanned <= MaxChunks(h)
      invariant chunks + Recent(d, h, scanned, records, limit) == Recent(d, h, 0, 0, limit)
    {
      var slot := ReadChunk(d, h, ScanIndex(h, scanned));
      if slot.Valid? {
        chunks := chunks + [slot.content];
        records := records + |slot.content.records|;
        if records >= limit {
          return;
        }
      }
      scanned := scanned + 1;
    }
  }

  predicate ChunkBefore(a: Chunk, b: Chunk) {
    a.firstSeq < b.firstSeq || (a.firstSeq == b.firstSeq && a.chunkSeq < b.chunkSeq)
  }

  function InsertChunk(x: Chunk, s: seq<Chunk>): (r: seq<Chunk>)
    ensures forall c :: c in r <==> c == x || c in s
  {
    if s == [] || !ChunkBefore(s[0], x) then [x] + s else [s[0]] + InsertChunk(x, s[1..])
  }

  function SortChunks(s: seq<Chunk>): (r: seq<Chunk>)
    ensures forall c :: c in r <==> c in s
  {
    if s == [] then [] else InsertChunk(s[0], SortChunks(s[1..]))
  }

  /** The records of the first `n` chunks. */
  function FlatTo(chunks: seq<Chunk>, n: nat): seq<Record>
    requires n <= |chunks|
  {
    if n == 0 then [] else FlatTo(chunks, n - 1) + chunks[n - 1].records
  }

  function Flat(chunks: seq<Chunk>): seq<Record> {
    FlatTo(chunks, |chunks|)
  }

  function SnapshotChunks(d: Disk, h: Header, limit: int): seq<Chunk> {
    if limit <= 0 then Collect(d, h, MaxChunks(h)) else Recent(d, h, 0, 0, limit)
  }

  function Read(d: Disk, h: Header, limit: int): seq<Record> {
    KeepLast(Flat(SortChunks(SnapshotChunks(d, h, limit))), limit)
  }

  /** None when no superblock is readable. */
  function Snapshot(d: Disk, limit: int): Option<seq<Record>> {
    match Latest(d.supers)
    case None => None
    case Some(h) => Some(Read(d, h, limit))
  }

  method TakeSnapshot(d: Disk, limit: int) returns (snapshot: Option<seq<Record>>)
    ensures snapshot == Snapshot(d, limit)
  {
    var h := ReadLatestHeader(d);
    if h.None? {
      return None;
    }
    var chunks;
    if limit <= 0 {
      chunks := ReadAllChunks(d, h.value);
    } else {
      chunks := ReadRecentChunks(d, h.value, limit);
    }
    chunks := SortChunks(chunks);
    var records := [];
    for i := 0 to |chunks|
      invariant records == FlatTo(chunks, i)
    {
      records := records + chunks[i].records;
    }
    if limit > 0 && |records| > limit {
      records := records[|records| - limit..];
    }
    return Some(records);
  }

  // ---------- Sorting distinct chunks ----------

  ghost predicate Ascending(s: seq<Chunk>) {
    forall i, j :: 0 <= i < j < |s| ==> ChunkBefore(s[i], s[j])
  }

  ghost predicate SameMembers(s: seq<Chunk>, t: seq<Chunk>) {
    forall c :: c in s <==> c in t
  }

  ghost predicate NoDuplicates(s: seq<Chunk>) {
    forall i, j :: 0 <= i < j < |s| ==> s[i] != s[j]
  }

  lemma {:induction false} AscendingUnique(s: seq<Chunk>, t: seq<Chunk>)
    requires Ascending(s) && Ascending(t) && SameMembers(s, t)
    ensures s == t
  {
    assert s != [] ==> s[0] in t;
    assert t != [] ==> t[0] in s;
    if s != [] {
      assert s[0] in t && t[0] in s;
      assert s[0] == t[0];
      forall c ensures c in s[1..] <==> c in t[1..] {
        assert c in s <==> c in t;
        assert c in s[1..] ==> c != s[0];
        assert c in t[1..] ==> c != t[0];
      }
      AscendingUnique(s[1..], t[1..]);
    }
  }

  lemma {:induction false} InsertAscending(x: Chunk, s: seq<Chunk>)
    requires Ascending(s) && (forall c :: c in s ==> ChunkBefore(x, c) || ChunkBefore(c, x))
    ensures Ascending(InsertChunk(x, s))
  {
    if s == [] {
    } else if !ChunkBefore(s[0], x) {
      assert s[0] in s;
    } else {
      InsertAscending(x, s[1..]);
      var t := InsertChunk(x, s[1..]);
      forall j | 0 <= j < |t| ensures ChunkBefore(s[0], t[j]) {
        assert t[j] in t;
      }
    }
  }

  lemma {:induction false} SortsToAscending(s: seq<Chunk>, w: seq<Chunk>)
    requires NoDuplicates(s) && Ascending(w) && (forall c :: c in s ==> c in w)
    ensures Ascending(SortChunks(s))
  {
    if s != [] {
      SortsToAscending(s[1..], w);
      forall c | c in SortChunks(s[1..]) ensures ChunkBefore(s[0], c) || ChunkBefore(c, s[0]) {
        assert c in s[1..] && c in s && s[0] in s;
      }
      InsertAscending(s[0], SortChunks(s[1..]));
    }
  }

  /** Sorting any listing of the chunks of an ascending list gives that list. */
  lemma SortsTo(s: seq<Chunk>, w: seq<Chunk>)
    requires NoDuplicates(s) && Ascending(w) && SameMembers(s, w)
    ensures SortChunks(s) == w
  {
    SortsToAscending(s, w);
    AscendingUnique(SortChunks(s), w);
  }

  // ---------- What a snapshot sees ----------

  /** A disk whose latest header is `header`, with the history it stands for. */
  datatype View = View(disk: Disk, header: Header, log: seq<seq<Record>>, base: nat)

  ghost predicate ViewOk(s: View) {
    && ValidGeometry(s.disk.geometry) && |s.disk.chunks| == s.disk.geometry.chunkCount
    && LogOk(s.log) && s.base <= |s.log| && HeaderOk(s.header, s.log)
    && (if s.header.geometry == s.disk.geometry then ChunksOk(s.disk.chunks, s.log, s.base)
        else s.disk.chunks == Blank(s.disk.geometry) && s.base == |s.log|)
  }

  ghost function ViewOf(s: Ring): View
    requires Latest(s.disk.supers).Some?
  {
    View(s.disk, Latest(s.disk.supers).value, s.log, s.base)
  }

  function Window(log: seq<seq<Record>>, a: nat, b: nat): (w: seq<Chunk>)
    requires a <= b <= |log|
    ensures |w| == b - a && forall i :: 0 <= i < b - a ==> w[i] == ChunkAt(log, a + i)
    decreases b
  {
    if a == b then [] else Window(log, a, b - 1) + [ChunkAt(log, b - 1)]
  }

  /** The records of chunks [a, b) of the log, in order. */
  function Join(log: seq<seq<Record>>, a: nat, b: nat): seq<Record>
    requires a <= b <= |log|
    decreases b
  {
    if a == b then [] else Join(log, a, b - 1) + log[b - 1]
  }

  /** The chunk, if any, in the slot that will be overwritten next, when the reader looks at it. */
  ghost function Oldest(s: View): seq<Chunk>
    requires ViewOk(s)
  {
    var t := |s.log|;
    if s.header.geometry == s.disk.geometry && t >= |s.disk.chunks| && s.disk.chunks[Mod(t, |s.disk.chunks|)].Valid?
    then [s.disk.chunks[Mod(t, |s.disk.chunks|)].content] else []
  }

  /** The first chunk that is certainly still on disk. */
  ghost function Kept(s: View): nat
    requires ViewOk(s)
    ensures Kept(s) <= |s.log|
  {
    if s.base + |s.disk.chunks| <= |s.log| then |s.log| + 1 - |s.disk.chunks| else s.base
  }

  ghost function Secure(s: View): seq<Chunk>
    requires ViewOk(s)
  {
    Window(s.log, Kept(s), |s.log|)
  }

  /** A chunk written before a crash whose header never became durable, and which the reader meets. */
  ghost predicate StaleVisible(s: View)
    requires ViewOk(s)
  {
    Oldest(s) != [] && Oldest(s)[0].chunkSeq == |s.log|
  }

  ghost function Visible(s: View): seq<Chunk>
    requires ViewOk(s)
  {
    if StaleVisible(s) then Secure(s) + Oldest(s) else Oldest(s) + Secure(s)
  }

  lemma {:induction false} CountGrows(log: seq<seq<Record>>, a: nat, b: nat)
    requires LogOk(log) && a < b <= |log|
    ensures Count(log, a) + |log[a]| <= Count(log, b) && log[a] != []
    decreases b
  {
    assert Filled(ChunkAt(log, a)) && Filled(ChunkAt(log, b - 1));
    if a < b - 1 { CountGrows(log, a, b - 1); }
  }

  lemma WindowAscending(log: seq<seq<Record>>, a: nat, b: nat)
    requires LogOk(log) && a <= b <= |log|
    ensures Ascending(Window(log, a, b))
  {
    forall i, j | 0 <= i < j < b - a
      ensures ChunkBefore(Window(log, a, b)[i], Window(log, a, b)[j])
    {
      CountGrows(log, a + i, a + j);
    }
  }

  /** The oldest slot holds nothing, the chunk just before the secure ones, or the stale one. */
  lemma OldestIs(s: View)
    requires ViewOk(s) && Oldest(s) != []
    ensures StaleVisible(s) ==> Follows(Oldest(s)[0], s.log)
    ensures !StaleVisible(s) ==> Kept(s) > 0 && Oldest(s)[0] == ChunkAt(s.log, Kept(s) - 1)
  {
    var n, t := |s.disk.chunks|, |s.log|;
    var c := Oldest(s)[0];
    assert SlotOk(c, Mod(t, n), s.log, s.base, n);
    if c.chunkSeq < t {
      if t < c.chunkSeq + n { ModDistinct(c.chunkSeq, t, n); }
      assert c.chunkSeq == t - n;
    }
  }

  lemma WindowCons(log: seq<seq<Record>>, a: nat, b: nat)
    requires a < b <= |log|
    ensures Window(log, a, b) == [ChunkAt(log, a)] + Window(log, a + 1, b)
  {
  }

  lemma OldestJoins(s: View)
    requires ViewOk(s) && Oldest(s) != [] && !StaleVisible(s)
    ensures Kept(s) > 0 && Visible(s) == Window(s.log, Kept(s) - 1, |s.log|)
  {
    OldestIs(s);
    var first := ChunkAt(s.log, Kept(s) - 1);
    assert Oldest(s) == [first];
    assert Visible(s) == [first] + Secure(s);
    WindowCons(s.log, Kept(s) - 1, |s.log|);
  }

  lemma AscendingSnoc(w: seq<Chunk>, c: Chunk)
    requires Ascending(w) && forall i :: 0 <= i < |w| ==> ChunkBefore(w[i], c)
    ensures Ascending(w + [c])
  {
  }

  lemma StaleAscending(s: View)
    requires ViewOk(s) && StaleVisible(s)
    ensures Ascending(Secure(s) + Oldest(s))
  {
    OldestIs(s);
    var w, c := Secure(s), Oldest(s)[0];
    WindowAscending(s.log, Kept(s), |s.log|);
    forall i | 0 <= i < |w| ensures ChunkBefore(w[i], c) {
      CountGrows(s.log, Kept(s) + i, |s.log|);
    }
    AscendingSnoc(w, c);
    assert Oldest(s) == [c];
  }

  lemma VisibleAscending(s: View)
    requires ViewOk(s)
    ensures Ascending(Visible(s))
  {
    if StaleVisible(s) {
      StaleAscending(s);
    } else if Oldest(s) == [] {
      WindowAscending(s.log, Kept(s), |s.log|);
      assert Visible(s) == Secure(s);
    } else {
      OldestJoins(s);
      WindowAscending(s.log, Kept(s) - 1, |s.log|);
    }
  }

  lemma {:induction false} CollectMembers(d: Disk, h: Header, n: nat)
    ensures forall c :: c in Collect(d, h, n) <==> exists i: nat :: i < n && ReadChunk(d, h, i) == Valid(c)
  {
    if n > 0 {
      CollectMembers(d, h, n - 1);
      forall c ensures c in Collect(d, h, n) <==> exists i: nat :: i < n && ReadChunk(d, h, i) == Valid(c) {
        if c in Collect(d, h, n) {
          if ReadChunk(d, h, n - 1) != Valid(c) {
            assert c in Collect(d, h, n - 1);
            var i: nat :| i < n - 1 && ReadChunk(d, h, i) == Valid(c);
            assert i < n;
          }
        }
        if i: nat :| i < n && ReadChunk(d, h, i) == Valid(c) {
          if i < n - 1 { assert c in Collect(d, h, n - 1); }
        }
      }
    }
  }

  ghost predicate Distinctive(d: Disk) {
    forall i, j :: 0 <= i < j < |d.chunks| && d.chunks[i].Valid? ==> d.chunks[i] != d.chunks[j]
  }

  lemma {:induction false} CollectDistinct(d: Disk, h: Header, n: nat)
    requires Distinctive(d)
    ensures NoDuplicates(Collect(d, h, n))
  {
    if n > 0 {
      CollectDistinct(d, h, n - 1);
      CollectMembers(d, h, n - 1);
    }
  }

  lemma ViewDistinctive(s: View)
    requires ViewOk(s)
    ensures Distinctive(s.disk)
  {
    forall i | 0 <= i < |s.disk.chunks| && s.disk.chunks[i].Valid?
      ensures Mod(s.disk.chunks[i].content.chunkSeq, |s.disk.chunks|) == i
    {
      if s.header.geometry == s.disk.geometry {
        assert SlotOk(s.disk.chunks[i].content, i, s.log, s.base, |s.disk.chunks|);
      }
    }
  }

  /** Where a secure chunk is. */
  lemma SecureStored(s: View, j: nat)
    requires ViewOk(s) && Kept(s) <= j < |s.log|
    ensures s.header.geometry == s.disk.geometry && Mod(j, |s.disk.chunks|) < MaxChunks(s.header)
    ensures s.disk.chunks[Mod(j, |s.disk.chunks|)] == Valid(ChunkAt(s.log, j))
  {
  }

  lemma WindowMember(log: seq<seq<Record>>, a: nat, b: nat, c: Chunk) returns (j: nat)
    requires a <= b <= |log| && c in Window(log, a, b)
    ensures a <= j < b && c == ChunkAt(log, j)
  {
    var k :| 0 <= k < b - a && Window(log, a, b)[k] == c;
    j := a + k;
  }

  lemma VisibleIsStored(s: View, c: Chunk)
    requires ViewOk(s) && c in Visible(s)
    ensures exists i: nat :: i < MaxChunks(s.header) && ReadChunk(s.disk, s.header, i) == Valid(c)
  {
    if c in Secure(s) {
      var j := WindowMember(s.log, Kept(s), |s.log|, c);
      SecureStored(s, j);
      assert ReadChunk(s.disk, s.header, Mod(j, |s.disk.chunks|)) == Valid(c);
    } else {
      assert c in Oldest(s);
      var i := Mod(|s.log|, |s.disk.chunks|);
      assert i < MaxChunks(s.header) && ReadChunk(s.disk, s.header, i) == Valid(c);
    }
  }

  lemma StoredIsVisible(s: View, i: nat)
    requires ViewOk(s) && i < MaxChunks(s.header) && ReadChunk(s.disk, s.header, i).Valid?
    ensures ReadChunk(s.disk, s.header, i).content in Visible(s)
  {
    var n, t := |s.disk.chunks|, |s.log|;
    var c := ReadChunk(s.disk, s.header, i).content;
    assert SlotOk(c, i, s.log, s.base, n);
    if c.chunkSeq < t < c.chunkSeq + n {
      assert Secure(s)[c.chunkSeq - Kept(s)] == c;
    } else {
      if c.chunkSeq == t && t < n {
        assert false;
      }
      assert Mod(c.chunkSeq + n, n) == Mod(c.chunkSeq, n);
      assert i == Mod(t, n);
      assert Oldest(s) == [c];
    }
  }

  /** The "all" path sees exactly the visible chunks, in order. */
  lemma AllIsVisible(s: View)
    requires ViewOk(s)
    ensures SortChunks(Collect(s.disk, s.header, MaxChunks(s.header))) == Visible(s)
  {
    var x := Collect(s.disk, s.header, MaxChunks(s.header));
    CollectMembers(s.disk, s.header, MaxChunks(s.header));
    ViewDistinctive(s);
    CollectDistinct(s.disk, s.header, MaxChunks(s.header));
    VisibleAscending(s);
    forall c ensures c in x <==> c in Visible(s) {
      if c in x {
        var i: nat :| i < MaxChunks(s.header) && ReadChunk(s.disk, s.header, i) == Valid(c);
        StoredIsVisible(s, i);
      }
      if c in Visible(s) { VisibleIsStored(s, c); }
    }
    SortsTo(x, Visible(s));
  }

  // ---------- Contents and numbering ----------

  lemma {:induction false} FlatWindow(log: seq<seq<Record>>, a: nat, b: nat)
    requires a <= b <= |log|
    ensures Flat(Window(log, a, b)) == Join(log, a, b)
    decreases b
  {
    if a < b {
      FlatWindow(log, a, b - 1);
      FlatSnoc(Window(log, a, b - 1), ChunkAt(log, b - 1));
    }
  }

  lemma NumberedConcat(xs: seq<Record>, ys: seq<Record>, first: nat)
    requires Numbered(xs, first) && Numbered(ys, first + |xs|)
    ensures Numbered(xs + ys, first)
  {
  }

  lemma {:induction false} JoinNumbered(log: seq<seq<Record>>, a: nat, b: nat)
    requires LogOk(log) && a <= b <= |log|
    ensures |Join(log, a, b)| == Count(log, b) - Count(log, a)
    ensures Numbered(Join(log, a, b), Count(log, a))
    decreases b
  {
    if a < b {
      JoinNumbered(log, a, b - 1);
      assert Filled(ChunkAt(log, b - 1));
      NumberedConcat(Join(log, a, b - 1), log[b - 1], Count(log, a));
    }
  }

  lemma FlatSnoc(chunks: seq<Chunk>, c: Chunk)
    ensures Flat(chunks + [c]) == Flat(chunks) + c.records
  {
    FlatPrefix(chunks, [c], |chunks|);
  }

  lemma {:induction false} FlatPrefix(a: seq<Chunk>, b: seq<Chunk>, n: nat)
    requires n <= |a|
    ensures FlatTo(a + b, n) == FlatTo(a, n)
  {
    if n > 0 {
      FlatPrefix(a, b, n - 1);
    }
  }

  /** From which committed chunk on a snapshot starts. */
  ghost function From(s: View): nat
    requires ViewOk(s)
  {
    if Oldest(s) != [] && !StaleVisible(s) && Kept(s) > 0 then Kept(s) - 1 else Kept(s)
  }

  ghost function StaleRecords(s: View): seq<Record>
    requires ViewOk(s)
  {
    if StaleVisible(s) then Oldest(s)[0].records else []
  }

  lemma FlatVisible(s: View)
    requires ViewOk(s)
    ensures Flat(Visible(s)) == Join(s.log, From(s), |s.log|) + StaleRecords(s)
  {
    FlatWindow(s.log, From(s), |s.log|);
    if StaleVisible(s) {
      FlatStale(s);
    } else {
      VisibleWindow(s);
    }
  }

  lemma FlatStale(s: View)
    requires ViewOk(s) && StaleVisible(s)
    ensures Flat(Visible(s)) == Flat(Secure(s)) + Oldest(s)[0].records
  {
    assert Oldest(s) == [Oldest(s)[0]];
    FlatSnoc(Secure(s), Oldest(s)[0]);
  }

  lemma VisibleWindow(s: View)
    requires ViewOk(s) && !StaleVisible(s)
    ensures Visible(s) == Window(s.log, From(s), |s.log|)
  {
    if Oldest(s) == [] {
      assert [] + Secure(s) == Secure(s);
    } else {
      OldestJoins(s);
    }
  }

  lemma VisibleNumbered(s: View)
    requires ViewOk(s)
    ensures Numbered(Join(s.log, From(s), |s.log|) + StaleRecords(s), Count(s.log, From(s)))
    ensures |Join(s.log, From(s), |s.log|)| == Count(s.log, |s.log|) - Count(s.log, From(s))
  {
    var t := |s.log|;
    JoinNumbered(s.log, From(s), t);
    if StaleVisible(s) { OldestIs(s); }
  }

  lemma FullSnapshot(s: View)
    requires ViewOk(s)
    ensures Read(s.disk, s.header, 0) == Flat(Visible(s)) == Join(s.log, From(s), |s.log|) + StaleRecords(s)
  {
    AllIsVisible(s);
    FlatVisible(s);
  }

  ghost predicate GapFree(rs: seq<Record>) {
    exists first: nat :: Numbered(rs, first)
  }

  lemma KeepLastGapFree(rs: seq<Record>, first: nat, limit: int)
    requires Numbered(rs, first)
    ensures GapFree(KeepLast(rs, limit))
  {
    var kept := KeepLast(rs, limit);
    assert Numbered(kept, first + (|rs| - |kept|));
  }

  /** In every state of every run, crashes included, a full snapshot is the tail of the committed log,
      at least all but one of the chunks the file has room for, followed by at most one chunk that was
      never committed; its sequence numbers have no gap. */
  lemma SnapshotIsLogTail(states: seq<Ring>, i: nat)
    requires Run(states) && i < |states|
    ensures var s := states[i];
            && (Latest(s.disk.supers).None? <==> Snapshot(s.disk, 0).None?)
            && (Latest(s.disk.supers).Some? ==>
                  var v := ViewOf(s);
                  && ViewOk(v)
                  && Snapshot(s.disk, 0) == Some(Join(s.log, From(v), |s.log|) + StaleRecords(v))
                  && Numbered(Join(s.log, From(v), |s.log|) + StaleRecords(v), Count(s.log, From(v)))
                  && (From(v) <= s.base || From(v) + |s.disk.chunks| <= |s.log| + 1))
  {
    RunKeeps(states, i);
    if Latest(states[i].disk.supers).Some? {
      FullSnapshot(ViewOf(states[i]));
      VisibleNumbered(ViewOf(states[i]));
    }
  }

  // ---------- The recent path ----------

  /** Walking back over `v`, newest last, until `limit` records are in hand. */
  function Back(v: seq<Chunk>, records: nat, limit: nat): seq<Chunk> {
    if v == [] then []
    else
      var c := v[|v| - 1];
      if records + |c.records| >= limit then [c] else [c] + Back(v[..|v| - 1], records + |c.records|, limit)
  }

  /** What is left to meet after `scanned` slots; the slot of the oldest chunk comes last. */
  ghost function Ahead(s: View, scanned: nat): seq<Chunk>
    requires ViewOk(s) && scanned <= MaxChunks(s.header)
  {
    if scanned == |s.disk.chunks| then []
    else Oldest(s) + Window(s.log, Kept(s), if Kept(s) <= |s.log| - scanned then |s.log| - scanned else Kept(s))
  }

  lemma ScanMeets(s: View, scanned: nat)
    requires ViewOk(s) && scanned < MaxChunks(s.header) && s.header.geometry == s.disk.geometry
    ensures ScanIndex(s.header, scanned) == Mod(|s.log| - 1 - scanned, |s.disk.chunks|)
  {
    var n, t := |s.disk.chunks|, |s.log|;
    ModAdd(t, n - 1 - scanned, n);
    assert Mod(t - 1 - scanned + n, n) == Mod(t - 1 - scanned, n);
  }

  ghost predicate Meets(s: View, scanned: nat, slot: Slot<Chunk>)
    requires ViewOk(s) && scanned < MaxChunks(s.header)
  {
    var v, rest := Ahead(s, scanned), Ahead(s, scanned + 1);
    match slot
    case Invalid => rest == v
    case Valid(c) => v == rest + [c]
  }

  lemma ScanOldest(s: View)
    requires ViewOk(s) && |s.disk.chunks| <= |s.log| && s.header.geometry == s.disk.geometry
    ensures Meets(s, |s.disk.chunks| - 1, ReadChunk(s.disk, s.header, ScanIndex(s.header, |s.disk.chunks| - 1)))
  {
    var n, t := |s.disk.chunks|, |s.log|;
    ScanMeets(s, n - 1);
    assert Window(s.log, Kept(s), Kept(s)) == [];
    assert Ahead(s, n - 1) == Oldest(s);
  }

  lemma AheadSnoc(first: seq<Chunk>, log: seq<seq<Record>>, a: nat, c: nat)
    requires a <= c < |log|
    ensures first + Window(log, a, c + 1) == first + Window(log, a, c) + [ChunkAt(log, c)]
  {
  }

  lemma AheadAt(s: View, scanned: nat, c: nat)
    requires ViewOk(s) && scanned < |s.disk.chunks| && scanned <= MaxChunks(s.header)
    requires c + scanned == |s.log| && Kept(s) <= c
    ensures Ahead(s, scanned) == Oldest(s) + Window(s.log, Kept(s), c)
  {
  }

  lemma ScanSecure(s: View, scanned: nat)
    requires ViewOk(s) && scanned < MaxChunks(s.header) && s.header.geometry == s.disk.geometry
    requires scanned < |s.disk.chunks| - 1 && Kept(s) < |s.log| - scanned
    ensures Meets(s, scanned, ReadChunk(s.disk, s.header, ScanIndex(s.header, scanned)))
  {
    SecureSlot(s, scanned);
    AheadStep(s, scanned);
  }

  lemma SecureSlot(s: View, scanned: nat)
    requires ViewOk(s) && scanned < MaxChunks(s.header) && s.header.geometry == s.disk.geometry
    requires Kept(s) < |s.log| - scanned
    ensures ReadChunk(s.disk, s.header, ScanIndex(s.header, scanned)) == Valid(ChunkAt(s.log, |s.log| - 1 - scanned))
  {
    ScanMeets(s, scanned);
    SecureStored(s, |s.log| - 1 - scanned);
  }

  lemma AheadStep(s: View, scanned: nat)
    requires ViewOk(s) && scanned < |s.disk.chunks| - 1 && scanned < MaxChunks(s.header)
    requires Kept(s) < |s.log| - scanned
    ensures Ahead(s, scanned) == Ahead(s, scanned + 1) + [ChunkAt(s.log, |s.log| - 1 - scanned)]
  {
    var c := |s.log| - 1 - scanned;
    AheadAt(s, scanned, c + 1);
    AheadAt(s, scanned + 1, c);
    AheadSnoc(Oldest(s), s.log, Kept(s), c);
  }

  lemma ScanCleared(s: View, scanned: nat)
    requires ViewOk(s) && scanned < MaxChunks(s.header) && s.header.geometry == s.disk.geometry
    requires scanned < |s.disk.chunks| - 1 && |s.log| - scanned <= Kept(s)
    ensures Meets(s, scanned, ReadChunk(s.disk, s.header, ScanIndex(s.header, scanned)))
  {
    ScanMeets(s, scanned);
    EmptyBelowBase(s, |s.log| - 1 - scanned);
    AheadRest(s, scanned);
    AheadRest(s, scanned + 1);
  }

  lemma AheadRest(s: View, scanned: nat)
    requires ViewOk(s) && scanned < |s.disk.chunks| && scanned <= MaxChunks(s.header) && |s.log| - scanned <= Kept(s)
    ensures Ahead(s, scanned) == Oldest(s) + Window(s.log, Kept(s), Kept(s))
  {
  }

  /** One step of the backward scan meets the newest chunk ahead, or an empty slot. */
  lemma ScanStep(s: View, scanned: nat)
    requires ViewOk(s) && scanned < MaxChunks(s.header)
    ensures Meets(s, scanned, ReadChunk(s.disk, s.header, ScanIndex(s.header, scanned)))
  {
    if s.header.geometry != s.disk.geometry {
      assert Ahead(s, scanned) == [] == Ahead(s, scanned + 1);
    } else if scanned == |s.disk.chunks| - 1 {
      ScanOldest(s);
    } else if Kept(s) < |s.log| - scanned {
      ScanSecure(s, scanned);
    } else {
      ScanCleared(s, scanned);
    }
  }

  lemma EmptyBelowBase(s: View, c: nat)
    requires ViewOk(s) && s.header.geometry == s.disk.geometry
    requires c < s.base && c < |s.log| < c + |s.disk.chunks|
    ensures s.disk.chunks[Mod(c, |s.disk.chunks|)].Invalid?
  {
    var n := |s.disk.chunks|;
    var slot := s.disk.chunks[Mod(c, n)];
    if slot.Valid? {
      assert SlotOk(slot.content, Mod(c, n), s.log, s.base, n);
      ModDistinct(c, slot.content.chunkSeq, n);
      assert false;
    }
  }

  lemma BackSnoc(v: seq<Chunk>, c: Chunk, records: nat, limit: nat)
    ensures Back(v + [c], records, limit) ==
            if records + |c.records| >= limit then [c] else [c] + Back(v, records + |c.records|, limit)
  {
    assert (v + [c])[..|v|] == v;
  }

  lemma AheadEnds(s: View)
    requires ViewOk(s)
    ensures Ahead(s, MaxChunks(s.header)) == []
  {
  }

  lemma RecentStep(d: Disk, h: Header, scanned: nat, records: nat, limit: nat, rest: seq<Chunk>)
    requires scanned < MaxChunks(h)
    requires forall r: nat :: Recent(d, h, scanned + 1, r, limit) == Back(rest, r, limit)
    ensures match ReadChunk(d, h, ScanIndex(h, scanned))
            case Invalid => Recent(d, h, scanned, records, limit) == Back(rest, records, limit)
            case Valid(c) => Recent(d, h, scanned, records, limit) == Back(rest + [c], records, limit)
  {
    var slot := ReadChunk(d, h, ScanIndex(h, scanned));
    if slot.Valid? { BackSnoc(rest, slot.content, records, limit); }
  }

  lemma {:induction false} RecentIsBack(s: View, scanned: nat, limit: nat)
    requires ViewOk(s) && scanned <= MaxChunks(s.header)
    ensures forall r: nat :: Recent(s.disk, s.header, scanned, r, limit) == Back(Ahead(s, scanned), r, limit)
    decreases MaxChunks(s.header) - scanned
  {
    if scanned == MaxChunks(s.header) {
      AheadEnds(s);
    } else {
      ScanStep(s, scanned);
      RecentIsBack(s, scanned + 1, limit);
      var rest := Ahead(s, scanned + 1);
      forall r: nat ensures Recent(s.disk, s.header, scanned, r, limit) == Back(Ahead(s, scanned), r, limit) {
        RecentStep(s.disk, s.header, scanned, r, limit, rest);
      }
    }
  }

  lemma {:induction false} FlatBehind(a: seq<Chunk>, b: seq<Chunk>, n: nat)
    requires n <= |b|
    ensures FlatTo(a + b, |a| + n) == FlatTo(a, |a|) + FlatTo(b, n)
  {
    if n == 0 {
      FlatPrefix(a, b, |a|);
      AssociateRecords(FlatTo(a, |a|), [], []);
    } else {
      FlatBehind(a, b, n - 1);
      assert (a + b)[|a| + n - 1] == b[n - 1];
      AssociateRecords(FlatTo(a, |a|), FlatTo(b, n - 1), b[n - 1].records);
    }
  }

  lemma AssociateRecords(x: seq<Record>, y: seq<Record>, z: seq<Record>)
    ensures x + y + z == x + (y + z) && x + [] == x
  {
  }

  lemma FlatConcat(a: seq<Chunk>, b: seq<Chunk>)
    ensures Flat(a + b) == Flat(a) + Flat(b)
  {
    FlatBehind(a, b, |b|);
  }

  ghost predicate IsReversedSuffix(b: seq<Chunk>, v: seq<Chunk>) {
    |b| <= |v| && forall k :: 0 <= k < |b| ==> b[k] == v[|v| - 1 - k]
  }

  lemma ReversedSnoc(b: seq<Chunk>, v: seq<Chunk>, c: Chunk)
    requires IsReversedSuffix(b, v)
    ensures IsReversedSuffix([c] + b, v + [c])
    ensures Flat((v + [c])[|v| - |b|..]) == Flat(v[|v| - |b|..]) + c.records
  {
    FlatSnoc(v[|v| - |b|..], c);
    assert (v + [c])[|v| - |b|..] == v[|v| - |b|..] + [c];
  }

  /** The backward walk returns a suffix, newest first: the whole list, or enough records. */
  lemma {:induction false} BackIsSuffix(v: seq<Chunk>, records: nat, limit: nat)
    ensures var b := Back(v, records, limit);
            IsReversedSuffix(b, v) && (|b| == |v| || records + |Flat(v[|v| - |b|..])| >= limit)
  {
    if v != [] {
      var v', c := v[..|v| - 1], v[|v| - 1];
      assert v == v' + [c];
      if records + |c.records| < limit {
        BackIsSuffix(v', records + |c.records|, limit);
        ReversedSnoc(Back(v', records + |c.records|, limit), v', c);
      } else {
        ReversedSnoc([], v', c);
      }
    }
  }

  lemma SuffixSorts(v: seq<Chunk>, m: nat, back: seq<Chunk>)
    requires Ascending(v) && m == |back| && IsReversedSuffix(back, v)
    ensures SortChunks(back) == v[|v| - m..]
  {
    var w := v[|v| - m..];
    forall c ensures c in back <==> c in w {
      if c in back {
        var k :| 0 <= k < m && back[k] == c;
        assert w[m - 1 - k] == c;
      }
      if c in w {
        var k :| 0 <= k < m && w[k] == c;
        assert back[m - 1 - k] == c;
      }
    }
    forall i, j | 0 <= i < j < m ensures back[i] != back[j] {
      assert ChunkBefore(v[|v| - 1 - j], v[|v| - 1 - i]);
    }
    SortsTo(back, w);
  }

  lemma KeepLastOfSuffix(xs: seq<Record>, ys: seq<Record>, limit: nat)
    requires xs == [] || |ys| >= limit
    ensures limit > 0 ==> KeepLast(xs + ys, limit) == KeepLast(ys, limit)
  {
  }

  lemma RecentOf(v: seq<Chunk>, limit: nat)
    requires Ascending(v) && limit > 0
    ensures KeepLast(Flat(SortChunks(Back(v, 0, limit))), limit) == KeepLast(Flat(v), limit)
  {
    BackIsSuffix(v, 0, limit);
    var back := Back(v, 0, limit);
    var m := |back|;
    SuffixSorts(v, m, back);
    var pre, suf := v[..|v| - m], v[|v| - m..];
    assert v == pre + suf;
    FlatConcat(pre, suf);
    KeepLastOfSuffix(Flat(pre), Flat(suf), limit);
  }

  /** A walk that finds enough records ignores what lies further back. */
  lemma {:induction false} BackEnough(c: Chunk, v: seq<Chunk>, records: nat, limit: nat)
    requires records < limit <= records + |Flat(v)|
    ensures Back([c] + v, records, limit) == Back(v, records, limit)
  {
    var v', d := v[..|v| - 1], v[|v| - 1];
    assert ([c] + v)[..|v|] == [c] + v' && v == v' + [d];
    FlatSnoc(v', d);
    if records + |d.records| < limit {
      BackEnough(c, v', records + |d.records|, limit);
    }
  }

  lemma {:induction false} BackAll(v: seq<Chunk>, records: nat, limit: nat)
    requires v != [] ==> records + |Flat(v[1..])| < limit
    ensures |Back(v, records, limit)| == |v|
  {
    if |v| > 1 {
      var v', d := v[..|v| - 1], v[|v| - 1];
      FlatSnoc(v'[1..], d);
      assert v[1..] == v'[1..] + [d];
      BackAll(v', records + |d.records|, limit);
    }
  }

  lemma RecentWalk(s: View, limit: nat)
    requires ViewOk(s) && limit > 0
    ensures Read(s.disk, s.header, limit) == KeepLast(Flat(SortChunks(Back(Oldest(s) + Secure(s), 0, limit))), limit)
  {
    RecentIsBack(s, 0, limit);
    assert Ahead(s, 0) == Oldest(s) + Secure(s);
  }

  /** The recent scan stops before it reaches the stale chunk. */
  ghost predicate Misses(s: View, limit: nat)
    requires ViewOk(s)
  {
    StaleVisible(s) && limit <= |Flat(Secure(s))|
  }

  lemma RecentPlain(s: View, limit: nat)
    requires ViewOk(s) && limit > 0 && !StaleVisible(s)
    ensures Read(s.disk, s.header, limit) == KeepLast(Flat(Visible(s)), limit)
  {
    RecentWalk(s, limit);
    VisibleAscending(s);
    RecentOf(Visible(s), limit);
  }

  lemma RecentStale(s: View, limit: nat)
    requires ViewOk(s) && limit > 0 && StaleVisible(s)
    ensures Read(s.disk, s.header, limit) == KeepLast(Flat(if Misses(s, limit) then Secure(s) else Visible(s)), limit)
  {
    RecentWalk(s, limit);
    var c, v := Oldest(s)[0], Secure(s);
    assert Oldest(s) == [c];
    if Misses(s, limit) {
      WindowAscending(s.log, Kept(s), |s.log|);
      BackEnough(c, v, 0, limit);
      RecentOf(v, limit);
    } else {
      VisibleAscending(s);
      StaleMet(c, v, limit);
    }
  }

  /** What a snapshot with a positive limit returns, in every state. */
  lemma RecentReads(s: View, limit: nat)
    requires ViewOk(s) && limit > 0
    ensures Read(s.disk, s.header, limit) == KeepLast(Flat(if Misses(s, limit) then Secure(s) else Visible(s)), limit)
  {
    if StaleVisible(s) { RecentStale(s, limit); } else { RecentPlain(s, limit); }
  }

  lemma MissedTail(xs: seq<Record>, ys: seq<Record>, next: nat, limit: nat)
    requires 0 < limit <= |xs| <= next && Numbered(xs, next - |xs|) && ys != [] && Numbered(ys, next)
    ensures KeepLast(xs, limit) != KeepLast(xs + ys, limit)
  {
    var short, long := KeepLast(xs, limit), KeepLast(xs + ys, limit);
    assert short[|short| - 1] == xs[|xs| - 1];
    assert long[|long| - 1] == ys[|ys| - 1];
  }

  lemma MissedDiffers(s: View, limit: nat)
    requires ViewOk(s) && limit > 0 && Misses(s, limit)
    ensures KeepLast(Flat(Secure(s)), limit) != KeepLast(Flat(Visible(s)), limit)
  {
    var c := Oldest(s)[0];
    assert Oldest(s) == [c];
    FlatSnoc(Secure(s), c);
    LastNumbers(s);
    MissedTail(Flat(Secure(s)), c.records, Count(s.log, |s.log|), limit);
  }

  lemma StaleMet(c: Chunk, v: seq<Chunk>, limit: nat)
    requires limit > |Flat(v)| && Ascending(v + [c])
    ensures SortChunks(Back([c] + v, 0, limit)) == v + [c]
  {
    assert ([c] + v)[1..] == v;
    BackAll([c] + v, 0, limit);
    BackIsSuffix([c] + v, 0, limit);
    StaleSorts(c, v, Back([c] + v, 0, limit));
  }

  lemma StaleSorts(c: Chunk, v: seq<Chunk>, back: seq<Chunk>)
    requires Ascending(v + [c]) && |back| == |v| + 1 && IsReversedSuffix(back, [c] + v)
    ensures SortChunks(back) == v + [c]
  {
    var w, cv := v + [c], [c] + v;
    forall x ensures x in back <==> x in w {
      if x in back {
        var k :| 0 <= k < |back| && back[k] == x;
        assert if k == |v| then w[|v|] == x else w[|v| - 1 - k] == x;
      }
      if x in w {
        var k :| 0 <= k < |w| && w[k] == x;
        assert if k == |v| then back[|v|] == x else back[|v| - 1 - k] == x;
      }
    }
    forall i, j | 0 <= i < j < |back| ensures back[i] != back[j] {
      assert back[i] == w[|v| - 1 - i];
      assert back[j] == if j == |v| then w[|v|] else w[|v| - 1 - j];
    }
    SortsTo(back, w);
  }

  lemma LastNumbers(s: View)
    requires ViewOk(s) && StaleVisible(s)
    ensures Numbered(Flat(Secure(s)), Count(s.log, Kept(s)))
    ensures |Flat(Secure(s))| == Count(s.log, |s.log|) - Count(s.log, Kept(s))
    ensures var c := Oldest(s)[0]; c.records != [] && Numbered(c.records, Count(s.log, |s.log|))
  {
    FlatWindow(s.log, Kept(s), |s.log|);
    JoinNumbered(s.log, Kept(s), |s.log|);
    OldestIs(s);
  }

  /** For every reachable state and positive limit, the recent path returns exactly the last `limit`
      records of the full snapshot if and only if no stale chunk is in view or the limit reaches past
      all secure chunks; otherwise it returns the last `limit` records of the secure chunks. */
  lemma RecentAgrees(states: seq<Ring>, i: nat, limit: nat)
    requires Run(states) && i < |states| && limit > 0 && Latest(states[i].disk.supers).Some?
    ensures ViewOk(ViewOf(states[i]))
    ensures var v := ViewOf(states[i]);
            && (Snapshot(v.disk, limit) == Some(KeepLast(Snapshot(v.disk, 0).value, limit))
                <==> !StaleVisible(v) || limit > |Flat(Secure(v))|)
            && (StaleVisible(v) && limit <= |Flat(Secure(v))| ==>
                  Snapshot(v.disk, limit) == Some(KeepLast(Flat(Secure(v)), limit)))
  {
    RunKeeps(states, i);
    var v := ViewOf(states[i]);
    RecentReads(v, limit);
    FullSnapshot(v);
    if Misses(v, limit) { MissedDiffers(v, limit); }
  }

  lemma SecureNumbered(s: View)
    requires ViewOk(s)
    ensures Numbered(Flat(Secure(s)), Count(s.log, Kept(s)))
  {
    FlatWindow(s.log, Kept(s), |s.log|);
    JoinNumbered(s.log, Kept(s), |s.log|);
  }

  lemma ReadGapFree(s: View, limit: int)
    requires ViewOk(s)
    ensures GapFree(Read(s.disk, s.header, limit))
  {
    FullSnapshot(s);
    VisibleNumbered(s);
    SecureNumbered(s);
    if limit > 0 {
      RecentReads(s, limit);
      if Misses(s, limit) {
        KeepLastGapFree(Flat(Secure(s)), Count(s.log, Kept(s)), limit);
      } else {
        KeepLastGapFree(Flat(Visible(s)), Count(s.log, From(s)), limit);
      }
    } else {
      AllPath(s, limit);
      KeepLastGapFree(Flat(Visible(s)), Count(s.log, From(s)), limit);
    }
  }

  lemma AllPath(s: View, limit: int)
    requires ViewOk(s) && limit <= 0
    ensures Read(s.disk, s.header, limit) == Flat(Visible(s))
  {
    AllIsVisible(s);
  }

  /** In every state of every run, crashes included, every snapshot, whatever its limit, is a gap-free, strictly
      increasing run of sequence numbers. */
  lemma SnapshotGapFree(states: seq<Ring>, i: nat, limit: int)
    requires Run(states) && i < |states|
    ensures Snapshot(states[i].disk, limit).Some? <==> Latest(states[i].disk.supers).Some?
    ensures Snapshot(states[i].disk, limit).Some? ==> GapFree(Snapshot(states[i].disk, limit).value)
  {
    RunKeeps(states, i);
    if Latest(states[i].disk.supers).Some? {
      ReadGapFree(ViewOf(states[i]), limit);
    }
  }

  // ---------- Committed states ----------

  /** A step that writes neither a chunk nor a superblock: append, close, a crash between writes, a clean re-open. */
  ghost predicate Quiet(s: Ring, s': Ring) {
    || (CanAppend(s) && exists f :: s' == Append(s, f))
    || s' == Halt(s)
    || (s.memory.None? && s' == Open(s, s.disk.geometry) && s'.phase.Ready?)
  }

  lemma QuietKeepsDisk(s: Ring, s': Ring)
    requires Quiet(s, s')
    ensures s'.disk == s.disk && s'.log == s.log && s'.base == s.base
  {
  }

  /** From a header write on, until the next chunk is written, no stale chunk is in view, so the two read paths agree in
      every committed state. */
  lemma {:induction false} CommittedNotStale(states: seq<Ring>, i: nat, j: nat)
    requires Run(states) && i < j < |states| && CanWriteHeader(states[i]) && states[i + 1] == WriteHeader(states[i])
    requires forall k :: i < k < j ==> Quiet(states[k], states[k + 1])
    ensures Latest(states[j].disk.supers).Some? && ViewOk(ViewOf(states[j]))
    ensures !StaleVisible(ViewOf(states[j]))
    decreases j
  {
    RunKeeps(states, i);
    RunKeeps(states, j);
    if j == i + 1 {
      TornHeaderKeeps(states[i]);
      var v := ViewOf(states[j]);
      assert Oldest(v) != [] ==> Oldest(v)[0].chunkSeq <= |states[i].log|;
    } else {
      CommittedNotStale(states, i, j - 1);
      assert Quiet(states[j - 1], states[j - 1 + 1]);
      QuietKeepsDisk(states[j - 1], states[j]);
    }
  }
}
