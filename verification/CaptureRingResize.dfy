/** Re-opening the capture ring with another size: canring/ring.go, OpenWriter and clearDataRegion.

    The file is first cut or extended to its new length and then cleared from the front, while the old header is
    still in force.  If the process dies in between, a reader of the old header finds only the slots between what was
    cleared and what was cut off.
  */
module CaptureRingResize {
  import opened CaptureRing
  import opened CaptureRingReader
  import opened CaptureRingLoss
  import opened Wrapping

  /** Slots from `m` on are cut off, slots below `k` are cleared. */
  function Resized(d: Disk, k: nat, m: nat): Disk
    requires k <= m <= |d.chunks|
  {
    d.(chunks := seq(|d.chunks|, i requires 0 <= i < |d.chunks| => if k <= i < m then d.chunks[i] else Invalid))
  }

  predicate Dropped(i: nat, k: nat, m: nat) {
    i < k || m <= i
  }

  /** The slots lost of `n`. */
  function Gone(n: nat, k: nat, m: nat): set<nat> {
    set i: nat | i < n && Dropped(i, k, m)
  }

  lemma ResizedIsDamaged(d: Disk, k: nat, m: nat)
    requires k <= m <= |d.chunks|
    ensures Resized(d, k, m) == Damaged(d, Gone(|d.chunks|, k, m))
  {
  }

  // ---------- Which slot a chunk is in ----------

  lemma {:induction false} WholeTurns(t: nat, n: nat)
    requires n > 0
    ensures Mod(t - Mod(t, n), n) == 0
    decreases t
  {
    if t >= n {
      WholeTurns(t - n, n);
      assert t - Mod(t, n) >= n;
    }
  }

  /** Slots count up from the beginning of the current turn, and so did those of the turn before. */
  lemma SlotOf(t: nat, n: nat, j: nat)
    requires n > 0 && j <= t <= j + n
    ensures var turn := t - Mod(t, n);
            Mod(j, n) == if j >= turn then j - turn else j + n - turn
  {
    var r := Mod(t, n);
    WholeTurns(t, n);
    if j >= t - r {
      ModAdd(t - r, j - (t - r), n);
    } else {
      assert Mod(t - r, n) == Mod(t - r - n, n);
      ModAdd(t - r - n, j - (t - r - n), n);
    }
  }

  /** The number of the slot that is written next. */
  ghost function Front(s: View): nat
    requires ViewOk(s)
    ensures Front(s) < |s.disk.chunks| && Front(s) <= |s.log|
  {
    Mod(|s.log|, |s.disk.chunks|)
  }

  /** The first chunk of the current turn. */
  ghost function Turn(s: View): nat
    requires ViewOk(s)
  {
    |s.log| - Front(s)
  }

  lemma KeptRecent(s: View)
    requires ViewOk(s)
    ensures |s.log| < Kept(s) + |s.disk.chunks|
  {
  }

  lemma OldestTurn(s: View)
    requires ViewOk(s) && Oldest(s) != []
    ensures |s.log| >= |s.disk.chunks| && s.header.geometry == s.disk.geometry
    ensures !StaleVisible(s) ==> Kept(s) - 1 == |s.log| - |s.disk.chunks|
  {
    OldestIs(s);
    var c := Oldest(s)[0];
    assert SlotOk(c, Front(s), s.log, s.base, |s.disk.chunks|);
  }

  /** A chunk in view is left exactly if its slot, counted from the turn, was neither cleared nor cut off. */
  lemma LeftOf(s: View, k: nat, m: nat, j: nat)
    requires ViewOk(s) && k <= m <= |s.disk.chunks| && From(s) <= j <= |s.log|
    ensures var slot := if j >= Turn(s) then j - Turn(s) else j + |s.disk.chunks| - Turn(s);
            Readable(s, Gone(|s.disk.chunks|, k, m))(j) <==> k <= slot < m
  {
    KeptRecent(s);
    SlotOf(|s.log|, |s.disk.chunks|, j);
  }

  // ---------- Gaps ----------

  /** Slots of both the current and the previous turn of the ring are left, and not all slots are: the older part begins
      at the slot written next, or behind it if that slot holds nothing or the stale chunk. */
  ghost predicate LeavesGap(s: View, k: nat, m: nat)
    requires ViewOk(s)
  {
    var r, n, t := Front(s), |s.disk.chunks|, |s.log|;
    && (0 < k || m < n) && r < m
    && (if StaleVisible(s) then k <= r && Kept(s) + r + n < t + m
        else k < r && (Oldest(s) != [] || Kept(s) + r + n < t + m))
  }

  /** The lowest chunk in view, the last of the previous turn or the first of the current one, and the newest. */
  lemma GapFound(s: View, k: nat, m: nat)
    requires ViewOk(s) && k <= m <= |s.disk.chunks| && LeavesGap(s, k, m)
    ensures Gap(s, Gone(|s.disk.chunks|, k, m), 0)
  {
    var left := Readable(s, Gone(|s.disk.chunks|, k, m));
    KeptRecent(s);
    if Oldest(s) != [] { OldestTurn(s); }
    var x, y, z := From(s), if 0 < k then Turn(s) else Turn(s) - 1, |Seen(s)| - 1;
    LeftOf(s, k, m, x);
    LeftOf(s, k, m, y);
    LeftOf(s, k, m, z);
    assert left(x) && !left(y) && left(z);
    assert Reaches(Seen(s), y, |Seen(s)|, left, 0);
  }

  /** A hole in view: the chunk before it is of the previous turn, the one behind it of the current one. */
  lemma HoleShape(s: View, k: nat, m: nat, x: nat, y: nat, z: nat)
    requires ViewOk(s) && k <= m <= |s.disk.chunks| && From(s) <= x < y < z < |Seen(s)|
    requires var left := Readable(s, Gone(|s.disk.chunks|, k, m));
             left(x) && !left(y) && left(z)
    ensures LeavesGap(s, k, m) && x < Turn(s) && y < Turn(s) + k <= z
    ensures y + |s.disk.chunks| >= Turn(s) + m
  {
    KeptRecent(s);
    if Oldest(s) != [] { OldestTurn(s); }
    LeftOf(s, k, m, x);
    LeftOf(s, k, m, y);
    LeftOf(s, k, m, z);
  }

  /** A snapshot with any limit has a gap only under `LeavesGap`; the full one has it then. */
  lemma GapShape(s: View, k: nat, m: nat, limit: int)
    requires ViewOk(s) && k <= m <= |s.disk.chunks|
    ensures Gap(s, Gone(|s.disk.chunks|, k, m), 0) <==> LeavesGap(s, k, m)
    ensures Gap(s, Gone(|s.disk.chunks|, k, m), limit) ==> LeavesGap(s, k, m)
  {
    var lost := Gone(|s.disk.chunks|, k, m);
    var left := Readable(s, lost);
    if LeavesGap(s, k, m) { GapFound(s, k, m); }
    if Gap(s, lost, limit) { LimitAddsNoGap(s, lost, limit); }
    if Gap(s, lost, 0) {
      var x, y, z :| From(s) <= x < y < z < |Seen(s)| && left(x) && !left(y) && left(z)
                     && Reaches(Seen(s), y, |Seen(s)|, left, 0);
      HoleShape(s, k, m, x, y, z);
    }
  }

  lemma {:induction false} AllLeft(log: seq<seq<Record>>, a: nat, b: nat, left: nat -> bool)
    requires a <= b <= |log| && forall x :: a <= x < b ==> left(x)
    ensures |Remnant(log, a, b, left)| == Count(log, b) - Count(log, a)
    decreases b - a
  {
    if a < b {
      var rest := Remnant(log, a + 1, b, left);
      assert |rest| == Count(log, b) - Count(log, a + 1) by { AllLeft(log, a + 1, b, left); }
      assert Remnant(log, a, b, left) == log[a] + rest by { assert left(a); }
      assert Count(log, a + 1) == Count(log, a) + |log[a]|;
    }
  }

  /** The records behind a hole are those of the current turn that were not cleared. */
  lemma BehindHole(s: View, k: nat, m: nat, y: nat)
    requires ViewOk(s) && k <= m <= |s.disk.chunks| && !StaleVisible(s) && LeavesGap(s, k, m)
    requires From(s) <= y < Turn(s) + k && y + |s.disk.chunks| >= Turn(s) + m
    ensures |Remnant(s.log, y, |s.log|, Readable(s, Gone(|s.disk.chunks|, k, m)))| ==
            Count(s.log, |s.log|) - Count(s.log, Turn(s) + k)
  {
    var left := Readable(s, Gone(|s.disk.chunks|, k, m));
    forall x | y <= x < |s.log| ensures left(x) <==> x >= Turn(s) + k {
      LeftOf(s, k, m, x);
    }
    NoneLeft(s.log, y, Turn(s) + k, |s.log|, left);
    AllLeft(s.log, Turn(s) + k, |s.log|, left);
  }

  lemma LimitedShows(s: View, k: nat, m: nat, limit: int)
    requires ViewOk(s) && k <= m <= |s.disk.chunks| && !StaleVisible(s) && LeavesGap(s, k, m)
    requires limit > Count(s.log, |s.log|) - Count(s.log, Turn(s) + k)
    ensures Gap(s, Gone(|s.disk.chunks|, k, m), limit)
  {
    var left, t := Readable(s, Gone(|s.disk.chunks|, k, m)), |s.log|;
    GapFound(s, k, m);
    var x, y, z :| From(s) <= x < y < z < t && left(x) && !left(y) && left(z) && Reaches(s.log, y, t, left, 0);
    HoleShape(s, k, m, x, y, z);
    BehindHole(s, k, m, y);
    assert Reaches(s.log, y, t, left, limit);
  }

  lemma LimitedNeeds(s: View, k: nat, m: nat, limit: int)
    requires ViewOk(s) && k <= m <= |s.disk.chunks| && !StaleVisible(s) && limit > 0
    requires Gap(s, Gone(|s.disk.chunks|, k, m), limit)
    ensures LeavesGap(s, k, m) && limit > Count(s.log, |s.log|) - Count(s.log, Turn(s) + k)
  {
    var left, t := Readable(s, Gone(|s.disk.chunks|, k, m)), |s.log|;
    var x, y, z :| From(s) <= x < y < z < t && left(x) && !left(y) && left(z) && Reaches(s.log, y, t, left, limit);
    HoleShape(s, k, m, x, y, z);
    BehindHole(s, k, m, y);
  }

  /** Without a stale chunk, a limited snapshot shows the gap exactly if it asks for more records than there are behind
      the hole. */
  lemma LimitedGap(s: View, k: nat, m: nat, limit: int)
    requires ViewOk(s) && k <= m <= |s.disk.chunks| && !StaleVisible(s) && limit > 0
    ensures Gap(s, Gone(|s.disk.chunks|, k, m), limit) <==>
            LeavesGap(s, k, m) && limit > Count(s.log, |s.log|) - Count(s.log, Turn(s) + k)
  {
    if LeavesGap(s, k, m) && limit > Count(s.log, |s.log|) - Count(s.log, Turn(s) + k) {
      LimitedShows(s, k, m, limit);
    }
    if Gap(s, Gone(|s.disk.chunks|, k, m), limit) { LimitedNeeds(s, k, m, limit); }
  }

  /** The gap a resize leaves when it stops with `k` slots cleared and the file cut to `m`. */
  ghost predicate GapLeft(s: View, k: nat, m: nat, limit: int)
    requires ViewOk(s) && k <= m <= |s.disk.chunks|
  {
    var gap := Gap(s, Gone(|s.disk.chunks|, k, m), limit);
    && (limit <= 0 ==> (gap <==> LeavesGap(s, k, m)))
    && (gap ==> LeavesGap(s, k, m))
    && (limit > 0 && !StaleVisible(s) ==>
          (gap <==> LeavesGap(s, k, m) && limit > Count(s.log, |s.log|) - Count(s.log, Turn(s) + k)))
  }

  lemma ResizeGap(s: View, k: nat, m: nat, limit: int)
    requires ViewOk(s) && k <= m <= |s.disk.chunks|
    ensures GapLeft(s, k, m, limit)
  {
    GapShape(s, k, m, limit);
    if limit <= 0 {
      FullGap(s, Gone(|s.disk.chunks|, k, m), limit);
    } else if !StaleVisible(s) {
      LimitedGap(s, k, m, limit);
    }
  }

  /** In every state of every run, for every limit: a crash after the file was cut to `m` slots and `k` of them were
      cleared leaves a gap in the full snapshot exactly under `LeavesGap`, and in a limited one exactly if it then
      reaches back beyond the hole. */
  lemma InterruptedResize(states: seq<Ring>, i: nat, k: nat, m: nat, limit: int)
    requires Run(states) && i < |states| && Latest(states[i].disk.supers).Some? && k <= m <= |states[i].disk.chunks|
    ensures ViewOk(ViewOf(states[i])) && GapLeft(ViewOf(states[i]), k, m, limit)
    ensures GapFree(Snapshot(Resized(states[i].disk, k, m), limit).value) <==>
            !Gap(ViewOf(states[i]), Gone(|states[i].disk.chunks|, k, m), limit)
  {
    RunKeeps(states, i);
    var s := ViewOf(states[i]);
    ResizedIsDamaged(s.disk, k, m);
    GapExactly(s, Gone(|s.disk.chunks|, k, m), limit);
    ResizeGap(s, k, m, limit);
  }

  lemma FullGap(s: View, lost: set<nat>, limit: int)
    requires ViewOk(s) && limit <= 0
    ensures Gap(s, lost, limit) <==> Gap(s, lost, 0)
  {
    GapExactly(s, lost, limit);
    GapExactly(s, lost, 0);
  }

  /** For a ring that has lost nothing: it has wrapped, both its turns keep a slot, and some slot is lost. */
  lemma UndamagedResize(s: View, k: nat, m: nat)
    requires ViewOk(s) && k <= m <= |s.disk.chunks| && s.base == 0 && !StaleVisible(s)
    requires |s.log| >= |s.disk.chunks| ==> Oldest(s) != []
    ensures LeavesGap(s, k, m) <==>
              |s.log| > |s.disk.chunks| && k < Mod(|s.log|, |s.disk.chunks|) < m && (0 < k || m < |s.disk.chunks|)
  {
    if |s.log| >= |s.disk.chunks| {
      OldestTurn(s);
    }
  }
}
