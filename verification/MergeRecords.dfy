/** Merging the primary and fallback capture rings: canring/ring.go, MergeRecords and its two paths.

    The reference is three independent steps: keep the first record of every
    CAN identity, sort stably, keep the last `limit`.  Both the map-and-sort path
    and the bounded circular-buffer path are proved equal to it.
  */
module MergeRecords {
  import opened Sequences
  import Wrapping

  type Byte = b: int | 0 <= b < 256

  /** A decoded CAN frame; `time` is the instant in nanoseconds. */
  datatype Record = Record(seqNo: nat, time: int, elapsed: int, id: nat, dlc: nat, data: seq<Byte>,
                           iface: string, chunk: nat)

  /** The CAN identity used to recognise a mirrored frame. */
  datatype Key = Key(time: int, id: nat, dlc: nat, data: seq<Byte>, iface: string)

  function KeyOf(r: Record): Key {
    Key(r.time, r.id, r.dlc, r.data, r.iface)
  }

  // ---------- The order ----------

  predicate TextBefore(a: string, b: string) {
    b != [] && (a == [] || a[0] < b[0] || (a[0] == b[0] && TextBefore(a[1..], b[1..])))
  }

  predicate Before(a: Record, b: Record) {
    if a.time != b.time then a.time < b.time
    else if a.seqNo != b.seqNo then a.seqNo < b.seqNo
    else if a.id != b.id then a.id < b.id
    else TextBefore(a.iface, b.iface)
  }

  predicate SameRank(a: Record, b: Record) {
    !Before(a, b) && !Before(b, a)
  }

  lemma {:induction false} TextTotal(a: string, b: string)
    ensures TextBefore(a, b) || TextBefore(b, a) || a == b
    ensures !(TextBefore(a, b) && TextBefore(b, a))
  {
    if a != [] && b != [] && a[0] == b[0] {
      TextTotal(a[1..], b[1..]);
      if a[1..] == b[1..] {
        assert a == [a[0]] + a[1..] == b;
      }
    }
  }

  lemma {:induction false} TextTransitive(a: string, b: string, c: string)
    requires TextBefore(a, b) && TextBefore(b, c)
    ensures TextBefore(a, c)
  {
    if a != [] && a[0] == b[0] && b[0] == c[0] {
      TextTransitive(a[1..], b[1..], c[1..]);
    }
  }

  /** "Not after" composes: the order is a strict weak order. */
  lemma RankTransitive(a: Record, b: Record, c: Record)
    requires !Before(b, a) && !Before(c, b)
    ensures !Before(c, a)
    ensures Before(a, b) || Before(b, c) ==> Before(a, c)
  {
    TextTotal(a.iface, b.iface);
    TextTotal(b.iface, c.iface);
    TextTotal(a.iface, c.iface);
    if TextBefore(a.iface, b.iface) && TextBefore(b.iface, c.iface) {
      TextTransitive(a.iface, b.iface, c.iface);
    }
  }

  lemma BeforeIsStrict(a: Record, b: Record)
    ensures !(Before(a, b) && Before(b, a))
  {
    TextTotal(a.iface, b.iface);
  }

  ghost predicate Sorted(s: seq<Record>) {
    forall i, j :: 0 <= i < j < |s| ==> !Before(s[j], s[i])
  }

  // ---------- The reference ----------

  /** The records of `s` whose identity is not in `seen` and has not occurred earlier in `s`. */
  function FirstOnly(s: seq<Record>, seen: set<Key>): (r: seq<Record>)
    ensures forall x :: x in r ==> x in s
  {
    if s == [] then []
    else if KeyOf(s[0]) in seen then FirstOnly(s[1..], seen)
    else [s[0]] + FirstOnly(s[1..], seen + {KeyOf(s[0])})
  }

  function Insert(x: Record, s: seq<Record>): (r: seq<Record>)
    ensures multiset(r) == multiset{x} + multiset(s)
  {
    if s == [] || !Before(s[0], x) then [x] + s
    else
      assert s == [s[0]] + s[1..];
      [s[0]] + Insert(x, s[1..])
  }

  /** The library's stable sort (Go's sort.SliceStable); StableSortUnique shows that it is the only one. */
  function StableSort(s: seq<Record>): (r: seq<Record>)
    ensures multiset(r) == multiset(s)
  {
    if s == [] then []
    else
      assert s == [s[0]] + s[1..];
      Insert(s[0], StableSort(s[1..]))
  }

  function Merged(primary: seq<Record>, fallback: seq<Record>, limit: int): seq<Record> {
    KeepLast(StableSort(FirstOnly(primary + fallback, {})), limit)
  }

  // ---------- The sort is the unique stable one ----------

  /** The records that neither come before nor after `x`, in their order. */
  function RunOf(x: Record, s: seq<Record>): seq<Record> {
    if s == [] then []
    else (if SameRank(x, s[0]) then [s[0]] else []) + RunOf(x, s[1..])
  }

  ghost predicate SameRuns(s: seq<Record>, t: seq<Record>) {
    forall x :: RunOf(x, s) == RunOf(x, t)
  }

  lemma {:induction false} InsertSorted(x: Record, s: seq<Record>)
    requires Sorted(s)
    ensures Sorted(Insert(x, s))
  {
    if s == [] {
    } else if !Before(s[0], x) {
      forall j | 0 <= j < |s| ensures !Before(s[j], x) {
        BeforeIsStrict(s[0], s[0]);
        RankTransitive(x, s[0], s[j]);
      }
    } else {
      InsertSorted(x, s[1..]);
      var t := Insert(x, s[1..]);
      forall j | 0 <= j < |t| ensures !Before(t[j], s[0]) {
        assert t[j] in multiset(t);
        BeforeIsStrict(s[0], x);
        if t[j] != x {
          assert t[j] in s[1..];
        }
      }
    }
  }

  lemma {:induction false} SortSorted(s: seq<Record>)
    ensures Sorted(StableSort(s))
  {
    if s != [] {
      SortSorted(s[1..]);
      InsertSorted(s[0], StableSort(s[1..]));
    }
  }

  lemma {:induction false} InsertRuns(x: Record, y: Record, s: seq<Record>)
    ensures RunOf(x, Insert(y, s)) == (if SameRank(x, y) then [y] else []) + RunOf(x, s)
  {
    if s != [] && Before(s[0], y) {
      InsertRuns(x, y, s[1..]);
      BeforeIsStrict(s[0], y);
      if SameRank(x, y) && SameRank(x, s[0]) {
        RankTransitive(y, x, s[0]);
      }
    }
  }

  lemma {:induction false} SortRuns(x: Record, s: seq<Record>)
    ensures RunOf(x, StableSort(s)) == RunOf(x, s)
  {
    if s != [] {
      SortRuns(x, s[1..]);
      InsertRuns(x, s[0], StableSort(s[1..]));
    }
  }

  lemma {:induction false} RunMembers(x: Record, s: seq<Record>)
    requires RunOf(x, s) != []
    ensures exists y :: y in s && SameRank(x, y)
  {
    if SameRank(x, s[0]) {
      assert s[0] in s;
    } else {
      RunMembers(x, s[1..]);
      var y :| y in s[1..] && SameRank(x, y);
      assert y in s;
    }
  }

  lemma HeadsAgree(s: seq<Record>, t: seq<Record>)
    requires Sorted(s) && Sorted(t) && s != [] && t != [] && SameRuns(s, t)
    ensures !Before(s[0], t[0])
  {
    BeforeIsStrict(s[0], s[0]);
    assert RunOf(s[0], s) != [];
    RunMembers(s[0], t);
    var y :| y in t && SameRank(s[0], y);
    if y != t[0] {
      assert !Before(y, t[0]);
      RankTransitive(t[0], y, s[0]);
    }
  }

  lemma EmptyRuns(s: seq<Record>, t: seq<Record>)
    requires SameRuns(s, t)
    ensures s == [] <==> t == []
  {
    var x := if s != [] then s[0] else if t != [] then t[0] else Record(0, 0, 0, 0, 0, [], "", 0);
    BeforeIsStrict(x, x);
    assert RunOf(x, s) == RunOf(x, t);
  }

  lemma {:induction false} SortedRunsEqual(s: seq<Record>, t: seq<Record>)
    requires Sorted(s) && Sorted(t) && SameRuns(s, t)
    ensures s == t
  {
    if s == [] || t == [] {
      EmptyRuns(s, t);
    } else {
      HeadsAgree(s, t);
      HeadsAgree(t, s);
      BeforeIsStrict(s[0], s[0]);
      assert RunOf(s[0], s)[0] == s[0] && RunOf(s[0], t)[0] == t[0];
      forall x ensures RunOf(x, s[1..]) == RunOf(x, t[1..]) {
        assert RunOf(x, s) == RunOf(x, t);
        var h := if SameRank(x, s[0]) then [s[0]] else [];
        assert RunOf(x, s[1..]) == RunOf(x, s)[|h|..];
      }
      SortedRunsEqual(s[1..], t[1..]);
    }
  }

  /** Being sorted and keeping the order of equally ranked records determines the result. */
  lemma StableSortUnique(s: seq<Record>, t: seq<Record>)
    ensures Sorted(t) && SameRuns(s, t) <==> t == StableSort(s)
  {
    SortSorted(s);
    forall x ensures RunOf(x, StableSort(s)) == RunOf(x, s) { SortRuns(x, s); }
    if Sorted(t) && SameRuns(s, t) {
      forall x ensures RunOf(x, t) == RunOf(x, StableSort(s)) {
        assert RunOf(x, s) == RunOf(x, t);
      }
      SortedRunsEqual(t, StableSort(s));
    }
  }

  // ---------- Two-way merge ----------

  /** Merge of two lists, the first list winning ties. */
  function Weave(a: seq<Record>, b: seq<Record>): (r: seq<Record>)
    decreases |a| + |b|
  {
    if a == [] then b
    else if b == [] then a
    else if Before(b[0], a[0]) then [b[0]] + Weave(a, b[1..])
    else [a[0]] + Weave(a[1..], b)
  }

  lemma {:induction false} WeaveIsInsert(x: Record, a: seq<Record>, b: seq<Record>)
    requires Sorted([x] + a)
    ensures Insert(x, Weave(a, b)) == Weave([x] + a, b)
    decreases |b|
  {
    var xa := [x] + a;
    assert xa[1..] == a;
    if a != [] {
      assert xa[0] == x && xa[1] == a[0];
      assert !Before(xa[1], xa[0]);
    }
    if b == [] {
    } else if Before(b[0], x) {
      BeforeIsStrict(b[0], x);
      if a != [] {
        RankTransitive(b[0], x, a[0]);
      }
      assert Weave(a, b) == [b[0]] + Weave(a, b[1..]) by {
        if a == [] { assert b == [b[0]] + b[1..]; }
      }
      WeaveIsInsert(x, a, b[1..]);
      assert Weave(a, b)[1..] == Weave(a, b[1..]);
    } else {
      var w := Weave(a, b);
      assert !Before(w[0], x);
    }
  }

  lemma {:induction false} SortedIsFixed(s: seq<Record>)
    requires Sorted(s)
    ensures StableSort(s) == s
  {
    if s != [] {
      SortedIsFixed(s[1..]);
      if |s| > 1 { assert !Before(s[1], s[0]); }
      assert s == [s[0]] + s[1..];
    }
  }

  lemma {:induction false} SortIsWeave(a: seq<Record>, b: seq<Record>)
    requires Sorted(a) && Sorted(b)
    ensures StableSort(a + b) == Weave(a, b)
  {
    if a == [] {
      assert a + b == b;
      SortedIsFixed(b);
    } else {
      assert (a + b)[1..] == a[1..] + b && a == [a[0]] + a[1..];
      SortIsWeave(a[1..], b);
      WeaveIsInsert(a[0], a[1..], b);
    }
  }

  // ---------- Filtering ----------

  function Keys(s: seq<Record>): set<Key> {
    set i | 0 <= i < |s| :: KeyOf(s[i])
  }

  lemma KeysCons(s: seq<Record>)
    requires s != []
    ensures Keys(s) == {KeyOf(s[0])} + Keys(s[1..])
  {
    forall k | k in Keys(s) ensures k in {KeyOf(s[0])} + Keys(s[1..]) {
      var i :| 0 <= i < |s| && KeyOf(s[i]) == k;
      if i > 0 { assert s[1..][i - 1] == s[i]; }
    }
    forall k | k in Keys(s[1..]) ensures k in Keys(s) {
      var i :| 0 <= i < |s[1..]| && KeyOf(s[1..][i]) == k;
      assert s[i + 1] == s[1..][i];
    }
  }

  lemma {:induction false} FirstOnlySplit(a: seq<Record>, b: seq<Record>, seen: set<Key>)
    ensures FirstOnly(a + b, seen) == FirstOnly(a, seen) + FirstOnly(b, seen + Keys(a))
  {
    if a == [] {
      assert a + b == b && seen + Keys(a) == seen;
    } else {
      assert (a + b)[1..] == a[1..] + b && (a + b)[0] == a[0];
      var k := KeyOf(a[0]);
      KeysCons(a);
      if k in seen {
        FirstOnlySplit(a[1..], b, seen);
        assert seen + Keys(a[1..]) == seen + Keys(a);
      } else {
        FirstOnlySplit(a[1..], b, seen + {k});
        assert seen + {k} + Keys(a[1..]) == seen + Keys(a);
      }
    }
  }

  lemma {:induction false} FirstOnlySorted(s: seq<Record>, seen: set<Key>)
    requires Sorted(s)
    ensures Sorted(FirstOnly(s, seen))
  {
    if s != [] {
      FirstOnlySorted(s[1..], seen);
      FirstOnlySorted(s[1..], seen + {KeyOf(s[0])});
      forall x | x in FirstOnly(s[1..], seen + {KeyOf(s[0])}) ensures !Before(x, s[0]) {
        assert x in s[1..];
      }
    }
  }

  /** For sorted inputs the reference is the merge of the two filtered lists. */
  lemma FilteredWeave(p: seq<Record>, f: seq<Record>)
    requires Sorted(p) && Sorted(f)
    ensures StableSort(FirstOnly(p + f, {})) == Weave(FirstOnly(p, {}), FirstOnly(f, Keys(p)))
  {
    FirstOnlySplit(p, f, {});
    assert {} + Keys(p) == Keys(p);
    FirstOnlySorted(p, {});
    FirstOnlySorted(f, Keys(p));
    SortIsWeave(FirstOnly(p, {}), FirstOnly(f, Keys(p)));
  }

  // ---------- The two paths ----------

  /** Adjacent comparison decides sortedness. */
  method RecordsSorted(records: seq<Record>) returns (sorted: bool)
    ensures sorted <==> Sorted(records)
  {
    var i := 1;
    while i < |records|
      invariant 1 <= i && (records != [] ==> i <= |records| && Sorted(records[..i]))
    {
      if Before(records[i], records[i - 1]) {
        return false;
      }
      forall j | 0 <= j < i ensures !Before(records[i], records[j]) {
        if j < i - 1 {
          assert records[..i][i - 1] == records[i - 1] && records[..i][j] == records[j];
          RankTransitive(records[j], records[i - 1], records[i]);
        }
      }
      assert records[..i + 1] == records[..i] + [records[i]];
      i := i + 1;
    }
    assert records != [] ==> records[..i] == records;
    return true;
  }

  /** One pass of the de-duplicating loops. */
  method AppendUnseen(merged: seq<Record>, seen: set<Key>, source: seq<Record>)
      returns (merged': seq<Record>, seen': set<Key>)
    ensures merged' == merged + FirstOnly(source, seen)
    ensures seen' == seen + Keys(source)
  {
    merged', seen' := merged, seen;
    for i := 0 to |source|
      invariant merged' + FirstOnly(source[i..], seen') == merged + FirstOnly(source, seen)
      invariant seen' + Keys(source[i..]) == seen + Keys(source)
    {
      var key := KeyOf(source[i]);
      KeysCons(source[i..]);
      assert source[i..][1..] == source[i + 1..];
      if key !in seen' {
        seen' := seen' + {key};
        merged' := merged' + [source[i]];
      }
    }
  }

  method MergeRecordsFull(primary: seq<Record>, fallback: seq<Record>, limit: int) returns (merged: seq<Record>)
    ensures merged == Merged(primary, fallback, limit)
  {
    var seen;
    merged, seen := AppendUnseen([], {}, primary);
    merged, seen := AppendUnseen(merged, seen, fallback);
    FirstOnlySplit(primary, fallback, {});
    assert {} + Keys(primary) == Keys(primary);
    assert merged == FirstOnly(primary + fallback, {});
    merged := StableSort(merged);
    if limit > 0 && |merged| > limit {
      merged := merged[|merged| - limit..];
    }
  }

  /** Position `start + k` of a circular buffer of `n` places. */
  function Slot(start: nat, k: nat, n: nat): nat
    requires start < n && k < n
  {
    if start + k < n then start + k else start + k - n
  }

  /** The circular buffer holds the last records pushed so far, as many as fit. */
  ghost predicate HoldsTail(tail: seq<Record>, start: nat, count: nat, pushed: seq<Record>) {
    && start < |tail|
    && count == |KeepLast(pushed, |tail|)|
    && (count < |tail| ==> start == 0)
    && forall k {:trigger Slot(start, k, |tail|)} :: 0 <= k < count ==>
         tail[Slot(start, k, |tail|)] == KeepLast(pushed, |tail|)[k]
  }

  lemma PushGrows(tail: seq<Record>, start: nat, count: nat, pushed: seq<Record>, record: Record)
    requires HoldsTail(tail, start, count, pushed) && count < |tail|
    ensures HoldsTail(tail[count := record], 0, count + 1, pushed + [record])
  {
    assert KeepLast(pushed + [record], |tail|) == KeepLast(pushed, |tail|) + [record];
  }

  lemma PushWraps(tail: seq<Record>, start: nat, count: nat, pushed: seq<Record>, record: Record)
    requires HoldsTail(tail, start, count, pushed) && count >= |tail|
    ensures HoldsTail(tail[start := record], if start + 1 < |tail| then start + 1 else 0, count, pushed + [record])
  {
    var n, kept := |tail|, KeepLast(pushed, |tail|);
    var start' := if start + 1 < n then start + 1 else 0;
    var next := KeepLast(pushed + [record], n);
    assert next == kept[1..] + [record];
    forall k | 0 <= k < count ensures tail[start := record][Slot(start', k, n)] == next[k] {
      if k + 1 < count {
        assert Slot(start', k, n) == Slot(start, k + 1, n);
        assert tail[Slot(start, k + 1, n)] == kept[k + 1];
      }
    }
  }

  method PushTail(tail: array<Record>, start: nat, count: nat, record: Record, ghost pushed: seq<Record>)
      returns (start': nat, count': nat)
    requires HoldsTail(tail[..], start, count, pushed)
    modifies tail
    ensures HoldsTail(tail[..], start', count', pushed + [record])
  {
    var limit := tail.Length;
    if count < limit {
      PushGrows(tail[..], start, count, pushed, record);
      tail[Wrapping.Mod(start + count, limit)] := record;
      assert tail[..] == old(tail[..])[count := record];
      start', count' := start, count + 1;
    } else {
      PushWraps(tail[..], start, count, pushed, record);
      tail[start] := record;
      assert tail[..] == old(tail[..])[start := record];
      start', count' := Wrapping.Mod(start + 1, limit), count;
    }
  }

  /** Reads the buffer out, oldest record first. */
  method ReadTail(tail: array<Record>, start: nat, count: nat, ghost pushed: seq<Record>) returns (merged: seq<Record>)
    requires HoldsTail(tail[..], start, count, pushed)
    ensures merged == KeepLast(pushed, tail.Length)
  {
    merged := [];
    for k := 0 to count
      invariant merged == KeepLast(pushed, tail.Length)[..k]
    {
      assert Wrapping.Mod(start + k, tail.Length) == Slot(start, k, tail.Length);
      merged := merged + [tail[Wrapping.Mod(start + k, tail.Length)]];
    }
  }

  /** What is still to be pushed is the merge of the filtered remainders. */
  ghost predicate Remaining(whole: seq<Record>, pushed: seq<Record>, p: seq<Record>, f: seq<Record>,
                            seenP: set<Key>, seenF: set<Key>)
  {
    Sorted(p) && Sorted(f) && whole == pushed + Weave(FirstOnly(p, seenP), FirstOnly(f, seenF))
  }

  lemma TakePrimary(whole: seq<Record>, pushed: seq<Record>, p: seq<Record>, f: seq<Record>,
                    seenP: set<Key>, seenF: set<Key>)
    requires Remaining(whole, pushed, p, f, seenP, seenF)
    requires p != [] && (f != [] ==> !Before(f[0], p[0]))
    ensures KeyOf(p[0]) in seenP ==> Remaining(whole, pushed, p[1..], f, seenP, seenF)
    ensures KeyOf(p[0]) !in seenP ==> Remaining(whole, pushed + [p[0]], p[1..], f, seenP + {KeyOf(p[0])}, seenF)
  {
    var b := FirstOnly(f, seenF);
    if KeyOf(p[0]) !in seenP {
      if b != [] && b[0] != f[0] {
        assert b[0] in f;
        RankTransitive(p[0], f[0], b[0]);
      }
      var rest := FirstOnly(p[1..], seenP + {KeyOf(p[0])});
      assert FirstOnly(p, seenP)[1..] == rest;
      assert Weave(FirstOnly(p, seenP), b) == [p[0]] + Weave(rest, b);
    }
  }

  lemma TakeFallback(whole: seq<Record>, pushed: seq<Record>, p: seq<Record>, f: seq<Record>,
                     seenP: set<Key>, seenF: set<Key>)
    requires Remaining(whole, pushed, p, f, seenP, seenF)
    requires f != [] && (p != [] ==> Before(f[0], p[0]))
    ensures KeyOf(f[0]) in seenF ==> Remaining(whole, pushed, p, f[1..], seenP, seenF)
    ensures KeyOf(f[0]) !in seenF ==> Remaining(whole, pushed + [f[0]], p, f[1..], seenP, seenF + {KeyOf(f[0])})
  {
    var a := FirstOnly(p, seenP);
    if KeyOf(f[0]) !in seenF {
      if a != [] {
        assert a[0] in p;
        BeforeIsStrict(f[0], p[0]);
        if a[0] != p[0] { RankTransitive(f[0], p[0], a[0]); }
      }
      var rest := FirstOnly(f[1..], seenF + {KeyOf(f[0])});
      assert FirstOnly(f, seenF)[1..] == rest;
      assert Weave(a, FirstOnly(f, seenF)) == [f[0]] + Weave(a, rest);
    }
  }

  lemma StartRemaining(p: seq<Record>, f: seq<Record>)
    requires Sorted(p) && Sorted(f)
    ensures Remaining(StableSort(FirstOnly(p + f, {})), [], p, f, {}, Keys(p))
  {
    FilteredWeave(p, f);
  }

  /** `Remaining` at the positions `i` and `j` of the merge loop. */
  ghost predicate Progress(p: seq<Record>, f: seq<Record>, i: nat, j: nat, seenP: set<Key>, seenF: set<Key>,
                           pushed: seq<Record>)
  {
    && i <= |p| && j <= |f|
    && Remaining(StableSort(FirstOnly(p + f, {})), pushed, p[i..], f[j..], seenP, Keys(p) + seenF)
  }

  lemma ProgressStarts(p: seq<Record>, f: seq<Record>)
    requires Sorted(p) && Sorted(f)
    ensures Progress(p, f, 0, 0, {}, {}, [])
  {
    StartRemaining(p, f);
    assert p[0..] == p && f[0..] == f && Keys(p) + {} == Keys(p);
  }

  lemma PrimaryProgress(p: seq<Record>, f: seq<Record>, i: nat, j: nat, seenP: set<Key>, seenF: set<Key>,
                        pushed: seq<Record>)
    requires Progress(p, f, i, j, seenP, seenF, pushed)
    requires i < |p| && (j < |f| ==> !Before(f[j], p[i]))
    ensures KeyOf(p[i]) in seenP ==> Progress(p, f, i + 1, j, seenP, seenF, pushed)
    ensures KeyOf(p[i]) !in seenP ==> Progress(p, f, i + 1, j, seenP + {KeyOf(p[i])}, seenF, pushed + [p[i]])
  {
    TakePrimary(StableSort(FirstOnly(p + f, {})), pushed, p[i..], f[j..], seenP, Keys(p) + seenF);
    assert p[i..][1..] == p[i + 1..];
  }

  lemma FallbackProgress(p: seq<Record>, f: seq<Record>, i: nat, j: nat, seenP: set<Key>, seenF: set<Key>,
                         pushed: seq<Record>)
    requires Progress(p, f, i, j, seenP, seenF, pushed)
    requires j < |f| && (i < |p| ==> Before(f[j], p[i]))
    ensures KeyOf(f[j]) in Keys(p) || KeyOf(f[j]) in seenF ==> Progress(p, f, i, j + 1, seenP, seenF, pushed)
    ensures KeyOf(f[j]) !in Keys(p) && KeyOf(f[j]) !in seenF ==>
              Progress(p, f, i, j + 1, seenP, seenF + {KeyOf(f[j])}, pushed + [f[j]])
  {
    TakeFallback(StableSort(FirstOnly(p + f, {})), pushed, p[i..], f[j..], seenP, Keys(p) + seenF);
    assert f[j..][1..] == f[j + 1..];
    assert Keys(p) + seenF + {KeyOf(f[j])} == Keys(p) + (seenF + {KeyOf(f[j])});
  }

  lemma ProgressEnds(p: seq<Record>, f: seq<Record>, seenP: set<Key>, seenF: set<Key>, pushed: seq<Record>)
    requires Progress(p, f, |p|, |f|, seenP, seenF, pushed)
    ensures pushed == StableSort(FirstOnly(p + f, {}))
  {
    assert p[|p|..] == [] && f[|f|..] == [];
  }

  method MergeRecordsTail(primary: seq<Record>, fallback: seq<Record>, limit: nat) returns (merged: seq<Record>)
    requires limit > 0 && Sorted(primary) && Sorted(fallback)
    ensures merged == Merged(primary, fallback, limit)
  {
    var tail := new Record[limit];
    var start: nat, count: nat := 0, 0;
    var primaryKeys := Keys(primary);
    var seenPrimary: set<Key>, seenFallback: set<Key> := {}, {};
    ghost var pushed: seq<Record> := [];
    ProgressStarts(primary, fallback);
    var i: nat, j: nat := 0, 0;
    while i < |primary| || j < |fallback|
      invariant i <= |primary| && j <= |fallback|
      invariant tail.Length == limit && fresh(tail) && HoldsTail(tail[..], start, count, pushed)
      invariant Progress(primary, fallback, i, j, seenPrimary, seenFallback, pushed)
      decreases |primary| - i + |fallback| - j
    {
      if j >= |fallback| || (i < |primary| && !Before(fallback[j], primary[i])) {
        var record := primary[i];
        PrimaryProgress(primary, fallback, i, j, seenPrimary, seenFallback, pushed);
        if KeyOf(record) !in seenPrimary {
          seenPrimary := seenPrimary + {KeyOf(record)};
          start, count := PushTail(tail, start, count, record, pushed);
          pushed := pushed + [record];
        }
        i := i + 1;
      } else {
        var record := fallback[j];
        FallbackProgress(primary, fallback, i, j, seenPrimary, seenFallback, pushed);
        if KeyOf(record) !in primaryKeys && KeyOf(record) !in seenFallback {
          seenFallback := seenFallback + {KeyOf(record)};
          start, count := PushTail(tail, start, count, record, pushed);
          pushed := pushed + [record];
        }
        j := j + 1;
      }
    }
    ProgressEnds(primary, fallback, seenPrimary, seenFallback, pushed);
    merged := ReadTail(tail, start, count, pushed);
  }

  // ---------- What a merge is, field by field ----------

  /** Two readings of one frame: they agree in time, identifier, length, data and interface. */
  predicate SameFrame(a: Record, b: Record) {
    a.time == b.time && a.id == b.id && a.dlc == b.dlc && a.data == b.data && a.iface == b.iface
  }

  /** `a` is `b`, begins `b`, or is smaller at the first character in which they differ. */
  ghost predicate TextUpTo(a: string, b: string) {
    a == b || exists k: nat :: k <= |a| && k < |b| && a[..k] == b[..k] && (k == |a| || a[k] < b[k])
  }

  /** Times ascend; at equal times sequence numbers do, then identifiers, then interface names. */
  ghost predicate UpTo(a: Record, b: Record) {
    && a.time <= b.time
    && (a.time == b.time ==> a.seqNo <= b.seqNo)
    && (a.time == b.time && a.seqNo == b.seqNo ==> a.id <= b.id)
    && (a.time == b.time && a.seqNo == b.seqNo && a.id == b.id ==> TextUpTo(a.iface, b.iface))
  }

  ghost predicate Chronological(r: seq<Record>) {
    forall i, j :: 0 <= i < j < |r| ==> UpTo(r[i], r[j])
  }

  ghost predicate Unrepeated(r: seq<Record>) {
    forall i, j :: 0 <= i < j < |r| ==> !SameFrame(r[i], r[j])
  }

  /** Record `k` of the input is the first reading of its frame. */
  ghost predicate FirstReading(all: seq<Record>, k: nat) {
    k < |all| && forall j :: 0 <= j < k ==> !SameFrame(all[j], all[k])
  }

  /** The first reading of `x` comes before that of `y`. */
  ghost predicate ReadInOrder(s: seq<Record>, x: Record, y: Record) {
    exists a: nat, b: nat :: a < b && FirstReading(s, a) && FirstReading(s, b) && s[a] == x && s[b] == y
  }

  /** Records that tie keep the order of the input. */
  ghost predicate TiesInOrder(all: seq<Record>, r: seq<Record>) {
    forall i, j :: 0 <= i < j < |r| && UpTo(r[j], r[i]) ==> ReadInOrder(all, r[i], r[j])
  }

  /** What the callers of a merge rely on.  With a limit, a frame that is left out makes way for `limit` others, none of
      which it comes after. */
  ghost predicate MergeOf(all: seq<Record>, r: seq<Record>, limit: int) {
    && Chronological(r) && TiesInOrder(all, r) && Unrepeated(r)
    && (forall x :: x in r ==> exists k: nat :: FirstReading(all, k) && all[k] == x)
    && (limit <= 0 ==> forall k :: 0 <= k < |all| ==> exists i :: 0 <= i < |r| && SameFrame(r[i], all[k]))
    && (limit > 0 ==> |r| <= limit)
    && (limit > 0 ==> forall k: nat :: FirstReading(all, k) && all[k] !in r ==> |r| == limit && UpTo(all[k], r[0]))
  }

  lemma TextStep(a: string, b: string)
    requires a != [] && b != [] && a[0] == b[0]
    ensures TextUpTo(a, b) <==> TextUpTo(a[1..], b[1..])
  {
    assert a == [a[0]] + a[1..] && b == [b[0]] + b[1..];
    if k: nat :| k <= |a| && k < |b| && a[..k] == b[..k] && (k == |a| || a[k] < b[k]) {
      assert k > 0;
      assert a[1..][..k - 1] == a[..k][1..] && b[1..][..k - 1] == b[..k][1..];
    }
    if k: nat :| k <= |a[1..]| && k < |b[1..]| && a[1..][..k] == b[1..][..k]
                 && (k == |a[1..]| || a[1..][k] < b[1..][k]) {
      assert a[..k + 1] == [a[0]] + a[1..][..k] && b[..k + 1] == [b[0]] + b[1..][..k];
    }
  }

  lemma {:induction false} TextOrder(a: string, b: string)
    ensures !TextBefore(b, a) <==> TextUpTo(a, b)
  {
    TextTotal(a, b);
    if a != [] && b != [] && a[0] == b[0] {
      TextStep(a, b);
      TextOrder(a[1..], b[1..]);
    } else if a != b {
      assert a[..0] == b[..0];
      assert forall k :: 0 < k <= |a| && k <= |b| ==> a[..k][0] != b[..k][0];
    }
  }

  /** Coming up to another record, field by field, is not coming after it. */
  lemma OrderInFields(a: Record, b: Record)
    ensures !Before(b, a) <==> UpTo(a, b)
  {
    TextOrder(a.iface, b.iface);
  }

  /** A first reading, seen from one position earlier. */
  lemma ReadingBehind(s: seq<Record>, k: nat)
    requires 0 < k < |s|
    ensures FirstReading(s, k) <==> FirstReading(s[1..], k - 1) && !SameFrame(s[0], s[k])
  {
    assert forall j :: 0 < j < |s| ==> s[j] == s[1..][j - 1];
    assert forall j :: 0 <= j < |s| - 1 ==> s[1..][j] == s[j + 1];
  }

  /** The first readings of the frames not in `seen`, each once and none missing. */
  ghost predicate Readings(s: seq<Record>, seen: set<Key>, r: seq<Record>) {
    && Unrepeated(r)
    && (forall x :: x in r ==> KeyOf(x) !in seen && exists k: nat :: FirstReading(s, k) && s[k] == x)
    && (forall k: nat :: FirstReading(s, k) && KeyOf(s[k]) !in seen ==> s[k] in r)
  }

  lemma UnrepeatedCons(x: Record, rest: seq<Record>)
    requires Unrepeated(rest) && forall y :: y in rest ==> !SameFrame(x, y)
    ensures Unrepeated([x] + rest)
  {
    var r := [x] + rest;
    forall i, j | 0 <= i < j < |r| ensures !SameFrame(r[i], r[j]) {
      assert r[j] == rest[j - 1] && r[j] in rest;
    }
  }

  lemma ReadingsCons(s: seq<Record>, seen: set<Key>, rest: seq<Record>)
    requires s != [] && Readings(s[1..], seen + {KeyOf(s[0])}, rest)
    ensures Readings(s, seen, if KeyOf(s[0]) in seen then rest else [s[0]] + rest)
  {
    var r := if KeyOf(s[0]) in seen then rest else [s[0]] + rest;
    forall x | x in rest ensures exists k: nat :: FirstReading(s, k) && s[k] == x {
      var k: nat :| FirstReading(s[1..], k) && s[1..][k] == x;
      ReadingBehind(s, k + 1);
    }
    forall k: nat | FirstReading(s, k) && KeyOf(s[k]) !in seen ensures s[k] in r {
      if k > 0 {
        ReadingBehind(s, k);
        assert s[1..][k - 1] == s[k];
      }
    }
    assert FirstReading(s, 0);
    UnrepeatedCons(s[0], rest);
  }

  lemma {:induction false} FirstReadings(s: seq<Record>, seen: set<Key>)
    ensures Readings(s, seen, FirstOnly(s, seen))
  {
    if s != [] {
      var more := seen + {KeyOf(s[0])};
      FirstReadings(s[1..], more);
      if KeyOf(s[0]) in seen { assert more == seen; }
      ReadingsCons(s, seen, FirstOnly(s[1..], more));
    }
  }

  lemma {:induction false} HasFirstReading(s: seq<Record>, k: nat) returns (j: nat)
    requires k < |s|
    ensures j <= k && FirstReading(s, j) && SameFrame(s[j], s[k])
  {
    if j' :| 0 <= j' < k && SameFrame(s[j'], s[k]) {
      j := HasFirstReading(s, j');
    } else {
      j := k;
    }
  }

  /** `x` occurs in front of `y`. */
  ghost predicate Precedes(s: seq<Record>, x: Record, y: Record) {
    exists i, j :: 0 <= i < j < |s| && s[i] == x && s[j] == y
  }

  lemma PrecedesCons(h: Record, s: seq<Record>, x: Record, y: Record)
    ensures Precedes([h] + s, x, y) <==> (h == x && y in s) || Precedes(s, x, y)
  {
    var t := [h] + s;
    if i, j :| 0 <= i < j < |t| && t[i] == x && t[j] == y {
      assert t[j] == s[j - 1];
      if i > 0 { assert t[i] == s[i - 1]; }
    }
    if h == x && y in s {
      var j :| 0 <= j < |s| && s[j] == y;
      assert t[0] == x && t[j + 1] == y;
    }
    if i, j :| 0 <= i < j < |s| && s[i] == x && s[j] == y {
      assert t[i + 1] == x && t[j + 1] == y;
    }
  }

  lemma {:induction false} RunHas(x: Record, s: seq<Record>, y: Record)
    ensures y in RunOf(x, s) <==> y in s && SameRank(x, y)
  {
    if s != [] {
      RunHas(x, s[1..], y);
      assert s == [s[0]] + s[1..];
    }
  }

  /** Among tied records the order of a list is that of their run. */
  lemma {:induction false} RunOrder(x: Record, s: seq<Record>, y: Record)
    requires SameRank(x, y)
    ensures Precedes(RunOf(x, s), x, y) <==> Precedes(s, x, y)
  {
    if s != [] {
      RunOrder(x, s[1..], y);
      assert s == [s[0]] + s[1..];
      PrecedesCons(s[0], s[1..], x, y);
      if SameRank(x, s[0]) {
        PrecedesCons(s[0], RunOf(x, s[1..]), x, y);
        RunHas(x, s[1..], y);
      } else {
        BeforeIsStrict(x, x);
        assert [] + RunOf(x, s[1..]) == RunOf(x, s[1..]);
      }
    }
  }

  lemma InOrderBehind(s: seq<Record>, x: Record, y: Record)
    requires s != [] && ReadInOrder(s[1..], x, y) && !SameFrame(s[0], x) && !SameFrame(s[0], y)
    ensures ReadInOrder(s, x, y)
  {
    var a: nat, b: nat :| a < b && FirstReading(s[1..], a) && FirstReading(s[1..], b)
                          && s[1..][a] == x && s[1..][b] == y;
    ReadingBehind(s, a + 1);
    ReadingBehind(s, b + 1);
  }

  lemma HeadInOrder(s: seq<Record>, y: Record, b: nat)
    requires s != [] && FirstReading(s[1..], b) && s[1..][b] == y && !SameFrame(s[0], y)
    ensures ReadInOrder(s, s[0], y)
  {
    ReadingBehind(s, b + 1);
    assert FirstReading(s, 0);
  }

  lemma {:induction false} ReadingsInOrder(s: seq<Record>, seen: set<Key>, x: Record, y: Record)
    requires Precedes(FirstOnly(s, seen), x, y)
    ensures ReadInOrder(s, x, y)
  {
    var more := seen + {KeyOf(s[0])};
    var rest := FirstOnly(s[1..], more);
    if KeyOf(s[0]) in seen { assert more == seen; } else { PrecedesCons(s[0], rest, x, y); }
    FirstReadings(s[1..], more);
    if Precedes(rest, x, y) {
      ReadingsInOrder(s[1..], more, x, y);
      PrecedesIn(rest, x, y);
      InOrderBehind(s, x, y);
    } else {
      var b: nat :| FirstReading(s[1..], b) && s[1..][b] == y;
      HeadInOrder(s, y, b);
    }
  }

  lemma PrecedesIn(s: seq<Record>, x: Record, y: Record)
    requires Precedes(s, x, y)
    ensures x in s && y in s
  {
  }

  lemma TiedPair(all: seq<Record>, x: Record, y: Record)
    requires Precedes(StableSort(FirstOnly(all, {})), x, y) && SameRank(x, y)
    ensures ReadInOrder(all, x, y)
  {
    var first := FirstOnly(all, {});
    SortRuns(x, first);
    RunOrder(x, StableSort(first), y);
    RunOrder(x, first, y);
    ReadingsInOrder(all, {}, x, y);
  }

  lemma TailPrecedes(full: seq<Record>, limit: int, i: nat, j: nat)
    requires i < j < |KeepLast(full, limit)|
    ensures Precedes(full, KeepLast(full, limit)[i], KeepLast(full, limit)[j])
  {
    var from := |full| - |KeepLast(full, limit)|;
    assert full[i + from] == KeepLast(full, limit)[i] && full[j + from] == KeepLast(full, limit)[j];
  }

  lemma SortedTie(s: seq<Record>, i: nat, j: nat)
    requires Sorted(s) && i < j < |s| && UpTo(s[j], s[i])
    ensures SameRank(s[i], s[j])
  {
    OrderInFields(s[j], s[i]);
  }

  /** The stable sort keeps the input order of tied records, and so does its end. */
  lemma SortedTies(all: seq<Record>, limit: int)
    ensures TiesInOrder(all, KeepLast(StableSort(FirstOnly(all, {})), limit))
  {
    var full := StableSort(FirstOnly(all, {}));
    var r := KeepLast(full, limit);
    SortSorted(FirstOnly(all, {}));
    assert Sorted(r);
    forall i, j | 0 <= i < j < |r| && UpTo(r[j], r[i]) ensures ReadInOrder(all, r[i], r[j]) {
      TailPrecedes(full, limit, i, j);
      SortedTie(r, i, j);
      TiedPair(all, r[i], r[j]);
    }
  }

  lemma SortedInFields(s: seq<Record>)
    requires Sorted(s)
    ensures Chronological(s)
  {
    forall i, j | 0 <= i < j < |s| ensures UpTo(s[i], s[j]) {
      assert !Before(s[j], s[i]);
      OrderInFields(s[i], s[j]);
    }
  }

  /** The same records in another order repeat none either. */
  lemma UnrepeatedPermuted(s: seq<Record>, t: seq<Record>)
    requires multiset(s) == multiset(t) && Unrepeated(s)
    ensures Unrepeated(t)
  {
    forall i, j | 0 <= i < j < |t| ensures !SameFrame(t[i], t[j]) {
      if t[i] == t[j] {
        TwiceIn(t, i, j);
        OnceIn(s, t[i]);
      } else {
        assert t[i] in multiset(s) && t[j] in multiset(s);
        var a :| 0 <= a < |s| && s[a] == t[i];
        var b :| 0 <= b < |s| && s[b] == t[j];
        if a < b { assert !SameFrame(s[a], s[b]); } else { assert !SameFrame(s[b], s[a]); }
      }
    }
  }

  lemma TwiceIn(t: seq<Record>, i: nat, j: nat)
    requires i < j < |t| && t[i] == t[j]
    ensures multiset(t)[t[i]] >= 2
  {
    assert t == t[..j] + [t[j]] + t[j + 1..];
    assert t[i] in t[..j];
  }

  lemma {:induction false} OnceIn(s: seq<Record>, x: Record)
    requires Unrepeated(s)
    ensures multiset(s)[x] <= 1
  {
    if s != [] {
      var s', last := s[..|s| - 1], s[|s| - 1];
      assert s == s' + [last];
      OnceIn(s', x);
      forall i | 0 <= i < |s'| ensures s'[i] != last {
        assert !SameFrame(s[i], s[|s| - 1]);
      }
    }
  }

  lemma CutOff(full: seq<Record>, limit: int, x: Record)
    requires Chronological(full) && x in full && x !in KeepLast(full, limit)
    ensures limit > 0 && |KeepLast(full, limit)| == limit && UpTo(x, KeepLast(full, limit)[0])
  {
    var i :| 0 <= i < |full| && full[i] == x;
    var r := KeepLast(full, limit);
    forall k | |full| - |r| <= k < |full| ensures full[k] in r {
      assert r[k - (|full| - |r|)] == full[k];
    }
    assert i < |full| - |r|;
    assert r != [] ==> r[0] == full[|full| - |r|];
  }

  lemma SortedReadings(all: seq<Record>)
    ensures var full := StableSort(FirstOnly(all, {}));
            && Chronological(full) && Unrepeated(full)
            && (forall x :: x in full ==> exists k: nat :: FirstReading(all, k) && all[k] == x)
            && (forall k: nat :: FirstReading(all, k) ==> all[k] in full)
  {
    var first, full := FirstOnly(all, {}), StableSort(FirstOnly(all, {}));
    SortSorted(first);
    SortedInFields(full);
    FirstReadings(all, {});
    UnrepeatedPermuted(first, full);
    assert forall x :: x in full <==> x in multiset(full);
    assert forall x :: x in first <==> x in multiset(first);
  }

  /** Every frame has a result, or makes way for later ones. */
  lemma NoneForgotten(all: seq<Record>, full: seq<Record>, limit: int)
    requires Chronological(full) && forall k: nat :: FirstReading(all, k) ==> all[k] in full
    ensures var r := KeepLast(full, limit);
            && (limit <= 0 ==> forall k :: 0 <= k < |all| ==> exists i :: 0 <= i < |r| && SameFrame(r[i], all[k]))
            && (limit > 0 ==>
                  forall k: nat :: FirstReading(all, k) && all[k] !in r ==> |r| == limit && UpTo(all[k], r[0]))
  {
    var r := KeepLast(full, limit);
    if limit <= 0 {
      forall k | 0 <= k < |all| ensures exists i :: 0 <= i < |r| && SameFrame(r[i], all[k]) {
        var j := HasFirstReading(all, k);
        assert all[j] in r;
      }
    } else {
      forall k: nat | FirstReading(all, k) && all[k] !in r ensures |r| == limit && UpTo(all[k], r[0]) {
        CutOff(full, limit, all[k]);
      }
    }
  }

  /** The end of a list keeps what holds of any two or any one of its elements. */
  lemma TailKeeps(full: seq<Record>, limit: int)
    requires Chronological(full) && Unrepeated(full)
    ensures var r := KeepLast(full, limit);
            Chronological(r) && Unrepeated(r) && forall x :: x in r ==> x in full
  {
  }

  /** The reference, field by field. */
  lemma MergedInFields(primary: seq<Record>, fallback: seq<Record>, limit: int)
    ensures MergeOf(primary + fallback, Merged(primary, fallback, limit), limit)
  {
    var full := StableSort(FirstOnly(primary + fallback, {}));
    SortedReadings(primary + fallback);
    NoneForgotten(primary + fallback, full, limit);
    SortedTies(primary + fallback, limit);
    TailKeeps(full, limit);
  }

  /** For all record lists and limits, both paths give the simple de-duplicate, stable sort and truncate:
      what its callers rely on. */
  method MergeRecords(primary: seq<Record>, fallback: seq<Record>, limit: int) returns (merged: seq<Record>)
    ensures merged == Merged(primary, fallback, limit)
    ensures MergeOf(primary + fallback, merged, limit)
  {
    MergedInFields(primary, fallback, limit);
    if limit > 0 {
      var sortedPrimary := RecordsSorted(primary);
      var sortedFallback := RecordsSorted(fallback);
      if sortedPrimary && sortedFallback {
        merged := MergeRecordsTail(primary, fallback, limit);
        return;
      }
    }
    merged := MergeRecordsFull(primary, fallback, limit);
  }
}
