/** Reading process data objects back and comparing them with the intended configuration:
    canmap/observe.go (readSDO, scanPDOs) and canmap/diff.go (diffPDO, mapsEqual, pickPDO).
  */
module PdoReadBack {
  import opened Wrappers
  import opened PdoPlan

  // ---------- Reading back ----------

  datatype ReadError = Absent | Transient | Cancelled

  type Reading = Result<Bytes, ReadError>

  const ReadAttempts := 4
  const MaxScan := 16

  /** The answer of the first attempt that decides: data, absence or cancellation. */
  function Decided(attempt: nat -> Reading, k: nat): Reading
    requires k <= ReadAttempts
    decreases ReadAttempts - k
  {
    if k == ReadAttempts then Err(Transient)
    else if attempt(k) == Err(Transient) then Decided(attempt, k + 1)
    else attempt(k)
  }

  method ReadSDO(attempt: nat -> Reading) returns (r: Reading)
    ensures r == Decided(attempt, 0)
  {
    for k := 0 to ReadAttempts
      invariant Decided(attempt, k) == Decided(attempt, 0)
    {
      var answer := attempt(k);
      if answer != Err(Transient) {
        return answer;
      }
    }
    return Err(Transient);
  }

  /** Losing some attempts never changes what is read, as long as one of the four gets through. */
  lemma {:induction false} RetriesAreTruthful(attempt: nat -> Reading, truth: Reading, k: nat)
    requires k <= ReadAttempts && truth != Err(Transient)
    requires forall i: nat :: attempt(i) == truth || attempt(i) == Err(Transient)
    ensures Decided(attempt, k) == truth || Decided(attempt, k) == Err(Transient)
    ensures Decided(attempt, k) == truth <==> exists i :: k <= i < ReadAttempts && attempt(i) == truth
    decreases ReadAttempts - k
  {
    if k < ReadAttempts {
      RetriesAreTruthful(attempt, truth, k + 1);
      if attempt(k) == Err(Transient) {
        assert Decided(attempt, k) == Decided(attempt, k + 1);
      }
    }
  }

  /** What each attempt at reading an object brings. */
  type Bus = Obj -> nat -> Reading

  /** What reading an object brings. */
  function Through(bus: Bus): Obj -> Reading {
    (o: Obj) => Decided(bus(o), 0)
  }

  datatype ObservedPdo = ObservedPdo(number: nat, cobId: DWord, enabled: bool, transmission: Byte,
                                     mapping: seq<MapEntry>)

  /** Whole records can be read at `base + i`. */
  predicate InScan(base: Word) {
    base + MaxScan < 0x1_0000
  }

  /** The COB-ID object of the record at position `i`. */
  function CobObj(comm: Word, i: nat): Obj
    requires InScan(comm) && i < MaxScan
  {
    Obj(comm + i, 1)
  }

  /** The entries read from subindex `from` on, up to the first that cannot be read. */
  function ReadEntries(read: Obj -> Reading, index: Word, from: nat, count: nat): seq<MapEntry>
    requires 1 <= from && count <= 8
    decreases count + 1 - from
  {
    if from > count || read(Obj(index, from)).Err? then []
    else [DecodeMapEntry(LeUint32(read(Obj(index, from)).value))] + ReadEntries(read, index, from + 1, count)
  }

  function EntryCount(r: Reading): nat {
    if r.Err? then 0 else if ByteAt(r.value, 0) > 8 then 8 else ByteAt(r.value, 0)
  }

  /** The PDO at position `i`, given the value of its COB-ID object. */
  function PdoAt(read: Obj -> Reading, comm: Word, mapping: Word, i: nat, cob: DWord): ObservedPdo
    requires InScan(comm) && InScan(mapping) && i < MaxScan
  {
    var tt := read(Obj(comm + i, 2));
    ObservedPdo(i + 1, cob % InvalidBit, cob < InvalidBit, if tt.Ok? then ByteAt(tt.value, 0) else 0,
                ReadEntries(read, mapping + i, 1, EntryCount(read(Obj(mapping + i, 0)))))
  }

  /** The PDOs observed among the first `n` positions: every one whose COB-ID could be read. */
  function Observed(read: Obj -> Reading, comm: Word, mapping: Word, n: nat): (r: seq<ObservedPdo>)
    requires InScan(comm) && InScan(mapping) && n <= MaxScan
    ensures forall i :: 0 <= i < |r| ==> r[i].number <= n
  {
    if n == 0 then []
    else if read(CobObj(comm, n - 1)).Ok? then
      Observed(read, comm, mapping, n - 1)
      + [PdoAt(read, comm, mapping, n - 1, LeUint32(read(CobObj(comm, n - 1)).value))]
    else Observed(read, comm, mapping, n - 1)
  }

  /** The scan ends at `stop`: everything before exists, and the object at `stop` does not, or it is cancelled. */
  ghost predicate Ends(read: Obj -> Reading, comm: Word, stop: nat, cancelled: bool)
    requires InScan(comm) && stop <= MaxScan
  {
    && (forall i :: 0 <= i < stop ==> read(CobObj(comm, i)).Ok? || read(CobObj(comm, i)) == Err(Transient))
    && (stop < MaxScan ==> read(CobObj(comm, stop)) == Err(if cancelled then Cancelled else Absent))
    && (cancelled ==> stop < MaxScan)
  }

  /** A failure that is to be reported: the object was not read, and not because it is absent. */
  predicate Disturbing(read: Obj -> Reading, o: Obj) {
    read(o).Err? && read(o) != Err(Absent)
  }

  /** Failures are reported of COB-IDs and mapping records, and of nothing else: not of transmission types. */
  predicate Reportable(comm: Word, mapping: Word, o: Obj) {
    (comm <= o.index < comm + MaxScan && o.sub == 1) || mapping <= o.index < mapping + MaxScan
  }

  /** The failures met when the mapping record at `index` is read: its count, or its first unreadable entry. */
  predicate Reported(read: Obj -> Reading, index: Word, errors: seq<Obj>) {
    var count := Obj(index, 0);
    var entries := ReadEntries(read, index, 1, EntryCount(read(count)));
    && (Disturbing(read, count) ==> count in errors)
    && (|entries| < EntryCount(read(count)) && Disturbing(read, Obj(index, |entries| + 1)) ==>
          Obj(index, |entries| + 1) in errors)
  }

  lemma EntriesStep(read: Obj -> Reading, index: Word, s: nat, count: nat, before: seq<MapEntry>)
    requires 1 <= s <= count <= 8
    ensures read(Obj(index, s)).Err? ==> before + ReadEntries(read, index, s, count) == before
    ensures read(Obj(index, s)).Ok? ==>
              var e := DecodeMapEntry(LeUint32(read(Obj(index, s)).value));
              before + ReadEntries(read, index, s, count) == before + [e] + ReadEntries(read, index, s + 1, count)
  {
    if read(Obj(index, s)).Ok? {
      var e := DecodeMapEntry(LeUint32(read(Obj(index, s)).value));
      var rest := ReadEntries(read, index, s + 1, count);
      assert before + ([e] + rest) == before + [e] + rest;
    }
  }

  method ScanEntries(bus: Bus, index: Word, count: nat) returns (mapping: seq<MapEntry>, errors: seq<Obj>)
    requires count <= 8
    ensures mapping == ReadEntries(Through(bus), index, 1, count)
    ensures forall o :: o in errors ==> Disturbing(Through(bus), o) && o.index == index
    ensures |mapping| <= count
    ensures |mapping| < count && Disturbing(Through(bus), Obj(index, |mapping| + 1)) ==>
              Obj(index, |mapping| + 1) in errors
    ensures |mapping| < count ==> Through(bus)(Obj(index, |mapping| + 1)).Err?
  {
    ghost var read := Through(bus);
    mapping, errors := [], [];
    var s := 1;
    while s <= count
      invariant 1 <= s <= count + 1 && errors == [] && |mapping| == s - 1
      invariant mapping + ReadEntries(read, index, s, count) == ReadEntries(read, index, 1, count)
      decreases count - s
    {
      var entry := ReadSDO(bus(Obj(index, s)));
      EntriesStep(read, index, s, count, mapping);
      if entry.Err? {
        if entry.error != Absent {
          errors := errors + [Obj(index, s)];
        }
        return;
      }
      mapping := mapping + [DecodeMapEntry(LeUint32(entry.value))];
      s := s + 1;
    }
  }

  method ScanMapping(bus: Bus, index: Word) returns (mapping: seq<MapEntry>, errors: seq<Obj>)
    ensures mapping == ReadEntries(Through(bus), index, 1, EntryCount(Through(bus)(Obj(index, 0))))
    ensures forall o :: o in errors ==> Disturbing(Through(bus), o) && o.index == index
    ensures Reported(Through(bus), index, errors)
  {
    mapping, errors := [], [];
    var count := ReadSDO(bus(Obj(index, 0)));
    if count.Err? {
      if count.error != Absent {
        errors := [Obj(index, 0)];
      }
    } else if |count.value| > 0 {
      var n := count.value[0];
      if n > 8 {
        n := 8;
      }
      mapping, errors := ScanEntries(bus, index, n);
    }
  }

  method ScanOne(bus: Bus, comm: Word, mapping: Word, i: nat, cob: DWord)
      returns (pdo: ObservedPdo, errors: seq<Obj>)
    requires InScan(comm) && InScan(mapping) && i < MaxScan
    ensures pdo == PdoAt(Through(bus), comm, mapping, i, cob)
    ensures forall o :: o in errors ==> Disturbing(Through(bus), o) && Reportable(comm, mapping, o)
    ensures Reported(Through(bus), mapping + i, errors)
  {
    var transmission: Byte := 0;
    var tt := ReadSDO(bus(Obj(comm + i, 2)));
    if tt.Ok? && |tt.value| > 0 {
      transmission := tt.value[0];
    }
    var entries;
    entries, errors := ScanMapping(bus, mapping + i);
    pdo := ObservedPdo(i + 1, cob % InvalidBit, cob < InvalidBit, transmission, entries);
  }

  /** Every failure that the scan of position `i` meets is in the list. */
  predicate Told(read: Obj -> Reading, comm: Word, mapping: Word, i: nat, errors: seq<Obj>)
    requires InScan(comm) && InScan(mapping) && i < MaxScan
  {
    if read(CobObj(comm, i)).Err? then CobObj(comm, i) in errors else Reported(read, mapping + i, errors)
  }

  lemma ToldMore(read: Obj -> Reading, comm: Word, mapping: Word, n: nat, errors: seq<Obj>, more: seq<Obj>)
    requires InScan(comm) && InScan(mapping) && n < MaxScan
    requires forall j :: 0 <= j < n ==> Told(read, comm, mapping, j, errors)
    requires if read(CobObj(comm, n)).Err? then CobObj(comm, n) in more else Reported(read, mapping + n, more)
    ensures forall j :: 0 <= j <= n ==> Told(read, comm, mapping, j, errors + more)
  {
    forall j | 0 <= j <= n ensures Told(read, comm, mapping, j, errors + more) {
      if j < n { assert Told(read, comm, mapping, j, errors); }
    }
  }

  /** A failure on one PDO neither hides the PDOs behind it nor goes unreported; only absence ends the scan. */
  method ScanPDOs(bus: Bus, comm: Word, mapping: Word)
      returns (out: seq<ObservedPdo>, errors: seq<Obj>, cancelled: bool, ghost stop: nat)
    requires InScan(comm) && InScan(mapping)
    ensures stop <= MaxScan && Ends(Through(bus), comm, stop, cancelled)
    ensures out == Observed(Through(bus), comm, mapping, stop)
    ensures forall o :: o in errors ==> Disturbing(Through(bus), o) && Reportable(comm, mapping, o)
    ensures forall i :: 0 <= i < stop ==> Told(Through(bus), comm, mapping, i, errors)
  {
    ghost var read := Through(bus);
    out, errors, cancelled := [], [], false;
    for i := 0 to MaxScan
      invariant out == Observed(read, comm, mapping, i)
      invariant forall j :: 0 <= j < i ==> read(CobObj(comm, j)).Ok? || read(CobObj(comm, j)) == Err(Transient)
      invariant forall o :: o in errors ==> Disturbing(read, o) && Reportable(comm, mapping, o)
      invariant forall j :: 0 <= j < i ==> Told(read, comm, mapping, j, errors)
    {
      var raw := ReadSDO(bus(CobObj(comm, i)));
      if raw.Err? {
        if raw.error == Cancelled {
          return out, errors, true, i;
        }
        if raw.error == Absent {
          return out, errors, false, i;
        }
        ToldMore(read, comm, mapping, i, errors, [CobObj(comm, i)]);
        errors := errors + [CobObj(comm, i)];
      } else {
        var pdo, more := ScanOne(bus, comm, mapping, i, LeUint32(raw.value));
        ToldMore(read, comm, mapping, i, errors, more);
        out, errors := out + [pdo], errors + more;
      }
    }
    stop := MaxScan;
  }

  // ---------- Comparison ----------

  datatype Finding = Match | Missing | NotEnabled | OtherCobId | OtherMapping

  method MapsEqual(a: seq<MapEntry>, b: seq<MapEntry>) returns (equal: bool)
    ensures equal <==> Plain(a) == Plain(b)
  {
    if |a| != |b| {
      return false;
    }
    for i := 0 to |a|
      invariant forall j :: 0 <= j < i ==> Plain(a)[j] == Plain(b)[j]
    {
      RawRoundTrip(a[i]);
      RawRoundTrip(b[i]);
      if Raw(a[i]) != Raw(b[i]) {
        assert Plain(a)[i] != Plain(b)[i];
        return false;
      }
    }
    return true;
  }

  /** One finding per deviation, or a match. */
  method DiffPdo(pdo: ObservedPdo, cobId: DWord, mapping: seq<MapEntry>) returns (findings: seq<Finding>)
    ensures findings == [Match] <==> pdo.enabled && pdo.cobId == cobId && Plain(pdo.mapping) == Plain(mapping)
    ensures NotEnabled in findings <==> !pdo.enabled
    ensures OtherCobId in findings <==> pdo.cobId != cobId
    ensures OtherMapping in findings <==> Plain(pdo.mapping) != Plain(mapping)
    ensures (Match in findings <==> findings == [Match]) && Missing !in findings
  {
    findings := [];
    if !pdo.enabled {
      findings := findings + [NotEnabled];
    }
    if pdo.cobId != cobId {
      findings := findings + [OtherCobId];
    }
    var equal := MapsEqual(pdo.mapping, mapping);
    if !equal {
      findings := findings + [OtherMapping];
    }
    assert Match !in findings;
    if |findings| == 0 {
      findings := [Match];
    }
  }

  method PickPDO(pdos: seq<ObservedPdo>, number: int) returns (r: Option<ObservedPdo>)
    ensures r == Picked(pdos, number, 0)
  {
    for i := 0 to |pdos|
      invariant Picked(pdos, number, i) == Picked(pdos, number, 0)
    {
      if pdos[i].number == number {
        return Some(pdos[i]);
      }
    }
    return None;
  }

  function Picked(pdos: seq<ObservedPdo>, number: int, i: nat): Option<ObservedPdo>
    requires i <= |pdos|
    decreases |pdos| - i
  {
    if i == |pdos| then None else if pdos[i].number == number then Some(pdos[i]) else Picked(pdos, number, i + 1)
  }

  // ---------- Read-back of a plan ----------

  /** What an undisturbed bus reads from a node. */
  function Truth(n: Node): Obj -> Reading {
    (o: Obj) => if o in n.od then Ok(n.od[o]) else Err(Absent)
  }

  /** A bus that loses some attempts; `lost(o, k)` is attempt `k` at object `o`. */
  function Losing(n: Node, lost: (Obj, nat) -> bool): Bus {
    (o: Obj) => (k: nat) => if lost(o, k) then Err(Transient) else Truth(n)(o)
  }

  /** One of the attempts at the object gets through. */
  ghost predicate GetsThrough(lost: (Obj, nat) -> bool, o: Obj) {
    exists k: nat :: k < 4 && !lost(o, k)
  }

  /** An object is read as it is if one attempt gets through, and otherwise not at all. */
  lemma LosingReads(n: Node, lost: (Obj, nat) -> bool, o: Obj)
    ensures Through(Losing(n, lost))(o) == if GetsThrough(lost, o) then Truth(n)(o) else Err(Transient)
  {
    var attempt := Losing(n, lost)(o);
    RetriesAreTruthful(attempt, Truth(n)(o), 0);
    assert forall k: nat :: !lost(o, k) <==> attempt(k) == Truth(n)(o);
  }

  lemma {:induction false} PickedSnoc(pdos: seq<ObservedPdo>, p: ObservedPdo, number: int, i: nat)
    requires i <= |pdos|
    ensures Picked(pdos + [p], number, i) ==
            if Picked(pdos, number, i).Some? then Picked(pdos, number, i)
            else if p.number == number then Some(p) else None
    decreases |pdos| - i
  {
    if i < |pdos| {
      PickedSnoc(pdos, p, number, i + 1);
    } else {
      assert (pdos + [p])[i] == p && Picked(pdos + [p], number, i + 1) == None;
    }
  }

  lemma {:induction false} PickedNone(pdos: seq<ObservedPdo>, number: int, i: nat)
    requires i <= |pdos| && forall j :: 0 <= j < |pdos| ==> pdos[j].number != number
    ensures Picked(pdos, number, i) == None
    decreases |pdos| - i
  {
    if i < |pdos| {
      PickedNone(pdos, number, i + 1);
    }
  }

  lemma ObservedStep(read: Obj -> Reading, comm: Word, mapping: Word, n: nat, number: nat)
    requires InScan(comm) && InScan(mapping) && 0 < n <= MaxScan
    ensures var before, cob := Picked(Observed(read, comm, mapping, n - 1), number, 0), read(CobObj(comm, n - 1));
            Picked(Observed(read, comm, mapping, n), number, 0) ==
            if before.None? && cob.Ok? && number == n
            then Some(PdoAt(read, comm, mapping, n - 1, LeUint32(cob.value))) else before
  {
    var cob := read(CobObj(comm, n - 1));
    if cob.Ok? {
      PickedSnoc(Observed(read, comm, mapping, n - 1),
                 PdoAt(read, comm, mapping, n - 1, LeUint32(cob.value)), number, 0);
    }
  }

  /** A scan that gets past position `i` has the PDO there exactly if its COB-ID could be read, whatever happened to the
      others. */
  lemma {:induction false} PickedAt(read: Obj -> Reading, comm: Word, mapping: Word, n: nat, i: nat)
    requires InScan(comm) && InScan(mapping) && i < n <= MaxScan
    ensures Picked(Observed(read, comm, mapping, n), i + 1, 0) ==
            if read(CobObj(comm, i)).Ok?
            then Some(PdoAt(read, comm, mapping, i, LeUint32(read(CobObj(comm, i)).value))) else None
  {
    ObservedStep(read, comm, mapping, n, i + 1);
    if i == n - 1 {
      PickedNone(Observed(read, comm, mapping, n - 1), i + 1, 0);
    } else {
      PickedAt(read, comm, mapping, n - 1, i);
    }
  }

  lemma EntryBack(e: MapEntry)
    ensures DecodeMapEntry(LeUint32(U32(Raw(e)))) == e.(comment := "")
  {
    U32RoundTrip(Raw(e));
    RawRoundTrip(e);
  }

  predicate AllRead(read: Obj -> Reading, index: Word, from: nat, count: nat)
    requires count <= 8
  {
    forall s :: from <= s <= count ==> read(Obj(index, s)).Ok?
  }

  /** What can be read of the entries is right. */
  predicate NoneWrong(read: Obj -> Reading, index: Word, entries: seq<MapEntry>)
    requires |entries| <= 8
  {
    forall s :: 1 <= s <= |entries| && read(Obj(index, s)).Ok? ==> read(Obj(index, s)).value == U32(Raw(entries[s - 1]))
  }

  lemma EntryRead(read: Obj -> Reading, index: Word, entries: seq<MapEntry>, from: nat)
    requires 1 <= from <= |entries| <= 8 && NoneWrong(read, index, entries) && read(Obj(index, from)).Ok?
    ensures ReadEntries(read, index, from, |entries|) ==
            [Plain(entries)[from - 1]] + ReadEntries(read, index, from + 1, |entries|)
  {
    EntryBack(entries[from - 1]);
  }

  /** Entries that may be unreadable: all of them come back exactly if all can be read. */
  lemma {:induction false} EntriesRead(read: Obj -> Reading, index: Word, entries: seq<MapEntry>, from: nat)
    requires 1 <= from <= |entries| + 1 && |entries| <= 8 && NoneWrong(read, index, entries)
    ensures ReadEntries(read, index, from, |entries|) <= Plain(entries)[from - 1..]
    ensures ReadEntries(read, index, from, |entries|) == Plain(entries)[from - 1..] <==>
            AllRead(read, index, from, |entries|)
    decreases |entries| + 1 - from
  {
    if from <= |entries| && read(Obj(index, from)).Ok? {
      var e, rest := Plain(entries)[from - 1], ReadEntries(read, index, from + 1, |entries|);
      EntriesRead(read, index, entries, from + 1);
      EntryRead(read, index, entries, from);
      assert Plain(entries)[from - 1..] == [e] + Plain(entries)[from..];
      PrefixCons(e, rest, Plain(entries)[from..]);
    }
  }

  lemma PrefixCons(e: MapEntry, a: seq<MapEntry>, b: seq<MapEntry>)
    ensures [e] + a <= [e] + b <==> a <= b
    ensures [e] + a == [e] + b <==> a == b
  {
    assert ([e] + a)[1..] == a && ([e] + b)[1..] == b;
    if [e] + a <= [e] + b { assert a == b[..|a|]; }
    if a <= b { assert [e] + a == ([e] + b)[..|a| + 1]; }
  }

  /** The records of the node after the whole plan. */
  ghost predicate Applied(v: Node, input: Input)
    requires Acceptable(input)
  {
    var comm, mapping := CommIndex(input), MapIndex(input);
    && Truth(v)(Obj(comm, 1)) == Ok(U32(FinalCob(input))) && Truth(v)(Obj(comm, 2)) == Ok([input.transmission])
    && Truth(v)(Obj(mapping, 0)) == Ok([|input.mapping|])
    && (forall s :: 1 <= s <= |input.mapping| ==> Truth(v)(Obj(mapping, s)) == Ok(U32(Raw(input.mapping[s - 1]))))
  }

  lemma PlanApplies(input: Input, n: Node, v: Node)
    requires Acceptable(input) && HasRecords(n, input) && PrefixState(input, n, StepCount(input), v)
    ensures Applied(v, input)
  {
    var comm, mapping := CommIndex(input), MapIndex(input);
    assert v.od[Obj(comm, 1)] == U32(FinalCob(input));
    assert v.od[Obj(comm, 2)] == [input.transmission];
    assert v.od[Obj(mapping, 0)] == [|input.mapping|];
    forall s | 1 <= s <= |input.mapping| ensures Truth(v)(Obj(mapping, s)) == Ok(U32(Raw(input.mapping[s - 1]))) {
      assert v.od[Obj(mapping, s)] == Expected(input, StepCount(input), Obj(mapping, s), n.od[Obj(mapping, s)]);
    }
  }

  /** The configuration the plan is meant to leave. */
  function Intended(input: Input): ObservedPdo
    requires Acceptable(input)
  {
    ObservedPdo(input.number, input.cobId, !input.leaveDisabled && input.mapping != [], input.transmission,
                Plain(input.mapping))
  }

  /** The mapping comes back exactly if its count, unless it is zero, and all its entries get through. */
  ghost predicate MappingGetsThrough(input: Input, lost: (Obj, nat) -> bool)
    requires Acceptable(input)
  {
    && (input.mapping == [] || GetsThrough(lost, Obj(MapIndex(input), 0)))
    && (forall s :: 1 <= s <= |input.mapping| ==> GetsThrough(lost, Obj(MapIndex(input), s)))
  }

  lemma MappingRead(input: Input, v: Node, lost: (Obj, nat) -> bool)
    requires Acceptable(input) && Applied(v, input)
    ensures var read, index := Through(Losing(v, lost)), MapIndex(input);
            var entries := ReadEntries(read, index, 1, EntryCount(read(Obj(index, 0))));
            entries <= Plain(input.mapping) && (entries == Plain(input.mapping) <==> MappingGetsThrough(input, lost))
  {
    var read, index := Through(Losing(v, lost)), MapIndex(input);
    LosingReads(v, lost, Obj(index, 0));
    forall s | 1 <= s <= |input.mapping|
      ensures read(Obj(index, s)) == if GetsThrough(lost, Obj(index, s)) then Ok(U32(Raw(input.mapping[s - 1])))
                                     else Err(Transient)
    {
      LosingReads(v, lost, Obj(index, s));
    }
    EntriesRead(read, index, input.mapping, 1);
    assert Plain(input.mapping)[0..] == Plain(input.mapping);
  }

  /** What the scan makes of the PDO: everything but the transmission type and the mapping is as intended, a lost
      transmission type is read as 0, and the mapping is cut short unless it gets through. */
  ghost predicate ReadAs(input: Input, lost: (Obj, nat) -> bool, p: ObservedPdo)
    requires Acceptable(input)
  {
    && p == Intended(input).(transmission := p.transmission, mapping := p.mapping)
    && p.transmission == (if GetsThrough(lost, Obj(CommIndex(input), 2)) then input.transmission else 0)
    && p.mapping <= Plain(input.mapping) && (p.mapping == Plain(input.mapping) <==> MappingGetsThrough(input, lost))
  }

  lemma FinalCobReads(input: Input)
    requires Acceptable(input)
    ensures FinalCob(input) % InvalidBit == input.cobId && (FinalCob(input) < InvalidBit <==> LeftEnabled(input))
  {
  }

  lemma PdoParts(read: Obj -> Reading, comm: Word, mapping: Word, i: nat, cob: DWord)
    requires InScan(comm) && InScan(mapping) && i < MaxScan
    ensures var p, tt, index := PdoAt(read, comm, mapping, i, cob), read(Obj(comm + i, 2)), mapping + i;
            && p.number == i + 1 && p.cobId == cob % InvalidBit && (p.enabled <==> cob < InvalidBit)
            && p.transmission == (if tt.Ok? then ByteAt(tt.value, 0) else 0)
            && p.mapping == ReadEntries(read, index, 1, EntryCount(read(Obj(index, 0))))
  {
  }

  lemma PdoOfReadings(input: Input, read: Obj -> Reading, lost: (Obj, nat) -> bool, p: ObservedPdo)
    requires Acceptable(input) && input.number <= MaxScan
    requires var d := input.dir.value;
             p == PdoAt(read, CommBase(d), MapBase(d), input.number - 1, FinalCob(input))
    requires read(Obj(CommIndex(input), 2)) ==
             if GetsThrough(lost, Obj(CommIndex(input), 2)) then Ok([input.transmission]) else Err(Transient)
    requires var entries := ReadEntries(read, MapIndex(input), 1, EntryCount(read(Obj(MapIndex(input), 0))));
             entries <= Plain(input.mapping) && (entries == Plain(input.mapping) <==> MappingGetsThrough(input, lost))
    ensures ReadAs(input, lost, p)
  {
    FinalCobReads(input);
    PdoParts(read, CommBase(input.dir.value), MapBase(input.dir.value), input.number - 1, FinalCob(input));
  }

  lemma PdoRead(input: Input, v: Node, lost: (Obj, nat) -> bool)
    requires Acceptable(input) && Applied(v, input) && input.number <= MaxScan
    ensures var d := input.dir.value;
            ReadAs(input, lost,
                   PdoAt(Through(Losing(v, lost)), CommBase(d), MapBase(d), input.number - 1, FinalCob(input)))
  {
    var d, read := input.dir.value, Through(Losing(v, lost));
    LosingReads(v, lost, Obj(CommIndex(input), 2));
    MappingRead(input, v, lost);
    PdoOfReadings(input, read, lost, PdoAt(read, CommBase(d), MapBase(d), input.number - 1, FinalCob(input)));
  }

  /** The records of PDOs number 1 to `count` exist. */
  ghost predicate Listed(n: Node, comm: Word, count: nat)
    requires InScan(comm) && count <= MaxScan
  {
    forall j :: 0 <= j < count ==> CobObj(comm, j) in n.od
  }

  lemma ScanReaches(v: Node, lost: (Obj, nat) -> bool, comm: Word, count: nat, stop: nat, cancelled: bool)
    requires InScan(comm) && count <= MaxScan && stop <= MaxScan && Listed(v, comm, count)
    requires Ends(Through(Losing(v, lost)), comm, stop, cancelled)
    ensures stop >= count && !cancelled
  {
    if stop < MaxScan {
      LosingReads(v, lost, CobObj(comm, stop));
    }
  }

  lemma ScanFinds(input: Input, v: Node, lost: (Obj, nat) -> bool, stop: nat)
    requires Acceptable(input) && Applied(v, input) && input.number <= stop <= MaxScan
    ensures var d := input.dir.value;
            var found := Picked(Observed(Through(Losing(v, lost)), CommBase(d), MapBase(d), stop), input.number, 0);
            if GetsThrough(lost, Obj(CommIndex(input), 1)) then found.Some? && ReadAs(input, lost, found.value)
            else found.None?
  {
    var comm, mapping, i := CommBase(input.dir.value), MapBase(input.dir.value), input.number - 1;
    var read := Through(Losing(v, lost));
    assert CobObj(comm, i) == Obj(CommIndex(input), 1);
    PickedAt(read, comm, mapping, stop, i);
    LosingReads(v, lost, CobObj(comm, i));
    U32RoundTrip(FinalCob(input));
    PdoRead(input, v, lost);
  }

  /** Every object of the PDO gets through; nothing is said of the others. */
  ghost predicate RecordGetsThrough(input: Input, lost: (Obj, nat) -> bool)
    requires Acceptable(input)
  {
    && GetsThrough(lost, Obj(CommIndex(input), 1)) && MappingGetsThrough(input, lost)
    && (input.transmission == 0 || GetsThrough(lost, Obj(CommIndex(input), 2)))
  }

  /** Scanning the node after the plan over a bus that loses attempts recovers exactly the intended configuration if
      and only if every object of the PDO that matters gets through once in four attempts. */
  lemma ReadBack(input: Input, n: Node, steps: seq<Step>, lost: (Obj, nat) -> bool, stop: nat, cancelled: bool)
    requires Acceptable(input) && HasRecords(n, input) && IsPlan(input, steps) && input.number <= MaxScan
    requires Listed(n, CommBase(input.dir.value), input.number) && stop <= MaxScan
    requires Ends(Through(Losing(After(n, steps, |steps|), lost)), CommBase(input.dir.value), stop, cancelled)
    ensures !cancelled
    ensures var read, d := Through(Losing(After(n, steps, |steps|), lost)), input.dir.value;
            var found := Picked(Observed(read, CommBase(d), MapBase(d), stop), input.number, 0);
            && (found == Some(Intended(input)) <==> RecordGetsThrough(input, lost))
            && (if GetsThrough(lost, Obj(CommIndex(input), 1)) then found.Some? && ReadAs(input, lost, found.value)
                else found.None?)
  {
    PlanAccepted(input, n, steps, |steps|);
    var v := After(n, steps, |steps|);
    PlanApplies(input, n, v);
    assert Listed(v, CommBase(input.dir.value), input.number);
    ScanReaches(v, lost, CommBase(input.dir.value), input.number, stop, cancelled);
    ScanFinds(input, v, lost, stop);
  }

  lemma PlainPrefix(part: seq<MapEntry>, whole: seq<MapEntry>)
    requires part <= Plain(whole)
    ensures Plain(part) == part
  {
    assert forall i :: 0 <= i < |part| ==> part[i] == Plain(whole)[i];
  }

  lemma AllAccepted(input: Input, n: Node, steps: seq<Step>)
    requires Acceptable(input) && HasRecords(n, input) && IsPlan(input, steps)
    ensures forall k :: 0 <= k < |steps| ==> Accepts(After(n, steps, k), steps[k])
  {
    forall k | 0 <= k < |steps| ensures Accepts(After(n, steps, k), steps[k]) { PlanAccepted(input, n, steps, k); }
  }

  /** Build, execute, scan over a bus that loses attempts, compare: a match is reported exactly when the plan leaves the
      PDO enabled and its COB-ID and mapping get through; a PDO whose COB-ID does not is reported missing. */
  method ConfigureAndVerify(input: Input, device: Device, lost: (Obj, nat) -> bool) returns (findings: seq<Finding>)
    requires Acceptable(input) && input.number <= MaxScan && HasRecords(device.node, input)
    requires Listed(device.node, CommBase(input.dir.value), input.number)
    modifies device
    ensures findings == [Match] <==>
            && !input.leaveDisabled && input.mapping != []
            && GetsThrough(lost, Obj(CommIndex(input), 1)) && MappingGetsThrough(input, lost)
    ensures findings == [Missing] <==> !GetsThrough(lost, Obj(CommIndex(input), 1))
  {
    var plan := BuildPDOPlan(input);
    var steps := plan.value;
    AllAccepted(input, device.node, steps);
    var ok, done := device.Execute(steps, (k: nat) => Delivered);
    var comm, mapping := CommBase(input.dir.value), MapBase(input.dir.value);
    var out, errors, cancelled, stop := ScanPDOs(Losing(device.node, lost), comm, mapping);
    ReadBack(input, old(device.node), steps, lost, stop, cancelled);
    var pdo := PickPDO(out, input.number);
    if pdo.None? {
      return [Missing];
    }
    findings := DiffPdo(pdo.value, input.cobId, input.mapping);
    PlainPrefix(pdo.value.mapping, input.mapping);
  }
}
