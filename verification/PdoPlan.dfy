/** Re-mapping a process data object: cmd/canpdoctl/main.go (buildPDOPlan, executePDOPlan) and
    canmap/registry.go (MapEntry), with leUint32 of canmap/observe.go.

    The node is strict: it follows the re-mapping procedure of CiA 301 (sections 7.5.2.36 and
    7.5.2.38) and refuses a write that the procedure does not allow.
  */
module PdoPlan {
  import opened Wrappers

  type Byte = b: int | 0 <= b < 256

  type Bytes = seq<Byte>

  type Word = w: int | 0 <= w < 0x1_0000

  type DWord = w: int | 0 <= w < 0x1_0000_0000

  const InvalidBit := 0x8000_0000

  // ---------- Encodings ----------

  function U16(v: Word): Bytes {
    [v % 256, v / 256]
  }

  function U32(v: DWord): Bytes {
    U16(v % 0x1_0000) + U16(v / 0x1_0000)
  }

  function ByteAt(data: Bytes, i: nat): Byte {
    if i < |data| then data[i] else 0
  }

  /** Little-endian value of up to four bytes; missing bytes are zero, further bytes are ignored. */
  function LeUint32(data: Bytes): DWord {
    ByteAt(data, 0) + 256 * ByteAt(data, 1) + 0x1_0000 * ByteAt(data, 2) + 0x100_0000 * ByteAt(data, 3)
  }

  lemma U32RoundTrip(v: DWord)
    ensures LeUint32(U32(v)) == v
  {
    var lo, hi := v % 0x1_0000, v / 0x1_0000;
    assert U32(v) == [lo % 256, lo / 256, hi % 256, hi / 256];
  }

  datatype MapEntry = MapEntry(index: Word, sub: Byte, bits: Byte, comment: string)

  /** Index, subindex and length side by side in 32 bits. */
  function Raw(e: MapEntry): DWord {
    e.index * 0x1_0000 + e.sub * 256 + e.bits
  }

  function DecodeMapEntry(raw: DWord): MapEntry {
    MapEntry(raw / 0x1_0000, raw / 256 % 256, raw % 256, "")
  }

  lemma RawRoundTrip(e: MapEntry)
    ensures DecodeMapEntry(Raw(e)) == e.(comment := "")
  {
    assert Raw(e) / 256 == e.index * 256 + e.sub;
  }

  lemma DecodeRoundTrip(raw: DWord)
    ensures Raw(DecodeMapEntry(raw)) == raw
  {
    assert raw / 256 / 256 == raw / 0x1_0000;
  }

  function Plain(s: seq<MapEntry>): (r: seq<MapEntry>)
    ensures |r| == |s|
  {
    seq(|s|, i requires 0 <= i < |s| => s[i].(comment := ""))
  }

  // ---------- The plan ----------

  datatype Direction = Receive | Transmit

  datatype Input = Input(dir: Option<Direction>, nodeId: Byte, number: int, cobId: DWord, transmission: Byte,
                         eventTimer: Option<Word>, leaveDisabled: bool, allowSub0: bool, mapping: seq<MapEntry>)

  datatype PlanError = BadNode | BadNumber | BadCobId | TooManyEntries | SubindexZero(entry: nat) | ZeroBits(entry: nat)
                     | TooManyBits | BadDirection | EventOnReceive

  datatype Obj = Obj(index: Word, sub: Byte)

  datatype Step = PreOperational | StartNode | SdoWrite(obj: Obj, value: Bytes)

  function CommBase(d: Direction): Word {
    if d == Receive then 0x1400 else 0x1800
  }

  function MapBase(d: Direction): Word {
    if d == Receive then 0x1600 else 0x1A00
  }

  function EntryError(input: Input, i: nat): Option<PlanError>
    requires i < |input.mapping|
  {
    if input.mapping[i].sub == 0 && !input.allowSub0 then Some(SubindexZero(i + 1))
    else if input.mapping[i].bits == 0 then Some(ZeroBits(i + 1))
    else None
  }

  function TotalBits(m: seq<MapEntry>, n: nat): nat
    requires n <= |m|
  {
    if n == 0 then 0 else TotalBits(m, n - 1) + m[n - 1].bits
  }

  /** What a plan needs of its input, apart from its mapping entries one by one. */
  ghost predicate Acceptable(input: Input) {
    && 1 <= input.nodeId <= 0x7F && 1 <= input.number <= 512 && 1 <= input.cobId <= 0x7FF
    && |input.mapping| <= 8 && TotalBits(input.mapping, |input.mapping|) <= 64
    && (forall i :: 0 <= i < |input.mapping| ==> EntryError(input, i) == None)
    && input.dir.Some? && (input.eventTimer.Some? ==> input.dir == Some(Transmit))
  }

  function CommIndex(input: Input): Word
    requires input.dir.Some? && 1 <= input.number <= 512
  {
    CommBase(input.dir.value) + input.number - 1
  }

  function MapIndex(input: Input): Word
    requires input.dir.Some? && 1 <= input.number <= 512
  {
    MapBase(input.dir.value) + input.number - 1
  }

  predicate LeftEnabled(input: Input) {
    !input.leaveDisabled && input.mapping != []
  }

  function FinalCob(input: Input): DWord
    requires input.cobId < InvalidBit
  {
    if LeftEnabled(input) then input.cobId else input.cobId + InvalidBit
  }

  /** One if the plan sets the event timer. */
  function Timer(input: Input): nat {
    if input.eventTimer.Some? then 1 else 0
  }

  function StepCount(input: Input): nat {
    7 + |input.mapping| + Timer(input)
  }

  /** Step `k` of the plan: disable, clear the count, entries, transmission type, timer, count, COB-ID, start. */
  function StepAt(input: Input, k: nat): Step
    requires Acceptable(input) && k < StepCount(input)
  {
    var comm, mapping, m, e := CommIndex(input), MapIndex(input), |input.mapping|, Timer(input);
    if k == 0 then PreOperational
    else if k == 1 then SdoWrite(Obj(comm, 1), U32(input.cobId + InvalidBit))
    else if k == 2 then SdoWrite(Obj(mapping, 0), [0])
    else if k < 3 + m then SdoWrite(Obj(mapping, k - 2), U32(Raw(input.mapping[k - 3])))
    else if k == 3 + m then SdoWrite(Obj(comm, 2), [input.transmission])
    else if k < 4 + m + e then SdoWrite(Obj(comm, 5), U16(input.eventTimer.value))
    else if k == 4 + m + e then SdoWrite(Obj(mapping, 0), [m])
    else if k == 5 + m + e then SdoWrite(Obj(comm, 1), U32(FinalCob(input)))
    else StartNode
  }

  ghost predicate IsPlan(input: Input, steps: seq<Step>)
    requires Acceptable(input)
  {
    |steps| == StepCount(input) && forall k {:trigger steps[k]} :: 0 <= k < |steps| ==> steps[k] == StepAt(input, k)
  }

  /** The first fault of the mapping entries, or too many bits. */
  method CheckMapping(input: Input) returns (fault: Option<PlanError>)
    ensures fault == None <==>
              && TotalBits(input.mapping, |input.mapping|) <= 64
              && forall i :: 0 <= i < |input.mapping| ==> EntryError(input, i) == None
    ensures fault.Some? && fault.value != TooManyBits ==>
              exists i :: 0 <= i < |input.mapping| && fault == EntryError(input, i)
                && forall j :: 0 <= j < i ==> EntryError(input, j) == None
    ensures fault == Some(TooManyBits) ==> forall i :: 0 <= i < |input.mapping| ==> EntryError(input, i) == None
  {
    var totalBits := 0;
    for i := 0 to |input.mapping|
      invariant totalBits == TotalBits(input.mapping, i)
      invariant forall j :: 0 <= j < i ==> EntryError(input, j) == None
    {
      if input.mapping[i].sub == 0 && !input.allowSub0 {
        fault := Some(SubindexZero(i + 1));
        assert fault == EntryError(input, i);
        return;
      }
      if input.mapping[i].bits == 0 {
        fault := Some(ZeroBits(i + 1));
        assert fault == EntryError(input, i);
        return;
      }
      totalBits := totalBits + input.mapping[i].bits;
    }
    return if totalBits > 64 then Some(TooManyBits) else None;
  }

  method AppendSteps(input: Input) returns (steps: seq<Step>)
    requires Acceptable(input)
    ensures IsPlan(input, steps)
  {
    var comm, mapping := CommIndex(input), MapIndex(input);
    var disabled := input.cobId + InvalidBit;
    var final := input.cobId;
    if input.leaveDisabled || |input.mapping| == 0 {
      final := disabled;
    }
    steps := [PreOperational, SdoWrite(Obj(comm, 1), U32(disabled)), SdoWrite(Obj(mapping, 0), [0])];
    for i := 0 to |input.mapping|
      invariant |steps| == 3 + i
      invariant forall k {:trigger steps[k]} :: 0 <= k < |steps| ==> steps[k] == StepAt(input, k)
    {
      steps := steps + [SdoWrite(Obj(mapping, i + 1), U32(Raw(input.mapping[i])))];
    }
    steps := steps + [SdoWrite(Obj(comm, 2), [input.transmission])];
    if input.eventTimer.Some? {
      steps := steps + [SdoWrite(Obj(comm, 5), U16(input.eventTimer.value))];
    }
    assert forall k {:trigger steps[k]} :: 0 <= k < |steps| ==> steps[k] == StepAt(input, k);
    steps := steps + [SdoWrite(Obj(mapping, 0), [|input.mapping|]), SdoWrite(Obj(comm, 1), U32(final)), StartNode];
  }

  /** A plan is built exactly for acceptable input. */
  method BuildPDOPlan(input: Input) returns (r: Result<seq<Step>, PlanError>)
    ensures r.Ok? <==> Acceptable(input)
    ensures r.Ok? ==> IsPlan(input, r.value)
    ensures r.Err? ==>
              match r.error
              case BadNode => !(1 <= input.nodeId <= 0x7F)
              case BadNumber => !(1 <= input.number <= 512)
              case BadCobId => !(1 <= input.cobId <= 0x7FF)
              case TooManyEntries => |input.mapping| > 8
              case SubindexZero(_) =>
                !input.allowSub0 && exists i :: 0 <= i < |input.mapping| && input.mapping[i].sub == 0
              case ZeroBits(_) => exists i :: 0 <= i < |input.mapping| && input.mapping[i].bits == 0
              case TooManyBits => TotalBits(input.mapping, |input.mapping|) > 64
              case BadDirection => input.dir.None?
              case EventOnReceive => input.eventTimer.Some? && input.dir == Some(Receive)
  {
    if input.nodeId == 0 || input.nodeId > 0x7F {
      return Err(BadNode);
    }
    if input.number < 1 || input.number > 512 {
      return Err(BadNumber);
    }
    if input.cobId == 0 || input.cobId > 0x7FF {
      return Err(BadCobId);
    }
    if |input.mapping| > 8 {
      return Err(TooManyEntries);
    }
    var fault := CheckMapping(input);
    if fault.Some? {
      return Err(fault.value);
    }
    if input.dir.None? {
      return Err(BadDirection);
    }
    if input.eventTimer.Some? && input.dir.value != Transmit {
      return Err(EventOnReceive);
    }
    var steps := AppendSteps(input);
    return Ok(steps);
  }

  // ---------- A strict node ----------

  datatype Node = Node(od: map<Obj, Bytes>, operational: bool)

  predicate IsComm(index: Word) {
    0x1400 <= index < 0x1600 || 0x1800 <= index < 0x1A00
  }

  predicate IsMapping(index: Word) {
    0x1600 <= index < 0x1800 || 0x1A00 <= index < 0x1C00
  }

  /** The PDO whose communication record is at `comm` does not exist for the bus. */
  predicate Invalid(n: Node, comm: Word) {
    Obj(comm, 1) in n.od && LeUint32(n.od[Obj(comm, 1)]) >= InvalidBit
  }

  predicate Cleared(n: Node, mapping: Word) {
    Obj(mapping, 0) in n.od && ByteAt(n.od[Obj(mapping, 0)], 0) == 0
  }

  /** What the re-mapping procedure allows: disabling always; everything else only while the PDO is invalid, and
      mapping entries only while their number is zero. */
  predicate Allowed(n: Node, o: Obj, value: Bytes) {
    && o in n.od
    && (IsComm(o.index) ==>
          Invalid(n, o.index) || (o.sub == 1 && LeUint32(value) >= InvalidBit))
    && (IsMapping(o.index) ==>
          Invalid(n, o.index - 0x200) && (o.sub > 0 ==> Cleared(n, o.index)))
  }

  function Written(n: Node, o: Obj, value: Bytes): Node {
    n.(od := n.od[o := value])
  }

  predicate Accepts(n: Node, s: Step) {
    s.SdoWrite? ==> Allowed(n, s.obj, s.value)
  }

  function Perform(n: Node, s: Step): Node {
    match s
    case PreOperational => n.(operational := false)
    case StartNode => n.(operational := true)
    case SdoWrite(o, value) => Written(n, o, value)
  }

  /** The node after the first `k` steps, none of which it checks. */
  function After(n: Node, steps: seq<Step>, k: nat): Node
    requires k <= |steps|
  {
    if k == 0 then n else Perform(After(n, steps, k - 1), steps[k - 1])
  }

  /** What the transport does to a step. */
  datatype Fault = Delivered | Lost | Unconfirmed

  class Device {
    var node: Node

    constructor (node: Node)
      ensures this.node == node
    {
      this.node := node;
    }

    /** executePDOPlan: stops at the first failure. Whatever fails, the node is where some prefix of the plan leaves
        it. */
    method Execute(steps: seq<Step>, fault: nat -> Fault) returns (ok: bool, done: nat)
      modifies this
      ensures done <= |steps| && node == After(old(node), steps, done)
      ensures forall j :: 0 <= j < done ==> Accepts(After(old(node), steps, j), steps[j])
      ensures ok ==> done == |steps|
      ensures forall j :: 0 <= j < (if ok then done else done - 1) ==> fault(j) == Delivered
      ensures !ok ==>
                exists j :: 0 <= j < |steps| &&
                  (fault(j) != Delivered || !Accepts(After(old(node), steps, j), steps[j]))
    {
      done := 0;
      while done < |steps|
        invariant done <= |steps| && node == After(old(node), steps, done)
        invariant forall j :: 0 <= j < done ==> Accepts(After(old(node), steps, j), steps[j])
        invariant forall j :: 0 <= j < done ==> fault(j) == Delivered
      {
        var step := steps[done];
        if !Accepts(node, step) || fault(done) == Lost {
          return false, done;
        }
        node := Perform(node, step);
        done := done + 1;
        if fault(done - 1) == Unconfirmed {
          return false, done;
        }
      }
      return true, done;
    }
  }

  // ---------- Every prefix of the plan ----------

  /** The records of the PDO exist on the node. */
  ghost predicate HasRecords(n: Node, input: Input)
    requires Acceptable(input)
  {
    var comm, mapping := CommIndex(input), MapIndex(input);
    && Obj(comm, 1) in n.od && Obj(comm, 2) in n.od && (input.eventTimer.Some? ==> Obj(comm, 5) in n.od)
    && (forall s: Byte :: s <= |input.mapping| ==> Obj(mapping, s) in n.od)
  }

  /** The content of object `o` after `k` steps, given its content before the plan. */
  function Expected(input: Input, k: nat, o: Obj, before: Bytes): Bytes
    requires Acceptable(input)
  {
    var comm, mapping, m, e := CommIndex(input), MapIndex(input), |input.mapping|, Timer(input);
    if o == Obj(comm, 1) then
      if k <= 1 then before else if k <= 5 + m + e then U32(input.cobId + InvalidBit) else U32(FinalCob(input))
    else if o == Obj(mapping, 0) then
      if k <= 2 then before else if k <= 4 + m + e then [0] else [m]
    else if o.index == mapping && 1 <= o.sub <= m then
      if k <= 2 + o.sub then before else U32(Raw(input.mapping[o.sub - 1]))
    else if o == Obj(comm, 2) then
      if k <= 3 + m then before else [input.transmission]
    else if o == Obj(comm, 5) && e == 1 then
      if k <= 4 + m then before else U16(input.eventTimer.value)
    else before
  }

  ghost predicate PrefixState(input: Input, n: Node, k: nat, v: Node)
    requires Acceptable(input)
  {
    && v.od.Keys == n.od.Keys
    && (forall o :: o in n.od ==> v.od[o] == Expected(input, k, o, n.od[o]))
    && v.operational == if k == 0 then n.operational else k == StepCount(input)
  }

  /** Between disabling and the last COB-ID write the PDO is invalid. */
  lemma InvalidInPrefix(input: Input, n: Node, k: nat, v: Node)
    requires Acceptable(input) && HasRecords(n, input) && PrefixState(input, n, k, v)
    requires 2 <= k <= 5 + |input.mapping| + Timer(input)
    ensures Invalid(v, CommIndex(input))
  {
    U32RoundTrip(input.cobId + InvalidBit);
  }

  lemma StepAccepted(input: Input, n: Node, k: nat, v: Node)
    requires Acceptable(input) && HasRecords(n, input) && PrefixState(input, n, k, v) && k < StepCount(input)
    ensures Accepts(v, StepAt(input, k))
  {
    if k == 1 {
      U32RoundTrip(input.cobId + InvalidBit);
    } else if 2 <= k <= 5 + |input.mapping| + Timer(input) {
      InvalidInPrefix(input, n, k, v);
    }
  }

  /** One step writes its own object and leaves the expectation of every other object as it was. */
  lemma ExpectedStep(input: Input, k: nat, o: Obj, before: Bytes)
    requires Acceptable(input) && k < StepCount(input)
    ensures var s := StepAt(input, k);
            Expected(input, k + 1, o, before)
            == if s.SdoWrite? && s.obj == o then s.value else Expected(input, k, o, before)
  {
  }

  lemma StepPerformed(input: Input, n: Node, k: nat, v: Node)
    requires Acceptable(input) && HasRecords(n, input) && PrefixState(input, n, k, v) && k < StepCount(input)
    ensures PrefixState(input, n, k + 1, Perform(v, StepAt(input, k)))
  {
    StepAccepted(input, n, k, v);
    forall o | o in n.od ensures Perform(v, StepAt(input, k)).od[o] == Expected(input, k + 1, o, n.od[o]) {
      ExpectedStep(input, k, o, n.od[o]);
    }
  }

  /** A strict node accepts every step, and every prefix leaves exactly the expected contents. */
  lemma {:induction false} PlanAccepted(input: Input, n: Node, steps: seq<Step>, k: nat)
    requires Acceptable(input) && HasRecords(n, input) && IsPlan(input, steps) && k <= |steps|
    ensures PrefixState(input, n, k, After(n, steps, k))
    ensures k < |steps| ==> Accepts(After(n, steps, k), steps[k])
  {
    if k > 0 {
      PlanAccepted(input, n, steps, k - 1);
      StepPerformed(input, n, k - 1, After(n, steps, k - 1));
    }
    if k < |steps| {
      StepAccepted(input, n, k, After(n, steps, k));
    }
  }

  /** Safety at every prefix: invalid from the disable step to the last COB-ID write, entries only into a cleared
      mapping, nothing outside the PDO's own records touched. */
  lemma PrefixSafe(input: Input, n: Node, steps: seq<Step>, k: nat)
    requires Acceptable(input) && HasRecords(n, input) && IsPlan(input, steps) && k <= |steps|
    ensures var v, comm, mapping := After(n, steps, k), CommIndex(input), MapIndex(input);
            && (2 <= k <= |steps| - 2 ==> Invalid(v, comm))
            && (k < |steps| && steps[k].SdoWrite? && steps[k].obj.index == mapping && steps[k].obj.sub > 0 ==>
                  Invalid(v, comm) && Cleared(v, mapping))
            && v.od.Keys == n.od.Keys
            && (forall o :: o in n.od && o.index != comm && o.index != mapping ==> v.od[o] == n.od[o])
            && (1 <= k < |steps| ==> !v.operational)
  {
    PlanAccepted(input, n, steps, k);
    if 2 <= k <= |steps| - 2 {
      InvalidInPrefix(input, n, k, After(n, steps, k));
    }
  }

  // ---------- What a plan leaves behind ----------

  /** A PDO's records after its plan, as the node's bytes: entries of length, subindex and index, their number, the
      transmission type, the timer, and a COB-ID whose highest bit is set exactly if the PDO is to stay disabled or
      carries nothing. */
  ghost predicate Configured(input: Input, v: Node)
    requires Acceptable(input)
  {
    var comm: Word := (if input.dir == Some(Receive) then 0x1400 else 0x1800) + input.number - 1;
    var mapping: Word := comm + 0x200;
    var off := input.leaveDisabled || |input.mapping| == 0;
    && {Obj(comm, 1), Obj(comm, 2), Obj(mapping, 0)} <= v.od.Keys
    && v.od[Obj(comm, 1)] == [input.cobId % 256, input.cobId / 256, 0, if off then 0x80 else 0]
    && v.od[Obj(comm, 2)] == [input.transmission]
    && v.od[Obj(mapping, 0)] == [|input.mapping|]
    && (input.eventTimer.Some? ==>
          && Obj(comm, 5) in v.od
          && v.od[Obj(comm, 5)] == [input.eventTimer.value % 256, input.eventTimer.value / 256])
    && (forall s :: 1 <= s <= |input.mapping| ==>
          var e := input.mapping[s - 1];
          Obj(mapping, s) in v.od && v.od[Obj(mapping, s)] == [e.bits, e.sub, e.index % 256, e.index / 256])
    && v.operational
  }

  lemma EntryBytes(e: MapEntry)
    ensures U32(Raw(e)) == [e.bits, e.sub, e.index % 256, e.index / 256]
  {
    assert Raw(e) == e.index * 0x1_0000 + (e.sub * 256 + e.bits);
    assert Raw(e) / 0x1_0000 == e.index && Raw(e) % 0x1_0000 == e.sub * 256 + e.bits;
  }

  lemma CobBytes(cobId: DWord, off: bool)
    requires cobId <= 0x7FF
    ensures U32(if off then cobId + InvalidBit else cobId) ==
            [cobId % 256, cobId / 256, 0, if off then 0x80 else 0]
  {
    if off {
      assert (cobId + InvalidBit) / 0x1_0000 == 0x8000 && (cobId + InvalidBit) % 0x1_0000 == cobId;
    }
  }

  /** The whole plan configures the PDO. */
  lemma PlanConfigures(input: Input, n: Node, steps: seq<Step>)
    requires Acceptable(input) && HasRecords(n, input) && IsPlan(input, steps)
    ensures Configured(input, After(n, steps, |steps|))
  {
    PlanAccepted(input, n, steps, |steps|);
    var v, comm, mapping := After(n, steps, |steps|), CommIndex(input), MapIndex(input);
    assert v.od[Obj(comm, 1)] == U32(FinalCob(input));
    CobBytes(input.cobId, !LeftEnabled(input));
    forall s | 1 <= s <= |input.mapping|
      ensures Obj(mapping, s) in v.od && v.od[Obj(mapping, s)] == U32(Raw(input.mapping[s - 1]))
    {
      assert v.od[Obj(mapping, s)] == Expected(input, StepCount(input), Obj(mapping, s), n.od[Obj(mapping, s)]);
    }
    forall e: MapEntry ensures U32(Raw(e)) == [e.bits, e.sub, e.index % 256, e.index / 256] { EntryBytes(e); }
  }
}
