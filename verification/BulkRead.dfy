/** Single and bulk reads of the device bridge: mecomserver/device_bridge.go,
    deviceBridgeSingleReadWithState and deviceBridgeBulkReadWithState.

    A payload is modelled as its 32-bit slots.  The parameter tables and the device are functions; a
    float64 is a whole 32-bit number, another number, or not a number.
  */
module BulkRead {
  import opened Wrappers

  type Int32 = i: int | -0x8000_0000 <= i < 0x8000_0000

  type Word = w: int | 0 <= w < 0x1_0000_0000

  datatype F64 = Whole(i: Int32) | Fraction(code: int) | NaN

  const Zero: F64 := Whole(0)

  datatype DataType = Float32 | Integer32 | Latin1 | Bytes | Unsupported

  datatype Kind = VirtualParameter | ConstantInt32 | SynthesizeFloat32 | MaskInt32 | OtherKind

  datatype Transform = Transform(kind: Kind, dataType: DataType, value: Int32, source: int, min: int, max: int)

  datatype Ref = Ref(id: int, instance: int)

  datatype Param = Param(ref: Ref, dataType: DataType)

  datatype Error = Refused | Device

  datatype Stored = Stored(dataType: DataType, number: Int32, float: F64, placeholder: bool)

  datatype Stores = Stores(soft: map<Ref, Stored>, virtual: map<Ref, Stored>)

  /** The tables of the bridge, number formats, and the device behind it. */
  datatype Env = Env(
    typeOf: int -> DataType, transform: int -> Option<Transform>, loose: int -> bool, maxInstance: int -> int,
    refuses: int -> bool, liveActual: int -> bool,
    bits: F64 -> Word, truncate: F64 -> Int32, mask: (int, Int32) -> Int32, scaled: (int, Int32) -> F64,
    readInt: Ref -> Option<Int32>, readFloat: Ref -> Option<F64>, readBulk: seq<Param> -> Option<seq<F64>>)
  {
    predicate Is(id: int, kind: Kind) {
      transform(id).Some? && transform(id).value.kind == kind
    }

    function Masked(id: int, v: Int32): Int32 {
      if Is(id, MaskInt32) then mask(id, v) else v
    }

    predicate ValidInstance(r: Ref) {
      1 <= r.instance <= if maxInstance(r.id) <= 0 then 1 else maxInstance(r.id)
    }

    function ToInt32(v: F64): Int32 {
      if v.Whole? then v.i else truncate(v)
    }

    /** The device's own reading of a parameter, as both primitives deliver it. */
    function Reading(p: Param): Option<F64> {
      match p.dataType
      case Integer32 => (match readInt(p.ref) case Some(v) => Some(Whole(v)) case None => None)
      case Float32 => readFloat(p.ref)
      case _ => None
    }
  }

  /** What the catalogue loader guarantees of the tables (mecom/canopen_sdo_map.go:410-496, 648-657). */
  ghost predicate Tables(env: Env) {
    forall id :: env.transform(id).Some? ==>
      var t := env.transform(id).value;
      && env.typeOf(id) == t.dataType && !env.loose(id)
      && (t.kind == ConstantInt32 || t.kind == MaskInt32 ==> t.dataType == Integer32)
      && (t.kind == SynthesizeFloat32 ==> t.dataType == Float32)
      && (t.kind == VirtualParameter ==> t.dataType == Integer32 || t.dataType == Float32 || t.dataType == Latin1)
  }

  /** A bulk answer of the right length agrees with the single readings that succeed. */
  ghost predicate Agreeing(env: Env) {
    forall ps :: env.readBulk(ps).Some? && |env.readBulk(ps).value| == |ps| ==>
      forall i :: 0 <= i < |ps| && env.Reading(ps[i]).Some? ==> env.readBulk(ps).value[i] == env.Reading(ps[i]).value
  }

  ghost predicate Sound(env: Env) {
    Tables(env) && Agreeing(env) && env.bits(Zero) == 0
  }

  function Unsigned(v: Int32): Word {
    if v < 0 then v + 0x1_0000_0000 else v
  }

  // ---------- The single read as a function of the stores ----------

  function Lookup(env: Env, store: map<Ref, Stored>, p: Param): Result<Option<Stored>, Error> {
    if !env.ValidInstance(p.ref) then Err(Refused)
    else if p.dataType == Bytes || p.dataType == Unsupported then Err(Refused)
    else if p.ref !in store then Ok(None)
    else if store[p.ref].dataType != p.dataType then Err(Refused)
    else Ok(Some(store[p.ref]))
  }

  /** A live reading, as the soft store keeps it. */
  function LiveValue(env: Env, p: Param): Option<Stored> {
    match p.dataType
    case Integer32 =>
      var v := env.readInt(p.ref);
      if v.Some? then Some(Stored(Integer32, env.Masked(p.ref.id, v.value), Zero, false)) else None
    case Float32 =>
      var v := env.readFloat(p.ref);
      if v.Some? then Some(Stored(Float32, 0, v.value, false)) else None
    case _ => None
  }

  function SoftValue(env: Env, s: Stores, p: Param): Result<Stored, Error> {
    if !env.ValidInstance(p.ref) then Err(Refused)
    else if LiveValue(env, p).Some? then Ok(LiveValue(env, p).value)
    else
      match Lookup(env, s.soft, p)
      case Err(e) => Err(e)
      case Ok(Some(cached)) => Ok(cached)
      case Ok(None) => Ok(Stored(p.dataType, 0, Zero, true))
  }

  function DefaultFloat(id: int): F64 {
    if id == 52200 then NaN else if id == 52201 then Whole(25) else Zero
  }

  predicate ValidTransformInstance(t: Transform, instance: int) {
    var min := if t.min <= 0 then 1 else t.min;
    min <= instance <= if t.max <= 0 then min else t.max
  }

  function VirtualValue(env: Env, s: Stores, t: Transform, r: Ref): Result<Stored, Error> {
    if !ValidTransformInstance(t, r.instance) then Err(Refused)
    else if t.dataType != Integer32 && t.dataType != Float32 then Err(Refused)
    else
      match SoftValue(env, s, Param(r, t.dataType))
      case Err(e) => Err(e)
      case Ok(v) =>
        if !v.placeholder then Ok(v)
        else
          match Lookup(env, s.virtual, Param(r, t.dataType))
          case Err(e) => Err(e)
          case Ok(Some(cached)) => Ok(cached)
          case Ok(None) =>
            Ok(Stored(t.dataType, 0, if t.dataType == Float32 then DefaultFloat(r.id) else Zero, true))
  }

  function ShowStored(env: Env, dataType: DataType, v: Stored): Result<Word, Error> {
    match dataType
    case Integer32 => Ok(Unsigned(v.number))
    case Float32 => Ok(env.bits(v.float))
    case _ => Err(Refused)
  }

  /** What the single read of `r` answers. */
  function Single(env: Env, s: Stores, r: Ref): Result<Word, Error> {
    var dataType := env.typeOf(r.id);
    if env.Is(r.id, VirtualParameter) then
      var t := env.transform(r.id).value;
      match VirtualValue(env, s, t, r)
      case Err(e) => Err(e)
      case Ok(v) => ShowStored(env, t.dataType, v)
    else if env.loose(r.id) then
      match SoftValue(env, s, Param(r, dataType))
      case Err(e) => Err(e)
      case Ok(v) => if dataType == Latin1 then Ok(0) else ShowStored(env, dataType, v)
    else if dataType == Integer32 then
      if env.Is(r.id, ConstantInt32) then Ok(Unsigned(env.transform(r.id).value.value))
      else
        match env.readInt(r)
        case None => Err(Device)
        case Some(v) => Ok(Unsigned(env.Masked(r.id, v)))
    else if dataType == Float32 then
      if env.Is(r.id, SynthesizeFloat32) then
        match env.readInt(Ref(env.transform(r.id).value.source, r.instance))
        case None => Err(Device)
        case Some(v) => Ok(env.bits(env.scaled(r.id, v)))
      else
        match env.readFloat(r)
        case None => Err(Device)
        case Some(v) => Ok(env.bits(v))
    else Err(Refused)
  }

  // ---------- What a single read shows ----------

  predicate OfKind(env: Env, r: Ref, kind: Kind) {
    match env.transform(r.id)
    case None => false
    case Some(t) => t.kind == kind
  }

  /** Parameters whose values the bridge keeps for the time when the device is silent. */
  predicate Kept(env: Env, r: Ref) {
    OfKind(env, r, VirtualParameter) || env.loose(r.id)
  }

  /** The instance exists: there is one at least, and a virtual parameter may have a range of its own. */
  predicate InstanceExists(env: Env, r: Ref) {
    && 1 <= r.instance && (r.instance == 1 || r.instance <= env.maxInstance(r.id))
    && match env.transform(r.id)
       case None => true
       case Some(t) =>
         t.kind == VirtualParameter ==>
           && t.min <= r.instance
           && (r.instance <= t.max || (t.max <= 0 && (r.instance == 1 || r.instance == t.min)))
  }

  /** The device answers for a parameter of this type. */
  predicate Live(env: Env, r: Ref, dataType: DataType) {
    (dataType == Integer32 && env.readInt(r).Some?) || (dataType == Float32 && env.readFloat(r).Some?)
  }

  /** A number as 32 bits, two's complement. */
  function Bits32(i: int): Word {
    i % 0x1_0000_0000
  }

  /** The 32 bits of a stored value. */
  function Image(env: Env, dataType: DataType, x: Stored): Word {
    if dataType == Integer32 then Bits32(x.number) else env.bits(x.float)
  }

  /** A live reading is shown, an integer masked where the table says so. */
  ghost predicate LiveShown(env: Env, r: Ref, answer: Result<Word, Error>) {
    var dataType := env.typeOf(r.id);
    && (dataType == Integer32 && env.readInt(r).Some? ==>
          var v := env.readInt(r).value;
          answer == Ok(Bits32(if OfKind(env, r, MaskInt32) then env.mask(r.id, v) else v)))
    && (dataType == Float32 && env.readFloat(r).Some? ==> answer == Ok(env.bits(env.readFloat(r).value)))
  }

  /** What a virtual parameter shows that nobody has set. */
  ghost predicate DefaultShown(env: Env, r: Ref, answer: Result<Word, Error>) {
    && (env.typeOf(r.id) == Integer32 ==> answer == Ok(0))
    && (env.typeOf(r.id) == Float32 ==>
          answer == Ok(env.bits(if r.id == 52200 then NaN else if r.id == 52201 then Whole(25) else Whole(0))))
  }

  /** A kept parameter of a silent device: the value last stored, then for a virtual parameter its own store, then the
      default. */
  ghost predicate KeptShown(env: Env, s: Stores, r: Ref, answer: Result<Word, Error>) {
    var dataType := env.typeOf(r.id);
    var virtual := OfKind(env, r, VirtualParameter);
    var unset := if r in s.soft then virtual && s.soft[r].dataType == dataType && s.soft[r].placeholder else true;
    && (r in s.soft && s.soft[r].dataType == dataType && !unset ==> answer == Ok(Image(env, dataType, s.soft[r])))
    && (virtual && unset && r in s.virtual && s.virtual[r].dataType == dataType ==>
          answer == Ok(Image(env, dataType, s.virtual[r])))
    && (virtual && unset && r !in s.virtual ==> DefaultShown(env, r, answer))
    && (!virtual && unset ==> answer == Ok(if dataType == Integer32 then 0 else env.bits(Whole(0))))
  }

  /** What the answer to a read must be wherever there is a value to show. */
  ghost predicate ShownRight(env: Env, s: Stores, r: Ref, answer: Result<Word, Error>) {
    var dataType := env.typeOf(r.id);
    var number := dataType == Integer32 || dataType == Float32;
    && (Kept(env, r) && InstanceExists(env, r) && number ==>
          if Live(env, r, dataType) then LiveShown(env, r, answer) else KeptShown(env, s, r, answer))
    && (!Kept(env, r) && OfKind(env, r, ConstantInt32) ==> answer == Ok(Bits32(env.transform(r.id).value.value)))
    && (!Kept(env, r) && OfKind(env, r, SynthesizeFloat32) ==>
          match env.readInt(Ref(env.transform(r.id).value.source, r.instance))
          case None => true
          case Some(v) => answer == Ok(env.bits(env.scaled(r.id, v))))
    && (!Kept(env, r) && !OfKind(env, r, ConstantInt32) && !OfKind(env, r, SynthesizeFloat32) ==>
          LiveShown(env, r, answer))
  }

  /** Reads with nothing to show are refused: no such instance, a stored value of another type, no live reading. */
  ghost predicate RefusedRight(env: Env, s: Stores, r: Ref, answer: Result<Word, Error>) {
    var dataType := env.typeOf(r.id);
    var number := dataType == Integer32 || dataType == Float32;
    var computed := OfKind(env, r, ConstantInt32) || OfKind(env, r, SynthesizeFloat32);
    && (Kept(env, r) && !InstanceExists(env, r) ==> answer.Err?)
    && (Kept(env, r) && number && !Live(env, r, dataType) && r in s.soft && s.soft[r].dataType != dataType ==>
          answer.Err?)
    && (!Kept(env, r) && !computed && !Live(env, r, dataType) ==> answer.Err?)
  }

  /** The single read shows what there is to show. */
  lemma SingleShown(env: Env, s: Stores, r: Ref)
    requires Tables(env)
    ensures ShownRight(env, s, r, Single(env, s, r)) && RefusedRight(env, s, r, Single(env, s, r))
  {
  }

  /** What the bridge remembers of a live reading of a kept parameter. */
  ghost predicate Remembers(env: Env, soft: map<Ref, Stored>, r: Ref) {
    var dataType := env.typeOf(r.id);
    Kept(env, r) && InstanceExists(env, r) && Live(env, r, dataType) ==>
      && (dataType == Integer32 ==> r in soft && soft[r] == Stored(Integer32, env.readInt(r).value, Whole(0), false))
      && (dataType == Float32 && !env.readFloat(r).value.NaN? ==>
            r in soft && soft[r] == Stored(Float32, 0, env.readFloat(r).value, false))
  }

  /** What the bridge notes of a live reading of a parameter that is read directly. */
  ghost predicate Notes(env: Env, soft: map<Ref, Stored>, r: Ref) {
    var mask := (v: Int32) => if OfKind(env, r, MaskInt32) then env.mask(r.id, v) else v;
    !Kept(env, r) && !OfKind(env, r, ConstantInt32) && !OfKind(env, r, SynthesizeFloat32)
    && 1 <= r.instance && (r.instance == 1 || r.instance <= env.maxInstance(r.id)) ==>
      && (env.typeOf(r.id) == Integer32 && env.readInt(r).Some? ==>
            r in soft && soft[r] == Stored(Integer32, mask(mask(env.readInt(r).value)), Whole(0), false))
      && (env.typeOf(r.id) == Float32 && env.readFloat(r).Some? && !env.readFloat(r).value.NaN? ==>
            r in soft && soft[r] == Stored(Float32, 0, env.readFloat(r).value, false))
  }

  /** Two stores differ at most at `r`. */
  ghost predicate OnlyAt(before: map<Ref, Stored>, after: map<Ref, Stored>, r: Ref) {
    forall q :: q != r ==> (q in before <==> q in after) && (q in before ==> before[q] == after[q])
  }

  /** Two stores agree about the parameters read directly. */
  ghost predicate DirectSame(env: Env, before: map<Ref, Stored>, after: map<Ref, Stored>) {
    forall q :: !Kept(env, q) ==> (q in before <==> q in after) && (q in before ==> before[q] == after[q])
  }

  /** A slot read directly from a silent device shows what was noted last, if the table allows that. */
  ghost predicate FallsBack(env: Env, soft: map<Ref, Stored>, slot: Slot, value: F64) {
    var r, dataType := slot.param.ref, slot.param.dataType;
    var noted := 1 <= r.instance && (r.instance == 1 || r.instance <= env.maxInstance(r.id)) && r in soft
                 && soft[r].dataType == dataType && !soft[r].placeholder;
    !slot.skip && Direct(env, r) && env.liveActual(r.id) && env.Reading(slot.param).None?
    && (dataType == Integer32 || dataType == Float32) ==>
      value == if !noted then Whole(0) else if dataType == Integer32 then Whole(soft[r].number) else soft[r].float
  }

  /** The same as 32 bits, masked once more. */
  ghost predicate FallbackShown(env: Env, soft: map<Ref, Stored>, r: Ref, answer: Result<Word, Error>) {
    var dataType := env.typeOf(r.id);
    var noted := 1 <= r.instance && (r.instance == 1 || r.instance <= env.maxInstance(r.id)) && r in soft
                 && soft[r].dataType == dataType && !soft[r].placeholder;
    var number := if noted then soft[r].number else 0;
    Direct(env, r) && env.liveActual(r.id) && !Live(env, r, dataType) ==>
      && (dataType == Integer32 ==>
            answer == Ok(Bits32(if OfKind(env, r, MaskInt32) then env.mask(r.id, number) else number)))
      && (dataType == Float32 ==> answer == Ok(env.bits(if noted then soft[r].float else Whole(0))))
  }

  lemma FallbackWord(env: Env, soft: map<Ref, Stored>, slot: Slot, value: F64, word: Word)
    requires Tables(env) && Classify(env, slot.param.ref) == Ok(slot)
    requires FallsBack(env, soft, slot, value) && Encode(env, slot.param, value) == Ok(word)
    ensures FallbackShown(env, soft, slot.param.ref, Ok(word))
  {
  }

  /** A device that no longer answers for `r`, everything else being as before. */
  ghost predicate Silent(env: Env, later: Env, r: Ref) {
    && later == env.(readInt := later.readInt, readFloat := later.readFloat, readBulk := later.readBulk)
    && later.readInt(r).None? && later.readFloat(r).None?
  }

  /** Once read live, a kept parameter goes on showing its value when the device falls silent, unless it is set anew; a
      reading that is not a number is not kept. */
  lemma ReadingOutlivesDevice(env: Env, later: Env, s: Stores, v: Stores, r: Ref)
    requires Tables(env) && Silent(env, later, r) && Remembers(env, v.soft, r)
    requires Kept(env, r) && InstanceExists(env, r) && Live(env, r, env.typeOf(r.id))
    requires env.typeOf(r.id) == Float32 ==> !env.readFloat(r).value.NaN?
    ensures Single(later, v, r) == Single(env, s, r)
  {
  }

  /** Where a read is refused there was nothing to show. */
  lemma RefusedShowsNothing(env: Env, s: Stores, r: Ref, e: Error, answer: Result<Word, Error>)
    requires ShownRight(env, s, r, Err(e))
    ensures ShownRight(env, s, r, answer)
  {
  }

  // ---------- Reads do not disturb reads ----------

  /** A single read of `r` may look at the soft store. */
  predicate Consults(env: Env, r: Ref) {
    (env.Is(r.id, VirtualParameter) || env.loose(r.id)) && LiveValue(env, Param(r, env.typeOf(r.id))).None?
  }

  /** The stores agree wherever a read can tell them apart. */
  ghost predicate Agree(env: Env, s: Stores, v: Stores) {
    && s.virtual == v.virtual
    && forall r :: Consults(env, r) ==> (r in s.soft <==> r in v.soft) && (r in s.soft ==> s.soft[r] == v.soft[r])
  }

  lemma SoftStable(env: Env, s: Stores, v: Stores, r: Ref)
    requires Agree(env, s, v) && (env.Is(r.id, VirtualParameter) || env.loose(r.id))
    ensures SoftValue(env, s, Param(r, env.typeOf(r.id))) == SoftValue(env, v, Param(r, env.typeOf(r.id)))
  {
    if LiveValue(env, Param(r, env.typeOf(r.id))).None? {
      assert Consults(env, r);
    }
  }

  /** Reads before a read do not change its answer. */
  lemma SingleStable(env: Env, s: Stores, v: Stores, r: Ref)
    requires Tables(env) && Agree(env, s, v)
    ensures Single(env, s, r) == Single(env, v, r)
  {
    if env.Is(r.id, VirtualParameter) || env.loose(r.id) {
      SoftStable(env, s, v, r);
    }
  }

  /** Storing a reading of `r` cannot be noticed if reads of `r` do not consult the store. */
  lemma StoreAgrees(env: Env, s: Stores, v: Stores, r: Ref, x: Stored)
    requires Agree(env, s, v) && !Consults(env, r)
    ensures Agree(env, s, v.(soft := v.soft[r := x]))
  {
  }

  // ---------- Bulk slots ----------

  /** One slot of a bulk read; a skipped slot reads as zero. */
  datatype Slot = Slot(param: Param, skip: bool)

  function Classify(env: Env, r: Ref): Result<Slot, Error> {
    var dataType := env.typeOf(r.id);
    if env.loose(r.id) && dataType == Latin1 then Ok(Slot(Param(r, Float32), true))
    else if dataType == Bytes then Err(Refused)
    else if dataType == Unsupported then
      if env.refuses(r.id) then Err(Refused) else Ok(Slot(Param(r, Float32), true))
    else Ok(Slot(Param(r, dataType), false))
  }

  /** The 32 bits a slot shows for a value. */
  function Encode(env: Env, p: Param, value: F64): Result<Word, Error> {
    match p.dataType
    case Integer32 => Ok(Unsigned(env.Masked(p.ref.id, env.ToInt32(if value.NaN? then Zero else value))))
    case Float32 => Ok(env.bits(value))
    case _ => Err(Refused)
  }

  lemma SlotShownRight(env: Env, s: Stores, slot: Slot, value: F64, word: Word)
    requires Tables(env) && Classify(env, slot.param.ref) == Ok(slot) && Encode(env, slot.param, value) == Ok(word)
    requires Shows(env, s, slot, value) && FallsBack(env, s.soft, slot, value)
    ensures ShownRight(env, s, slot.param.ref, Ok(word)) && FallbackShown(env, s.soft, slot.param.ref, Ok(word))
  {
    var r := slot.param.ref;
    SingleShown(env, s, r);
    if Single(env, s, r).Err? { RefusedShowsNothing(env, s, r, Single(env, s, r).error, Ok(word)); }
    FallbackWord(env, s.soft, slot, value, word);
  }

  /** Whenever the single read of the slot's parameter succeeds, the slot shows its answer. */
  ghost predicate Shows(env: Env, s: Stores, slot: Slot, value: F64) {
    var single := Single(env, s, slot.param.ref);
    single.Ok? ==> Encode(env, slot.param, value) == single
  }

  lemma RefusedSlot(env: Env, s: Stores, r: Ref)
    requires Tables(env) && Classify(env, r).Err?
    ensures Single(env, s, r).Err?
  {
  }

  lemma UnshownSlot(env: Env, s: Stores, r: Ref, value: F64)
    requires Tables(env) && Classify(env, r).Ok? && Encode(env, Classify(env, r).value.param, value).Err?
    ensures Single(env, s, r).Err?
  {
  }

  lemma SkippedShows(env: Env, s: Stores, r: Ref)
    requires Sound(env) && Classify(env, r).Ok? && Classify(env, r).value.skip
    ensures Shows(env, s, Classify(env, r).value, Zero)
  {
  }

  function Numeric(dataType: DataType, v: Stored): F64 {
    if dataType == Integer32 then Whole(v.number) else v.float
  }

  lemma VirtualShows(env: Env, s: Stores, r: Ref)
    requires Tables(env) && env.Is(r.id, VirtualParameter) && Classify(env, r).Ok?
    ensures var t := env.transform(r.id).value;
            var v := VirtualValue(env, s, t, r);
            Shows(env, s, Classify(env, r).value, if v.Ok? then Numeric(t.dataType, v.value) else Zero)
  {
  }

  lemma LooseShows(env: Env, s: Stores, r: Ref)
    requires Tables(env) && env.loose(r.id) && Classify(env, r).Ok? && !Classify(env, r).value.skip
    ensures var slot := Classify(env, r).value;
            var v := SoftValue(env, s, slot.param);
            Shows(env, s, slot, if v.Ok? then Numeric(slot.param.dataType, v.value) else Zero)
  {
  }

  lemma ConstantShows(env: Env, s: Stores, r: Ref)
    requires Tables(env) && env.Is(r.id, ConstantInt32) && Classify(env, r).Ok?
    ensures Shows(env, s, Classify(env, r).value, Whole(env.transform(r.id).value.value))
  {
  }

  /** The value of a synthesized slot. */
  function Synthesized(env: Env, r: Ref): Option<F64>
    requires env.transform(r.id).Some?
  {
    match env.readInt(Ref(env.transform(r.id).value.source, r.instance))
    case Some(v) => Some(env.scaled(r.id, v))
    case None => None
  }

  lemma SynthesizedShows(env: Env, s: Stores, r: Ref)
    requires Tables(env) && env.Is(r.id, SynthesizeFloat32) && Classify(env, r).Ok?
    ensures Shows(env, s, Classify(env, r).value, Synthesized(env, r).GetOr(Zero))
  {
  }

  /** Parameters read from the device directly. */
  predicate Direct(env: Env, r: Ref) {
    && !env.Is(r.id, VirtualParameter) && !env.loose(r.id)
    && !env.Is(r.id, ConstantInt32) && !env.Is(r.id, SynthesizeFloat32)
  }

  lemma DirectShows(env: Env, s: Stores, r: Ref, value: F64)
    requires Tables(env) && Direct(env, r) && Classify(env, r).Ok? && !Classify(env, r).value.skip
    requires var reading := env.Reading(Classify(env, r).value.param); reading.Some? ==> value == reading.value
    ensures Shows(env, s, Classify(env, r).value, value)
  {
  }

  lemma StoredSlot(env: Env, r: Ref)
    requires !env.Is(r.id, VirtualParameter) && !env.loose(r.id)
    ensures !Consults(env, r)
  {
  }

  // ---------- The bridge ----------

  datatype Gathered = Value(value: F64, live: bool) | Downstream

  class Bridge {
    const env: Env
    var soft: map<Ref, Stored>
    var virtual: map<Ref, Stored>

    function State(): Stores
      reads this
    {
      Stores(soft, virtual)
    }

    constructor (env: Env)
      ensures this.env == env && State() == Stores(map[], map[])
    {
      this.env := env;
      soft, virtual := map[], map[];
    }

    method StoreParameter(r: Ref, value: Stored) returns (ok: bool)
      modifies this`soft
      ensures ok == (env.ValidInstance(r) && value.dataType != Bytes && value.dataType != Unsupported)
      ensures soft == if ok then old(soft)[r := value] else old(soft)
    {
      if !env.ValidInstance(r) || value.dataType == Bytes || value.dataType == Unsupported {
        return false;
      }
      soft := soft[r := value];
      return true;
    }

    method SoftParameterValue(p: Param) returns (v: Result<Stored, Error>)
      requires p.dataType == env.typeOf(p.ref.id)
      modifies this`soft
      ensures v == SoftValue(env, old(State()), p)
      ensures Agree(env, old(State()), State()) && OnlyAt(old(soft), soft, p.ref)
      ensures Tables(env) ==> Remembers(env, soft, p.ref)
      ensures !Live(env, p.ref, p.dataType) ==> soft == old(soft)
    {
      if !env.ValidInstance(p.ref) {
        return Err(Refused);
      }
      match p.dataType {
        case Integer32 =>
          var reading := env.readInt(p.ref);
          if reading.Some? {
            var value := Stored(Integer32, env.Masked(p.ref.id, reading.value), Zero, false);
            StoreAgrees(env, State(), State(), p.ref, value);
            var ok := StoreParameter(p.ref, value);
            return Ok(value);
          }
        case Float32 =>
          var reading := env.readFloat(p.ref);
          if reading.Some? {
            var value := Stored(Float32, 0, reading.value, false);
            if !reading.value.NaN? {
              StoreAgrees(env, State(), State(), p.ref, value);
              var ok := StoreParameter(p.ref, value);
            }
            return Ok(value);
          }
        case Latin1 =>
        case _ =>
          return Err(Refused);
      }
      var cached := Lookup(env, soft, p);
      if cached.Err? {
        return Err(cached.error);
      }
      if cached.value.Some? {
        return Ok(cached.value.value);
      }
      return Ok(Stored(p.dataType, 0, Zero, true));
    }

    method VirtualParameterValue(t: Transform, r: Ref) returns (v: Result<Stored, Error>)
      requires Tables(env) && env.transform(r.id) == Some(t)
      modifies this`soft
      ensures v == VirtualValue(env, old(State()), t, r)
      ensures Agree(env, old(State()), State()) && OnlyAt(old(soft), soft, r)
      ensures Remembers(env, soft, r) && (!Live(env, r, t.dataType) ==> soft == old(soft))
    {
      if !ValidTransformInstance(t, r.instance) {
        return Err(Refused);
      }
      if t.dataType != Integer32 && t.dataType != Float32 {
        return Err(Refused);
      }
      var value := SoftParameterValue(Param(r, t.dataType));
      if value.Err? || !value.value.placeholder {
        return value;
      }
      var cached := Lookup(env, virtual, Param(r, t.dataType));
      if cached.Err? {
        return Err(cached.error);
      }
      if cached.value.Some? {
        return Ok(cached.value.value);
      }
      return Ok(Stored(t.dataType, 0, if t.dataType == Float32 then DefaultFloat(r.id) else Zero, true));
    }

    method StoreLive(p: Param, value: F64)
      requires !Consults(env, p.ref)
      modifies this`soft
      ensures Agree(env, old(State()), State()) && OnlyAt(old(soft), soft, p.ref)
      ensures value.NaN? || !env.ValidInstance(p.ref) ==> soft == old(soft)
      ensures !value.NaN? && env.ValidInstance(p.ref) && p.dataType == Integer32 ==>
                soft == old(soft)[p.ref := Stored(Integer32, env.Masked(p.ref.id, env.ToInt32(value)), Zero, false)]
      ensures !value.NaN? && env.ValidInstance(p.ref) && p.dataType == Float32 ==>
                soft == old(soft)[p.ref := Stored(Float32, 0, value, false)]
    {
      if value.NaN? {
        return;
      }
      var stored := Stored(p.dataType, 0, Zero, false);
      match p.dataType {
        case Integer32 => stored := stored.(number := env.Masked(p.ref.id, env.ToInt32(value)));
        case Float32 => stored := stored.(float := value);
        case _ => return;
      }
      StoreAgrees(env, State(), State(), p.ref, stored);
      var ok := StoreParameter(p.ref, stored);
    }

    method SingleRead(r: Ref) returns (w: Result<Word, Error>)
      requires Tables(env)
      modifies this`soft
      ensures w == Single(env, old(State()), r)
      ensures ShownRight(env, old(State()), r, w) && RefusedRight(env, old(State()), r, w)
      ensures Agree(env, old(State()), State()) && OnlyAt(old(soft), soft, r)
      ensures Remembers(env, soft, r) && Notes(env, soft, r)
    {
      SingleShown(env, State(), r);
      var dataType := env.typeOf(r.id);
      if env.Is(r.id, VirtualParameter) {
        var t := env.transform(r.id).value;
        var v := VirtualParameterValue(t, r);
        return if v.Err? then Err(v.error) else ShowStored(env, t.dataType, v.value);
      }
      if env.loose(r.id) {
        var v := SoftParameterValue(Param(r, dataType));
        return if v.Err? then Err(v.error)
               else if dataType == Latin1 then Ok(0)
               else ShowStored(env, dataType, v.value);
      }
      StoredSlot(env, r);
      match dataType {
        case Integer32 =>
          if env.Is(r.id, ConstantInt32) {
            return Ok(Unsigned(env.transform(r.id).value.value));
          }
          var reading := env.readInt(r);
          if reading.None? {
            return Err(Device);
          }
          var value := env.Masked(r.id, reading.value);
          StoreLive(Param(r, dataType), Whole(value));
          return Ok(Unsigned(value));
        case Float32 =>
          if env.Is(r.id, SynthesizeFloat32) {
            var value := Synthesized(env, r);
            if value.None? {
              return Err(Device);
            }
            StoreLive(Param(r, Float32), value.value);
            return Ok(env.bits(value.value));
          }
          var reading := env.readFloat(r);
          if reading.None? {
            return Err(Device);
          }
          StoreLive(Param(r, dataType), reading.value);
          return Ok(env.bits(reading.value));
        case _ =>
          return Err(Refused);
      }
    }

    /** The first loop of the bulk read: the kind of every slot, or the first refusal. */
    method ClassifyAll(refs: seq<Ref>) returns (r: Result<seq<Slot>, Error>)
      ensures r.Ok? ==> |r.value| == |refs| && forall i :: 0 <= i < |refs| ==> Classify(env, refs[i]) == Ok(r.value[i])
      ensures r.Err? ==> exists i :: 0 <= i < |refs| && Classify(env, refs[i]).Err?
    {
      var slots := [];
      for i := 0 to |refs|
        invariant |slots| == i && forall j :: 0 <= j < i ==> Classify(env, refs[j]) == Ok(slots[j])
      {
        var slot := Classify(env, refs[i]);
        if slot.Err? {
          return Err(slot.error);
        }
        slots := slots + [slot.value];
      }
      return Ok(slots);
    }

    /** The second loop's body: local classes answer at once, the others are left to the bulk primitive. */
    method Gather(slot: Slot) returns (g: Gathered)
      requires Sound(env) && Classify(env, slot.param.ref) == Ok(slot)
      modifies this`soft
      ensures Agree(env, old(State()), State()) && DirectSame(env, old(soft), soft)
      ensures g.Value? ==> Shows(env, old(State()), slot, g.value) && FallsBack(env, old(soft), slot, g.value)
      ensures g.Value? && g.live ==> !Consults(env, slot.param.ref)
      ensures g.Downstream? ==> Direct(env, slot.param.ref) && !slot.skip && !env.liveActual(slot.param.ref.id)
    {
      var r := slot.param.ref;
      if slot.skip {
        SkippedShows(env, State(), r);
        return Value(Zero, false);
      }
      if env.Is(r.id, VirtualParameter) {
        VirtualShows(env, State(), r);
        var t := env.transform(r.id).value;
        var v := VirtualParameterValue(t, r);
        return Value(if v.Ok? then Numeric(t.dataType, v.value) else Zero, false);
      }
      if env.loose(r.id) {
        LooseShows(env, State(), r);
        var v := SoftParameterValue(slot.param);
        return Value(if v.Ok? then Numeric(slot.param.dataType, v.value) else Zero, false);
      }
      StoredSlot(env, r);
      if env.Is(r.id, ConstantInt32) {
        ConstantShows(env, State(), r);
        return Value(Whole(env.transform(r.id).value.value), false);
      }
      if env.Is(r.id, SynthesizeFloat32) {
        SynthesizedShows(env, State(), r);
        var value := Synthesized(env, r);
        return Value(value.GetOr(Zero), value.Some?);
      }
      if env.liveActual(r.id) {
        var reading := env.Reading(slot.param);
        if reading.Some? {
          DirectShows(env, State(), r, reading.value);
          return Value(reading.value, true);
        }
        var cached := Lookup(env, soft, slot.param);
        var value := if cached.Ok? && cached.value.Some? && !cached.value.value.placeholder
                        && slot.param.dataType != Latin1
                     then Numeric(slot.param.dataType, cached.value.value) else Zero;
        DirectShows(env, State(), r, value);
        return Value(value, false);
      }
      return Downstream;
    }

    /** The second loop: a value for every local slot, and the list of slots to ask the device for in bulk. */
    method GatherAll(slots: seq<Slot>) returns (values: seq<F64>, live: seq<bool>, downstream: seq<nat>)
      requires Sound(env) && Classified(env, slots)
      modifies this`soft
      ensures Agree(env, old(State()), State()) && DirectSame(env, old(soft), soft)
      ensures Filled(env, old(State()), slots, values, live, Members(downstream, 0))
    {
      values, live, downstream := seq(|slots|, _ => Zero), seq(|slots|, _ => false), [];
      for i := 0 to |slots|
        invariant |values| == |live| == |slots|
        invariant Agree(env, old(State()), State()) && DirectSame(env, old(soft), soft)
        invariant forall j :: i <= j < |slots| ==> !live[j]
        invariant Within(env, slots, Members(downstream, 0))
        invariant forall j :: 0 <= j < i && j !in Members(downstream, 0) ==>
                    Shows(env, old(State()), slots[j], values[j]) && FallsBack(env, old(soft), slots[j], values[j])
        invariant forall j :: 0 <= j < i && live[j] ==> !Consults(env, slots[j].param.ref)
      {
        ghost var before := State();
        var g := Gather(slots[i]);
        ShowsStable(env, old(State()), before, slots[i], if g.Value? then g.value else Zero);
        match g {
          case Value(value, isLive) =>
            values, live := values[i := value], live[i := isLive];
          case Downstream =>
            MembersAppend(downstream, i);
            downstream := downstream + [i];
        }
      }
    }

    /** One bulk request for the listed slots; if it fails, each of them is read singly. */
    method AskDevice(slots: seq<Slot>, values: seq<F64>, live: seq<bool>, downstream: seq<nat>, ghost s: Stores)
        returns (values': seq<F64>, live': seq<bool>)
      requires Sound(env) && Classified(env, slots) && Filled(env, s, slots, values, live, Members(downstream, 0))
      ensures Filled(env, s, slots, values', live', {})
    {
      values', live' := values, live;
      MembersSmall(downstream, slots, env);
      var params := seq(|downstream|, j requires 0 <= j < |downstream| => slots[downstream[j]].param);
      var answers := if |params| > 0 then env.readBulk(params) else None;
      var bulk := answers.Some? && |answers.value| == |params|;
      for j := 0 to |downstream|
        invariant Filled(env, s, slots, values', live', Members(downstream, j))
      {
        var i, param := downstream[j], params[j];
        MembersStep(downstream, j);
        var reading := env.Reading(param);
        var value := if bulk then answers.value[j] else reading.GetOr(Zero);
        var isLive := bulk || reading.Some?;
        DirectShows(env, s, param.ref, value);
        StoredSlot(env, param.ref);
        values', live' := values'[i := value], live'[i := isLive];
      }
      assert Members(downstream, |downstream|) == {};
    }

    /** The last loop: remember live values and print every slot. */
    method ShowAll(slots: seq<Slot>, values: seq<F64>, live: seq<bool>, ghost s: Stores)
        returns (r: Result<seq<Word>, Error>)
      requires Sound(env) && Classified(env, slots) && Filled(env, s, slots, values, live, {})
      requires Agree(env, s, State())
      modifies this`soft
      ensures Agree(env, s, State())
      ensures r.Ok? ==>
                && |r.value| == |slots|
                && forall i :: 0 <= i < |slots| ==> Encode(env, slots[i].param, values[i]) == Ok(r.value[i])
      ensures r.Err? ==> exists i :: 0 <= i < |slots| && Encode(env, slots[i].param, values[i]).Err?
    {
      var out := [];
      for i := 0 to |slots|
        invariant Agree(env, s, State())
        invariant |out| == i && forall j :: 0 <= j < i ==> Encode(env, slots[j].param, values[j]) == Ok(out[j])
      {
        if live[i] {
          StoreLive(slots[i].param, values[i]);
        }
        var word := Encode(env, slots[i].param, values[i]);
        if word.Err? {
          return Err(word.error);
        }
        out := out + [word.value];
      }
      return Ok(out);
    }

    /** The bulk read answers, slot by slot, what single reads answer, and fails only if some single read fails. */
    method BulkRead(refs: seq<Ref>) returns (r: Result<seq<Word>, Error>)
      requires Sound(env)
      modifies this`soft
      ensures Agree(env, old(State()), State())
      ensures r.Err? ==> exists i :: 0 <= i < |refs| && Single(env, old(State()), refs[i]).Err?
      ensures r.Ok? ==>
                && |r.value| == |refs|
                && forall i :: 0 <= i < |refs| && Single(env, old(State()), refs[i]).Ok? ==>
                     Single(env, old(State()), refs[i]) == Ok(r.value[i])
      ensures r.Ok? ==> forall i :: 0 <= i < |refs| ==>
                && ShownRight(env, old(State()), refs[i], Ok(r.value[i]))
                && FallbackShown(env, old(soft), refs[i], Ok(r.value[i]))
    {
      ghost var s := State();
      var classified := ClassifyAll(refs);
      if classified.Err? {
        ghost var i :| 0 <= i < |refs| && Classify(env, refs[i]).Err?;
        RefusedSlot(env, s, refs[i]);
        return Err(classified.error);
      }
      var slots := classified.value;
      SlotsAreClassified(env, refs, slots);
      var values, live, downstream := GatherAll(slots);
      values, live := AskDevice(slots, values, live, downstream, s);
      r := ShowAll(slots, values, live, s);
      if r.Err? {
        ghost var i :| 0 <= i < |slots| && Encode(env, slots[i].param, values[i]).Err?;
        UnshownSlot(env, s, refs[i], values[i]);
      } else {
        forall i | 0 <= i < |refs| && Single(env, s, refs[i]).Ok? ensures Single(env, s, refs[i]) == Ok(r.value[i]) {
          assert Shows(env, s, slots[i], values[i]);
        }
        forall i | 0 <= i < |refs|
          ensures ShownRight(env, s, refs[i], Ok(r.value[i])) && FallbackShown(env, s.soft, refs[i], Ok(r.value[i]))
        {
          SlotShownRight(env, s, slots[i], values[i], r.value[i]);
        }
      }
    }

    /** The same parameters read one after the other. */
    method ReadSingly(refs: seq<Ref>) returns (words: seq<Result<Word, Error>>)
      requires Tables(env)
      modifies this`soft
      ensures Agree(env, old(State()), State())
      ensures |words| == |refs| && forall i :: 0 <= i < |refs| ==> words[i] == Single(env, old(State()), refs[i])
    {
      words := [];
      for i := 0 to |refs|
        invariant Agree(env, old(State()), State())
        invariant |words| == i && forall j :: 0 <= j < i ==> words[j] == Single(env, old(State()), refs[j])
      {
        SingleStable(env, old(State()), State(), refs[i]);
        var word := SingleRead(refs[i]);
        words := words + [word];
      }
    }

    /** Reading singly first and then in bulk gives the same payload, in order. */
    method CompareReads(refs: seq<Ref>) returns (words: seq<Result<Word, Error>>, payload: Result<seq<Word>, Error>)
      requires Sound(env)
      modifies this`soft
      ensures |words| == |refs|
      ensures (forall i :: 0 <= i < |refs| ==> words[i].Ok?) ==>
                && payload.Ok? && |payload.value| == |refs|
                && forall i :: 0 <= i < |refs| ==> words[i] == Ok(payload.value[i])
    {
      ghost var s := State();
      words := ReadSingly(refs);
      forall i | 0 <= i < |refs| ensures Single(env, s, refs[i]) == Single(env, State(), refs[i]) {
        SingleStable(env, s, State(), refs[i]);
      }
      payload := BulkRead(refs);
    }
  }

  // ---------- Bookkeeping of the bulk loops ----------

  ghost predicate Classified(env: Env, slots: seq<Slot>) {
    forall i :: 0 <= i < |slots| ==> Classify(env, slots[i].param.ref) == Ok(slots[i])
  }

  lemma SlotsAreClassified(env: Env, refs: seq<Ref>, slots: seq<Slot>)
    requires |slots| == |refs| && forall i :: 0 <= i < |refs| ==> Classify(env, refs[i]) == Ok(slots[i])
    ensures Classified(env, slots) && forall i :: 0 <= i < |refs| ==> slots[i].param.ref == refs[i]
  {
  }

  /** The entries of `s` from position `from` on. */
  ghost function Members(s: seq<nat>, from: nat): set<nat> {
    set j | from <= j < |s| :: s[j]
  }

  lemma MembersAppend(s: seq<nat>, x: nat)
    ensures Members(s + [x], 0) == Members(s, 0) + {x}
  {
    var t := s + [x];
    assert t[|s|] == x;
    forall y | y in Members(s, 0) ensures y in Members(t, 0) {
      var j :| 0 <= j < |s| && s[j] == y;
      assert t[j] == y;
    }
  }

  lemma MembersStep(s: seq<nat>, j: nat)
    requires j < |s|
    ensures Members(s, j) == Members(s, j + 1) + {s[j]}
  {
  }

  /** Pending slots are read from the device directly. */
  ghost predicate Within(env: Env, slots: seq<Slot>, pending: set<nat>) {
    forall i :: i in pending ==>
      i < |slots| && !slots[i].skip && Direct(env, slots[i].param.ref) && !env.liveActual(slots[i].param.ref.id)
  }

  /** Every slot that is not pending shows what its single read answers. */
  ghost predicate Filled(env: Env, s: Stores, slots: seq<Slot>, values: seq<F64>, live: seq<bool>, pending: set<nat>) {
    && |values| == |live| == |slots| && Within(env, slots, pending)
    && (forall i :: 0 <= i < |slots| && i !in pending ==>
          Shows(env, s, slots[i], values[i]) && FallsBack(env, s.soft, slots[i], values[i]))
    && (forall i :: 0 <= i < |slots| && live[i] ==> !Consults(env, slots[i].param.ref))
  }

  lemma MembersSmall(s: seq<nat>, slots: seq<Slot>, env: Env)
    requires Within(env, slots, Members(s, 0))
    ensures forall j :: 0 <= j < |s| ==> s[j] < |slots| && !slots[s[j]].skip && Direct(env, slots[s[j]].param.ref)
                                         && !env.liveActual(slots[s[j]].param.ref.id)
  {
    forall j | 0 <= j < |s|
      ensures s[j] < |slots| && !slots[s[j]].skip && Direct(env, slots[s[j]].param.ref)
              && !env.liveActual(slots[s[j]].param.ref.id)
    {
      assert s[j] in Members(s, 0);
    }
  }

  lemma ShowsStable(env: Env, s: Stores, v: Stores, slot: Slot, value: F64)
    requires Tables(env) && Agree(env, s, v)
    ensures Shows(env, s, slot, value) == Shows(env, v, slot, value)
  {
    SingleStable(env, s, v, slot.param.ref);
  }
}
