/** The CRTVStream byte stream: mecom/protocol.go, ParseRingFrames and its helpers.

    Frames start with 0x88 0x00 (normal) or 0x88 0x01 (sync), carry a payload in which
    0x88 is doubled, and end with 0x88 0x10.  The parser hands back an unfinished
    frame as a tail, so that it can be resumed with more bytes.
  */
module RingFrames {
  import opened Wrappers

  type Byte = b: int | 0 <= b < 256

  const MARK: Byte := 0x88
  const END: Byte := 0x10

  datatype DataType = Unset | Float32 | Int32 | Latin1 | RawByte

  /** A sample keeps its 32 bits; the number they stand for depends on the type alone. */
  datatype Sample = Sample(configIndex: nat, typ: DataType, bits: nat)

  datatype Frame = Frame(sync: bool, captureId: nat, timestamp: nat, samples: seq<Sample>, raw: seq<Byte>)

  datatype ParseError =
    | TruncatedEscape
    | UnexpectedMarker
    | FrameTooShort
    | TruncatedSample
    | UnsupportedType
    | TruncatedValue

  datatype Parsed = Parsed(frames: seq<Frame>, tail: seq<Byte>, error: Option<ParseError>)

  // ---------- Scanning ----------

  predicate IsStart(a: Byte, b: Byte) {
    a == MARK && (b == 0 || b == 1)
  }

  /** The first start marker at or after `i`, or -1. */
  function FindStart(d: seq<Byte>, i: nat): (r: int)
    ensures r == -1 || i <= r < |d| - 1
    decreases |d| - i
  {
    if i + 1 >= |d| then -1
    else if IsStart(d[i], d[i + 1]) then i
    else FindStart(d, i + 1)
  }

  /** The first end marker at or after `i` that is not part of a doubled 0x88, or -1. */
  function FindEnd(d: seq<Byte>, i: nat): (r: int)
    ensures r == -1 || i <= r < |d| - 1
    decreases |d| - i
  {
    if i + 1 >= |d| then -1
    else if d[i] == MARK && d[i + 1] == END then i
    else if d[i] == MARK && d[i + 1] == MARK then FindEnd(d, i + 2)
    else FindEnd(d, i + 1)
  }

  predicate StartsAt(d: seq<Byte>, j: nat) {
    j + 1 < |d| && IsStart(d[j], d[j + 1])
  }

  /** FindStart finds the first start marker. */
  lemma {:induction false} FirstStart(d: seq<Byte>, i: nat)
    ensures var r := FindStart(d, i);
            && (r >= 0 ==> StartsAt(d, r))
            && forall j: nat :: i <= j && (r < 0 || j < r) ==> !StartsAt(d, j)
    decreases |d| - i
  {
    if i + 1 < |d| && !IsStart(d[i], d[i + 1]) {
      FirstStart(d, i + 1);
    }
  }

  /** How many 0x88 bytes stand immediately before position `j`, not counting those before `i`. */
  function MarksBefore(d: seq<Byte>, i: nat, j: nat): nat
    requires j <= |d|
  {
    if j <= i || d[j - 1] != MARK then 0 else 1 + MarksBefore(d, i, j - 1)
  }

  /** An end marker whose 0x88 is not the second of a pair. */
  predicate EndsAt(d: seq<Byte>, i: nat, j: nat) {
    j + 1 < |d| && d[j] == MARK && d[j + 1] == END && MarksBefore(d, i, j) % 2 == 0
  }

  lemma {:induction false} SkipPair(d: seq<Byte>, i: nat, j: nat)
    requires i + 2 <= j <= |d| && d[i] == MARK && d[i + 1] == MARK
    ensures MarksBefore(d, i, j) % 2 == MarksBefore(d, i + 2, j) % 2
  {
    if j == i + 2 {
      assert MarksBefore(d, i, j) == 1 + MarksBefore(d, i, i + 1);
    } else if d[j - 1] == MARK {
      SkipPair(d, i, j - 1);
    }
  }

  lemma {:induction false} SkipByte(d: seq<Byte>, i: nat, j: nat)
    requires i < j <= |d| && (d[i] != MARK || (i + 1 < j && d[i + 1] != MARK))
    ensures MarksBefore(d, i, j) == MarksBefore(d, i + 1, j)
  {
    if d[j - 1] == MARK {
      SkipByte(d, i, j - 1);
    }
  }

  /** FindEnd finds the first end marker. */
  lemma {:induction false} FirstEnd(d: seq<Byte>, i: nat)
    ensures var r := FindEnd(d, i);
            && (r >= 0 ==> EndsAt(d, i, r))
            && forall j: nat :: i <= j && (r < 0 || j < r) ==> !EndsAt(d, i, j)
    decreases |d| - i
  {
    if i + 1 < |d| && !(d[i] == MARK && d[i + 1] == END) {
      if d[i] == MARK && d[i + 1] == MARK {
        FirstEnd(d, i + 2);
        assert MarksBefore(d, i, i + 1) == 1;
        forall j: nat | i + 2 <= j < |d| ensures EndsAt(d, i, j) <==> EndsAt(d, i + 2, j) { SkipPair(d, i, j); }
      } else {
        FirstEnd(d, i + 1);
        forall j: nat | i + 1 <= j < |d| ensures EndsAt(d, i, j) <==> EndsAt(d, i + 1, j) {
          if d[i] != MARK || j > i + 1 { SkipByte(d, i, j); }
        }
      }
    }
  }

  method FindRingStart(data: seq<Byte>, offset: nat) returns (r: int)
    ensures r == FindStart(data, offset)
  {
    var i := offset;
    while i + 1 < |data|
      invariant offset <= i && FindStart(data, offset) == FindStart(data, i)
    {
      if IsStart(data[i], data[i + 1]) {
        return i;
      }
      i := i + 1;
    }
    return -1;
  }

  method FindRingEnd(data: seq<Byte>, offset: nat) returns (r: int)
    ensures r == FindEnd(data, offset)
  {
    var i := offset;
    while i + 1 < |data|
      invariant offset <= i && FindEnd(data, offset) == FindEnd(data, i)
    {
      if data[i] == MARK {
        if data[i + 1] == MARK {
          i := i + 1;
        } else if data[i + 1] == END {
          return i;
        }
      }
      i := i + 1;
    }
    return -1;
  }

  /** Puts `xs` in front of a list result. */
  function Onto<T>(xs: seq<T>, r: Result<seq<T>, ParseError>): Result<seq<T>, ParseError> {
    match r
    case Ok(ys) => Ok(xs + ys)
    case Err(e) => Err(e)
  }

  lemma OntoTwice<T>(xs: seq<T>, x: T, r: Result<seq<T>, ParseError>)
    ensures Onto(xs, Onto([x], r)) == Onto(xs + [x], r)
    ensures Onto([], r) == r
  {
    if r.Ok? { assert xs + ([x] + r.value) == xs + [x] + r.value && [] + r.value == r.value; }
  }

  function Unescape(d: seq<Byte>): Result<seq<Byte>, ParseError> {
    if d == [] then Ok([])
    else if d[0] != MARK then Onto([d[0]], Unescape(d[1..]))
    else if |d| < 2 then Err(TruncatedEscape)
    else if d[1] != MARK then Err(UnexpectedMarker)
    else Onto([MARK], Unescape(d[2..]))
  }

  method UnescapePayload(data: seq<Byte>) returns (r: Result<seq<Byte>, ParseError>)
    ensures r == Unescape(data)
  {
    var out: seq<Byte> := [];
    var i := 0;
    assert data[0..] == data;
    OntoTwice([], MARK, Unescape(data));
    while i < |data|
      invariant 0 <= i <= |data|
      invariant Unescape(data) == Onto(out, Unescape(data[i..]))
    {
      assert data[i..][1..] == data[i + 1..];
      if data[i] != MARK {
        OntoTwice(out, data[i], Unescape(data[i + 1..]));
        out := out + [data[i]];
        i := i + 1;
        continue;
      }
      if i + 1 >= |data| {
        return Err(TruncatedEscape);
      }
      assert data[i..][2..] == data[i + 2..];
      if data[i + 1] != MARK {
        return Err(UnexpectedMarker);
      }
      OntoTwice(out, MARK, Unescape(data[i + 2..]));
      out := out + [MARK];
      i := i + 2;
    }
    assert data[i..] == [] && out + [] == out;
    return Ok(out);
  }

  // ---------- Decoding ----------

  function Le16(d: seq<Byte>): nat
    requires |d| >= 2
  {
    d[0] as int + 256 * (d[1] as int)
  }

  function Le32(d: seq<Byte>): nat
    requires |d| >= 4
  {
    d[0] as int + 256 * (d[1] as int) + 65536 * (d[2] as int) + 16777216 * (d[3] as int)
  }

  function ConfiguredType(config: seq<DataType>, index: nat): DataType {
    if index < |config| && config[index] != Unset then config[index] else Float32
  }

  /** The first sample of `p` and the number of bytes it takes. */
  function DecodeSample(p: seq<Byte>, config: seq<DataType>): (r: Result<(Sample, nat), ParseError>)
    requires p != []
    ensures r.Ok? ==> 0 < r.value.1 <= |p|
  {
    if |p| < 5 then Err(TruncatedSample)
    else
      var index := p[0] % 128;
      if p[0] < 128 then Ok((Sample(index, ConfiguredType(config, index), Le32(p[1..])), 5))
      else if p[1] != 1 && p[1] != 2 then Err(UnsupportedType)
      else if |p| < 6 then Err(TruncatedValue)
      else Ok((Sample(index, if p[1] == 1 then Float32 else Int32, Le32(p[2..])), 6))
  }

  function DecodeSamples(p: seq<Byte>, config: seq<DataType>): Result<seq<Sample>, ParseError> {
    if p == [] then Ok([])
    else
      match DecodeSample(p, config)
      case Err(e) => Err(e)
      case Ok((s, used)) => Onto([s], DecodeSamples(p[used..], config))
  }

  method DecodeRingFrame(kind: Byte, payload: seq<Byte>, raw: seq<Byte>, config: seq<DataType>)
      returns (r: Result<Frame, ParseError>)
    ensures r == Decode(kind, payload, raw, config)
  {
    var offset := if kind == 1 then 4 else 2;
    if |payload| < offset {
      return Err(FrameTooShort);
    }
    ghost var body := payload[offset..];
    var samples: seq<Sample> := [];
    OntoTwice([], Sample(0, Unset, 0), DecodeSamples(body, config));
    while offset < |payload|
      invariant 0 <= offset <= |payload|
      invariant DecodeSamples(body, config) == Onto(samples, DecodeSamples(payload[offset..], config))
      decreases |payload| - offset
    {
      var sample := DecodeSample(payload[offset..], config);
      match sample {
        case Err(e) => return Err(e);
        case Ok((s, used)) =>
          assert payload[offset..][used..] == payload[offset + used..];
          OntoTwice(samples, s, DecodeSamples(payload[offset + used..], config));
          samples := samples + [s];
          offset := offset + used;
      }
    }
    assert payload[offset..] == [] && samples + [] == samples;
    return Ok(if kind == 1 then Frame(true, Le16(payload), Le16(payload[2..]), samples, raw)
              else Frame(false, 0, Le16(payload), samples, raw));
  }

  function Decode(kind: Byte, payload: seq<Byte>, raw: seq<Byte>, config: seq<DataType>): Result<Frame, ParseError> {
    var offset := if kind == 1 then 4 else 2;
    if |payload| < offset then Err(FrameTooShort)
    else
      match DecodeSamples(payload[offset..], config)
      case Err(e) => Err(e)
      case Ok(samples) =>
        Ok(if kind == 1 then Frame(true, Le16(payload), Le16(payload[2..]), samples, raw)
           else Frame(false, 0, Le16(payload), samples, raw))
  }

  /** The frame whose bytes, markers included, are `raw`. */
  function FrameOf(raw: seq<Byte>, config: seq<DataType>): Result<Frame, ParseError> {
    if |raw| < 4 then Err(FrameTooShort)
    else
      match Unescape(raw[2..|raw| - 2])
      case Err(e) => Err(e)
      case Ok(payload) => Decode(raw[1], payload, raw, config)
  }

  /** How the bytes of one frame are read; the scanning below does not depend on it. */
  type Decoder = seq<Byte> -> Result<Frame, ParseError>

  function DecoderFor(config: seq<DataType>): Decoder {
    raw => FrameOf(raw, config)
  }

  /** What the parser finds first at or after an offset. */
  datatype Head = NoStart | Unfinished(start: nat) | Broken(cause: ParseError) | Complete(frame: Frame, next: nat)

  function First(d: seq<Byte>, i: nat, decode: Decoder): (r: Head)
    ensures r.Unfinished? ==> i <= r.start < |d|
    ensures r.Complete? ==> i < r.next <= |d|
  {
    var start := FindStart(d, i);
    if start < 0 then NoStart
    else
      var end := FindEnd(d, start + 2);
      if end < 0 then Unfinished(start)
      else
        match decode(d[start..end + 2])
        case Err(err) => Broken(err)
        case Ok(f) => Complete(f, end + 2)
  }

  function Prepend(frames: seq<Frame>, p: Parsed): Parsed {
    p.(frames := frames + p.frames)
  }

  function ParseFrom(d: seq<Byte>, i: nat, decode: Decoder): Parsed
    decreases |d| - i
  {
    match First(d, i, decode)
    case NoStart => Parsed([], [], None)
    case Unfinished(start) => Parsed([], d[start..], None)
    case Broken(err) => Parsed([], [], Some(err))
    case Complete(f, next) => Prepend([f], ParseFrom(d, next, decode))
  }

  function Parse(d: seq<Byte>, decode: Decoder): Parsed {
    ParseFrom(d, 0, decode)
  }

  lemma PrependAll(xs: seq<Frame>, ys: seq<Frame>, p: Parsed)
    ensures Prepend(xs, Prepend(ys, p)) == Prepend(xs + ys, p)
    ensures Prepend([], p) == p
  {
    assert xs + (ys + p.frames) == xs + ys + p.frames && [] + p.frames == p.frames;
  }

  lemma SliceInside(d: seq<Byte>, i: nat, j: nat)
    requires i + 4 <= j <= |d|
    ensures d[i..j][2..|d[i..j]| - 2] == d[i + 2..j - 2] && d[i..j][1] == d[i + 1]
  {
    var inner := d[i..j][2..j - i - 2];
    assert forall k :: 0 <= k < |inner| ==> inner[k] == d[i + 2 + k];
  }

  /** Unescapes and decodes the frame between a start marker and its end marker at `end`. */
  method DecodeRaw(data: seq<Byte>, start: nat, end: nat, config: seq<DataType>)
      returns (frame: Result<Frame, ParseError>)
    requires start + 2 <= end && end + 2 <= |data|
    ensures frame == FrameOf(data[start..end + 2], config)
  {
    var raw := data[start..end + 2];
    SliceInside(data, start, end + 2);
    var payload := UnescapePayload(data[start + 2..end]);
    if payload.Err? {
      return Err(payload.error);
    }
    frame := DecodeRingFrame(data[start + 1], payload.value, raw, config);
  }

  /** One round of the parsing loop. */
  method ParseOne(data: seq<Byte>, offset: nat, config: seq<DataType>) returns (h: Head)
    ensures h == First(data, offset, DecoderFor(config))
  {
    var start := FindRingStart(data, offset);
    if start < 0 {
      return NoStart;
    }
    var end := FindRingEnd(data, start + 2);
    if end < 0 {
      return Unfinished(start);
    }
    var frame := DecodeRaw(data, start, end, config);
    if frame.Err? {
      return Broken(frame.error);
    }
    return Complete(frame.value, end + 2);
  }

  method ParseRingFrames(data: seq<Byte>, config: seq<DataType>) returns (p: Parsed)
    ensures p == Parse(data, DecoderFor(config))
  {
    var frames: seq<Frame> := [];
    var offset := 0;
    PrependAll([], [], Parse(data, DecoderFor(config)));
    while true
      invariant 0 <= offset <= |data|
      invariant Parse(data, DecoderFor(config)) == Prepend(frames, ParseFrom(data, offset, DecoderFor(config)))
      decreases |data| - offset
    {
      var head := ParseOne(data, offset, config);
      assert frames + [] == frames;
      match head {
        case NoStart => return Parsed(frames, [], None);
        case Unfinished(start) => return Parsed(frames, data[start..], None);
        case Broken(err) => return Parsed(frames, [], Some(err));
        case Complete(frame, next) =>
          PrependAll(frames, [frame], ParseFrom(data, next, DecoderFor(config)));
          frames := frames + [frame];
          offset := next;
      }
      if offset >= |data| {
        assert frames + [] == frames;
        return Parsed(frames, [], None);
      }
    }
  }

  // ---------- Resuming ----------

  /** What follows the last complete frame, when no further frame has begun. */
  function LeftoverFrom(d: seq<Byte>, i: nat, decode: Decoder): seq<Byte>
    requires i <= |d|
    decreases |d| - i
  {
    match First(d, i, decode)
    case NoStart => d[i..]
    case Complete(_, next) => LeftoverFrom(d, next, decode)
    case _ => []
  }

  predicate Meet(a: seq<Byte>, b: seq<Byte>) {
    a != [] && b != [] && IsStart(a[|a| - 1], b[0])
  }

  /** The cut between `a` and `b` falls inside a start marker that `a` alone does not reveal. */
  predicate Straddles(a: seq<Byte>, b: seq<Byte>, decode: Decoder) {
    Meet(LeftoverFrom(a, 0, decode), b)
  }

  lemma {:induction false} ShiftStart(x: seq<Byte>, y: seq<Byte>, i: nat)
    ensures FindStart(x + y, |x| + i) == if FindStart(y, i) < 0 then -1 else |x| + FindStart(y, i)
    decreases |y| - i
  {
    if i + 1 < |y| && !IsStart(y[i], y[i + 1]) {
      ShiftStart(x, y, i + 1);
    }
  }

  lemma {:induction false} ShiftEnd(x: seq<Byte>, y: seq<Byte>, i: nat)
    ensures FindEnd(x + y, |x| + i) == if FindEnd(y, i) < 0 then -1 else |x| + FindEnd(y, i)
    decreases |y| - i
  {
    if i + 1 < |y| {
      ShiftEnd(x, y, i + 1);
      ShiftEnd(x, y, i + 2);
    }
  }

  lemma SliceOfSecond(x: seq<Byte>, y: seq<Byte>, i: nat, j: nat)
    requires i <= j <= |y|
    ensures (x + y)[|x| + i..|x| + j] == y[i..j] && (x + y)[|x| + i..] == y[i..]
  {
  }

  /** The same finding, `k` bytes further on. */
  function Later(h: Head, k: nat): Head {
    match h
    case Unfinished(start) => Unfinished(start + k)
    case Complete(f, next) => Complete(f, next + k)
    case _ => h
  }

  lemma ShiftFirst(x: seq<Byte>, y: seq<Byte>, i: nat, decode: Decoder)
    ensures First(x + y, |x| + i, decode) == Later(First(y, i, decode), |x|)
  {
    ShiftStart(x, y, i);
    var s := FindStart(y, i);
    if s >= 0 {
      ShiftEnd(x, y, s + 2);
      var e, t := FindEnd(y, s + 2), |x| + s;
      assert FindStart(x + y, |x| + i) == t;
      if e >= 0 {
        assert FindEnd(x + y, t + 2) == |x| + e;
        SliceOfSecond(x, y, s, e + 2);
      }
    }
  }

  lemma {:induction false} ShiftParse(x: seq<Byte>, y: seq<Byte>, i: nat, decode: Decoder)
    ensures ParseFrom(x + y, |x| + i, decode) == ParseFrom(y, i, decode)
    decreases |y| - i
  {
    ShiftFirst(x, y, i, decode);
    match First(y, i, decode)
    case NoStart =>
    case Broken(_) =>
    case Unfinished(s) => SliceOfSecond(x, y, s, |y|);
    case Complete(_, next) => ShiftParse(x, y, next, decode);
  }

  lemma {:induction false} StartStable(a: seq<Byte>, b: seq<Byte>, i: nat)
    requires i <= |a|
    ensures FindStart(a, i) >= 0 ==> FindStart(a + b, i) == FindStart(a, i)
    ensures FindStart(a, i) < 0 && !Meet(a[i..], b) ==> FindStart(a + b, i) == FindStart(a + b, |a|)
    decreases |a| - i
  {
    if i < |a| && !(i + 1 < |a| && IsStart(a[i], a[i + 1])) {
      StartStable(a, b, i + 1);
      assert i + 1 < |a| ==> a[i..][|a| - i - 1] == a[i + 1..][|a| - i - 2];
    }
  }

  lemma {:induction false} EndStable(a: seq<Byte>, b: seq<Byte>, i: nat)
    requires FindEnd(a, i) >= 0
    ensures FindEnd(a + b, i) == FindEnd(a, i)
    decreases |a| - i
  {
    if a[i] == MARK && a[i + 1] == END {
    } else if a[i] == MARK && a[i + 1] == MARK {
      EndStable(a, b, i + 2);
    } else {
      EndStable(a, b, i + 1);
    }
  }

  /** A finding that does not depend on the end of the buffer stands when bytes are added. */
  lemma FirstStable(a: seq<Byte>, b: seq<Byte>, i: nat, decode: Decoder)
    requires i <= |a| && (First(a, i, decode).Complete? || First(a, i, decode).Broken?)
    ensures First(a + b, i, decode) == First(a, i, decode)
  {
    var s := FindStart(a, i);
    StartStable(a, b, i);
    EndStable(a, b, s + 2);
    assert (a + b)[s..FindEnd(a, s + 2) + 2] == a[s..FindEnd(a, s + 2) + 2];
  }

  lemma ParseSameStart(d: seq<Byte>, i: nat, j: nat, decode: Decoder)
    requires FindStart(d, i) == FindStart(d, j)
    ensures ParseFrom(d, i, decode) == ParseFrom(d, j, decode)
  {
    assert First(d, i, decode) == First(d, j, decode);
  }

  lemma SkipNoStart(a: seq<Byte>, b: seq<Byte>, i: nat, decode: Decoder)
    requires i <= |a| && FindStart(a, i) < 0 && !Meet(a[i..], b)
    ensures ParseFrom(a + b, i, decode) == Parse(b, decode)
  {
    StartStable(a, b, i);
    ParseSameStart(a + b, i, |a|, decode);
    ShiftParse(a, b, 0, decode);
  }

  lemma Resplit(a: seq<Byte>, b: seq<Byte>, s: nat)
    requires s <= |a|
    ensures a[..s] + (a[s..] + b) == a + b && |a[..s]| == s
  {
  }

  lemma TailRestarts(a: seq<Byte>, b: seq<Byte>, i: nat, decode: Decoder)
    requires i <= |a| && First(a, i, decode).Unfinished?
    ensures ParseFrom(a + b, i, decode) == Parse(a[First(a, i, decode).start..] + b, decode)
  {
    var s := First(a, i, decode).start;
    assert FindStart(a + b, i) == FindStart(a + b, s) by {
      StartStable(a, b, i);
      StartAt(a, i);
      StartStable(a, b, s);
    }
    ParseSameStart(a + b, i, s, decode);
    Resplit(a, b, s);
    ShiftParse(a[..s], a[s..] + b, 0, decode);
  }

  lemma {:induction false} StartAt(d: seq<Byte>, i: nat)
    requires FindStart(d, i) >= 0
    ensures FindStart(d, FindStart(d, i)) == FindStart(d, i)
    decreases |d| - i
  {
    if !IsStart(d[i], d[i + 1]) { StartAt(d, i + 1); }
  }

  lemma {:induction false} ResumeFrom(a: seq<Byte>, b: seq<Byte>, i: nat, decode: Decoder)
    requires i <= |a| && ParseFrom(a, i, decode).error.None? && !Meet(LeftoverFrom(a, i, decode), b)
    ensures var p := ParseFrom(a, i, decode);
            ParseFrom(a + b, i, decode) == Prepend(p.frames, Parse(p.tail + b, decode))
    decreases |a| - i
  {
    match First(a, i, decode)
    case NoStart =>
      SkipNoStart(a, b, i, decode);
      assert [] + b == b;
      PrependAll([], [], Parse(b, decode));
    case Unfinished(start) =>
      TailRestarts(a, b, i, decode);
      PrependAll([], [], Parse(a[start..] + b, decode));
    case Complete(f, next) =>
      FirstStable(a, b, i, decode);
      ResumeFrom(a, b, next, decode);
      var p := ParseFrom(a, next, decode);
      PrependAll([f], p.frames, Parse(p.tail + b, decode));
  }

  /** Chunked parsing equals one-shot parsing unless the cut hides a start marker. */
  lemma Resume(a: seq<Byte>, b: seq<Byte>, decode: Decoder)
    requires Parse(a, decode).error.None? && !Straddles(a, b, decode)
    ensures Parse(a + b, decode) == Prepend(Parse(a, decode).frames, Parse(Parse(a, decode).tail + b, decode))
  {
    ResumeFrom(a, b, 0, decode);
  }

  // ---------- A hidden start marker always shows ----------

  /** Every 0x88 in d[i..e] is doubled. */
  predicate Aligned(d: seq<Byte>, i: nat, e: nat)
    requires e <= |d|
    decreases e - i
  {
    if i >= e then i == e
    else if d[i] != MARK then Aligned(d, i + 1, e)
    else i + 1 < e && d[i + 1] == MARK && Aligned(d, i + 2, e)
  }

  /** A decoder that keeps the bytes of the frame and accepts only properly stuffed payloads. */
  ghost predicate Faithful(decode: Decoder) {
    forall raw :: decode(raw).Ok? ==>
                    decode(raw).value.raw == raw && |raw| >= 4 && Aligned(raw, 2, |raw| - 2)
  }

  lemma {:induction false} UnescapeAligned(d: seq<Byte>, i: nat, e: nat)
    requires i <= e <= |d| && Unescape(d[i..e]).Ok?
    ensures Aligned(d, i, e)
    decreases e - i
  {
    if i < e {
      var p := d[i..e];
      if d[i] != MARK {
        assert p[1..] == d[i + 1..e];
        UnescapeAligned(d, i + 1, e);
      } else {
        assert p[2..] == d[i + 2..e];
        UnescapeAligned(d, i + 2, e);
      }
    }
  }

  lemma DecoderIsFaithful(config: seq<DataType>)
    ensures Faithful(DecoderFor(config))
  {
    forall raw | DecoderFor(config)(raw).Ok?
      ensures DecoderFor(config)(raw).value.raw == raw && |raw| >= 4 && Aligned(raw, 2, |raw| - 2)
    {
      UnescapeAligned(raw, 2, |raw| - 2);
    }
  }

  lemma {:induction false} AlignedPrefix(d: seq<Byte>, raw: seq<Byte>, i: nat, e: nat)
    requires raw <= d && e <= |raw| && Aligned(raw, i, e)
    ensures Aligned(d, i, e)
    decreases e - i
  {
    if i < e {
      if raw[i] != MARK { AlignedPrefix(d, raw, i + 1, e); } else { AlignedPrefix(d, raw, i + 2, e); }
    }
  }

  lemma {:induction false} AlignedEnd(d: seq<Byte>, i: nat, e: nat)
    requires e + 2 <= |d| && Aligned(d, i, e) && d[e] == MARK && d[e + 1] == END
    ensures FindEnd(d, i) == e
    decreases e - i
  {
    if i < e {
      if d[i] != MARK { AlignedEnd(d, i + 1, e); } else { AlignedEnd(d, i + 2, e); }
    }
  }

  function RawBytes(frames: seq<Frame>): nat {
    if frames == [] then 0 else |frames[0].raw| + RawBytes(frames[1..])
  }

  /** How many input bytes a result accounts for. */
  function Accounted(p: Parsed): nat {
    RawBytes(p.frames) + |p.tail|
  }

  lemma AccountedCons(f: Frame, p: Parsed)
    ensures Accounted(Prepend([f], p)) == |f.raw| + Accounted(p)
  {
    assert ([f] + p.frames)[1..] == p.frames;
  }

  /** Accounts for at most the bytes up to `e + 2` and whatever the rest accounts for. */
  ghost predicate Within(d: seq<Byte>, i: nat, e: nat, decode: Decoder) {
    var p := ParseFrom(d, i, decode);
    p.error.Some? || Accounted(p) <= e + 2 - i + Accounted(ParseFrom(d, e + 2, decode))
  }

  lemma WithinLater(d: seq<Byte>, i: nat, j: nat, e: nat, decode: Decoder)
    requires i <= j && FindStart(d, i) == FindStart(d, j) && Within(d, j, e, decode)
    ensures Within(d, i, e, decode)
  {
    ParseSameStart(d, i, j, decode);
  }

  lemma FrameAccounted(d: seq<Byte>, i: nat, decode: Decoder)
    requires Faithful(decode) && First(d, i, decode).Complete?
    ensures var h := First(d, i, decode);
            && |h.frame.raw| == h.next - FindStart(d, i)
            && Accounted(ParseFrom(d, i, decode)) == |h.frame.raw| + Accounted(ParseFrom(d, h.next, decode))
  {
    var h := First(d, i, decode);
    AccountedCons(h.frame, ParseFrom(d, h.next, decode));
  }

  lemma {:induction false} AccountedBound(d: seq<Byte>, i: nat, decode: Decoder)
    requires i <= |d| && Faithful(decode)
    ensures Accounted(ParseFrom(d, i, decode)) <= |d| - i
    decreases |d| - i
  {
    var h := First(d, i, decode);
    if h.Complete? {
      FrameAccounted(d, i, decode);
      AccountedBound(d, h.next, decode);
    }
  }

  lemma FrameWithin(d: seq<Byte>, i: nat, e: nat, decode: Decoder)
    requires First(d, i, decode).Complete? && First(d, i, decode).next == e + 2
    requires var h := First(d, i, decode);
             && |h.frame.raw| <= e + 2 - i
             && Accounted(ParseFrom(d, i, decode)) == |h.frame.raw| + Accounted(ParseFrom(d, h.next, decode))
    ensures Within(d, i, e, decode)
  {
  }

  lemma BrokenParse(d: seq<Byte>, i: nat, decode: Decoder)
    requires First(d, i, decode).Broken?
    ensures ParseFrom(d, i, decode).error.Some?
  {
  }

  lemma FalseStart(d: seq<Byte>, i: nat, s: nat, e: nat, decode: Decoder)
    requires Faithful(decode) && i <= s == FindStart(d, i) && FindEnd(d, s + 2) == e
    ensures Within(d, i, e, decode)
  {
    var h := First(d, i, decode);
    if h.Complete? {
      FrameAccounted(d, i, decode);
      FrameWithin(d, i, e, decode);
    } else {
      assert h.Broken?;
      BrokenParse(d, i, decode);
    }
  }

  /** Parsing from inside a well-stuffed payload either fails or accounts for no more than the rest of it. */
  lemma {:induction false} InsidePayload(d: seq<Byte>, i: nat, e: nat, decode: Decoder)
    requires Faithful(decode) && e + 2 <= |d| && Aligned(d, i, e) && d[e] == MARK && d[e + 1] == END
    ensures Within(d, i, e, decode)
    decreases e - i
  {
    if i == e {
      assert FindStart(d, e) == FindStart(d, e + 1) == FindStart(d, e + 2);
      WithinLater(d, e, e + 2, e, decode);
    } else if d[i] != MARK {
      InsidePayload(d, i + 1, e, decode);
      WithinLater(d, i, i + 1, e, decode);
    } else if IsStart(d[i + 1], d[i + 2]) {
      AlignedEnd(d, i + 3, e);
      assert FindStart(d, i) == FindStart(d, i + 1) == i + 1;
      FalseStart(d, i, i + 1, e, decode);
    } else {
      InsidePayload(d, i + 2, e, decode);
      assert FindStart(d, i) == FindStart(d, i + 1) == FindStart(d, i + 2);
      WithinLater(d, i, i + 2, e, decode);
    }
  }

  lemma {:induction false} EndMarker(d: seq<Byte>, i: nat)
    requires FindEnd(d, i) >= 0
    ensures var e := FindEnd(d, i); d[e] == MARK && d[e + 1] == END
    decreases |d| - i
  {
    if d[i] == MARK && d[i + 1] == END {
    } else if d[i] == MARK && d[i + 1] == MARK {
      EndMarker(d, i + 2);
    } else {
      EndMarker(d, i + 1);
    }
  }

  lemma LostMarkOfFrame(x: seq<Byte>, e: nat, decode: Decoder)
    requires Faithful(decode) && |x| >= 2 && IsStart(x[0], x[1]) && FindEnd(x, 2) == e
    requires First(x, 0, decode).Complete?
    ensures ParseFrom(x, 1, decode).error.None? ==> Accounted(ParseFrom(x, 1, decode)) < Accounted(Parse(x, decode))
  {
    assert FindStart(x, 0) == 0;
    var raw := x[0..e + 2];
    EndMarker(x, 2);
    AlignedPrefix(x, raw, 2, e);
    InsidePayload(x, 2, e, decode);
    assert FindStart(x, 1) == FindStart(x, 2);
    ParseSameStart(x, 1, 2, decode);
    FrameAccounted(x, 0, decode);
  }

  /** Dropping the 0x88 of a start marker changes every successful parse. */
  lemma LostMark(b: seq<Byte>, decode: Decoder)
    requires Faithful(decode) && b != [] && (b[0] == 0 || b[0] == 1)
    requires Parse([MARK] + b, decode).error.None?
    ensures Parse([MARK] + b, decode) != Parse(b, decode)
  {
    var x := [MARK] + b;
    ShiftParse([MARK], b, 0, decode);
    assert FindStart(x, 0) == 0;
    var e := FindEnd(x, 2);
    if e >= 0 {
      LostMarkOfFrame(x, e, decode);
    } else {
      AccountedBound(b, 0, decode);
    }
  }

  lemma {:induction false} StraddledStart(a: seq<Byte>, b: seq<Byte>, i: nat)
    requires i < |a| && b != [] && FindStart(a, i) < 0 && IsStart(a[|a| - 1], b[0])
    ensures FindStart(a + b, i) == |a| - 1 == FindStart(a + b, |a| - 1)
    decreases |a| - i
  {
    if i + 1 < |a| { StraddledStart(a, b, i + 1); }
  }

  /** A marker that only `b` completes is found when the two are parsed together. */
  lemma FoundTogether(a: seq<Byte>, b: seq<Byte>, i: nat, decode: Decoder)
    requires i < |a| && b != [] && FindStart(a, i) < 0 && IsStart(a[|a| - 1], b[0])
    ensures ParseFrom(a + b, i, decode) == Parse([MARK] + b, decode)
  {
    var n := |a| - 1;
    var x, y := a[..n], [MARK] + b;
    calc {
      ParseFrom(a + b, i, decode);
      { StraddledStart(a, b, i); ParseSameStart(a + b, i, n, decode); }
      ParseFrom(a + b, n, decode);
      { ResplitMark(a, b); }
      ParseFrom(x + y, |x| + 0, decode);
      { ShiftParse(x, y, 0, decode); }
      ParseFrom(y, 0, decode);
    }
  }

  lemma ResplitMark(a: seq<Byte>, b: seq<Byte>)
    requires a != [] && a[|a| - 1] == MARK
    ensures a[..|a| - 1] + ([MARK] + b) == a + b
  {
  }

  lemma LastOfDrop(a: seq<Byte>, i: nat)
    requires i <= |a| && a[i..] != []
    ensures a[i..][|a[i..]| - 1] == a[|a| - 1]
  {
  }

  lemma DivergeAtEnd(a: seq<Byte>, b: seq<Byte>, i: nat, decode: Decoder)
    requires Faithful(decode) && i <= |a| && FindStart(a, i) < 0 && Meet(a[i..], b)
    requires ParseFrom(a + b, i, decode).error.None?
    ensures ParseFrom(a + b, i, decode) != Prepend([], Parse([] + b, decode))
  {
    LastOfDrop(a, i);
    FoundTogether(a, b, i, decode);
    LostMark(b, decode);
    PrependAll([], [], Parse(b, decode));
    assert [] + b == b;
  }

  lemma {:induction false} Diverge(a: seq<Byte>, b: seq<Byte>, i: nat, decode: Decoder)
    requires Faithful(decode) && i <= |a| && ParseFrom(a, i, decode).error.None? && Meet(LeftoverFrom(a, i, decode), b)
    requires ParseFrom(a + b, i, decode).error.None?
    ensures var p := ParseFrom(a, i, decode);
            ParseFrom(a + b, i, decode) != Prepend(p.frames, Parse(p.tail + b, decode))
    decreases |a| - i
  {
    match First(a, i, decode)
    case NoStart =>
      DivergeAtEnd(a, b, i, decode);
    case Complete(f, next) =>
      FirstStable(a, b, i, decode);
      Diverge(a, b, next, decode);
      var p := ParseFrom(a, next, decode);
      PrependAll([f], p.frames, Parse(p.tail + b, decode));
      PrependInjective([f], ParseFrom(a + b, next, decode), Prepend(p.frames, Parse(p.tail + b, decode)));
  }

  lemma PrependInjective(xs: seq<Frame>, p: Parsed, q: Parsed)
    ensures Prepend(xs, p) == Prepend(xs, q) ==> p == q
  {
    assert (xs + p.frames)[|xs|..] == p.frames && (xs + q.frames)[|xs|..] == q.frames;
  }

  /** For a stream that parses, chunked parsing equals one-shot parsing if and only if the cut hides no
      start marker. */
  lemma ResumeExactly(a: seq<Byte>, b: seq<Byte>, config: seq<DataType>)
    requires Parse(a, DecoderFor(config)).error.None? && Parse(a + b, DecoderFor(config)).error.None?
    ensures var decode := DecoderFor(config);
            Parse(a + b, decode) == Prepend(Parse(a, decode).frames, Parse(Parse(a, decode).tail + b, decode))
            <==> !Straddles(a, b, decode)
  {
    var decode := DecoderFor(config);
    DecoderIsFaithful(config);
    if Straddles(a, b, decode) {
      Diverge(a, b, 0, decode);
    } else {
      Resume(a, b, decode);
    }
  }
}
