/** Writing CRTVStream frames in the stuffed grammar, and reading them back with the parser of
    mecom/protocol.go. */
module RingFrameRoundTrip {
  import opened RingFrames
  import opened Wrappers

  /** Whether a sample names its type on the wire or leaves it to the capture configuration. */
  datatype Tag = Configured | AsFloat | AsInt

  datatype Field = Field(index: nat, tag: Tag, bits: nat)

  datatype Item = Item(sync: bool, captureId: nat, timestamp: nat, fields: seq<Field>)

  predicate ValidField(f: Field) {
    f.index < 0x80 && f.bits < 0x1_0000_0000
  }

  ghost predicate ValidItem(m: Item) {
    m.captureId < 0x1_0000 && m.timestamp < 0x1_0000 && (!m.sync ==> m.captureId == 0)
    && forall i :: 0 <= i < |m.fields| ==> ValidField(m.fields[i])
  }

  // ---------- The grammar ----------

  function U16(x: nat): (r: seq<Byte>)
    ensures |r| == 2 && (x < 0x1_0000 ==> Le16(r) == x)
  {
    [x % 256, x / 256 % 256]
  }

  function U32(x: nat): (r: seq<Byte>)
    ensures |r| == 4 && (x < 0x1_0000_0000 ==> Le32(r) == x)
  {
    U16(x % 65536) + U16(x / 65536)
  }

  function FieldBytes(f: Field): seq<Byte>
    requires f.index < 0x80
  {
    match f.tag
    case Configured => [f.index] + U32(f.bits)
    case AsFloat => [f.index + 0x80, 1] + U32(f.bits)
    case AsInt => [f.index + 0x80, 2] + U32(f.bits)
  }

  function FieldsBytes(fs: seq<Field>): seq<Byte>
    requires forall i :: 0 <= i < |fs| ==> ValidField(fs[i])
  {
    if fs == [] then []
    else
      assert ValidField(fs[0]);
      FieldBytes(fs[0]) + FieldsBytes(fs[1..])
  }

  function Payload(m: Item): seq<Byte>
    requires ValidItem(m)
  {
    (if m.sync then U16(m.captureId) else []) + U16(m.timestamp) + FieldsBytes(m.fields)
  }

  function Escape(p: seq<Byte>): seq<Byte> {
    if p == [] then []
    else (if p[0] == MARK then [MARK, MARK] else [p[0]]) + Escape(p[1..])
  }

  function Kind(m: Item): Byte {
    if m.sync then 1 else 0
  }

  function FrameBytes(m: Item): seq<Byte>
    requires ValidItem(m)
  {
    [MARK, Kind(m)] + Escape(Payload(m)) + [MARK, END]
  }

  function StreamBytes(ms: seq<Item>): seq<Byte>
    requires forall i :: 0 <= i < |ms| ==> ValidItem(ms[i])
  {
    if ms == [] then [] else FrameBytes(ms[0]) + StreamBytes(ms[1..])
  }

  // ---------- What should be read back ----------

  function Expected(f: Field, config: seq<DataType>): Sample {
    var dataType := match f.tag
                    case Configured =>
                      if f.index < |config| && config[f.index] != Unset then config[f.index] else Float32
                    case AsFloat => Float32
                    case AsInt => Int32;
    Sample(f.index, dataType, f.bits)
  }

  function ExpectedSamples(fs: seq<Field>, config: seq<DataType>): seq<Sample> {
    seq(|fs|, i requires 0 <= i < |fs| => Expected(fs[i], config))
  }

  function ExpectedFrame(m: Item, config: seq<DataType>): Frame
    requires ValidItem(m)
  {
    Frame(m.sync, m.captureId, m.timestamp, ExpectedSamples(m.fields, config), FrameBytes(m))
  }

  function ExpectedFrames(ms: seq<Item>, config: seq<DataType>): seq<Frame>
    requires forall i :: 0 <= i < |ms| ==> ValidItem(ms[i])
  {
    seq(|ms|, i requires 0 <= i < |ms| => ExpectedFrame(ms[i], config))
  }

  // ---------- Round trips, layer by layer ----------

  lemma {:induction false} UnescapeEscape(p: seq<Byte>)
    ensures Unescape(Escape(p)) == Ok(p)
  {
    if p != [] {
      UnescapeEscape(p[1..]);
      var d := Escape(p);
      assert p == [p[0]] + p[1..];
      if p[0] == MARK {
        assert d[2..] == Escape(p[1..]);
      } else {
        assert d[1..] == Escape(p[1..]);
      }
    }
  }

  lemma DecodeField(f: Field, rest: seq<Byte>, config: seq<DataType>)
    requires ValidField(f)
    ensures DecodeSample(FieldBytes(f) + rest, config) == Ok((Expected(f, config), |FieldBytes(f)|))
  {
    var p := FieldBytes(f) + rest;
    var k := if f.tag.Configured? then 1 else 2;
    assert p[k..] == U32(f.bits) + rest;
    assert Le32(p[k..]) == Le32(U32(f.bits));
  }

  lemma {:induction false} DecodeFields(fs: seq<Field>, config: seq<DataType>)
    requires forall i :: 0 <= i < |fs| ==> ValidField(fs[i])
    ensures DecodeSamples(FieldsBytes(fs), config) == Ok(ExpectedSamples(fs, config))
  {
    if fs != [] {
      var rest := FieldsBytes(fs[1..]);
      DecodeField(fs[0], rest, config);
      DecodeFields(fs[1..], config);
      var n := |FieldBytes(fs[0])|;
      assert (FieldBytes(fs[0]) + rest)[n..] == rest;
      assert ExpectedSamples(fs, config) == [Expected(fs[0], config)] + ExpectedSamples(fs[1..], config);
    }
  }

  lemma DecodePayload(m: Item, config: seq<DataType>)
    requires ValidItem(m)
    ensures Decode(Kind(m), Payload(m), FrameBytes(m), config) == Ok(ExpectedFrame(m, config))
  {
    var p := Payload(m);
    DecodeFields(m.fields, config);
    if m.sync {
      assert p[4..] == FieldsBytes(m.fields);
      assert p[0] == U16(m.captureId)[0] && p[1] == U16(m.captureId)[1];
      assert p[2..][0] == U16(m.timestamp)[0] && p[2..][1] == U16(m.timestamp)[1];
    } else {
      assert p[2..] == FieldsBytes(m.fields);
      assert p[0] == U16(m.timestamp)[0] && p[1] == U16(m.timestamp)[1];
    }
  }

  lemma DecodeFrame(m: Item, config: seq<DataType>)
    requires ValidItem(m)
    ensures FrameOf(FrameBytes(m), config) == Ok(ExpectedFrame(m, config))
  {
    var raw := FrameBytes(m);
    assert raw[2..|raw| - 2] == Escape(Payload(m));
    UnescapeEscape(Payload(m));
    DecodePayload(m, config);
  }

  /** The parser finds a written frame at the start of a buffer, whatever follows. */
  lemma FirstOfFrame(m: Item, rest: seq<Byte>, config: seq<DataType>)
    requires ValidItem(m)
    ensures First(FrameBytes(m) + rest, 0, DecoderFor(config)) ==
            Complete(ExpectedFrame(m, config), |FrameBytes(m)|)
  {
    var raw := FrameBytes(m);
    var d, e := raw + rest, |raw| - 2;
    assert d[2..e] == Escape(Payload(m));
    UnescapeEscape(Payload(m));
    UnescapeAligned(d, 2, e);
    AlignedEnd(d, 2, e);
    assert d[0..e + 2] == raw;
    DecodeFrame(m, config);
  }

  lemma ParseFrame(m: Item, rest: seq<Byte>, config: seq<DataType>)
    requires ValidItem(m)
    ensures Parse(FrameBytes(m) + rest, DecoderFor(config)) ==
            Prepend([ExpectedFrame(m, config)], Parse(rest, DecoderFor(config)))
  {
    FirstOfFrame(m, rest, config);
    ShiftParse(FrameBytes(m), rest, 0, DecoderFor(config));
  }

  lemma ParseEmpty(config: seq<DataType>)
    ensures Parse([], DecoderFor(config)) == Parsed([], [], None)
  {
  }

  lemma ExpectedCons(ms: seq<Item>, config: seq<DataType>)
    requires ms != [] && forall i :: 0 <= i < |ms| ==> ValidItem(ms[i])
    ensures ExpectedFrames(ms, config) == [ExpectedFrame(ms[0], config)] + ExpectedFrames(ms[1..], config)
  {
  }

  /** Every written stream parses to exactly its frames, in order, with nothing left over. */
  lemma {:induction false} RoundTrip(ms: seq<Item>, config: seq<DataType>)
    requires forall i :: 0 <= i < |ms| ==> ValidItem(ms[i])
    ensures Parse(StreamBytes(ms), DecoderFor(config)) == Parsed(ExpectedFrames(ms, config), [], None)
  {
    if ms == [] {
      ParseEmpty(config);
    } else {
      ParseFrame(ms[0], StreamBytes(ms[1..]), config);
      RoundTrip(ms[1..], config);
      ExpectedCons(ms, config);
    }
  }

  lemma StreamBegins(ms: seq<Item>)
    requires ms != [] && forall i :: 0 <= i < |ms| ==> ValidItem(ms[i])
    ensures |StreamBytes(ms)| >= 4 && IsStart(StreamBytes(ms)[0], StreamBytes(ms)[1])
  {
    assert StreamBytes(ms)[..2] == [MARK, Kind(ms[0])];
    assert StreamBytes(ms)[0] == StreamBytes(ms)[..2][0] && StreamBytes(ms)[1] == StreamBytes(ms)[..2][1];
  }

  lemma LoneMark(b: seq<Byte>, config: seq<DataType>)
    requires b != [] && IsStart(MARK, b[0])
    ensures Parse([MARK], DecoderFor(config)) == Parsed([], [], None) && Straddles([MARK], b, DecoderFor(config))
  {
    assert FindStart([MARK], 0) == -1;
    assert LeftoverFrom([MARK], 0, DecoderFor(config)) == [MARK][0..] == [MARK];
  }

  /** Cutting any written stream after its first byte hides a start marker: resuming with the tail then differs from
      parsing in one go, which gives all frames. */
  lemma CutAfterMark(ms: seq<Item>, config: seq<DataType>)
    requires ms != [] && forall i :: 0 <= i < |ms| ==> ValidItem(ms[i])
    ensures var a, b, decode := StreamBytes(ms)[..1], StreamBytes(ms)[1..], DecoderFor(config);
            && Parse(a, decode) == Parsed([], [], None) && Straddles(a, b, decode)
            && Parse(a + b, decode) == Parsed(ExpectedFrames(ms, config), [], None)
            && Prepend(Parse(a, decode).frames, Parse(Parse(a, decode).tail + b, decode)) != Parse(a + b, decode)
  {
    StreamBegins(ms);
    RoundTrip(ms, config);
    CutWhole(StreamBytes(ms), config);
  }

  lemma CutWhole(whole: seq<Byte>, config: seq<DataType>)
    requires |whole| >= 2 && IsStart(whole[0], whole[1]) && Parse(whole, DecoderFor(config)).error.None?
    ensures var a, b, decode := whole[..1], whole[1..], DecoderFor(config);
            && a + b == whole && Parse(a, decode) == Parsed([], [], None) && Straddles(a, b, decode)
            && Prepend(Parse(a, decode).frames, Parse(Parse(a, decode).tail + b, decode)) != Parse(a + b, decode)
  {
    var a, b := whole[..1], whole[1..];
    assert a == [MARK] && a + b == whole;
    LoneMark(b, config);
    ResumeExactly(a, b, config);
  }
}
