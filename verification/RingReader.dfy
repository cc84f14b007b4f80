/** Following the device's ring buffer: mecom/ring_reader.go, RingReader.fetch.

    The reader keeps a 32-bit cursor and an unparsed tail.  The device keeps a record of its answers.
    Whatever it answers, the cursor stays the position of the next unread byte modulo 2^32, and what was
    sent and what is left over are determined by the chunks answered since the last jump.  If all of them
    parse and no boundary between them hides a start marker, that is one-shot parsing of the stream.
  */
module RingReader {
  import opened RingFrames
  import opened Wrappers
  import Wrapping

  const WRAP: nat := 0x1_0000_0000
  const RING_BYTES: nat := 4096
  const MAX_READ_BYTES: nat := 279
  const MAX_CHUNKS_PER_FETCH: nat := 16
  const FAILURE_LIMIT: nat := 3
  const RESET_LIMIT: nat := 4
  const RESET_WINDOW_NS: int := 30_000_000_000
  const WINDOW_RESET_LIMIT: nat := 8
  const STEP_NS: int := 10_000

  datatype Status = AllDataRead | HasMoreData | Overlap

  datatype Response = Response(bytesAdded: nat, status: Status, data: seq<Byte>)

  datatype Stamped = Stamped(sample: Sample, at: int)

  // ---------- Pointer and time arithmetic ----------

  /** How far `to` is ahead of `from`, or None when it has moved backwards. */
  function Distance(from: nat, to: nat): (r: Option<nat>)
    requires from < WRAP && to < WRAP
    ensures r.Some? ==> (from + r.value) % WRAP == to && r.value < WRAP
    ensures r.None? <==> to < from && to + WRAP - from > RING_BYTES
  {
    if to >= from then Some(to - from)
    else if to + WRAP - from <= RING_BYTES then Some(to + WRAP - from)
    else None
  }

  /** How far `pointer` is ahead of `cursor` on the 32-bit counter. */
  function Ahead(cursor: nat, pointer: nat): (r: nat)
    requires cursor < WRAP && pointer < WRAP
    ensures r < WRAP && Distance(cursor, pointer) in {None, Some(r)}
  {
    if pointer >= cursor then pointer - cursor else pointer + WRAP - cursor
  }

  /** Less than a turn apart, the counters tell how far apart two stream positions are. */
  lemma AheadIsGap(origin: nat, position: nat, captured: nat)
    requires position <= captured < position + WRAP
    ensures position + Ahead((origin + position) % WRAP, (origin + captured) % WRAP) == captured
  {
    var gap := Ahead((origin + position) % WRAP, (origin + captured) % WRAP);
    var q := (origin + captured) / WRAP - (origin + position) / WRAP;
    assert captured - position == WRAP * q + ((origin + captured) % WRAP - (origin + position) % WRAP);
    Wrapping.Multiple(WRAP, q);
    Wrapping.Multiple(WRAP, q - 1);
  }

  function TimestampDelta(newest: nat, older: nat): nat
    requires newest < 0x1_0000 && older < 0x1_0000
  {
    if newest >= older then newest - older else newest + 0x1_0000 - older
  }

  /** The samples of the first `n` frames. */
  function SamplesTo(frames: seq<Frame>, n: nat): seq<Sample>
    requires n <= |frames|
  {
    if n == 0 then [] else SamplesTo(frames, n - 1) + frames[n - 1].samples
  }

  function AllSamples(frames: seq<Frame>): seq<Sample> {
    SamplesTo(frames, |frames|)
  }

  function SamplesOf(out: seq<Stamped>): seq<Sample> {
    seq(|out|, i requires 0 <= i < |out| => out[i].sample)
  }

  ghost predicate Carries(out: seq<Stamped>, samples: seq<Sample>) {
    SamplesOf(out) == samples
  }

  lemma CarriesConcat(a: seq<Stamped>, b: seq<Stamped>, x: seq<Sample>, y: seq<Sample>)
    requires Carries(a, x) && Carries(b, y)
    ensures Carries(a + b, x + y)
  {
  }

  lemma {:induction false} SamplesPrefix(a: seq<Frame>, b: seq<Frame>, n: nat)
    requires n <= |a|
    ensures SamplesTo(a + b, n) == SamplesTo(a, n)
  {
    if n > 0 {
      SamplesPrefix(a, b, n - 1);
    }
  }

  lemma {:induction false} SamplesBehind(a: seq<Frame>, b: seq<Frame>, n: nat)
    requires n <= |b|
    ensures SamplesTo(a + b, |a| + n) == SamplesTo(a, |a|) + SamplesTo(b, n)
  {
    if n == 0 {
      SamplesPrefix(a, b, |a|);
      AssociateSamples(SamplesTo(a, |a|), [], []);
    } else {
      SamplesBehind(a, b, n - 1);
      assert (a + b)[|a| + n - 1] == b[n - 1];
      AssociateSamples(SamplesTo(a, |a|), SamplesTo(b, n - 1), b[n - 1].samples);
    }
  }

  lemma AssociateSamples(x: seq<Sample>, y: seq<Sample>, z: seq<Sample>)
    ensures x + y + z == x + (y + z) && x + [] == x
  {
  }

  lemma AllSamplesConcat(a: seq<Frame>, b: seq<Frame>)
    ensures AllSamples(a + b) == AllSamples(a) + AllSamples(b)
  {
    SamplesBehind(a, b, |b|);
  }

  /** The timestamp of the last of the first `n` frames that has samples. */
  function Newest(frames: seq<Frame>, n: nat): (r: Option<nat>)
    requires n <= |frames|
    ensures r.Some? ==> r.value < 0x1_0000
  {
    if n == 0 then None
    else if frames[n - 1].samples != [] then Some(frames[n - 1].timestamp % 0x1_0000)
    else Newest(frames, n - 1)
  }

  /** A frame is as much older than the newest one as its 16-bit timestamp says. */
  function StampOf(frame: Frame, newest: nat, observedAt: int): int
    requires newest < 0x1_0000
  {
    observedAt - TimestampDelta(newest, frame.timestamp % 0x1_0000) * STEP_NS
  }

  function StampedSamples(frame: Frame, at: int): (r: seq<Stamped>)
    ensures |r| == |frame.samples|
  {
    seq(|frame.samples|, k requires 0 <= k < |frame.samples| => Stamped(frame.samples[k], at))
  }

  function Stamps(frames: seq<Frame>, newest: nat, observedAt: int, n: nat): seq<Stamped>
    requires n <= |frames| && newest < 0x1_0000
  {
    if n == 0 then []
    else Stamps(frames, newest, observedAt, n - 1)
         + StampedSamples(frames[n - 1], StampOf(frames[n - 1], newest, observedAt))
  }

  lemma {:induction false} StampsCarry(frames: seq<Frame>, newest: nat, observedAt: int, n: nat)
    requires n <= |frames| && newest < 0x1_0000
    ensures Carries(Stamps(frames, newest, observedAt, n), SamplesTo(frames, n))
  {
    if n > 0 {
      StampsCarry(frames, newest, observedAt, n - 1);
      CarriesConcat(Stamps(frames, newest, observedAt, n - 1),
                    StampedSamples(frames[n - 1], StampOf(frames[n - 1], newest, observedAt)),
                    SamplesTo(frames, n - 1), frames[n - 1].samples);
    }
  }

  // ---------- What a stamp is ----------

  /** Frame `last` has samples, and no later one has. */
  ghost predicate LastSampled(frames: seq<Frame>, last: nat) {
    last < |frames| && frames[last].samples != [] && forall j :: last < j < |frames| ==> frames[j].samples == []
  }

  /** All samples in order, those of the last frame that has any stamped with the clock reading, and those of a frame
      whose 16-bit timestamp is `d` behind with `d` times 10 microseconds less. */
  ghost predicate Timed(out: seq<Stamped>, frames: seq<Frame>, clock: int) {
    && Carries(out, AllSamples(frames))
    && forall last: nat, f: nat, k: nat :: LastSampled(frames, last) && f < |frames| && k < |frames[f].samples| ==>
         var i, d := |SamplesTo(frames, f)| + k, (frames[last].timestamp - frames[f].timestamp) % 0x1_0000;
         i < |out| && out[i] == Stamped(frames[f].samples[k], clock - d * 10_000)
  }

  lemma SamplesOfOne(f: Frame)
    ensures AllSamples([f]) == f.samples
  {
    assert SamplesTo([f], 1) == SamplesTo([f], 0) + f.samples;
  }

  lemma {:induction false} NewestIsLast(frames: seq<Frame>, n: nat, last: nat)
    requires last < n <= |frames| && LastSampled(frames, last)
    ensures Newest(frames, n) == Some(frames[last].timestamp % 0x1_0000)
  {
    if last < n - 1 {
      NewestIsLast(frames, n - 1, last);
    }
  }

  /** The difference of two 16-bit readings of a counter. */
  lemma DeltaIsDifference(newest: nat, older: nat)
    ensures TimestampDelta(newest % 0x1_0000, older % 0x1_0000) == (newest - older) % 0x1_0000
  {
    var n, a, b := 0x1_0000, newest % 0x1_0000, older % 0x1_0000;
    var q := newest / n - older / n;
    assert newest - older == n * q + (a - b);
    if a >= b {
      Wrapping.Remainder(newest - older, n, q, a - b);
    } else {
      Wrapping.Remainder(newest - older, n, q - 1, a + n - b);
    }
  }

  lemma {:induction false} StampsAt(frames: seq<Frame>, newest: nat, observedAt: int, n: nat, f: nat, k: nat)
    requires f < n <= |frames| && newest < 0x1_0000 && k < |frames[f].samples|
    ensures var i := |SamplesTo(frames, f)| + k;
            && i < |Stamps(frames, newest, observedAt, n)|
            && Stamps(frames, newest, observedAt, n)[i]
            == Stamped(frames[f].samples[k], StampOf(frames[f], newest, observedAt))
  {
    StampsCarry(frames, newest, observedAt, n - 1);
    if f < n - 1 {
      StampsAt(frames, newest, observedAt, n - 1, f, k);
    }
  }

  lemma StampsTimed(frames: seq<Frame>, observedAt: int)
    ensures Timed(Stamps(frames, Newest(frames, |frames|).GetOr(0), observedAt, |frames|), frames, observedAt)
  {
    var newest := Newest(frames, |frames|).GetOr(0);
    var out := Stamps(frames, newest, observedAt, |frames|);
    StampsCarry(frames, newest, observedAt, |frames|);
    forall last: nat, f: nat, k: nat | LastSampled(frames, last) && f < |frames| && k < |frames[f].samples|
      ensures var i, d := |SamplesTo(frames, f)| + k, (frames[last].timestamp - frames[f].timestamp) % 0x1_0000;
              i < |out| && out[i] == Stamped(frames[f].samples[k], observedAt - d * 10_000)
    {
      NewestIsLast(frames, |frames|, last);
      DeltaIsDifference(frames[last].timestamp, frames[f].timestamp);
      StampsAt(frames, newest, observedAt, |frames|, f, k);
    }
  }

  /** Stamps every sample with the time of its frame, counted back from the newest frame with samples. */
  method StampFrames(frames: seq<Frame>, observedAt: int) returns (out: seq<Stamped>)
    ensures Timed(out, frames, observedAt)
    ensures out == Stamps(frames, Newest(frames, |frames|).GetOr(0), observedAt, |frames|)
  {
    var newest: Option<nat> := None;
    for i := 0 to |frames|
      invariant newest == Newest(frames, i)
    {
      if frames[i].samples != [] {
        newest := Some(frames[i].timestamp % 0x1_0000);
      }
    }
    out := [];
    for i := 0 to |frames|
      invariant out == Stamps(frames, newest.GetOr(0), observedAt, i)
    {
      out := out + StampedSamples(frames[i], StampOf(frames[i], newest.GetOr(0), observedAt));
    }
    StampsTimed(frames, observedAt);
  }

  // ---------- The device ----------

  /** What the device answered; `position` is the place in its stream that the request meant and `wanted` the number of
      bytes it asked for, `clock` what the clock shows when the reader deals with the answer. */
  datatype Answer =
    | PointerAnswer(pointer: Option<nat>, clock: int)
    | ChunkAnswer(position: nat, response: Option<Response>, clock: int, wanted: nat)

  /** The answer hands over bytes. */
  predicate Takes(a: Answer) {
    a.ChunkAnswer? && a.response.Some? && !a.response.value.status.Overlap? && a.response.value.bytesAdded > 0
  }

  predicate Overlaps(a: Answer) {
    a.ChunkAnswer? && a.response.Some? && a.response.value.status.Overlap?
  }

  /** The bytes handed over are as many as announced, and those of the stream. */
  predicate Truthful(a: Answer, stream: seq<Byte>) {
    Takes(a) ==>
      var data := a.response.value.data;
      && |data| == a.response.value.bytesAdded && a.position + |data| <= |stream|
      && data == stream[a.position..a.position + |data|]
  }

  /** A controller whose ring pointer counts every captured byte.  It may capture more before any
      answer, fail, answer with fewer bytes than asked for, or report an overlap. */
  class Device {
    const origin: nat
    var stream: seq<Byte>
    ghost var log: seq<Answer>

    constructor (pointer: nat)
      ensures origin == pointer && stream == [] && log == [] && Honest()
    {
      origin := pointer;
      stream, log := [], [];
    }

    ghost predicate Honest()
      reads this
    {
      forall a :: a in log ==> Truthful(a, stream)
    }

    /** A reader at `position` has not fallen a whole turn of the pointer behind. */
    ghost predicate Within(position: nat)
      reads this
    {
      position <= |stream| < position + WRAP
    }

    method Capture(position: nat)
      requires Within(position) && Honest()
      modifies this`stream
      ensures old(stream) <= stream && Within(position) && Honest()
    {
      var more: seq<Byte> := *;
      if |stream + more| < position + WRAP {
        forall a | a in log ensures Truthful(a, stream + more) {
          if Takes(a) { PrefixSlice(stream, stream + more, a.position, a.position + |a.response.value.data|); }
        }
        stream := stream + more;
      }
    }

    method ReadRingPointer(position: nat) returns (pointer: Option<nat>, now: int)
      requires Within(position) && Honest()
      modifies this
      ensures old(stream) <= stream && Within(position) && Honest() && log == old(log) + [PointerAnswer(pointer, now)]
      ensures pointer.Some? ==> pointer.value == (origin + |stream|) % WRAP
    {
      Capture(position);
      var failed: bool := *;
      pointer := if failed then None else Some((origin + |stream|) % WRAP);
      now := *;
      log := log + [PointerAnswer(pointer, now)];
    }

    /** The bytes last captured at pointer `start`, as many as the device likes up to `maxBytes`.  The device
        sees only the 32-bit pointer; it answers for the stream position the reader means. */
    method ReadRingChunk(floor: nat, ghost position: nat, start: nat, maxBytes: nat)
        returns (resp: Option<Response>, now: int)
      requires Within(floor) && Honest() && floor <= position <= |stream| && start == (origin + position) % WRAP
      modifies this
      ensures old(stream) <= stream && Within(floor) && Honest()
      ensures log == old(log) + [ChunkAnswer(position, resp, now, maxBytes)]
      ensures resp.Some? && !resp.value.status.Overlap? ==>
                var n := resp.value.bytesAdded;
                n <= maxBytes && position + n <= |stream| && resp.value.data == stream[position..position + n]
    {
      Capture(floor);
      var back := (origin + |stream| - start) % WRAP;
      assert back == |stream| - position by {
        var q := (origin + position) / WRAP;
        assert origin + |stream| - start == WRAP * q + (|stream| - position);
        Wrapping.Remainder(origin + |stream| - start, WRAP, q, |stream| - position);
      }
      var at := |stream| - back;
      var failed: bool, n: nat, status: Status := *, *, *;
      if n > maxBytes || at + n > |stream| {
        n := 0;
      }
      resp := if failed then None else Some(Response(n, status, stream[at..at + n]));
      now := *;
      log := log + [ChunkAnswer(position, resp, now, maxBytes)];
    }
  }

  // ---------- Digesting chunks ----------

  type Parser = seq<Byte> -> Parsed
  type Cut = (seq<Byte>, seq<Byte>) -> bool

  /** What chunk-wise parsing makes of a list of chunks: the frames, what is left over, how many chunks failed. */
  datatype Digest = Digest(frames: seq<Frame>, tail: seq<Byte>, failures: nat)

  /** A chunk is parsed behind the tail of the one before it; one that does not parse loses the tail. */
  function Digested(parse: Parser, d: Digest, data: seq<Byte>): Digest {
    var p := parse(d.tail + data);
    if p.error.Some? then Digest(d.frames, [], d.failures + 1) else Digest(d.frames + p.frames, p.tail, d.failures)
  }

  function DigestOf(parse: Parser, tail: seq<Byte>, chunks: seq<seq<Byte>>, n: nat): Digest
    requires n <= |chunks|
  {
    if n == 0 then Digest([], tail, 0) else Digested(parse, DigestOf(parse, tail, chunks, n - 1), chunks[n - 1])
  }

  function Concat(chunks: seq<seq<Byte>>, n: nat): seq<Byte>
    requires n <= |chunks|
  {
    if n == 0 then [] else Concat(chunks, n - 1) + chunks[n - 1]
  }

  lemma {:induction false} DigestPrefix(parse: Parser, tail: seq<Byte>, xs: seq<seq<Byte>>, ys: seq<seq<Byte>>, n: nat)
    requires n <= |xs|
    ensures DigestOf(parse, tail, xs + ys, n) == DigestOf(parse, tail, xs, n)
    ensures Concat(xs + ys, n) == Concat(xs, n)
  {
    if n > 0 {
      DigestPrefix(parse, tail, xs, ys, n - 1);
    }
  }

  /** A parser that can be resumed with its own tail after every cut but the bad ones. */
  ghost predicate Resumable(parse: Parser, bad: Cut) {
    && parse([]) == Parsed([], [], None)
    && forall a, b {:trigger bad(a, b)} :: parse(a).error.None? && !bad(a, b) ==>
         parse(a + b) == Prepend(parse(a).frames, parse(parse(a).tail + b))
  }

  function ParserFor(config: seq<DataType>): Parser {
    d => Parse(d, DecoderFor(config))
  }

  function CutFor(config: seq<DataType>): Cut {
    (a, b) => Straddles(a, b, DecoderFor(config))
  }

  /** The ring frame parser is one. */
  lemma RingParserResumable(config: seq<DataType>)
    ensures Resumable(ParserFor(config), CutFor(config))
  {
    var parse, bad := ParserFor(config), CutFor(config);
    forall a, b | parse(a).error.None? && !bad(a, b)
      ensures parse(a + b) == Prepend(parse(a).frames, parse(parse(a).tail + b))
    {
      Resume(a, b, DecoderFor(config));
    }
  }

  lemma OneShotStep(parse: Parser, bad: Cut, a: seq<Byte>, b: seq<Byte>, d: Digest)
    requires Resumable(parse, bad) && parse(a) == Parsed(d.frames, d.tail, None) && !bad(a, b)
    requires Digested(parse, d, b).failures == d.failures
    ensures parse(a + b) == Parsed(Digested(parse, d, b).frames, Digested(parse, d, b).tail, None)
  {
    assert parse(a + b) == Prepend(parse(a).frames, parse(parse(a).tail + b));
  }

  /** No boundary between two chunks is a bad cut. */
  ghost predicate CleanCuts(bad: Cut, chunks: seq<seq<Byte>>) {
    forall j {:trigger BadCut(bad, chunks, j)} :: 0 <= j < |chunks| ==> !BadCut(bad, chunks, j)
  }

  predicate BadCut(bad: Cut, chunks: seq<seq<Byte>>, j: nat)
    requires j < |chunks|
  {
    bad(Concat(chunks, j), chunks[j])
  }

  /** If every chunk parses and no cut is bad, digesting is one-shot parsing. */
  lemma {:induction false} DigestIsOneShot(parse: Parser, bad: Cut, chunks: seq<seq<Byte>>, n: nat)
    requires Resumable(parse, bad) && n <= |chunks| && DigestOf(parse, [], chunks, n).failures == 0
    requires CleanCuts(bad, chunks)
    ensures var d := DigestOf(parse, [], chunks, n); parse(Concat(chunks, n)) == Parsed(d.frames, d.tail, None)
  {
    if n > 0 {
      DigestIsOneShot(parse, bad, chunks, n - 1);
      assert !BadCut(bad, chunks, n - 1);
      OneShotStep(parse, bad, Concat(chunks, n - 1), chunks[n - 1], DigestOf(parse, [], chunks, n - 1));
    }
  }

  // ---------- The cursor ----------

  /** What the reader counts to decide when to give up. */
  datatype Health = Health(failures: nat, resets: nat, windowStart: Option<int>, windowResets: nat, disabled: bool) {

    function Failed(): Health {
      this.(failures := failures + 1, resets := 0, disabled := disabled || failures + 1 >= FAILURE_LIMIT)
    }

    function Healthy(): Health {
      this.(failures := 0, resets := 0)
    }

    /** The place was lost at time `now`. */
    function Lost(now: int): Health {
      var anew := windowStart.None? || now - windowStart.value > RESET_WINDOW_NS;
      var n := if anew then 1 else windowResets + 1;
      Health(0, resets + 1, if anew then Some(now) else windowStart, n,
             disabled || resets + 1 >= RESET_LIMIT || n >= WINDOW_RESET_LIMIT)
    }

    predicate WithinResetLimits() {
      resets < RESET_LIMIT && windowResets < WINDOW_RESET_LIMIT
    }
  }

  /** The reader's state. */
  datatype Cursor = Cursor(lastPointer: nat, position: nat, tail: seq<Byte>, sent: seq<Stamped>, health: Health)

  /** From `c` to `v` exactly the chunks `taken` were digested, and their samples sent. */
  ghost predicate Grown(c: Cursor, v: Cursor, taken: seq<seq<Byte>>, parse: Parser) {
    var d := DigestOf(parse, c.tail, taken, |taken|);
    && v.position == c.position + |Concat(taken, |taken|)| && v.tail == d.tail
    && c.sent <= v.sent && Carries(v.sent[|c.sent|..], AllSamples(d.frames))
  }

  /** The cursor after a chunk of the given parse. */
  function Accepted(c: Cursor, p: Parsed, data: seq<Byte>, out: seq<Stamped>): Cursor {
    Cursor((c.lastPointer + |data|) % WRAP, c.position + |data|, if p.error.Some? then [] else p.tail, c.sent + out,
           if p.error.Some? then c.health.Failed() else c.health.Healthy())
  }

  /** The cursor after a jump to stream position `at`. */
  function Jumped(c: Cursor, pointer: nat, at: nat): Cursor {
    c.(lastPointer := pointer, position := at, tail := [])
  }

  /** The cursor is its position in the stream modulo 2^32. */
  ghost predicate Placed(c: Cursor, origin: nat, stream: seq<Byte>) {
    c.position <= |stream| < c.position + WRAP && c.lastPointer == (origin + c.position) % WRAP
  }

  lemma AcceptPlaced(c: Cursor, p: Parsed, data: seq<Byte>, out: seq<Stamped>, origin: nat, stream: seq<Byte>)
    requires Placed(c, origin, stream) && c.position + |data| <= |stream|
    ensures Placed(Accepted(c, p, data, out), origin, stream)
  {
    Wrapping.AddReduced(origin + c.position, |data|, WRAP);
  }

  lemma CarriesMore(sent: seq<Stamped>, out: seq<Stamped>, n: nat, frames: seq<Frame>, more: seq<Frame>)
    requires n <= |sent| && Carries(sent[n..], AllSamples(frames)) && Carries(out, AllSamples(more))
    ensures Carries((sent + out)[n..], AllSamples(frames + more))
  {
    AllSamplesConcat(frames, more);
    assert (sent + out)[n..] == sent[n..] + out;
    CarriesConcat(sent[n..], out, AllSamples(frames), AllSamples(more));
  }

  lemma PrefixSlice(s: seq<Byte>, t: seq<Byte>, i: nat, j: nat)
    requires s <= t && i <= j <= |s|
    ensures s[i..j] == t[i..j]
  {
  }

  lemma SliceJoin(s: seq<Byte>, i: nat, j: nat, k: nat)
    requires i <= j <= k <= |s|
    ensures s[i..j] + s[j..k] == s[i..k]
  {
  }

  function Behind(d: Digest, e: Digest): Digest {
    Digest(d.frames + e.frames, e.tail, d.failures + e.failures)
  }

  /** Digesting one list behind another. */
  lemma {:induction false} DigestSplit(parse: Parser, tail: seq<Byte>, xs: seq<seq<Byte>>, ys: seq<seq<Byte>>, n: nat)
    requires n <= |ys|
    ensures var d := DigestOf(parse, tail, xs, |xs|);
            DigestOf(parse, tail, xs + ys, |xs| + n) == Behind(d, DigestOf(parse, d.tail, ys, n))
  {
    var d := DigestOf(parse, tail, xs, |xs|);
    if n == 0 {
      DigestPrefix(parse, tail, xs, ys, |xs|);
      assert d.frames + [] == d.frames;
    } else {
      DigestSplit(parse, tail, xs, ys, n - 1);
      assert (xs + ys)[|xs| + n - 1] == ys[n - 1];
      DigestedBehind(parse, d, DigestOf(parse, d.tail, ys, n - 1), ys[n - 1]);
    }
  }

  lemma {:induction false} ConcatSplit(xs: seq<seq<Byte>>, ys: seq<seq<Byte>>, n: nat)
    requires n <= |ys|
    ensures Concat(xs + ys, |xs| + n) == Concat(xs, |xs|) + Concat(ys, n)
  {
    if n == 0 {
      DigestPrefix(_ => Parsed([], [], None), [], xs, ys, |xs|);
      assert Concat(xs, |xs|) + [] == Concat(xs, |xs|);
    } else {
      ConcatSplit(xs, ys, n - 1);
      assert (xs + ys)[|xs| + n - 1] == ys[n - 1];
    }
  }

  lemma DigestedBehind(parse: Parser, d: Digest, e: Digest, data: seq<Byte>)
    ensures Digested(parse, Behind(d, e), data) == Behind(d, Digested(parse, e, data))
  {
    var p := parse(e.tail + data);
    assert d.frames + e.frames + p.frames == d.frames + (e.frames + p.frames);
  }

  lemma GrownTwice(c: Cursor, v: Cursor, w: Cursor, xs: seq<seq<Byte>>, ys: seq<seq<Byte>>, parse: Parser)
    requires Grown(c, v, xs, parse) && Grown(v, w, ys, parse)
    ensures Grown(c, w, xs + ys, parse)
  {
    DigestSplit(parse, c.tail, xs, ys, |ys|);
    ConcatSplit(xs, ys, |ys|);
    var d := DigestOf(parse, c.tail, xs, |xs|);
    var e := DigestOf(parse, d.tail, ys, |ys|);
    assert w.sent == v.sent + w.sent[|v.sent|..];
    CarriesMore(v.sent, w.sent[|v.sent|..], |c.sent|, d.frames, e.frames);
  }

  lemma GrownNothing(c: Cursor, v: Cursor, parse: Parser)
    requires v == c.(health := v.health)
    ensures Grown(c, v, [], parse)
  {
    assert c.sent[|c.sent|..] == [];
  }

  lemma GrownOne(c: Cursor, p: Parsed, data: seq<Byte>, out: seq<Stamped>, parse: Parser)
    requires p == parse(c.tail + data) && Carries(out, AllSamples(if p.error.Some? then [] else p.frames))
    ensures Grown(c, Accepted(c, p, data, out), [data], parse)
  {
    assert DigestOf(parse, c.tail, [data], 1) == Digested(parse, DigestOf(parse, c.tail, [data], 0), data);
    assert [] + p.frames == p.frames && (c.sent + out)[|c.sent|..] == out;
    assert Concat([data], 1) == Concat([data], 0) + data;
  }

  // ---------- One poll, in terms of the device's answers ----------

  function Handed(a: Answer): seq<seq<Byte>> {
    if Takes(a) then [a.response.value.data] else []
  }

  /** The chunks handed over by the first `n` answers. */
  function Taken(answers: seq<Answer>, n: nat): seq<seq<Byte>>
    requires n <= |answers|
  {
    if n == 0 then [] else Taken(answers, n - 1) + Handed(answers[n - 1])
  }

  /** The pointer cannot be reached from the cursor through the device's ring. */
  predicate OutOfReach(cursor: nat, pointer: nat)
    requires cursor < WRAP && pointer < WRAP
  {
    var d := Distance(cursor, pointer);
    pointer != cursor && (d.None? || d.value > RING_BYTES)
  }

  /** A poll that started at `cursor` and got these answers lost its place. */
  predicate LosesPlace(cursor: nat, answers: seq<Answer>)
    requires cursor < WRAP
  {
    && answers != []
    && (|| (var a := answers[0];
            a.PointerAnswer? && a.pointer.Some? && a.pointer.value < WRAP && OutOfReach(cursor, a.pointer.value))
        || Overlaps(answers[|answers| - 1]))
  }

  /** How many bytes the answers hand over. */
  function BytesTaken(answers: seq<Answer>): nat {
    var taken := Taken(answers, |answers|);
    |Concat(taken, |taken|)|
  }

  /** A poll that lost its place when it had already read past the pointer it began with. */
  predicate Rewinds(cursor: nat, answers: seq<Answer>)
    requires cursor < WRAP
  {
    && LosesPlace(cursor, answers) && answers[0].PointerAnswer? && answers[0].pointer.Some?
    && answers[0].pointer.value < WRAP && BytesTaken(answers) > Ahead(cursor, answers[0].pointer.value)
  }

  /** Where a poll that jumps lands. */
  function Landing(c: Cursor, answers: seq<Answer>): (r: nat)
    requires c.lastPointer < WRAP && answers != [] && answers[0].PointerAnswer? && answers[0].pointer.Some?
    requires answers[0].pointer.value < WRAP
    ensures r >= c.position
  {
    c.position + Ahead(c.lastPointer, answers[0].pointer.value)
  }

  /** The answer ends the poll: nothing came, the place is lost, or all data has been read. */
  predicate LastWord(a: Answer) {
    a.ChunkAnswer? && (!Takes(a) || a.response.value.status.AllDataRead?)
  }

  /** Up to sixteen chunks were asked for, until an answer ended it. */
  ghost predicate ChunksAsked(answers: seq<Answer>) {
    && 1 <= |answers| <= MAX_CHUNKS_PER_FETCH && (forall k :: 0 <= k < |answers| ==> answers[k].ChunkAnswer?)
    && (forall k :: 0 <= k < |answers| - 1 ==> !LastWord(answers[k]))
    && (LastWord(answers[|answers| - 1]) || |answers| == MAX_CHUNKS_PER_FETCH)
  }

  /** A poll asks for the pointer and, if it is ahead and within reach, for chunks. */
  ghost predicate Asked(cursor: nat, answers: seq<Answer>)
    requires cursor < WRAP
  {
    && answers != [] && answers[0].PointerAnswer?
    && match answers[0].pointer
       case None => |answers| == 1
       case Some(p) =>
         && p < WRAP
         && if p == cursor || OutOfReach(cursor, p) then |answers| == 1 else ChunksAsked(answers[1..])
  }

  /** What is missing up to the pointer, or the most there may be once that has been reached or passed. */
  function Missing(cursor: nat, pointer: nat): (r: nat)
    requires cursor < WRAP && pointer < WRAP
    ensures r > 0
  {
    var d := Distance(cursor, pointer);
    if d.None? || d.value == 0 then MAX_READ_BYTES else d.value
  }

  /** How much a poll asks for: what is missing up to the pointer, or as much as it may once that has been reached or
      passed; never more than 279 bytes. */
  function Wanted(cursor: nat, pointer: nat): (r: nat)
    requires cursor < WRAP && pointer < WRAP
    ensures 1 <= r <= 279
  {
    if Missing(cursor, pointer) < MAX_READ_BYTES then Missing(cursor, pointer) else MAX_READ_BYTES
  }

  /** Every chunk of a poll towards `pointer` was asked for in the right size. */
  ghost predicate RequestsFit(path: seq<Cursor>, answers: seq<Answer>, pointer: nat)
  {
    && |path| == |answers| + 1 && pointer < WRAP
    && forall k :: 0 <= k < |answers| && answers[k].ChunkAnswer? ==>
         path[k].lastPointer < WRAP && answers[k].wanted == Wanted(path[k].lastPointer, pointer)
  }

  lemma FitStep(path: seq<Cursor>, answers: seq<Answer>, v: Cursor, a: Answer, pointer: nat)
    requires RequestsFit(path, answers, pointer) && path[|answers|].lastPointer < WRAP
    requires a.ChunkAnswer? && a.wanted == Wanted(path[|answers|].lastPointer, pointer)
    ensures RequestsFit(path + [v], answers + [a], pointer)
  {
    var longer, more := path + [v], answers + [a];
    assert forall k :: 0 <= k < |more| ==> longer[k] == path[k] && (k < |answers| ==> more[k] == answers[k]);
  }

  lemma FitJoined(c: Cursor, first: Answer, more: seq<Answer>, on: seq<Cursor>, pointer: nat)
    requires first.PointerAnswer? && RequestsFit(on, more, pointer) && on[0] == c
    ensures RequestsFit([c, c] + on[1..], [first] + more, pointer)
  {
    var path, asked := [c, c] + on[1..], [first] + more;
    assert forall k :: 0 <= k < |more| ==> asked[k + 1] == more[k] && path[k + 1] == on[k];
  }

  /** Every chunk of a poll was asked for in the right size. */
  ghost predicate PollFits(path: seq<Cursor>, answers: seq<Answer>) {
    answers != [] && answers[0].PointerAnswer? && answers[0].pointer.Some? ==>
      RequestsFit(path, answers, answers[0].pointer.value)
  }

  /** What an answer that hands nothing over says of the reader's health. */
  function HealthAfter(c: Cursor, a: Answer): Health {
    match a
    case PointerAnswer(None, _) => c.health.Failed()
    case PointerAnswer(Some(p), now) =>
      if p == c.lastPointer then c.health.Healthy()
      else if c.lastPointer < WRAP && p < WRAP && OutOfReach(c.lastPointer, p) then c.health.Lost(now)
      else c.health
    case ChunkAnswer(_, None, _, _) => c.health.Failed()
    case ChunkAnswer(_, Some(r), now, _) => if r.status.Overlap? then c.health.Lost(now) else c.health.Healthy()
  }

  /** What an answer does to a reader that does not jump: the chunk, if there is one, is taken in. */
  ghost predicate Linked(c: Cursor, v: Cursor, a: Answer, parse: Parser) {
    if Takes(a) then
      var data := a.response.value.data;
      var p := parse(c.tail + data);
      && a.position == c.position && c.sent <= v.sent && v == Accepted(c, p, data, v.sent[|c.sent|..])
      && Timed(v.sent[|c.sent|..], if p.error.Some? then [] else p.frames, a.clock)
    else v == c.(health := HealthAfter(c, a))
  }

  lemma AcceptedLinks(c: Cursor, a: Answer, p: Parsed, out: seq<Stamped>, parse: Parser)
    requires Takes(a) && a.position == c.position && p == parse(c.tail + a.response.value.data)
    requires Timed(out, if p.error.Some? then [] else p.frames, a.clock)
    ensures Linked(c, Accepted(c, p, a.response.value.data, out), a, parse)
  {
    assert (c.sent + out)[|c.sent|..] == out;
  }

  lemma LinkedPlaced(c: Cursor, v: Cursor, a: Answer, origin: nat, stream: seq<Byte>, parse: Parser)
    requires Placed(c, origin, stream) && Linked(c, v, a, parse) && Truthful(a, stream)
    ensures Placed(v, origin, stream)
  {
    if Takes(a) {
      var data := a.response.value.data;
      AcceptPlaced(c, parse(c.tail + data), data, v.sent[|c.sent|..], origin, stream);
    }
  }

  lemma LinkedGrows(c: Cursor, v: Cursor, a: Answer, parse: Parser)
    requires Linked(c, v, a, parse)
    ensures Grown(c, v, Handed(a), parse)
  {
    if Takes(a) {
      var data := a.response.value.data;
      GrownOne(c, parse(c.tail + data), data, v.sent[|c.sent|..], parse);
    } else {
      GrownNothing(c, v, parse);
    }
  }

  lemma GrowsOn(c: Cursor, v: Cursor, w: Cursor, taken: seq<seq<Byte>>, a: Answer, parse: Parser)
    requires Grown(c, v, taken, parse) && Linked(v, w, a, parse)
    ensures Grown(c, w, taken + Handed(a), parse)
  {
    LinkedGrows(v, w, a, parse);
    GrownTwice(c, v, w, taken, Handed(a), parse);
  }

  ghost predicate LinkedAt(trail: seq<Cursor>, answers: seq<Answer>, k: nat, parse: Parser)
    requires k + 1 < |trail| && k < |answers|
  {
    Linked(trail[k], trail[k + 1], answers[k], parse)
  }

  /** The cursors a reader passes through while it deals with the answers. */
  ghost predicate Trail(trail: seq<Cursor>, answers: seq<Answer>, parse: Parser) {
    && |trail| == |answers| + 1
    && forall k {:trigger LinkedAt(trail, answers, k, parse)} ::
         0 <= k < |answers| ==> LinkedAt(trail, answers, k, parse)
  }

  lemma TrailStep(trail: seq<Cursor>, answers: seq<Answer>, v: Cursor, a: Answer, parse: Parser)
    requires Trail(trail, answers, parse) && Linked(trail[|answers|], v, a, parse)
    ensures Trail(trail + [v], answers + [a], parse)
  {
    var longer, more := trail + [v], answers + [a];
    forall k | 0 <= k < |more| ensures LinkedAt(longer, more, k, parse) {
      if k < |answers| { assert LinkedAt(trail, answers, k, parse); }
    }
  }

  lemma {:induction false} TrailGrows(trail: seq<Cursor>, answers: seq<Answer>, n: nat, parse: Parser)
    requires Trail(trail, answers, parse) && n <= |answers|
    ensures Grown(trail[0], trail[n], Taken(answers, n), parse)
  {
    if n == 0 {
      GrownNothing(trail[0], trail[0], parse);
    } else {
      TrailGrows(trail, answers, n - 1, parse);
      assert LinkedAt(trail, answers, n - 1, parse);
      GrowsOn(trail[0], trail[n - 1], trail[n], Taken(answers, n - 1), answers[n - 1], parse);
    }
  }

  /** A jump lands behind bytes already read exactly if the poll had read past the pointer it began with. */
  lemma LandsBehind(path: seq<Cursor>, answers: seq<Answer>, parse: Parser)
    requires Trail(path, answers, parse) && path[0].lastPointer < WRAP
    ensures path[0].position <= path[|answers|].position
    ensures LosesPlace(path[0].lastPointer, answers) && answers[0].PointerAnswer? && answers[0].pointer.Some? &&
            answers[0].pointer.value < WRAP ==>
              (Landing(path[0], answers) < path[|answers|].position <==> Rewinds(path[0].lastPointer, answers))
  {
    TrailGrows(path, answers, |answers|, parse);
  }

  function Start(a: Answer): nat
    requires Takes(a)
  {
    a.position
  }

  function End(a: Answer): nat
    requires Takes(a)
  {
    a.position + |a.response.value.data|
  }

  /** The chunks handed over lie one behind the other between two stream positions: no byte is taken in twice. */
  ghost predicate Ascending(answers: seq<Answer>, from: nat, to: nat) {
    && from <= to
    && (forall i :: 0 <= i < |answers| && Takes(answers[i]) ==> from <= Start(answers[i]) && End(answers[i]) <= to)
    && forall i, j :: 0 <= i < j < |answers| && Takes(answers[i]) && Takes(answers[j]) ==>
                        End(answers[i]) <= Start(answers[j])
  }

  lemma {:induction false} AscendingJoin(x: seq<Answer>, y: seq<Answer>, from: nat, mid: nat, on: nat, to: nat)
    requires Ascending(x, from, mid) && Ascending(y, on, to) && mid <= on
    ensures Ascending(x + y, from, to)
  {
  }

  lemma {:induction false} TrailAscends(trail: seq<Cursor>, answers: seq<Answer>, n: nat, parse: Parser)
    requires Trail(trail, answers, parse) && n <= |answers|
    ensures Ascending(answers[..n], trail[0].position, trail[n].position)
  {
    if n > 0 {
      TrailAscends(trail, answers, n - 1, parse);
      assert LinkedAt(trail, answers, n - 1, parse);
      AscendingJoin(answers[..n - 1], [answers[n - 1]], trail[0].position, trail[n - 1].position,
                    trail[n - 1].position, trail[n].position);
      assert answers[..n] == answers[..n - 1] + [answers[n - 1]];
    }
  }

  /** The answer hands over the byte at stream position `at`. */
  predicate Covers(a: Answer, at: nat) {
    Takes(a) && Start(a) <= at < End(a)
  }

  /** No byte of the stream is handed over twice. */
  ghost predicate NothingTwice(answers: seq<Answer>) {
    forall i, j, at :: 0 <= i < j < |answers| ==> !(Covers(answers[i], at) && Covers(answers[j], at))
  }

  lemma AscendingOnce(answers: seq<Answer>, from: nat, to: nat)
    requires Ascending(answers, from, to)
    ensures NothingTwice(answers)
  {
  }

  /** Every byte the cursor passed over was handed over. */
  lemma {:induction false} PassedOver(trail: seq<Cursor>, answers: seq<Answer>, n: nat, at: nat, parse: Parser)
      returns (i: nat)
    requires Trail(trail, answers, parse) && n <= |answers| && trail[0].position <= at < trail[n].position
    ensures i < n && Covers(answers[i], at)
  {
    assert n > 0;
    assert LinkedAt(trail, answers, n - 1, parse);
    if at < trail[n - 1].position {
      i := PassedOver(trail, answers, n - 1, at, parse);
    } else {
      i := n - 1;
    }
  }

  /** The first chunk handed over starts at the cursor. */
  lemma {:induction false} FirstTaken(trail: seq<Cursor>, answers: seq<Answer>, n: nat, parse: Parser) returns (i: nat)
    requires Trail(trail, answers, parse) && n <= |answers| && Taken(answers, n) != []
    ensures i < n && Takes(answers[i]) && Start(answers[i]) == trail[0].position
  {
    assert n > 0;
    if Taken(answers, n - 1) != [] {
      i := FirstTaken(trail, answers, n - 1, parse);
    } else {
      i := n - 1;
      StillThere(trail, answers, n - 1, parse);
      assert Taken(answers, n) == [] + Handed(answers[n - 1]);
      LinkedThere(trail, answers, n - 1, parse);
    }
  }

  lemma LinkedThere(trail: seq<Cursor>, answers: seq<Answer>, k: nat, parse: Parser)
    requires Trail(trail, answers, parse) && k < |answers| && Takes(answers[k])
    ensures Start(answers[k]) == trail[k].position
  {
    assert LinkedAt(trail, answers, k, parse);
  }

  lemma StillThere(trail: seq<Cursor>, answers: seq<Answer>, n: nat, parse: Parser)
    requires Trail(trail, answers, parse) && n <= |answers| && Taken(answers, n) == []
    ensures trail[n].position == trail[0].position
  {
    TrailGrows(trail, answers, n, parse);
  }

  lemma {:induction false} NoneTaken(answers: seq<Answer>, n: nat)
    requires n <= |answers| && Taken(answers, n) == []
    ensures forall i :: 0 <= i < n ==> !Takes(answers[i])
  {
    if n > 0 {
      NoneTaken(answers, n - 1);
    }
  }

  /** Two polls after one another: a byte is handed over twice exactly if the first one left the cursor behind what it
      had read and the second one gets a chunk. */
  lemma {:induction false} TwiceExactly(path: seq<Cursor>, asked: seq<Answer>, next: seq<Cursor>, more: seq<Answer>,
                                        stream: seq<Byte>, parse: Parser)
    requires Trail(path, asked, parse) && Trail(next, more, parse) && path[0].position <= next[0].position
    requires forall a :: a in more ==> Truthful(a, stream)
    ensures NothingTwice(asked + more) <==>
            next[0].position >= path[|asked|].position || Taken(more, |more|) == []
  {
    var from, to, on := path[0].position, path[|asked|].position, next[0].position;
    TrailAscends(path, asked, |asked|, parse);
    TrailAscends(next, more, |more|, parse);
    assert asked[..|asked|] == asked && more[..|more|] == more;
    if Taken(more, |more|) == [] {
      NoneTaken(more, |more|);
      AscendingJoin(asked, more, from, to, to, to);
      AscendingOnce(asked + more, from, to);
    } else if on >= to {
      AscendingJoin(asked, more, from, to, on, next[|more|].position);
      AscendingOnce(asked + more, from, next[|more|].position);
    } else {
      var i := PassedOver(path, asked, |asked|, on, parse);
      var j := FirstTaken(next, more, |more|, parse);
      assert more[j] in more && (asked + more)[i] == asked[i] && (asked + more)[|asked| + j] == more[j];
      assert Covers((asked + more)[i], on) && Covers((asked + more)[|asked| + j], on);
    }
  }

  const Fresh: Health := Health(0, 0, None, 0, false)

  /** An overlap reported after the poll has read past its pointer: of two bytes read, the second is read again.  The
      answers are those of a stream of two bytes, and every parser goes along. */
  lemma OverlapRewinds(parse: Parser) returns (path: seq<Cursor>, answers: seq<Answer>)
    ensures Trail(path, answers, parse) && path[0] == Cursor(0, 0, [], [], Fresh)
    ensures forall a :: a in answers ==> Truthful(a, [0, 0])
    ensures RequestsFit(path, answers, 1)
    ensures Asked(0, answers) && Overlaps(answers[|answers| - 1]) && Rewinds(0, answers)
    ensures Landing(path[0], answers) == 1 && path[|answers|].position == 2
  {
    var byte := Some(Response(1, HasMoreData, [0]));
    answers := [PointerAnswer(Some(1), 0), ChunkAnswer(0, byte, 0, 1), ChunkAnswer(1, byte, 0, 279),
                ChunkAnswer(2, Some(Response(0, Overlap, [])), 0, 279)];
    path := [Cursor(0, 0, [], [], Fresh), Cursor(0, 0, [], [], Fresh)];
    TrailStays(path[0], answers[0], parse);
    assert answers[..1] == [answers[0]];
    path := OneByteMore(path, answers[..1], byte, 1, parse);
    assert answers[..1] + [answers[1]] == answers[..2];
    path := OneByteMore(path, answers[..2], byte, 279, parse);
    assert answers[..2] + [answers[2]] == answers[..3];
    var last := path[3].(health := HealthAfter(path[3], answers[3]));
    TrailStep(path, answers[..3], last, answers[3], parse);
    assert answers[..3] + [answers[3]] == answers;
    path := path + [last];
    LandsBehind(path, answers, parse);
  }

  lemma OneByteMore(path: seq<Cursor>, answers: seq<Answer>, byte: Option<Response>, wanted: nat, parse: Parser)
      returns (longer: seq<Cursor>)
    requires Trail(path, answers, parse) && byte == Some(Response(1, HasMoreData, [0]))
    ensures |longer| == |path| + 1 && longer[0] == path[0]
    ensures longer[|path|].position == path[|answers|].position + 1
    ensures longer[|path|].lastPointer == (path[|answers|].lastPointer + 1) % WRAP && longer[..|path|] == path
    ensures Trail(longer, answers + [ChunkAnswer(path[|answers|].position, byte, 0, wanted)], parse)
  {
    var c := path[|answers|];
    var a, p := ChunkAnswer(c.position, byte, 0, wanted), parse(c.tail + [0]);
    var frames := if p.error.Some? then [] else p.frames;
    var out := Stamps(frames, Newest(frames, |frames|).GetOr(0), 0, |frames|);
    StampsTimed(frames, 0);
    AcceptedLinks(c, a, p, out, parse);
    TrailStep(path, answers, Accepted(c, p, [0], out), a, parse);
    longer := path + [Accepted(c, p, [0], out)];
  }

  // ---------- Giving up ----------

  /** Answer `k` is a failure: nothing came, or the chunk does not parse. */
  ghost predicate FailsAt(trail: seq<Cursor>, answers: seq<Answer>, k: nat, parse: Parser)
    requires k < |trail| && k < |answers|
  {
    match answers[k]
    case PointerAnswer(p, _) => p.None?
    case ChunkAnswer(_, r, _, _) =>
      r.None? || (!r.value.status.Overlap? && r.value.bytesAdded > 0 &&
                  parse(trail[k].tail + r.value.data).error.Some?)
  }

  /** Answer `k` only says that there is something to fetch. */
  ghost predicate Announces(trail: seq<Cursor>, answers: seq<Answer>, k: nat)
    requires k < |trail| && k < |answers|
  {
    var c, a := trail[k].lastPointer, answers[k];
    && a.PointerAnswer? && a.pointer.Some? && a.pointer.value != c
    && !(c < WRAP && a.pointer.value < WRAP && OutOfReach(c, a.pointer.value))
  }

  ghost function Failures(trail: seq<Cursor>, answers: seq<Answer>, i: nat, n: nat, parse: Parser): nat
    requires i <= n <= |answers| && |trail| > |answers|
  {
    if i == n then 0
    else Failures(trail, answers, i, n - 1, parse) + if FailsAt(trail, answers, n - 1, parse) then 1 else 0
  }

  /** Failures with nothing but announcements between them are counted, and three of them end the reader. */
  lemma {:induction false} FailuresCount(trail: seq<Cursor>, answers: seq<Answer>, i: nat, n: nat, parse: Parser)
    requires Trail(trail, answers, parse) && i <= n <= |answers|
    requires forall k :: i <= k < n ==> FailsAt(trail, answers, k, parse) || Announces(trail, answers, k)
    ensures trail[n].health.failures == trail[i].health.failures + Failures(trail, answers, i, n, parse)
    ensures trail[i].health.disabled ==> trail[n].health.disabled
    ensures Failures(trail, answers, i, n, parse) >= 3 ==> trail[n].health.disabled
    decreases n - i
  {
    if i < n {
      FailuresCount(trail, answers, i, n - 1, parse);
      assert LinkedAt(trail, answers, n - 1, parse);
    }
  }

  /** The reader gives up only with three failures, four lost places, or eight within the window on record. */
  lemma GivesUpAtLimits(c: Cursor, v: Cursor, a: Answer, parse: Parser)
    requires Linked(c, v, a, parse) && !c.health.disabled
    ensures v.health.disabled ==> v.health.failures >= 3 || v.health.resets >= 4 || v.health.windowResets >= 8
  {
  }

  /** So does the eighth within half a minute. */
  lemma EighthLoss(h: Health, now: int)
    requires h.windowStart.Some? && now - h.windowStart.value <= 30_000_000_000 && h.windowResets >= 7
    ensures h.Lost(now).disabled
  {
  }

  /** Four places lost in a row end the reader. */
  lemma FourLosses(h: Health, times: seq<int>)
    requires |times| == 4
    ensures h.Lost(times[0]).Lost(times[1]).Lost(times[2]).Lost(times[3]).disabled
  {
  }

  lemma TrailJoin(t: seq<Cursor>, x: seq<Answer>, u: seq<Cursor>, y: seq<Answer>, parse: Parser)
    requires Trail(t, x, parse) && Trail(u, y, parse) && t[|x|] == u[0]
    ensures Trail(t + u[1..], x + y, parse)
    ensures (t + u[1..])[0] == t[0] && (t + u[1..])[|x + y|] == u[|y|]
  {
    var longer, more := t + u[1..], x + y;
    forall k | 0 <= k < |more| ensures LinkedAt(longer, more, k, parse) {
      if k < |x| {
        assert LinkedAt(t, x, k, parse);
      } else {
        assert LinkedAt(u, y, k - |x|, parse);
        assert longer[k] == u[k - |x|] && longer[k + 1] == u[k - |x| + 1];
      }
    }
  }

  /** The chunks of truthful answers are the stretch of the stream the cursor passed over. */
  lemma {:induction false} TrailCovers(trail: seq<Cursor>, answers: seq<Answer>, n: nat, stream: seq<Byte>,
                                       parse: Parser)
    requires Trail(trail, answers, parse) && n <= |answers| && trail[0].position <= |stream|
    requires forall a :: a in answers ==> Truthful(a, stream)
    ensures trail[0].position <= trail[n].position <= |stream|
    ensures var taken := Taken(answers, n);
            Concat(taken, |taken|) == stream[trail[0].position..trail[n].position]
  {
    if n > 0 {
      TrailCovers(trail, answers, n - 1, stream, parse);
      assert LinkedAt(trail, answers, n - 1, parse) && answers[n - 1] in answers;
      StepCovers(Taken(answers, n - 1), answers[n - 1], trail[n - 1], trail[n], stream, trail[0].position, parse);
    }
  }

  lemma ConcatAppend(taken: seq<seq<Byte>>, data: seq<Byte>)
    ensures Concat(taken + [data], |taken| + 1) == Concat(taken, |taken|) + data
  {
    DigestPrefix(_ => Parsed([], [], None), [], taken, [data], |taken|);
  }

  lemma StepCovers(taken: seq<seq<Byte>>, a: Answer, c: Cursor, v: Cursor, stream: seq<Byte>, from: nat, parse: Parser)
    requires from <= c.position <= |stream| && Concat(taken, |taken|) == stream[from..c.position]
    requires Linked(c, v, a, parse) && Truthful(a, stream)
    ensures from <= v.position <= |stream|
    ensures Concat(taken + Handed(a), |taken + Handed(a)|) == stream[from..v.position]
  {
    if Takes(a) {
      var data := a.response.value.data;
      ConcatAppend(taken, data);
      SliceJoin(stream, from, c.position, c.position + |data|);
    } else {
      assert taken + [] == taken;
    }
  }

  /** Every chunk parses and no boundary between chunks falls inside a start marker. */
  ghost predicate Clean(answers: seq<Answer>, parse: Parser, bad: Cut) {
    var taken := Taken(answers, |answers|);
    DigestOf(parse, [], taken, |taken|).failures == 0 && CleanCuts(bad, taken)
  }

  /** `c` to `v` is one-shot parsing of the stretch of the stream between them. */
  ghost predicate OneShot(c: Cursor, v: Cursor, stream: seq<Byte>, parse: Parser) {
    && c.position <= v.position <= |stream| && c.sent <= v.sent
    && var whole := parse(stream[c.position..v.position]);
    && whole.error.None? && v.tail == whole.tail && Carries(v.sent[|c.sent|..], AllSamples(whole.frames))
  }

  lemma Continuity(parse: Parser, bad: Cut, trail: seq<Cursor>, answers: seq<Answer>, stream: seq<Byte>)
    requires Resumable(parse, bad) && Trail(trail, answers, parse) && Clean(answers, parse, bad)
    requires trail[0].tail == [] && trail[0].position <= |stream| && forall a :: a in answers ==> Truthful(a, stream)
    ensures OneShot(trail[0], trail[|answers|], stream, parse)
  {
    var taken := Taken(answers, |answers|);
    TrailCovers(trail, answers, |answers|, stream, parse);
    TrailGrows(trail, answers, |answers|, parse);
    DigestIsOneShot(parse, bad, taken, |taken|);
  }

  /** Stream continuity: if every chunk answered since the start or the last jump parses and no boundary between them
      falls inside a start marker, the samples sent since then are those of parsing in one go the stretch of the stream
      that the cursor has passed over. */
  lemma StreamContinuity(config: seq<DataType>, trail: seq<Cursor>, answers: seq<Answer>, stream: seq<Byte>)
    requires Trail(trail, answers, ParserFor(config)) && Clean(answers, ParserFor(config), CutFor(config))
    requires trail[0].tail == [] && trail[0].position <= |stream| && forall a :: a in answers ==> Truthful(a, stream)
    ensures OneShot(trail[0], trail[|answers|], stream, ParserFor(config))
  {
    RingParserResumable(config);
    Continuity(ParserFor(config), CutFor(config), trail, answers, stream);
  }

  lemma TrailStays(c: Cursor, a: Answer, parse: Parser)
    requires !Takes(a)
    ensures Trail([c, c.(health := HealthAfter(c, a))], [a], parse)
  {
    assert LinkedAt([c, c.(health := HealthAfter(c, a))], [a], 0, parse);
  }

  lemma PollJoined(c: Cursor, first: Answer, more: seq<Answer>, on: seq<Cursor>, parse: Parser)
    requires first.PointerAnswer? && Trail(on, more, parse) && on[0] == c == c.(health := HealthAfter(c, first))
    ensures Trail([c, c] + on[1..], [first] + more, parse)
    ensures ([c, c] + on[1..])[1 + |more|] == on[|more|] && ([first] + more)[1..] == more
  {
    TrailStays(c, first, parse);
    TrailJoin([c, c], [first], on, more, parse);
  }

  /** A poll: where it started and what the device answered. */
  datatype Polled = Polled(cursor: nat, answers: seq<Answer>)

  ghost function AllAnswers(polls: seq<Polled>, n: nat): seq<Answer>
    requires n <= |polls|
  {
    if n == 0 then [] else AllAnswers(polls, n - 1) + polls[n - 1].answers
  }

  lemma {:induction false} AllAnswersPrefix(polls: seq<Polled>, p: Polled, n: nat)
    requires n <= |polls|
    ensures AllAnswers(polls + [p], n) == AllAnswers(polls, n)
  {
    if n > 0 {
      AllAnswersPrefix(polls, p, n - 1);
    }
  }

  /** Some poll lost its place. */
  ghost predicate Disturbed(polls: seq<Polled>) {
    exists k :: 0 <= k < |polls| && polls[k].cursor < WRAP && LosesPlace(polls[k].cursor, polls[k].answers)
  }

  /** No poll moved the cursor behind bytes already read. */
  ghost predicate Steady(polls: seq<Polled>) {
    forall k :: 0 <= k < |polls| && polls[k].cursor < WRAP ==> !Rewinds(polls[k].cursor, polls[k].answers)
  }

  lemma SteadyMore(polls: seq<Polled>, p: Polled)
    requires p.cursor < WRAP && Steady(polls + [p])
    ensures Steady(polls) && !Rewinds(p.cursor, p.answers)
  {
    var longer := polls + [p];
    assert longer[|polls|] == p;
    assert forall k :: 0 <= k < |polls| ==> longer[k] == polls[k];
  }

  lemma Associate(a: seq<Answer>, b: seq<Answer>, c: seq<Answer>)
    ensures a + b + c == a + (b + c)
  {
  }

  lemma PollsAppend(polls: seq<Polled>, p: Polled)
    requires p.cursor < WRAP
    ensures AllAnswers(polls + [p], |polls| + 1) == AllAnswers(polls, |polls|) + p.answers
    ensures Disturbed(polls + [p]) <==> Disturbed(polls) || LosesPlace(p.cursor, p.answers)
  {
    AllAnswersPrefix(polls, p, |polls|);
    var longer := polls + [p];
    assert longer[|polls|] == p;
    if Disturbed(polls) {
      var k :| 0 <= k < |polls| && polls[k].cursor < WRAP && LosesPlace(polls[k].cursor, polls[k].answers);
      assert longer[k] == polls[k];
    }
  }

  /** The reader's history after some polls: what the device has logged, the number of jumps, whether the reader
      gave up, the answers since the last jump, and the position in the stream. */
  datatype History = History(log: seq<Answer>, jumps: nat, disabled: bool, answers: seq<Answer>, position: nat)

  /** A poll that loses its place makes the reader jump or give up, nothing else makes it jump, and without a jump the
      new answers are added to those before.  The reader does not fall back, and unless a poll moves the cursor behind
      bytes already read, every chunk lies behind the chunks before it. */
  ghost predicate Explained(h: History, g: History, polls: seq<Polled>) {
    && g.log == h.log + AllAnswers(polls, |polls|)
    && (Disturbed(polls) ==> g.jumps > h.jumps || g.disabled)
    && (g.jumps != h.jumps ==> g.jumps > h.jumps && Disturbed(polls))
    && (g.jumps == h.jumps ==> g.answers == h.answers + AllAnswers(polls, |polls|))
    && h.position <= g.position
    && (Steady(polls) ==> Ascending(AllAnswers(polls, |polls|), h.position, g.position))
  }

  lemma ExplainNothing(h: History)
    ensures Explained(h, h, [])
  {
    assert h.log + [] == h.log && h.answers + [] == h.answers;
  }

  lemma ExplainNext(h: History, g: History, k: History, polls: seq<Polled>, p: Polled, end: nat)
    requires Explained(h, g, polls) && p.cursor < WRAP && k.log == g.log + p.answers && (g.disabled ==> k.disabled)
    requires if k.jumps == g.jumps then k.answers == g.answers + p.answers else k.jumps == g.jumps + 1
    requires k.jumps != g.jumps ==> LosesPlace(p.cursor, p.answers)
    requires LosesPlace(p.cursor, p.answers) ==> k.jumps != g.jumps || k.disabled
    requires Ascending(p.answers, g.position, end) && g.position <= k.position
    requires !Rewinds(p.cursor, p.answers) ==> end <= k.position
    ensures Explained(h, k, polls + [p])
  {
    PollsAppend(polls, p);
    if Steady(polls + [p]) {
      SteadyMore(polls, p);
      AscendingJoin(AllAnswers(polls, |polls|), p.answers, h.position, g.position, g.position, k.position);
    }
    Associate(h.log, AllAnswers(polls, |polls|), p.answers);
    Associate(h.answers, AllAnswers(polls, |polls|), p.answers);
  }

  // ---------- The reader ----------

  class Reader {
    const parse: Parser
    ghost const bad: Cut
    const device: Device
    var lastPointer: nat
    var tail: seq<Byte>
    var consecutiveFailures: nat
    var consecutiveResets: nat
    var resetWindowStarted: Option<int>
    var resetWindowResets: nat
    var disabled: bool
    var sent: seq<Stamped>

    // Position in the device's stream of the byte under the cursor.
    var position: nat

    // The device's answers since the start or the last jump, the cursors passed through, and the number of jumps.
    ghost var answers: seq<Answer>
    ghost var trail: seq<Cursor>
    ghost var jumps: nat

    ghost function Counted(): Health
      reads this
    {
      Health(consecutiveFailures, consecutiveResets, resetWindowStarted, resetWindowResets, disabled)
    }

    ghost function State(): Cursor
      reads this
    {
      Cursor(lastPointer, position, tail, sent, Counted())
    }

    ghost predicate Counters()
      reads this
    {
      !disabled ==> consecutiveFailures < FAILURE_LIMIT && WithinResetLimits()
    }

    predicate WithinResetLimits()
      reads this
    {
      consecutiveResets < RESET_LIMIT && resetWindowResets < WINDOW_RESET_LIMIT
    }

    /** The cursor is the position in the stream modulo 2^32. */
    ghost predicate Ready()
      reads this, device
    {
      Counters() && device.Honest() && Placed(State(), device.origin, device.stream)
    }

    /** Since the last jump the reader has done what the device's answers ask for, and nothing else. */
    ghost predicate Valid()
      reads this, device
    {
      && Ready() && Trail(trail, answers, parse) && trail[0].tail == [] && trail[0].position <= |device.stream|
      && trail[|answers|] == State() && (forall a :: a in answers ==> a in device.log) && Resumable(parse, bad)
    }

    /** Stream continuity: if every chunk since the start or the last jump parses and no boundary between them falls
        inside a start marker, the samples sent since then are one-shot parsing of the stream passed over. */
    ghost predicate InStep()
      requires Valid()
      reads this, device
    {
      Clean(answers, parse, bad) ==> OneShot(trail[0], State(), device.stream, parse)
    }

    lemma Continuous()
      requires Valid()
      ensures InStep()
    {
      if Clean(answers, parse, bad) {
        Continuity(parse, bad, trail, answers, device.stream);
      }
    }

    /** Start: the capture is configured, the cursor set to the device's pointer. */
    constructor (config: seq<DataType>, device: Device)
      requires device.Honest()
      ensures Valid() && fresh(this) && this.device == device && parse == ParserFor(config) && bad == CutFor(config)
      ensures sent == [] && answers == [] && jumps == 0 && !disabled && position == |device.stream|
      ensures trail[0] == Cursor((device.origin + |device.stream|) % WRAP, |device.stream|, [], [], Fresh)
    {
      this.parse, this.bad, this.device := ParserFor(config), CutFor(config), device;
      RingParserResumable(config);
      lastPointer := (device.origin + |device.stream|) % WRAP;
      tail, sent := [], [];
      consecutiveFailures, consecutiveResets, resetWindowStarted, resetWindowResets := 0, 0, None, 0;
      disabled := false;
      position := |device.stream|;
      answers, jumps := [], 0;
      trail := [Cursor((device.origin + |device.stream|) % WRAP, |device.stream|, [], [], Fresh)];
    }

    method NoteFailure()
      modifies this`consecutiveFailures, this`consecutiveResets, this`disabled
      ensures old(Counters()) ==> Counters()
      ensures disabled <==> old(disabled) || consecutiveFailures >= FAILURE_LIMIT
      ensures consecutiveFailures == old(consecutiveFailures) + 1 && consecutiveResets == 0
      ensures Counted() == old(Counted()).Failed()
    {
      consecutiveFailures := consecutiveFailures + 1;
      consecutiveResets := 0;
      if consecutiveFailures >= FAILURE_LIMIT {
        disabled := true;
      }
    }

    method NoteHealthy()
      modifies this`consecutiveFailures, this`consecutiveResets
      ensures old(Counters()) ==> Counters()
      ensures consecutiveFailures == 0 && consecutiveResets == 0
      ensures Counted() == old(Counted()).Healthy()
    {
      consecutiveFailures, consecutiveResets := 0, 0;
    }

    /** Whether the reader may go on after losing its place. */
    method NoteCursorReset(now: int) returns (goOn: bool)
      modifies this`consecutiveFailures, this`consecutiveResets, this`resetWindowStarted, this`resetWindowResets,
               this`disabled
      ensures old(Counters()) ==> Counters()
      ensures goOn <==> WithinResetLimits()
      ensures disabled <==> old(disabled) || !goOn
      ensures consecutiveResets == old(consecutiveResets) + 1 && consecutiveFailures == 0
      ensures if old(resetWindowStarted.None?) || now - old(resetWindowStarted.value) > RESET_WINDOW_NS
              then resetWindowStarted == Some(now) && resetWindowResets == 1
              else resetWindowStarted == old(resetWindowStarted) && resetWindowResets == old(resetWindowResets) + 1
      ensures Counted() == old(Counted()).Lost(now)
    {
      consecutiveFailures := 0;
      consecutiveResets := consecutiveResets + 1;
      if resetWindowStarted.None? || now - resetWindowStarted.value > RESET_WINDOW_NS {
        resetWindowStarted := Some(now);
        resetWindowResets := 0;
      }
      resetWindowResets := resetWindowResets + 1;
      goOn := consecutiveResets < RESET_LIMIT && resetWindowResets < WINDOW_RESET_LIMIT;
      if !goOn {
        disabled := true;
      }
    }

    /** Jumps to a pointer the device gave out when it had captured `captured` bytes, unless that happens
        too often. */
    method MoveCursor(pointer: nat, captured: nat, now: int)
      requires Counters()
      modifies this`lastPointer, this`position, this`tail, this`consecutiveFailures, this`consecutiveResets,
               this`resetWindowStarted, this`resetWindowResets, this`disabled
      ensures Counters()
      ensures var v := old(State()).(health := old(Counted()).Lost(now));
              State() == if v.health.WithinResetLimits() then Jumped(v, pointer, captured) else v
      ensures !WithinResetLimits() ==> disabled
    {
      var goOn := NoteCursorReset(now);
      if goOn {
        lastPointer, position, tail := pointer, captured, [];
      }
    }

    /** Parses a chunk behind the tail and stamps the samples it completes. */
    method ParseChunk(data: seq<Byte>, now: int) returns (p: Parsed, out: seq<Stamped>)
      modifies this`consecutiveFailures, this`consecutiveResets, this`disabled
      ensures p == parse(tail + data) && Timed(out, if p.error.Some? then [] else p.frames, now)
      ensures old(Counters()) ==> Counters()
      ensures Counted() == if p.error.Some? then old(Counted()).Failed() else old(Counted()).Healthy()
    {
      p, out := parse(tail + data), [];
      if p.error.Some? {
        NoteFailure();
      } else {
        NoteHealthy();
        out := StampFrames(p.frames, now);
      }
    }

    /** Takes in one chunk: sends the samples it completes, stamped by the clock, and moves past it. */
    method Accept(data: seq<Byte>, now: int) returns (p: Parsed, out: seq<Stamped>)
      requires Counters()
      modifies this`lastPointer, this`position, this`tail, this`sent, this`consecutiveFailures, this`consecutiveResets,
               this`disabled
      ensures Counters() && State() == Accepted(old(State()), p, data, out)
      ensures p == parse(old(tail) + data) && Timed(out, if p.error.Some? then [] else p.frames, now)
    {
      p, out := ParseChunk(data, now);
      lastPointer, position := (lastPointer + |data|) % WRAP, position + |data|;
      tail, sent := if p.error.Some? then [] else p.tail, sent + out;
    }

    /** Deals with one chunk answer; None when the poll ends here, else what remains to read. */
    method Digest(answer: Option<Response>, pointer: nat, captured: nat, now: int, ghost wanted: nat)
        returns (more: Option<nat>, ghost v: Cursor)
      requires Counters() && lastPointer < WRAP && pointer < WRAP
      modifies this`lastPointer, this`position, this`tail, this`sent, this`consecutiveFailures, this`consecutiveResets,
               this`resetWindowStarted, this`resetWindowResets, this`disabled
      ensures Counters()
      ensures var a := ChunkAnswer(old(position), answer, now, wanted);
              && Linked(old(State()), v, a, parse) && (more.None? <==> LastWord(a))
              && State() == if Overlaps(a) && WithinResetLimits() then Jumped(v, pointer, captured) else v
      ensures more.Some? ==> more.value == Missing(lastPointer, pointer)
    {
      ghost var c, a := State(), ChunkAnswer(position, answer, now, wanted);
      v := c.(health := HealthAfter(c, a));
      if answer.None? {
        NoteFailure();
        return None, v;
      }
      var resp := answer.value;
      if resp.status.Overlap? {
        MoveCursor(pointer, captured, now);
        return None, v;
      }
      if resp.bytesAdded == 0 {
        NoteHealthy();
        return None, v;
      }
      var p, out := Accept(resp.data, now);
      AcceptedLinks(c, a, p, out, parse);
      v := State();
      if resp.status.AllDataRead? {
        return None, v;
      }
      var next := Distance(lastPointer, pointer);
      var left := if next.Some? then next.value else 0;
      return Some(if left == 0 && resp.status.HasMoreData? then MAX_READ_BYTES else left), v;
    }

    /** One chunk of a poll towards `pointer`; None when the poll ends here, else what remains to read. */
    method FetchChunk(pointer: nat, captured: nat, remaining: nat)
        returns (more: Option<nat>, ghost a: Answer, ghost v: Cursor)
      requires Ready() && device.Within(if captured < position then captured else position)
      requires captured <= |device.stream| && pointer == (device.origin + captured) % WRAP
      modifies device, this`lastPointer, this`position, this`tail, this`sent, this`consecutiveFailures,
               this`consecutiveResets, this`resetWindowStarted, this`resetWindowResets, this`disabled
      ensures Ready() && old(device.stream) <= device.stream
      ensures a.ChunkAnswer? && device.log == old(device.log) + [a]
      ensures a.wanted == if remaining < 279 then remaining else 279
      ensures Linked(old(State()), v, a, parse)
      ensures State() == if Overlaps(a) && WithinResetLimits() then Jumped(v, pointer, captured) else v
      ensures more.None? <==> LastWord(a)
      ensures device.Within(if captured < position then captured else position)
      ensures more.Some? ==> more.value == Missing(lastPointer, pointer)
    {
      var maxBytes := if remaining < MAX_READ_BYTES then remaining else MAX_READ_BYTES;
      ghost var c := State();
      var floor := if captured < position then captured else position;
      var answer, now := device.ReadRingChunk(floor, position, lastPointer, maxBytes);
      a := ChunkAnswer(position, answer, now, maxBytes);
      assert a in device.log;
      more, v := Digest(answer, pointer, captured, now, maxBytes);
      LinkedPlaced(c, v, a, device.origin, device.stream, parse);
    }

    /** The chunk loop of a poll, after the pointer `pointer` has been read. */
    method FetchChunks(pointer: nat, captured: nat, distance: nat)
        returns (ghost asked: seq<Answer>, ghost path: seq<Cursor>)
      requires Ready() && captured == |device.stream| && distance > 0
      requires pointer == (device.origin + captured) % WRAP && Distance(lastPointer, pointer) == Some(distance)
      modifies device, this`lastPointer, this`position, this`tail, this`sent, this`consecutiveFailures,
               this`consecutiveResets, this`resetWindowStarted, this`resetWindowResets, this`disabled
      ensures Ready() && old(device.stream) <= device.stream && device.log == old(device.log) + asked
      ensures Trail(path, asked, parse) && path[0] == old(State())
      ensures ChunksAsked(asked) && RequestsFit(path, asked, pointer)
      ensures State() == if Overlaps(asked[|asked| - 1]) && WithinResetLimits()
                         then Jumped(path[|asked|], pointer, captured) else path[|asked|]
    {
      asked, path := [], [State()];
      var remaining, count := distance, 0;
      while remaining > 0 && count < MAX_CHUNKS_PER_FETCH
        invariant Ready() && device.Within(if captured < position then captured else position)
        invariant old(device.stream) <= device.stream && device.log == old(device.log) + asked
        invariant captured <= |device.stream|
        invariant |asked| == count <= MAX_CHUNKS_PER_FETCH && remaining == Missing(lastPointer, pointer)
        invariant RequestsFit(path, asked, pointer)
        invariant Trail(path, asked, parse) && path[0] == old(State()) && path[count] == State()
        invariant forall k :: 0 <= k < |asked| ==> asked[k].ChunkAnswer? && !LastWord(asked[k])
        decreases MAX_CHUNKS_PER_FETCH - count
      {
        var more: Option<nat>;
        ghost var a: Answer, v: Cursor;
        more, a, v := FetchChunk(pointer, captured, remaining);
        TrailStep(path, asked, v, a, parse);
        FitStep(path, asked, v, a, pointer);
        asked, path := asked + [a], path + [v];
        if more.None? {
          return;
        }
        remaining, count := more.value, count + 1;
      }
    }

    /** Keeps the history: extends it by a poll, or begins a new one after a jump. */
    ghost method Remember(c: Cursor, asked: seq<Answer>, path: seq<Cursor>)
      requires Ready() && Resumable(parse, bad) && lastPointer < WRAP && c.lastPointer < WRAP
      requires Trail(trail, answers, parse) && trail[0].tail == [] && trail[0].position <= |device.stream|
      requires trail[|answers|] == c && Trail(path, asked, parse) && path[0] == c
      requires forall a :: a in answers || a in asked ==> a in device.log
      requires if LosesPlace(c.lastPointer, asked) && WithinResetLimits() then tail == [] else State() == path[|asked|]
      modifies this`answers, this`trail, this`jumps
      ensures Valid()
      ensures if LosesPlace(c.lastPointer, asked) && WithinResetLimits()
              then jumps == old(jumps) + 1 && answers == []
              else jumps == old(jumps) && answers == old(answers) + asked && trail == old(trail) + path[1..]
    {
      if LosesPlace(c.lastPointer, asked) && WithinResetLimits() {
        answers, trail, jumps := [], [State()], jumps + 1;
      } else {
        TrailJoin(trail, answers, path, asked, parse);
        answers, trail := answers + asked, trail + path[1..];
      }
    }

    /** The rest of a poll that has read the pointer `pointer` and has bytes to fetch. */
    method AskOn(pointer: nat, captured: nat, distance: nat, ghost now: int)
        returns (ghost asked: seq<Answer>, ghost path: seq<Cursor>)
      requires Ready() && captured == |device.stream| && distance > 0
      requires pointer == (device.origin + captured) % WRAP && Distance(lastPointer, pointer) == Some(distance)
      requires distance <= RING_BYTES
      modifies device, this`lastPointer, this`position, this`tail, this`sent, this`consecutiveFailures,
               this`consecutiveResets, this`resetWindowStarted, this`resetWindowResets, this`disabled
      ensures Ready() && old(device.stream) <= device.stream
      ensures asked != [] && asked[0] == PointerAnswer(Some(pointer), now) && device.log == old(device.log) + asked[1..]
      ensures old(lastPointer) < WRAP && lastPointer < WRAP && Asked(old(lastPointer), asked)
      ensures Trail(path, asked, parse) && path[0] == old(State()) && RequestsFit(path, asked, pointer)
      ensures State() == if LosesPlace(old(lastPointer), asked) && WithinResetLimits()
                         then Jumped(path[|asked|], pointer, captured) else path[|asked|]
    {
      ghost var c, first := State(), PointerAnswer(Some(pointer), now);
      ghost var more, on;
      more, on := FetchChunks(pointer, captured, distance);
      PollJoined(c, first, more, on, parse);
      asked, path := [first] + more, [c, c] + on[1..];
      FitJoined(c, first, more, on, pointer);
    }

    /** The poll after the pointer `pointer` has been read: nothing new, out of reach, or bytes to fetch. */
    method AskFrom(pointer: nat, captured: nat, now: int) returns (ghost asked: seq<Answer>, ghost path: seq<Cursor>)
      requires Ready() && captured == |device.stream| && pointer == (device.origin + captured) % WRAP
      modifies device, this`lastPointer, this`position, this`tail, this`sent, this`consecutiveFailures,
               this`consecutiveResets, this`resetWindowStarted, this`resetWindowResets, this`disabled
      ensures Ready() && old(device.stream) <= device.stream
      ensures asked != [] && asked[0] == PointerAnswer(Some(pointer), now) && device.log == old(device.log) + asked[1..]
      ensures old(lastPointer) < WRAP && lastPointer < WRAP && Asked(old(lastPointer), asked)
      ensures Trail(path, asked, parse) && path[0] == old(State()) && RequestsFit(path, asked, pointer)
      ensures State() == if LosesPlace(old(lastPointer), asked) && WithinResetLimits()
                         then Jumped(path[|asked|], pointer, Landing(old(State()), asked)) else path[|asked|]
    {
      ghost var c := State();
      AheadIsGap(device.origin, position, captured);
      asked := [PointerAnswer(Some(pointer), now)];
      path := [c, c.(health := HealthAfter(c, asked[0]))];
      TrailStays(c, asked[0], parse);
      if pointer == lastPointer {
        NoteHealthy();
        return;
      }
      var distance := Distance(lastPointer, pointer);
      if distance.None? || distance.value > RING_BYTES {
        MoveCursor(pointer, captured, now);
        return;
      }
      asked, path := AskOn(pointer, captured, distance.value, now);
    }

    /** The body of a poll: read the pointer, then at most sixteen chunks up to it. */
    method Ask() returns (ghost asked: seq<Answer>, ghost path: seq<Cursor>)
      requires Ready()
      modifies device, this`lastPointer, this`position, this`tail, this`sent, this`consecutiveFailures,
               this`consecutiveResets, this`resetWindowStarted, this`resetWindowResets, this`disabled
      ensures Ready() && old(device.stream) <= device.stream && device.log == old(device.log) + asked
      ensures old(lastPointer) < WRAP && lastPointer < WRAP && Asked(old(lastPointer), asked)
      ensures Trail(path, asked, parse) && path[0] == old(State()) && PollFits(path, asked)
      ensures if LosesPlace(old(lastPointer), asked) && WithinResetLimits()
              then State() == Jumped(path[|asked|], asked[0].pointer.value, Landing(old(State()), asked))
              else State() == path[|asked|]
    {
      ghost var c := State();
      var answer, now := device.ReadRingPointer(position);
      if answer.None? {
        asked, path := [PointerAnswer(answer, now)], [c, c.(health := c.health.Failed())];
        TrailStays(c, asked[0], parse);
        NoteFailure();
        return;
      }
      asked, path := AskFrom(answer.value, |device.stream|, now);
    }

    /** One poll, with its history. */
    method Round() returns (ghost asked: seq<Answer>, ghost path: seq<Cursor>)
      requires Valid()
      modifies this, device
      ensures Valid() && old(device.stream) <= device.stream && device.log == old(device.log) + asked
      ensures old(lastPointer) < WRAP && lastPointer < WRAP
      ensures if old(disabled) then asked == [] && disabled else Asked(old(lastPointer), asked)
      ensures Trail(path, asked, parse) && path[0] == old(State()) && PollFits(path, asked)
      ensures if LosesPlace(old(lastPointer), asked) && WithinResetLimits()
              then && jumps == old(jumps) + 1 && answers == []
                   && State() == Jumped(path[|asked|], asked[0].pointer.value, Landing(old(State()), asked))
              else && jumps == old(jumps) && State() == path[|asked|] && answers == old(answers) + asked
                   && trail == old(trail) + path[1..] && trail[0] == old(trail[0])
      ensures position < path[|asked|].position <==> Rewinds(old(lastPointer), asked) && WithinResetLimits()
      ensures position >= old(position) && Ascending(asked, old(position), path[|asked|].position)
    {
      asked, path := [], [State()];
      if !disabled {
        ghost var c := State();
        asked, path := Ask();
        LandsBehind(path, asked, parse);
        TrailAscends(path, asked, |asked|, parse);
        assert asked[..|asked|] == asked;
        Remember(c, asked, path);
      }
    }

    /** One poll.  The reader jumps exactly when the answers say that it has lost its place and the limits allow it;
        otherwise it takes in exactly the chunks answered, and stays in step with the stream. */
    method Fetch() returns (ghost asked: seq<Answer>, ghost path: seq<Cursor>)
      requires Valid()
      modifies this, device
      ensures Valid() && InStep() && old(device.stream) <= device.stream && device.log == old(device.log) + asked
      ensures old(lastPointer) < WRAP && lastPointer < WRAP
      ensures if old(disabled) then asked == [] && disabled else Asked(old(lastPointer), asked)
      ensures Trail(path, asked, parse) && path[0] == old(State()) && PollFits(path, asked)
      ensures if LosesPlace(old(lastPointer), asked) && WithinResetLimits()
              then && jumps == old(jumps) + 1 && answers == []
                   && State() == Jumped(path[|asked|], asked[0].pointer.value, Landing(old(State()), asked))
              else && jumps == old(jumps) && State() == path[|asked|] && answers == old(answers) + asked
                   && trail == old(trail) + path[1..] && trail[0] == old(trail[0])
      ensures position < path[|asked|].position <==> Rewinds(old(lastPointer), asked) && WithinResetLimits()
      ensures position >= old(position)
    {
      asked, path := Round();
      Continuous();
    }

    ghost function Story(): History
      reads this, device
    {
      History(device.log, jumps, disabled, answers, position)
    }

    /** The polling loop. */
    method Repeat(times: nat) returns (ghost polls: seq<Polled>)
      requires Valid()
      modifies this, device
      ensures Valid() && old(device.stream) <= device.stream && |polls| == times
      ensures Explained(old(Story()), Story(), polls)
      ensures jumps == old(jumps) ==> trail[0] == old(trail[0])
    {
      polls := [];
      ExplainNothing(Story());
      for i := 0 to times
        invariant Valid() && old(device.stream) <= device.stream && |polls| == i
        invariant Explained(old(Story()), Story(), polls) && jumps >= old(jumps)
        invariant jumps == old(jumps) ==> trail[0] == old(trail[0])
      {
        ghost var cursor, before := lastPointer, Story();
        ghost var asked, path;
        asked, path := Round();
        ExplainNext(old(Story()), before, Story(), polls, Polled(cursor, asked), path[|asked|].position);
        polls := polls + [Polled(cursor, asked)];
      }
    }

    /** Any number of polls, with what each of them started from and was answered: every jump is explained, and between
        jumps the reader stays in step with the stream. */
    method Poll(times: nat) returns (ghost polls: seq<Polled>)
      requires Valid()
      modifies this, device
      ensures Valid() && InStep() && old(device.stream) <= device.stream && |polls| == times
      ensures Explained(old(Story()), Story(), polls)
      ensures jumps == old(jumps) ==> trail[0] == old(trail[0])
      ensures Steady(polls) ==> NothingTwice(AllAnswers(polls, times))
    {
      polls := Repeat(times);
      if Steady(polls) {
        AscendingOnce(AllAnswers(polls, times), old(position), position);
      }
      Continuous();
    }
  }
}
