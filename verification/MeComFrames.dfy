/** MeCom text frames: mecom/protocol.go (appendCRC, verifyCRC), mecomserver/device_bridge.go
    (parseDeviceBridgeRequest, parseDeviceBridgeResponsePayload) and the address-zero rewriting of
    mecomserver/router.go.
  */
module MeComFrames {
  import opened Wrappers
  import Crc16

  type Byte = b: int | 0 <= b < 256

  type Text = seq<Byte>

  const Cr: Byte := 0x0D
  const Hash: Byte := 0x23
  const Bang: Byte := 0x21
  const Query: Byte := 0x3F
  const Minus: Byte := 0x2D
  const Plus: Byte := 0x2B

  // ---------- Library text functions ----------

  /** What the library does with text that holds bytes above 0x7F: Unicode upper case and Unicode white space. */
  datatype Unicode = Unicode(upper: Text -> Text, trim: Text -> Text)

  predicate Ascii(s: Text) {
    forall i :: 0 <= i < |s| ==> s[i] < 0x80
  }

  predicate Space(b: Byte) {
    b == 0x09 || b == 0x0A || b == 0x0B || b == 0x0C || b == 0x0D || b == 0x20
  }

  predicate Tight(s: Text) {
    s != [] ==> !Space(s[0]) && !Space(s[|s| - 1])
  }

  predicate Starts(s: Text, b: Byte) {
    s != [] && s[0] == b
  }

  /** What is used of it: trimmed text neither begins nor ends with an ASCII space, trimming and upper case are
      idempotent, and no other character becomes a question mark. */
  ghost predicate Library(u: Unicode) {
    && (forall s :: Tight(u.trim(s)) && Trim(u, u.trim(s)) == u.trim(s))
    && (forall s :: Upper(u, u.upper(s)) == u.upper(s))
    && (forall s :: Starts(u.upper(s), Query) <==> Starts(s, Query))
  }

  function SkipLeft(s: Text, i: nat): (j: nat)
    requires i <= |s|
    ensures i <= j <= |s| && (j < |s| ==> !Space(s[j]))
    decreases |s| - i
  {
    if i < |s| && Space(s[i]) then SkipLeft(s, i + 1) else i
  }

  function SkipRight(s: Text, i: nat, j: nat): (k: nat)
    requires i <= j <= |s|
    ensures i <= k <= j && (i < k ==> !Space(s[k - 1]))
  {
    if i < j && Space(s[j - 1]) then SkipRight(s, i, j - 1) else j
  }

  /** TrimSpace: ASCII spaces on both sides; at the first byte above 0x7F the Unicode routine takes over. */
  function Trim(u: Unicode, s: Text): Text {
    var i := SkipLeft(s, 0);
    if i < |s| && s[i] >= 0x80 then u.trim(s[i..])
    else
      var j := SkipRight(s, i, |s|);
      if i < j && s[j - 1] >= 0x80 then u.trim(s[i..j]) else s[i..j]
  }

  function TrimCr(s: Text): Text {
    if s != [] && s[|s| - 1] == Cr then s[..|s| - 1] else s
  }

  function UpperByte(b: Byte): Byte {
    if 0x61 <= b <= 0x7A then b - 0x20 else b
  }

  function AsciiUpper(s: Text): (r: Text)
    ensures |r| == |s|
  {
    seq(|s|, i requires 0 <= i < |s| => UpperByte(s[i]))
  }

  function Upper(u: Unicode, s: Text): Text {
    if Ascii(s) then AsciiUpper(s) else u.upper(s)
  }

  lemma UpperIdempotent(u: Unicode, s: Text)
    requires Library(u)
    ensures Upper(u, Upper(u, s)) == Upper(u, s)
    ensures Starts(Upper(u, s), Query) <==> Starts(s, Query)
  {
    if Ascii(s) {
      var r := AsciiUpper(s);
      assert Ascii(r) && AsciiUpper(r) == r;
    }
  }

  lemma TrimIdempotent(u: Unicode, s: Text)
    requires Library(u)
    ensures Trim(u, Trim(u, s)) == Trim(u, s)
  {
    var i := SkipLeft(s, 0);
    var j := SkipRight(s, i, |s|);
    if (i == |s| || s[i] < 0x80) && (i == j || s[j - 1] < 0x80) {
      TightAscii(u, s[i..j]);
    }
  }

  lemma TightAscii(u: Unicode, s: Text)
    requires Tight(s) && (s != [] ==> s[0] < 0x80 && s[|s| - 1] < 0x80)
    ensures Trim(u, s) == s
  {
  }

  lemma TrimIsTight(u: Unicode, s: Text)
    requires Library(u)
    ensures Tight(Trim(u, s)) && TrimCr(Trim(u, s)) == Trim(u, s)
  {
  }

  // ---------- Hexadecimal ----------

  function Digit(d: nat): Byte
    requires d < 16
  {
    if d < 10 then 0x30 + d else 0x41 + d - 10
  }

  function DigitValue(b: Byte): (r: Option<nat>)
    ensures r.Some? ==> r.value < 16
  {
    if 0x30 <= b <= 0x39 then Some(b - 0x30)
    else if 0x41 <= b <= 0x46 then Some(b - 0x41 + 10)
    else if 0x61 <= b <= 0x66 then Some(b - 0x61 + 10)
    else None
  }

  lemma DigitRoundTrip(d: nat)
    requires d < 16
    ensures DigitValue(Digit(d)) == Some(d) && !Space(Digit(d)) && Digit(d) != Cr
  {
  }

  function Hex2(n: nat): (s: Text)
    requires n < 256
    ensures |s| == 2
  {
    [Digit(n / 16), Digit(n % 16)]
  }

  function Hex4(n: nat): (s: Text)
    requires n < 65536
    ensures |s| == 4
  {
    Hex2(n / 256) + Hex2(n % 256)
  }

  function Parse2(s: Text): (r: Option<nat>)
    requires |s| == 2
    ensures r.Some? ==> r.value < 256
  {
    var hi, lo := DigitValue(s[0]), DigitValue(s[1]);
    if hi.Some? && lo.Some? then Some(16 * hi.value + lo.value) else None
  }

  function Parse4(s: Text): (r: Option<nat>)
    requires |s| == 4
    ensures r.Some? ==> r.value < 65536
  {
    var hi, lo := Parse2(s[..2]), Parse2(s[2..]);
    if hi.Some? && lo.Some? then Some(256 * hi.value + lo.value) else None
  }

  lemma Hex2RoundTrip(n: nat)
    requires n < 256
    ensures Parse2(Hex2(n)) == Some(n)
  {
    DigitRoundTrip(n / 16);
    DigitRoundTrip(n % 16);
  }

  lemma Hex4RoundTrip(n: nat)
    requires n < 65536
    ensures Parse4(Hex4(n)) == Some(n)
  {
    Hex2RoundTrip(n / 256);
    Hex2RoundTrip(n % 256);
    assert Hex4(n)[..2] == Hex2(n / 256) && Hex4(n)[2..] == Hex2(n % 256);
  }

  lemma DigitOfValue(b: Byte)
    requires DigitValue(b).Some?
    ensures Digit(DigitValue(b).value) == UpperByte(b)
  {
  }

  lemma JoinDigits(hi: nat, lo: nat)
    requires hi < 16 && lo < 16
    ensures Hex2(16 * hi + lo) == [Digit(hi), Digit(lo)]
  {
    assert (16 * hi + lo) / 16 == hi && (16 * hi + lo) % 16 == lo;
  }

  lemma JoinBytes(hi: nat, lo: nat)
    requires hi < 256 && lo < 256
    ensures Hex4(256 * hi + lo) == Hex2(hi) + Hex2(lo)
  {
    assert (256 * hi + lo) / 256 == hi && (256 * hi + lo) % 256 == lo;
  }

  lemma UpperJoins(a: Text, b: Text)
    ensures AsciiUpper(a + b) == AsciiUpper(a) + AsciiUpper(b)
  {
  }

  /** Printing a parsed field gives it back in upper case. */
  lemma Hex2OfParsed(s: Text)
    requires |s| == 2 && Parse2(s).Some?
    ensures Hex2(Parse2(s).value) == AsciiUpper(s)
  {
    DigitOfValue(s[0]);
    DigitOfValue(s[1]);
    JoinDigits(DigitValue(s[0]).value, DigitValue(s[1]).value);
  }

  lemma Hex4OfParsed(s: Text)
    requires |s| == 4 && Parse4(s).Some?
    ensures Hex4(Parse4(s).value) == AsciiUpper(s)
  {
    var hi, lo := Parse2(s[..2]), Parse2(s[2..]);
    Hex2OfParsed(s[..2]);
    Hex2OfParsed(s[2..]);
    JoinBytes(hi.value, lo.value);
    UpperJoins(s[..2], s[2..]);
    assert s == s[..2] + s[2..];
  }

  // ---------- Checksums in frames ----------

  /** The four bits of a digit. */
  function Nibble(d: nat): Crc16.Byte
    requires d < 16
  {
    if d < 8 then
      if d < 4 then if d < 2 then (if d == 0 then 0 else 1) else (if d == 2 then 2 else 3)
      else if d < 6 then (if d == 4 then 4 else 5) else (if d == 6 then 6 else 7)
    else
      if d < 12 then if d < 10 then (if d == 8 then 8 else 9) else (if d == 10 then 10 else 11)
      else if d < 14 then (if d == 12 then 12 else 13) else (if d == 14 then 14 else 15)
  }

  /** The digit of four bits. */
  function NibbleValue(b: Crc16.Byte): (d: nat)
    ensures d < 16
  {
    if b == 0 then 0 else if b == 1 then 1 else if b == 2 then 2 else if b == 3 then 3
    else if b == 4 then 4 else if b == 5 then 5 else if b == 6 then 6 else if b == 7 then 7
    else if b == 8 then 8 else if b == 9 then 9 else if b == 10 then 10 else if b == 11 then 11
    else if b == 12 then 12 else if b == 13 then 13 else if b == 14 then 14 else 15
  }

  lemma NibbleRoundTrip(d: nat)
    requires d < 16
    ensures Nibble(d) < 16 && NibbleValue(Nibble(d)) == d
  {
  }

  lemma ValueRoundTrip(b: Crc16.Byte)
    requires b < 16
    ensures Nibble(NibbleValue(b)) == b
  {
    assert b == 0 || b == 1 || b == 2 || b == 3 || b == 4 || b == 5 || b == 6 || b == 7 || b == 8 || b == 9 || b == 10
           || b == 11 || b == 12 || b == 13 || b == 14 || b == 15;
  }

  function Combine(hi: Crc16.Byte, lo: Crc16.Byte): Crc16.Byte {
    (hi << 4) | lo
  }

  lemma CombineInjective(a: Crc16.Byte, b: Crc16.Byte, c: Crc16.Byte, d: Crc16.Byte)
    requires a < 16 && b < 16 && c < 16 && d < 16 && Combine(a, b) == Combine(c, d)
    ensures a == c && b == d
  {
  }

  /** The bit pattern of a byte. */
  function Pattern(b: Byte): Crc16.Byte {
    Combine(Nibble(b / 16), Nibble(b % 16))
  }

  function Patterns(s: Text): (r: seq<Crc16.Byte>)
    ensures |r| == |s|
  {
    seq(|s|, i requires 0 <= i < |s| => Pattern(s[i]))
  }

  lemma PatternInjective(a: Byte, b: Byte)
    requires Pattern(a) == Pattern(b)
    ensures a == b
  {
    NibbleRoundTrip(a / 16);
    NibbleRoundTrip(b / 16);
    NibbleRoundTrip(a % 16);
    NibbleRoundTrip(b % 16);
    CombineInjective(Nibble(a / 16), Nibble(a % 16), Nibble(b / 16), Nibble(b % 16));
  }

  lemma PatternsInjective(a: Text, b: Text)
    requires Patterns(a) == Patterns(b)
    ensures a == b
  {
    forall i | 0 <= i < |a| ensures |a| == |b| && a[i] == b[i] {
      assert |a| == |Patterns(a)| == |Patterns(b)| == |b|;
      assert Patterns(a)[i] == Patterns(b)[i];
      PatternInjective(a[i], b[i]);
    }
    assert |a| == |Patterns(a)| == |Patterns(b)| == |b|;
  }

  function Checksum(s: Text): bv16 {
    Crc16.Crc(Patterns(s))
  }

  function Joined(a: Crc16.Byte, b: Crc16.Byte, c: Crc16.Byte, d: Crc16.Byte): bv16 {
    ((a as bv16) << 12) | ((b as bv16) << 8) | ((c as bv16) << 4) | (d as bv16)
  }

  function Part3(c: bv16): Crc16.Byte {
    (c >> 12) as bv8
  }

  function Part2(c: bv16): Crc16.Byte {
    ((c >> 8) & 15) as bv8
  }

  function Part1(c: bv16): Crc16.Byte {
    ((c >> 4) & 15) as bv8
  }

  function Part0(c: bv16): Crc16.Byte {
    (c & 15) as bv8
  }

  lemma JoinedParts(c: bv16)
    ensures Joined(Part3(c), Part2(c), Part1(c), Part0(c)) == c
    ensures Part3(c) < 16 && Part2(c) < 16 && Part1(c) < 16 && Part0(c) < 16
  {
  }

  lemma PartsJoined(a: Crc16.Byte, b: Crc16.Byte, c: Crc16.Byte, d: Crc16.Byte)
    requires a < 16 && b < 16 && c < 16 && d < 16
    ensures var j := Joined(a, b, c, d); Part3(j) == a && Part2(j) == b && Part1(j) == c && Part0(j) == d
  {
  }

  lemma JoinedLow(a: Crc16.Byte, a': Crc16.Byte, b: Crc16.Byte, c: Crc16.Byte, d: Crc16.Byte)
    ensures (Joined(a, b, c, d) ^ Joined(a', b, c, d)) & 0x0FFF == 0
  {
  }

  /** A checksum printed as four digits. */
  function HexCrc(c: bv16): (s: Text)
    ensures |s| == 4
  {
    [Digit(NibbleValue(Part3(c))), Digit(NibbleValue(Part2(c))),
     Digit(NibbleValue(Part1(c))), Digit(NibbleValue(Part0(c)))]
  }

  function ParseCrc(s: Text): Option<bv16>
    requires |s| == 4
  {
    var a, b, c, d := DigitValue(s[0]), DigitValue(s[1]), DigitValue(s[2]), DigitValue(s[3]);
    if a.Some? && b.Some? && c.Some? && d.Some?
    then Some(Joined(Nibble(a.value), Nibble(b.value), Nibble(c.value), Nibble(d.value)))
    else None
  }

  lemma HexCrcRoundTrip(c: bv16)
    ensures ParseCrc(HexCrc(c)) == Some(c)
  {
    JoinedParts(c);
    DigitRoundTrip(NibbleValue(Part3(c)));
    DigitRoundTrip(NibbleValue(Part2(c)));
    DigitRoundTrip(NibbleValue(Part1(c)));
    DigitRoundTrip(NibbleValue(Part0(c)));
    ValueRoundTrip(Part3(c));
    ValueRoundTrip(Part2(c));
    ValueRoundTrip(Part1(c));
    ValueRoundTrip(Part0(c));
  }

  lemma ParsedParts(s: Text)
    requires |s| == 4 && ParseCrc(s).Some?
    ensures var c := ParseCrc(s).value;
            && DigitValue(s[0]) == Some(NibbleValue(Part3(c))) && DigitValue(s[1]) == Some(NibbleValue(Part2(c)))
            && DigitValue(s[2]) == Some(NibbleValue(Part1(c))) && DigitValue(s[3]) == Some(NibbleValue(Part0(c)))
  {
    var a, b, c, d := DigitValue(s[0]).value, DigitValue(s[1]).value, DigitValue(s[2]).value, DigitValue(s[3]).value;
    NibbleRoundTrip(a);
    NibbleRoundTrip(b);
    NibbleRoundTrip(c);
    NibbleRoundTrip(d);
    PartsJoined(Nibble(a), Nibble(b), Nibble(c), Nibble(d));
  }

  /** Printing a parsed checksum gives it back in upper case. */
  lemma HexCrcOfParsed(s: Text)
    requires |s| == 4 && ParseCrc(s).Some?
    ensures HexCrc(ParseCrc(s).value) == AsciiUpper(s)
  {
    ParsedParts(s);
    DigitOfValue(s[0]);
    DigitOfValue(s[1]);
    DigitOfValue(s[2]);
    DigitOfValue(s[3]);
  }

  /** The last four characters are the checksum of the rest. */
  predicate VerifyCrc(frame: Text) {
    && |frame| >= 5
    && ParseCrc(frame[|frame| - 4..]) == Some(Checksum(frame[..|frame| - 4]))
  }

  method VerifyCRC(frame: Text) returns (ok: bool)
    ensures ok == VerifyCrc(frame)
  {
    if |frame| < 5 {
      return false;
    }
    var payloadEnd := |frame| - 4;
    var got := ParseCrc(frame[payloadEnd..]);
    if got.None? {
      return false;
    }
    var want := Crc16.CRC16(Patterns(frame[..payloadEnd]));
    return got.value == want;
  }

  lemma BodyDamaged(a: Text, b: Text, at: nat)
    requires |a| == |b| && a != b
    requires forall i :: 0 <= i < |a| && i != at && i != at + 1 ==> a[i] == b[i]
    ensures Checksum(a) != Checksum(b)
  {
    if Patterns(a) == Patterns(b) {
      PatternsInjective(a, b);
    }
    Crc16.AdjacentBytesDetected(Patterns(a), Patterns(b), at);
  }

  lemma LastDamaged(a: Text, b: Text)
    requires |a| == |b| && a != [] && a != b && forall i :: 0 <= i < |a| - 1 ==> a[i] == b[i]
    ensures (Checksum(a) ^ Checksum(b)) & 0x0FFF != 0
  {
    if Patterns(a) == Patterns(b) {
      PatternsInjective(a, b);
    }
    var p, q, n := Patterns(a), Patterns(b), |a| - 1;
    assert p[..n] == q[..n];
    Crc16.LastByteDetected(p, q);
  }

  lemma DigitsDiffer(s: Text, t: Text)
    requires |s| == 4 && |t| == 4 && s[1..] == t[1..] && ParseCrc(s).Some? && ParseCrc(t).Some?
    ensures (ParseCrc(s).value ^ ParseCrc(t).value) & 0x0FFF == 0
  {
    assert s[1] == s[1..][0] == t[1] && s[2] == s[1..][1] == t[2] && s[3] == s[1..][2] == t[3];
    var b, c, d := DigitValue(s[1]).value, DigitValue(s[2]).value, DigitValue(s[3]).value;
    JoinedLow(Nibble(DigitValue(s[0]).value), Nibble(DigitValue(t[0]).value), Nibble(b), Nibble(c), Nibble(d));
  }

  /** The checksum text of an accepted frame is determined by the frame, up to letter case. */
  lemma ChecksumTextDetermined(f: Text, g: Text)
    requires VerifyCrc(f) && VerifyCrc(g) && |f| == |g| && f[..|f| - 4] == g[..|g| - 4]
    ensures AsciiUpper(f[|f| - 4..]) == AsciiUpper(g[|g| - 4..])
  {
    HexCrcOfParsed(f[|f| - 4..]);
    HexCrcOfParsed(g[|g| - 4..]);
  }

  /** A checksum of which only its error detection is used. */
  ghost predicate Detects(sum: Text -> bv16) {
    && (forall a, b, at: nat :: AdjacentOnly(a, b, at) && a != b ==> sum(a) != sum(b))
    && (forall a, b :: LastOnly(a, b) && a != b ==> (sum(a) ^ sum(b)) & 0x0FFF != 0)
  }

  ghost predicate AdjacentOnly(a: Text, b: Text, at: nat) {
    |a| == |b| && forall i :: 0 <= i < |a| && i != at && i != at + 1 ==> a[i] == b[i]
  }

  ghost predicate LastOnly(a: Text, b: Text) {
    |a| == |b| && a != [] && forall i :: 0 <= i < |a| - 1 ==> a[i] == b[i]
  }

  lemma ChecksumDetects()
    ensures Detects(Checksum)
  {
    forall a, b, at: nat | AdjacentOnly(a, b, at) && a != b ensures Checksum(a) != Checksum(b) {
      BodyDamaged(a, b, at);
    }
    forall a, b | LastOnly(a, b) && a != b ensures (Checksum(a) ^ Checksum(b)) & 0x0FFF != 0 {
      LastDamaged(a, b);
    }
  }

  predicate Guards(sum: Text -> bv16, f: Text) {
    |f| >= 5 && ParseCrc(f[|f| - 4..]) == Some(sum(f[..|f| - 4]))
  }

  lemma InBody(sum: Text -> bv16, f: Text, g: Text, at: nat)
    requires Detects(sum) && Guards(sum, f) && Guards(sum, g) && AdjacentOnly(f, g, at) && at + 1 < |f| - 4
    ensures f[..|f| - 4] == g[..|g| - 4]
  {
    var n := |f| - 4;
    assert f[n..] == g[n..];
    assert AdjacentOnly(f[..n], g[..n], at);
  }

  lemma Straddling(sum: Text -> bv16, f: Text, g: Text)
    requires Detects(sum) && Guards(sum, f) && Guards(sum, g) && AdjacentOnly(f, g, |f| - 5)
    ensures f[..|f| - 4] == g[..|g| - 4]
  {
    var n := |f| - 4;
    assert LastOnly(f[..n], g[..n]);
    assert f[n..][1..] == g[n..][1..];
    DigitsDiffer(f[n..], g[n..]);
  }

  lemma InDigits(f: Text, g: Text, at: nat)
    requires |f| >= 5 && AdjacentOnly(f, g, at) && |f| - 4 <= at
    ensures f[..|f| - 4] == g[..|g| - 4]
  {
  }

  lemma SameBody(sum: Text -> bv16, f: Text, g: Text, at: nat)
    requires Detects(sum) && Guards(sum, f) && Guards(sum, g) && AdjacentOnly(f, g, at)
    ensures f[..|f| - 4] == g[..|g| - 4]
  {
    if at + 1 < |f| - 4 {
      InBody(sum, f, g, at);
    } else if at + 1 == |f| - 4 {
      Straddling(sum, f, g);
    } else {
      InDigits(f, g, at);
    }
  }

  /** Two accepted frames of one length that differ only in two adjacent bytes, anywhere, differ at most in the
      letter case of their checksum: every other damage to two adjacent bytes is rejected. */
  lemma TamperedFrameRejected(f: Text, g: Text, at: nat)
    requires VerifyCrc(f) && AdjacentOnly(f, g, at)
    ensures VerifyCrc(g) ==>
              f[..|f| - 4] == g[..|g| - 4] && AsciiUpper(f[|f| - 4..]) == AsciiUpper(g[|g| - 4..])
  {
    if VerifyCrc(g) {
      ChecksumDetects();
      SameBody(Checksum, f, g, at);
      ChecksumTextDetermined(f, g);
    }
  }

  /** A prefix with its checksum text. */
  function Seal(prefix: Text): (s: Text)
    ensures |s| == |prefix| + 4 && s[..|prefix|] == prefix
  {
    prefix + HexCrc(Checksum(prefix))
  }

  lemma SealVerifies(prefix: Text)
    requires prefix != []
    ensures VerifyCrc(Seal(prefix))
  {
    HexCrcRoundTrip(Checksum(prefix));
    assert Seal(prefix)[|prefix|..] == HexCrc(Checksum(prefix));
  }

  lemma HexNotSpace(c: bv16)
    ensures var d := HexCrc(c)[3]; !Space(d) && d < 0x80
  {
    DigitRoundTrip(NibbleValue(Part0(c)));
  }

  lemma TrimOnly(u: Unicode, s: Text)
    requires s != [] && Tight(s) && s[0] < 0x80 && s[|s| - 1] < 0x80
    ensures Trim(u, s + [Cr]) == s
  {
    var t := s + [Cr];
    assert SkipLeft(t, 0) == 0;
    assert t[|t| - 1] == Cr && t[|s| - 1] == s[|s| - 1];
    assert SkipRight(t, 0, |t|) == SkipRight(t, 0, |s|) == |s|;
  }

  /** A terminated, sealed text that starts with a mark is trimmed to itself. */
  lemma TrimSealed(u: Unicode, prefix: Text)
    requires prefix != [] && !Space(prefix[0]) && prefix[0] < 0x80
    ensures Trim(u, Seal(prefix) + [Cr]) == Seal(prefix) && TrimCr(Seal(prefix)) == Seal(prefix)
  {
    HexNotSpace(Checksum(prefix));
    var s := Seal(prefix);
    assert s[|s| - 1] == HexCrc(Checksum(prefix))[3];
    assert s[0] == prefix[0];
    TrimOnly(u, s);
  }

  // ---------- Requests ----------

  datatype Request = Request(raw: Text, address: nat, seqNo: nat, payload: Text)

  datatype FrameError = InvalidFrame | InvalidCrc | InvalidAddress | InvalidSequence

  /** The text in front of the checksum. */
  function Prefix(mark: Byte, address: nat, seqNo: nat, body: Text): (s: Text)
    requires address < 256 && seqNo < 65536
    ensures |s| == 7 + |body| && s[0] == mark && s[1..3] == Hex2(address) && s[3..7] == Hex4(seqNo) && s[7..] == body
  {
    [mark] + Hex2(address) + Hex4(seqNo) + body
  }

  /** Hexadecimal digits without leading zeros. */
  function HexDigits(n: nat): (s: Text)
    ensures |s| >= 1
  {
    if n < 16 then [Digit(n)] else HexDigits(n / 16) + [Digit(n % 16)]
  }

  /** What the format %02X prints for any integer. */
  function AddressText(address: int): Text {
    if 0 <= address < 256 then Hex2(address)
    else if address >= 256 then HexDigits(address)
    else [Minus] + HexDigits(-address)
  }

  /** A request frame; the address is an integer that need not fit its two digits. */
  function AppendCrc(address: int, seqNo: nat, body: Text): Text
    requires seqNo < 65536
  {
    Seal([Hash] + AddressText(address) + Hex4(seqNo) + body) + [Cr]
  }

  function RoutedRequest(u: Unicode, address: nat, seqNo: nat, payload: Text): Text
    requires address < 256 && seqNo < 65536
  {
    AppendCrc(address, seqNo, Upper(u, payload))
  }

  datatype Fields = Fields(address: nat, seqNo: nat, body: Text)

  /** The fields of a frame that starts with `mark` and whose checksum holds. */
  function Decode(mark: Byte, frame: Text): (r: Result<Fields, FrameError>)
    ensures r.Ok? ==> r.value.address < 256 && r.value.seqNo < 65536
  {
    if |frame| < 11 || frame[0] != mark then Err(InvalidFrame)
    else if !VerifyCrc(frame) then Err(InvalidCrc)
    else Fielded(frame)
  }

  function Fielded(frame: Text): (r: Result<Fields, FrameError>)
    requires |frame| >= 11
    ensures r.Ok? ==> r.value.address < 256 && r.value.seqNo < 65536
  {
    var address, seqNo := Parse2(frame[1..3]), Parse4(frame[3..7]);
    if address.None? then Err(InvalidAddress)
    else if seqNo.None? then Err(InvalidSequence)
    else Ok(Fields(address.value, seqNo.value, frame[7..|frame| - 4]))
  }

  function ParseRequest(u: Unicode, raw: Text): (r: Result<Request, FrameError>)
    ensures r.Ok? ==> r.value.address < 256 && r.value.seqNo < 65536
  {
    var frame := TrimCr(Trim(u, raw));
    if |frame| >= 2 && frame[0] == Query then Ok(Request(raw, 0, 0, Upper(u, frame)))
    else
      match Decode(Hash, frame)
      case Ok(f) => Ok(Request(raw, f.address, f.seqNo, Upper(u, f.body)))
      case Err(e) => Err(e)
  }

  lemma SealedFields(prefix: Text)
    requires |prefix| >= 7
    ensures Seal(prefix)[0] == prefix[0] && Seal(prefix)[1..3] == prefix[1..3] && Seal(prefix)[3..7] == prefix[3..7]
    ensures Seal(prefix)[7..|prefix|] == prefix[7..]
  {
  }

  lemma DecodeSealed(mark: Byte, address: nat, seqNo: nat, body: Text)
    requires address < 256 && seqNo < 65536
    ensures Decode(mark, Seal(Prefix(mark, address, seqNo, body))) == Ok(Fields(address, seqNo, body))
  {
    var prefix := Prefix(mark, address, seqNo, body);
    SealVerifies(prefix);
    SealedFields(prefix);
    Hex2RoundTrip(address);
    Hex4RoundTrip(seqNo);
  }

  lemma BuiltByteAddress(u: Unicode, address: nat, seqNo: nat, body: Text)
    requires address < 256 && seqNo < 65536
    ensures ParseRequest(u, AppendCrc(address, seqNo, body))
         == Ok(Request(AppendCrc(address, seqNo, body), address, seqNo, Upper(u, body)))
  {
    var prefix := Prefix(Hash, address, seqNo, body);
    TrimSealed(u, prefix);
    DecodeSealed(Hash, address, seqNo, body);
  }

  /** Upper-case hexadecimal digits. */
  ghost predicate HexText(s: Text) {
    forall i :: 0 <= i < |s| ==> DigitValue(s[i]).Some? && UpperByte(s[i]) == s[i]
  }

  lemma Hex4IsHex(n: nat)
    requires n < 65536
    ensures HexText(Hex4(n))
  {
  }

  lemma {:induction false} HexDigitsAreHex(n: nat)
    ensures HexText(HexDigits(n))
  {
    if n >= 16 { HexDigitsAreHex(n / 16); }
  }

  /** The number shown by the two leading hexadecimal digits. */
  function LeadingByte(n: nat): (r: nat)
    ensures r < 256 && r <= n && (n >= 256 ==> r < n)
  {
    if n < 256 then n else LeadingByte(n / 16)
  }

  lemma {:induction false} LeadingDigits(n: nat)
    requires n >= 16
    ensures |HexDigits(n)| >= 2 && HexDigits(n)[..2] == Hex2(LeadingByte(n))
    ensures n >= 256 ==> |HexDigits(n)| >= 3
  {
    if n < 256 {
      assert HexDigits(n / 16) == [Digit(n / 16)];
    } else {
      LeadingDigits(n / 16);
    }
  }

  lemma SealedDecodes(text: Text)
    requires |text| >= 6
    ensures Decode(Hash, Seal([Hash] + text)) ==
            match (Parse2(text[..2]), Parse4(text[2..6]))
            case (None, _) => Err(InvalidAddress)
            case (Some(_), None) => Err(InvalidSequence)
            case (Some(a), Some(q)) => Ok(Fields(a, q, text[6..]))
  {
    var prefix := [Hash] + text;
    SealVerifies(prefix);
    SealedFields(prefix);
    assert prefix[1..3] == text[..2] && prefix[3..7] == text[2..6] && prefix[7..] == text[6..];
  }

  /** What a sealed text parses to. */
  lemma SealedParses(u: Unicode, text: Text)
    requires |text| >= 6
    ensures ParseRequest(u, Seal([Hash] + text) + [Cr]) ==
            match (Parse2(text[..2]), Parse4(text[2..6]))
            case (None, _) => Err(InvalidAddress)
            case (Some(_), None) => Err(InvalidSequence)
            case (Some(a), Some(q)) => Ok(Request(Seal([Hash] + text) + [Cr], a, q, Upper(u, text[6..])))
  {
    TrimSealed(u, [Hash] + text);
    SealedDecodes(text);
  }

  lemma HexParses(s: Text)
    requires HexText(s)
    ensures |s| == 2 ==> Parse2(s).Some? && Hex2(Parse2(s).value) == s
    ensures |s| == 4 ==> Parse4(s).Some? && Hex4(Parse4(s).value) == s
  {
    assert AsciiUpper(s) == s;
    if |s| == 2 { Hex2OfParsed(s); }
    if |s| == 4 { Hex4OfParsed(s); }
  }

  /** The digits of a request are read in places: two, four, and the rest is payload. */
  ghost predicate ReadInPlaces(u: Unicode, digits: Text, body: Text, r: Request) {
    && r.address < 256 && r.seqNo < 65536 && |digits| >= 6
    && digits == Hex2(r.address) + Hex4(r.seqNo) + digits[6..] && r.payload == Upper(u, digits[6..] + body)
  }

  lemma DigitsParse(u: Unicode, digits: Text, body: Text)
    requires |digits| >= 6 && HexText(digits)
    ensures var r := ParseRequest(u, Seal([Hash] + (digits + body)) + [Cr]);
            r.Ok? && r.value.raw == Seal([Hash] + (digits + body)) + [Cr] && ReadInPlaces(u, digits, body, r.value)
  {
    SealedParses(u, digits + body);
    Places(digits, body);
    HexParses(digits[..2]);
    HexParses(digits[2..6]);
  }

  lemma Places(digits: Text, body: Text)
    requires |digits| >= 6
    ensures var text := digits + body;
            text[..2] == digits[..2] && text[2..6] == digits[2..6] && text[6..] == digits[6..] + body
    ensures digits == digits[..2] + digits[2..6] + digits[6..]
  {
  }

  lemma WideAddress(u: Unicode, address: nat, seqNo: nat, body: Text)
    requires address >= 256 && seqNo < 65536
    ensures var r := ParseRequest(u, AppendCrc(address, seqNo, body));
            && r.Ok? && ReadInPlaces(u, HexDigits(address) + Hex4(seqNo), body, r.value)
            && r.value.address == LeadingByte(address)
  {
    var digits := HexDigits(address) + Hex4(seqNo);
    HexDigitsAreHex(address);
    Hex4IsHex(seqNo);
    LeadingDigits(address);
    assert [Hash] + AddressText(address) + Hex4(seqNo) + body == [Hash] + (digits + body);
    DigitsParse(u, digits, body);
    var r := ParseRequest(u, AppendCrc(address, seqNo, body)).value;
    assert Hex2(r.address) == digits[..2] == Hex2(LeadingByte(address));
    Hex2RoundTrip(r.address);
    Hex2RoundTrip(LeadingByte(address));
  }

  lemma NegativeAddress(u: Unicode, address: int, seqNo: nat, body: Text)
    requires address < 0 && seqNo < 65536
    ensures ParseRequest(u, AppendCrc(address, seqNo, body)) == Err(InvalidAddress)
  {
    var text := AddressText(address) + Hex4(seqNo) + body;
    assert [Hash] + AddressText(address) + Hex4(seqNo) + body == [Hash] + text;
    SealedParses(u, text);
    assert text[..2][0] == Minus;
  }

  /** Parsing a built request returns its address, sequence number and payload in upper case if the address fits into a
      byte.  A negative address is refused; a wider one is taken for its two leading digits, and its other digits
      displace the sequence number and part of it into the payload. */
  lemma BuiltRequestParses(u: Unicode, address: int, seqNo: nat, body: Text)
    requires seqNo < 65536
    ensures var frame := AppendCrc(address, seqNo, body);
            var r := ParseRequest(u, frame);
            if address < 0 then r == Err(InvalidAddress)
            else if address < 256 then r == Ok(Request(frame, address, seqNo, Upper(u, body)))
            else
              && r.Ok? && r.value.address == LeadingByte(address) < address
              && ReadInPlaces(u, HexDigits(address) + Hex4(seqNo), body, r.value)
  {
    if address < 0 {
      NegativeAddress(u, address, seqNo, body);
    } else if address < 256 {
      BuiltByteAddress(u, address, seqNo, body);
    } else {
      WideAddress(u, address, seqNo, body);
    }
  }

  lemma RoutedRequestParses(u: Unicode, address: nat, seqNo: nat, payload: Text)
    requires Library(u) && address < 256 && seqNo < 65536
    ensures ParseRequest(u, RoutedRequest(u, address, seqNo, payload))
         == Ok(Request(RoutedRequest(u, address, seqNo, payload), address, seqNo, Upper(u, payload)))
  {
    UpperIdempotent(u, payload);
    BuiltByteAddress(u, address, seqNo, Upper(u, payload));
  }

  lemma SplitFrame(s: Text)
    requires |s| >= 11
    ensures s == [s[0]] + s[1..3] + s[3..7] + s[7..|s| - 4] + s[|s| - 4..]
    ensures s[..|s| - 4] == [s[0]] + s[1..3] + s[3..7] + s[7..|s| - 4]
  {
  }

  /** The text of a decoded frame, field by field. */
  lemma DecodedText(mark: Byte, s: Text)
    requires Decode(mark, s).Ok?
    ensures var f := Decode(mark, s).value;
            && |s| >= 11 && s[0] == mark && f.body == s[7..|s| - 4]
            && AsciiUpper(s[1..3]) == Hex2(f.address) && AsciiUpper(s[3..7]) == Hex4(f.seqNo)
            && AsciiUpper(s[|s| - 4..]) == HexCrc(Checksum(s[..|s| - 4]))
  {
    Hex2OfParsed(s[1..3]);
    Hex4OfParsed(s[3..7]);
    HexCrcOfParsed(s[|s| - 4..]);
  }

  /** Nothing in the text changes by putting it in upper case. */
  predicate UpperFrame(u: Unicode, s: Text)
    requires |s| >= 11
  {
    && AsciiUpper(s[1..3]) == s[1..3] && AsciiUpper(s[3..7]) == s[3..7]
    && Upper(u, s[7..|s| - 4]) == s[7..|s| - 4] && AsciiUpper(s[|s| - 4..]) == s[|s| - 4..]
  }

  lemma RebuildUpper(s: Text, address: nat, seqNo: nat)
    requires |s| >= 11 && s[0] == Hash && address < 256 && seqNo < 65536
    requires s[1..3] == Hex2(address) && s[3..7] == Hex4(seqNo)
    requires s[|s| - 4..] == HexCrc(Checksum(s[..|s| - 4]))
    ensures Seal(Prefix(Hash, address, seqNo, s[7..|s| - 4])) == s
  {
    SplitFrame(s);
    assert s == s[..|s| - 4] + s[|s| - 4..];
  }

  /** Conversely, building from what was parsed restores an upper-case frame exactly. */
  lemma ParsedRequestRebuilds(u: Unicode, raw: Text)
    requires Library(u)
    ensures var s := Trim(u, raw);
            ParseRequest(u, raw).Ok? && Starts(s, Hash) ==>
              && |s| >= 11
              && (UpperFrame(u, s) ==>
                    var r := ParseRequest(u, raw).value;
                    RoutedRequest(u, r.address, r.seqNo, r.payload) == s + [Cr])
  {
    var s := Trim(u, raw);
    TrimIsTight(u, raw);
    if ParseRequest(u, raw).Ok? && Starts(s, Hash) {
      var f := Decode(Hash, s).value;
      DecodedText(Hash, s);
      if UpperFrame(u, s) {
        RebuildUpper(s, f.address, f.seqNo);
        UpperIdempotent(u, f.body);
      }
    }
  }

  // ---------- Address zero ----------

  predicate Addressed(u: Unicode, frame: Text, address: nat)
    requires address < 256
  {
    var s := Trim(u, frame);
    |s| >= 3 && s[0] == Hash && AsciiUpper(s[1..3]) == Hex2(address)
  }

  function RewriteRequest(u: Unicode, frame: Text, address: nat): Text
    requires address < 256
  {
    if address == 0 || !Addressed(u, frame, 0) then frame
    else
      var r := ParseRequest(u, frame);
      if r.Err? || r.value.address != 0 then frame
      else RoutedRequest(u, address, r.value.seqNo, r.value.payload)
  }

  /** A valid request to address zero, as opposed to a bare query. */
  predicate AsksZero(u: Unicode, frame: Text) {
    var s := Trim(u, frame);
    s != [] && s[0] == Hash && ParseRequest(u, frame).Ok? && ParseRequest(u, frame).value.address == 0
  }

  lemma AskingIsAddressed(u: Unicode, frame: Text)
    requires Library(u) && AsksZero(u, frame)
    ensures Addressed(u, frame, 0)
  {
    TrimIsTight(u, frame);
    DecodedText(Hash, Trim(u, frame));
  }

  lemma PayloadText(u: Unicode, frame: Text)
    requires Library(u) && AsksZero(u, frame)
    ensures |Trim(u, frame)| >= 11
    ensures ParseRequest(u, frame).value.payload == Upper(u, Trim(u, frame)[7..|Trim(u, frame)| - 4])
  {
    TrimIsTight(u, frame);
  }

  lemma UpperPayload(u: Unicode, frame: Text)
    requires Library(u) && AsksZero(u, frame)
    ensures Upper(u, ParseRequest(u, frame).value.payload) == ParseRequest(u, frame).value.payload
  {
    PayloadText(u, frame);
    var s := Trim(u, frame);
    UpperIdempotent(u, s[7..|s| - 4]);
  }

  lemma UnaskedUnchanged(u: Unicode, frame: Text, address: nat)
    requires address < 256 && (address == 0 || !AsksZero(u, frame))
    ensures RewriteRequest(u, frame, address) == frame
  {
  }

  /** A valid address-00 request reaches the device with its address and is unchanged otherwise. */
  lemma RewrittenRequest(u: Unicode, frame: Text, address: nat)
    requires Library(u) && address < 256
    ensures address == 0 || !AsksZero(u, frame) ==> RewriteRequest(u, frame, address) == frame
    ensures address != 0 && AsksZero(u, frame) ==>
              var w, r := RewriteRequest(u, frame, address), ParseRequest(u, frame).value;
              ParseRequest(u, w) == Ok(Request(w, address, r.seqNo, r.payload))
  {
    if address == 0 || !AsksZero(u, frame) {
      UnaskedUnchanged(u, frame, address);
    } else {
      AskingIsAddressed(u, frame);
      UpperPayload(u, frame);
      var r := ParseRequest(u, frame).value;
      RoutedRequestParses(u, address, r.seqNo, r.payload);
    }
  }

  /** The fields of a response whose checksum holds. */
  function ParseResponse(u: Unicode, raw: Text): (r: Option<Fields>)
    ensures r.Some? ==> r.value.address < 256 && r.value.seqNo < 65536
  {
    match Decode(Bang, TrimCr(Trim(u, raw)))
    case Ok(f) => Some(f)
    case Err(_) => None
  }

  /** The payload a requester accepts: its address unless it asked address zero, its sequence number, no NACK. */
  function ResponsePayload(u: Unicode, request: Request, raw: Text): Option<Text> {
    var r := ParseResponse(u, raw);
    if r.None? then None
    else if request.address != 0 && r.value.address != request.address then None
    else if r.value.seqNo != request.seqNo then None
    else
      var first := TrimCr(Trim(u, raw))[7];
      if first == Minus then None
      else if first == Plus && r.value.body != [] then Some(Upper(u, r.value.body[1..]))
      else if first == Plus then None
      else Some(Upper(u, r.value.body))
  }

  function RewriteResponse(u: Unicode, frame: Text, address: nat): Text
    requires address < 256
  {
    var s := Trim(u, frame);
    if |s| < 11 || s[0] != Bang then frame
    else if |s| - 4 <= 7 then frame
    else Seal([Bang] + Hex2(address) + s[3..|s| - 4]) + [Cr]
  }

  function RestoreResponse(u: Unicode, request: Text, response: Text): Text {
    if !Addressed(u, request, 0) then response else RewriteResponse(u, response, 0)
  }

  lemma RewrittenPrefix(s: Text, address: nat)
    requires |s| > 11 && address < 256
    ensures var p := [Bang] + Hex2(address) + s[3..|s| - 4];
            |p| == |s| - 4 && p[0] == Bang && p[1..3] == Hex2(address) && p[3..7] == s[3..7] && p[7..] == s[7..|s| - 4]
  {
    var rest := s[3..|s| - 4];
    var p := [Bang] + Hex2(address) + rest;
    assert p[3..] == rest;
    assert p[3..7] == rest[..4] == s[3..7];
    assert p[7..] == rest[4..] == s[7..|s| - 4];
  }

  /** Whatever the response's own checksum was, a rewritten one carries a matching checksum. */
  lemma RewriteSeals(u: Unicode, frame: Text, address: nat)
    requires address < 256 && |Trim(u, frame)| > 11 && Trim(u, frame)[0] == Bang
    ensures var w := RewriteResponse(u, frame, address);
            && VerifyCrc(Trim(u, w)) && |Trim(u, w)| == |Trim(u, frame)|
            && Trim(u, w)[0] == Bang && Trim(u, w)[1..3] == Hex2(address)
            && Trim(u, w)[3..7] == Trim(u, frame)[3..7]
            && Trim(u, w)[7..|Trim(u, w)| - 4] == Trim(u, frame)[7..|Trim(u, frame)| - 4]
  {
    var s := Trim(u, frame);
    var p := [Bang] + Hex2(address) + s[3..|s| - 4];
    RewrittenPrefix(s, address);
    TrimSealed(u, p);
    SealVerifies(p);
    SealedFields(p);
  }

  /** Two frames that differ only in address and checksum. */
  lemma FieldsReaddressed(s: Text, t: Text, address: nat)
    requires |t| == |s| >= 11 && address < 256 && Fielded(s).Ok?
    requires t[1..3] == Hex2(address) && t[3..7] == s[3..7] && t[7..|t| - 4] == s[7..|s| - 4]
    ensures Fielded(t) == Ok(Fielded(s).value.(address := address))
  {
    Hex2RoundTrip(address);
  }

  lemma ResponseText(u: Unicode, frame: Text)
    requires Library(u) && ParseResponse(u, frame).Some?
    ensures var s := Trim(u, frame);
            |s| >= 11 && s[0] == Bang && Decode(Bang, s) == Ok(ParseResponse(u, frame).value)
            && |ParseResponse(u, frame).value.body| == |s| - 11
  {
    TrimIsTight(u, frame);
  }

  lemma BodyRestored(u: Unicode, frame: Text, address: nat)
    requires Library(u) && address < 256 && ParseResponse(u, frame).Some? && ParseResponse(u, frame).value.body != []
    ensures ParseResponse(u, RewriteResponse(u, frame, address))
         == Some(ParseResponse(u, frame).value.(address := address))
  {
    ResponseText(u, frame);
    RewriteSeals(u, frame, address);
    var w := RewriteResponse(u, frame, address);
    FieldsReaddressed(Trim(u, frame), Trim(u, w), address);
    TrimIsTight(u, w);
  }

  lemma BareUnchanged(u: Unicode, frame: Text, address: nat)
    requires Library(u) && address < 256 && ParseResponse(u, frame).Some? && ParseResponse(u, frame).value.body == []
    ensures RewriteResponse(u, frame, address) == frame
  {
    ResponseText(u, frame);
  }

  /** The address of a valid response is replaced, its sequence number and body kept, exactly when it has a body. */
  lemma RestoredResponse(u: Unicode, frame: Text, address: nat)
    requires Library(u) && address < 256
    ensures ParseResponse(u, frame).Some? ==>
              var r := ParseResponse(u, frame).value;
              && (ParseResponse(u, RewriteResponse(u, frame, address)) == Some(r.(address := address))
                  <==> r.body != [] || r.address == address)
              && (r.body == [] ==> RewriteResponse(u, frame, address) == frame)
  {
    if ParseResponse(u, frame).Some? {
      if ParseResponse(u, frame).value.body == [] {
        BareUnchanged(u, frame, address);
      } else {
        BodyRestored(u, frame, address);
      }
    }
  }

  /** What a requester reads from a response depends only on its fields and, for the sign, its eighth character. */
  lemma PayloadOfFields(u: Unicode, p: Request, v: Text, q: Request, w: Text)
    requires ParseResponse(u, v).Some? && ParseResponse(u, w).Some?
    requires p.seqNo == q.seqNo && ParseResponse(u, v).value.seqNo == ParseResponse(u, w).value.seqNo
    requires ParseResponse(u, v).value.body == ParseResponse(u, w).value.body
    requires p.address == 0 || p.address == ParseResponse(u, v).value.address
    requires q.address == 0 || q.address == ParseResponse(u, w).value.address
    requires TrimCr(Trim(u, v))[7] == TrimCr(Trim(u, w))[7]
    ensures ResponsePayload(u, p, v) == ResponsePayload(u, q, w)
  {
  }

  lemma RewriteKeepsEighth(u: Unicode, frame: Text, address: nat)
    requires Library(u) && address < 256 && |Trim(u, frame)| >= 11 && Trim(u, frame)[0] == Bang
    ensures var w := RewriteResponse(u, frame, address);
            |TrimCr(Trim(u, w))| >= 11 && TrimCr(Trim(u, w))[7] == TrimCr(Trim(u, frame))[7]
  {
    var s, w := Trim(u, frame), RewriteResponse(u, frame, address);
    TrimIsTight(u, frame);
    TrimIsTight(u, w);
    if |s| > 11 {
      RewriteSeals(u, frame, address);
      assert Trim(u, w)[7] == Trim(u, w)[7..|s| - 4][0] == s[7..|s| - 4][0] == s[7];
    }
  }

  /** The client that asked address zero accepts the restored response as the bridge would accept the device's. */
  lemma AddressZeroExchange(u: Unicode, request: Text, device: nat, response: Text)
    requires Library(u) && 0 < device < 256
    ensures AsksZero(u, request) && ParseResponse(u, response).Some?
            && ParseResponse(u, response).value.address == device ==>
              && ParseRequest(u, RewriteRequest(u, request, device)).Ok?
              && ResponsePayload(u, ParseRequest(u, request).value, RestoreResponse(u, request, response))
                 == ResponsePayload(u, ParseRequest(u, RewriteRequest(u, request, device)).value, response)
  {
    if AsksZero(u, request) && ParseResponse(u, response).Some? && ParseResponse(u, response).value.address == device {
      RewrittenRequest(u, request, device);
      AskingIsAddressed(u, request);
      RestoredResponse(u, response, 0);
      ResponseText(u, response);
      RewriteKeepsEighth(u, response, 0);
      PayloadOfFields(u, ParseRequest(u, request).value, RestoreResponse(u, request, response),
                      ParseRequest(u, RewriteRequest(u, request, device)).value, response);
    }
  }

  /** A restored response is accepted exactly if it was accepted before or was rewritten, whatever it then holds. */
  lemma RestoredVerifies(u: Unicode, request: Text, response: Text)
    ensures VerifyCrc(Trim(u, RestoreResponse(u, request, response))) <==>
              || VerifyCrc(Trim(u, response))
              || (Addressed(u, request, 0) && |Trim(u, response)| > 11 && Trim(u, response)[0] == Bang)
  {
    if Addressed(u, request, 0) && |Trim(u, response)| > 11 && Trim(u, response)[0] == Bang {
      RewriteSeals(u, response, 0);
    }
  }

  /** So a response damaged in two adjacent bytes is rejected as it stands, and accepted once it has been restored. */
  lemma DamageHidden(u: Unicode, request: Text, sound: Text, damaged: Text, at: nat)
    requires Addressed(u, request, 0)
    requires var s, d := Trim(u, sound), Trim(u, damaged);
             VerifyCrc(s) && AdjacentOnly(s, d, at) && |d| > 11 && d[0] == Bang && d[..|d| - 4] != s[..|s| - 4]
    ensures !VerifyCrc(Trim(u, damaged)) && VerifyCrc(Trim(u, RestoreResponse(u, request, damaged)))
  {
    TamperedFrameRejected(Trim(u, sound), Trim(u, damaged), at);
    RestoredVerifies(u, request, damaged);
  }

  /** Every device's bare acknowledgement of an address-00 request is a valid response that keeps the device's
      address. */
  lemma BareAckKeepsAddress(u: Unicode, device: nat, seqNo: nat, body: Text)
    requires Library(u) && 0 < device < 256 && seqNo < 65536
    ensures var request, ack := AppendCrc(0, seqNo, body), Seal(Prefix(Bang, device, seqNo, [])) + [Cr];
            && Addressed(u, request, 0) && ParseResponse(u, ack) == Some(Fields(device, seqNo, []))
            && ParseResponse(u, RestoreResponse(u, request, ack)) == Some(Fields(device, seqNo, []))
  {
    var request, prefix := Prefix(Hash, 0, seqNo, body), Prefix(Bang, device, seqNo, []);
    TrimSealed(u, request);
    SealedFields(request);
    assert AsciiUpper(Hex2(0)) == Hex2(0);
    TrimSealed(u, prefix);
    DecodeSealed(Bang, device, seqNo, []);
    RestoredResponse(u, Seal(prefix) + [Cr], 0);
  }

  // ---------- What a response gives its requester ----------

  lemma SealedResponse(u: Unicode, address: nat, seqNo: nat, body: Text)
    requires address < 256 && seqNo < 65536
    ensures var frame := Seal(Prefix(Bang, address, seqNo, body)) + [Cr];
            && ParseResponse(u, frame) == Some(Fields(address, seqNo, body))
            && TrimCr(Trim(u, frame)) == Trim(u, frame) == Seal(Prefix(Bang, address, seqNo, body))
  {
    var prefix := Prefix(Bang, address, seqNo, body);
    TrimSealed(u, prefix);
    DecodeSealed(Bang, address, seqNo, body);
  }

  lemma EighthByte(address: nat, seqNo: nat, body: Text)
    requires address < 256 && seqNo < 65536
    ensures var s := Seal(Prefix(Bang, address, seqNo, body));
            && (body != [] ==> s[7] == body[0])
            && (body == [] ==> s[7] != Minus && s[7] != Plus)
  {
    var prefix := Prefix(Bang, address, seqNo, body);
    SealedFields(prefix);
    if body == [] {
      assert Seal(prefix)[7] == HexCrc(Checksum(prefix))[0];
    } else {
      assert Seal(prefix)[7] == Seal(prefix)[7..|prefix|][0];
    }
  }

  /** A response that a device writes gives its body in upper case, without a leading plus sign, to the requester whose
      sequence number it repeats and who asked its address or address zero; a body with a leading minus sign is a
      refusal and gives nothing. */
  lemma ResponseGives(u: Unicode, request: Request, address: nat, seqNo: nat, body: Text)
    requires address < 256 && seqNo < 65536
    ensures ResponsePayload(u, request, Seal([Bang] + Hex2(address) + Hex4(seqNo) + body) + [Cr]) ==
            if (request.address == 0 || request.address == address) && request.seqNo == seqNo
               && !(|body| > 0 && body[0] == 0x2D)
            then Some(Upper(u, if |body| > 0 && body[0] == 0x2B then body[1..] else body))
            else None
  {
    SealedResponse(u, address, seqNo, body);
    EighthByte(address, seqNo, body);
    assert [Bang] + Hex2(address) + Hex4(seqNo) + body == Prefix(Bang, address, seqNo, body);
  }
}
