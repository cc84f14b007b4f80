/** The MeCom checksum: mecom/protocol.go, CRC16.

    The byte-wise loop is proved equal to feeding the message bit by bit, most
    significant bit first.  Linearity of one division step gives the error detection: a
    burst of at most sixteen bits, and any odd number of flipped bits, changes the
    checksum, whatever the length of the message.
  */
module Crc16 {
  import Serial

  type Byte = bv8

  type Bit = bv1

  /** One division step by x^16 + x^12 + x^5 + 1: the bit shifted out returns at places 0, 5 and 12. */
  function Shift(c: bv16): bv16 {
    (c << 1) ^ (c >> 15) ^ ((c >> 15) << 5) ^ ((c >> 15) << 12)
  }

  function Feed(c: bv16, bit: Bit): bv16 {
    Shift(c ^ ((bit as bv16) << 15))
  }

  function FirstBit(b: Byte): Bit {
    (b >> 7) as Bit
  }

  function RestBits(b: Byte): Byte {
    b << 1
  }

  function ByteBits(b: Byte): (bits: seq<Bit>)
    ensures |bits| == 8
  {
    Serial.Spell(FirstBit, RestBits, b, 8)
  }

  /** The bits of a message, most significant bit of each byte first. */
  function Bits(data: seq<Byte>): seq<Bit> {
    Serial.Text(ByteBits, data)
  }

  /** The remainder register after feeding all bits into a zero register. */
  function BitCrc(bits: seq<Bit>): bv16 {
    Serial.Run(Feed, 0, bits, |bits|)
  }

  /** The checksum of a message. */
  function Crc(data: seq<Byte>): bv16 {
    BitCrc(Bits(data))
  }

  // ---------- One byte ----------

  /** The source's register with a byte not yet shifted in. */
  function Hold(c: bv16, b: Byte): bv16 {
    c ^ ((b as bv16) << 8)
  }

  lemma ShiftAbsorbs(c: bv16, b: Byte)
    ensures Shift(c ^ ((b as bv16) << 8)) == Feed(c, (b >> 7) as Bit) ^ (((b << 1) as bv16) << 8)
  {
  }

  lemma ShiftHold(c: bv16, b: Byte)
    ensures Shift(Hold(c, b)) == Hold(Feed(c, FirstBit(b)), RestBits(b))
  {
    ShiftAbsorbs(c, b);
  }

  lemma HoldNothing(c: bv16)
    ensures Hold(c, 0) == c
  {
  }

  lemma ShiftedOut(b: Byte)
    ensures b << 1 << 1 << 1 << 1 << 1 << 1 << 1 << 1 == 0
  {
  }

  lemma LeftEight<B>(rest: B -> B, b: B)
    ensures Serial.Left(rest, b, 8) == rest(rest(rest(rest(rest(rest(rest(rest(b))))))))
  {
    var b2 := rest(rest(b));
    var b4 := rest(rest(b2));
    var b6 := rest(rest(b4));
    assert Serial.Left(rest, b, 8) == Serial.Left(rest, b2, 6);
    assert Serial.Left(rest, b2, 6) == Serial.Left(rest, b4, 4);
    assert Serial.Left(rest, b4, 4) == Serial.Left(rest, b6, 2);
  }

  lemma NothingLeft(b: Byte)
    ensures Serial.Left(RestBits, b, 8) == 0
  {
    LeftEight(RestBits, b);
    ShiftedOut(b);
  }

  /** Eight shifts with the byte held in the upper half feed its eight bits. */
  lemma ByteStep(c: bv16, b: Byte)
    ensures Serial.Left(Shift, Hold(c, b), 8) == Serial.Run(Feed, c, ByteBits(b), 8)
  {
    forall x, y ensures Shift(Hold(x, y)) == Hold(Feed(x, FirstBit(y)), RestBits(y)) {
      ShiftHold(x, y);
    }
    Serial.HoldIsFeed(Feed, Shift, Hold, FirstBit, RestBits, c, b, 8);
    NothingLeft(b);
    HoldNothing(Serial.Run(Feed, c, ByteBits(b), 8));
  }

  lemma CrcAppend(data: seq<Byte>, b: Byte)
    ensures Crc(data + [b]) == Serial.Left(Shift, Hold(Crc(data), b), 8)
  {
    Serial.TextAppend(ByteBits, data, b);
    Serial.RunAppend(Feed, 0, Bits(data), ByteBits(b), 8);
    ByteStep(Crc(data), b);
  }

  lemma CarrySet(c: bv16)
    requires c & 0x8000 != 0
    ensures Shift(c) == (c << 1) ^ 0x1021
  {
  }

  lemma CarryClear(c: bv16)
    requires c & 0x8000 == 0
    ensures Shift(c) == c << 1
  {
  }

  /** The body of the inner loop. */
  method ShiftOnce(c: bv16) returns (crc: bv16)
    ensures crc == Shift(c)
  {
    if c & 0x8000 != 0 {
      CarrySet(c);
      crc := (c << 1) ^ 0x1021;
    } else {
      CarryClear(c);
      crc := c << 1;
    }
  }

  /** The inner loop. */
  method ShiftByte(c: bv16) returns (crc: bv16)
    ensures crc == Serial.Left(Shift, c, 8)
  {
    crc := c;
    for i := 0 to 8
      invariant Serial.Left(Shift, crc, 8 - i) == Serial.Left(Shift, c, 8)
    {
      crc := ShiftOnce(crc);
    }
  }

  method FeedByte(c: bv16, b: Byte) returns (crc: bv16)
    ensures crc == Serial.Left(Shift, Hold(c, b), 8)
  {
    crc := c ^ ((b as bv16) << 8);
    crc := ShiftByte(crc);
  }

  method CRC16(data: seq<Byte>) returns (crc: bv16)
    ensures crc == Crc(data)
  {
    crc := 0;
    for k := 0 to |data|
      invariant crc == Crc(data[..k])
    {
      assert data[..k + 1] == data[..k] + [data[k]];
      CrcAppend(data[..k], data[k]);
      crc := FeedByte(crc, data[k]);
    }
    assert data[..|data|] == data;
  }

  // ---------- Bursts ----------

  lemma FeedInjective(a: bv16, b: bv16, t: Bit)
    requires Feed(a, t) == Feed(b, t)
    ensures a == b
  {
  }

  /** Undoing one bit: the low bits that agreed after the step agreed before it, one place lower. */
  lemma StepBack(a: bv16, b: bv16, s: Bit, t: Bit, mask: bv16)
    requires mask & 1 == 1
    requires (Feed(a, s) ^ Feed(b, t)) & mask == 0
    ensures (a ^ b) & (mask >> 1) == 0
    ensures a == b ==> s == t
  {
  }

  /** The masks of the sixteen low bits, fifteen low bits, and so on. */
  const LowMasks: seq<bv16> :=
    [0xFFFF, 0x7FFF, 0x3FFF, 0x1FFF, 0x0FFF, 0x07FF, 0x03FF, 0x01FF,
     0x00FF, 0x007F, 0x003F, 0x001F, 0x000F, 0x0007, 0x0003, 0x0001, 0x0000]

  lemma LowMask(k: nat)
    requires k < 16
    ensures LowMasks[k] & 1 == 1 && LowMasks[k + 1] == LowMasks[k] >> 1
  {
  }

  /** The registers agree in their `16 - k` low bits. */
  predicate LowAgree(a: bv16, b: bv16, k: nat) {
    k < |LowMasks| ==> (a ^ b) & LowMasks[k] == 0
  }

  lemma SelfAgree(a: bv16)
    ensures LowAgree(a, a, 0)
  {
  }

  lemma FeedUndoes()
    ensures Serial.Undoes(Feed, LowAgree, 16)
  {
    forall a ensures LowAgree(a, a, 0) { SelfAgree(a); }
    forall a, b, s, t, k: nat | k < 16 && LowAgree(Feed(a, s), Feed(b, t), k)
      ensures LowAgree(a, b, k + 1) && (a == b ==> s == t)
    {
      LowMask(k);
      StepBack(a, b, s, t, LowMasks[k]);
    }
  }

  /** A burst of up to sixteen bits is always detected. */
  lemma BurstDetected(u: seq<Bit>, v: seq<Bit>, from: nat)
    requires |u| == |v| && u != v
    requires forall i :: 0 <= i < |u| && !(from <= i < from + 16) ==> u[i] == v[i]
    ensures BitCrc(u) != BitCrc(v)
  {
    FeedUndoes();
    forall a, b, t | Feed(a, t) == Feed(b, t) ensures a == b { FeedInjective(a, b, t); }
    Serial.BurstDetected(Feed, LowAgree, 16, 0, u, v, from);
  }

  lemma ByteFromBits(b: Byte, c: Byte)
    requires FirstBit(b) == FirstBit(c) && RestBits(b) == RestBits(c)
    ensures b == c
  {
  }

  lemma ByteBitsInjective(b: Byte, c: Byte)
    requires ByteBits(b) == ByteBits(c)
    ensures b == c
  {
    forall x, y | FirstBit(x) == FirstBit(y) && RestBits(x) == RestBits(y) ensures x == y { ByteFromBits(x, y); }
    NothingLeft(b);
    NothingLeft(c);
    Serial.SpellInjective(FirstBit, RestBits, b, c, 8);
  }

  /** The bits determine the message. */
  lemma BitsInjective(a: seq<Byte>, b: seq<Byte>)
    requires |a| == |b| && Bits(a) == Bits(b)
    ensures a == b
  {
    forall x, y | ByteBits(x) == ByteBits(y) ensures x == y { ByteBitsInjective(x, y); }
    Serial.TextInjective(ByteBits, a, b);
  }

  /** Messages of one length that differ only in two adjacent bytes have different checksums. */
  lemma AdjacentBytesDetected(a: seq<Byte>, b: seq<Byte>, at: nat)
    requires |a| == |b| && a != b
    requires forall i :: 0 <= i < |a| && i != at && i != at + 1 ==> a[i] == b[i]
    ensures Crc(a) != Crc(b)
  {
    if Bits(a) == Bits(b) {
      BitsInjective(a, b);
    }
    Serial.TextAgrees(ByteBits, a, b, 0);
    forall i | 0 <= i < |Bits(a)| && !(8 * at <= i < 8 * at + 16) ensures Bits(a)[i] == Bits(b)[i] {
      Serial.TextAgrees(ByteBits, a, b, i);
    }
    BurstDetected(Bits(a), Bits(b), 8 * at);
  }

  /** Messages that differ only in their last byte have checksums that differ in their low twelve bits. */
  lemma LastByteDetected(a: seq<Byte>, b: seq<Byte>)
    requires |a| == |b| && a != [] && a != b && a[..|a| - 1] == b[..|b| - 1]
    ensures (Crc(a) ^ Crc(b)) & 0x0FFF != 0
  {
    if Bits(a) == Bits(b) {
      BitsInjective(a, b);
    }
    Serial.TextAgrees(ByteBits, a, b, 0);
    var u, v, n := Bits(a), Bits(b), |a| - 1;
    forall i | 0 <= i < 8 * n ensures u[i] == v[i] {
      assert a[i / 8] == a[..n][i / 8] && b[i / 8] == b[..n][i / 8];
      Serial.TextAgrees(ByteBits, a, b, i);
    }
    FeedUndoes();
    assert u[..|u|] == u && v[..|v|] == v;
    Serial.TailBurst(Feed, LowAgree, 16, 0, u, v, |u|, 8 * n, 4);
    LowTwelve(Crc(a), Crc(b));
  }

  lemma LowTwelve(a: bv16, b: bv16)
    ensures LowAgree(a, b, 4) <==> (a ^ b) & 0x0FFF == 0
  {
  }

  // ---------- Odd errors ----------

  function Fold8(c: bv16): bv16 { c ^ (c >> 8) }

  function Fold4(c: bv16): bv16 { c ^ (c >> 4) }

  function Fold2(c: bv16): bv16 { c ^ (c >> 2) }

  function Fold1(c: bv16): Bit { ((c ^ (c >> 1)) & 1) as Bit }

  /** The parity of the ones in the register. */
  function Parity(c: bv16): Bit {
    Fold1(Fold2(Fold4(Fold8(c))))
  }

  function Xor(a: Bit, b: Bit): Bit {
    a ^ b
  }

  lemma ClearParity(c: bv16)
    requires c & 0x8000 == 0
    ensures Parity(c << 1) == Parity(c)
  {
  }

  lemma SetParity(c: bv16)
    requires c & 0x8000 != 0
    ensures Parity((c << 1) ^ 0x1021) == Parity(c)
  {
  }

  lemma ShiftParity(c: bv16)
    ensures Parity(Shift(c)) == Parity(c)
  {
    if c & 0x8000 == 0 {
      CarryClear(c);
      ClearParity(c);
    } else {
      CarrySet(c);
      SetParity(c);
    }
  }

  lemma FlipParity(c: bv16)
    ensures Parity(c ^ 0x8000) == Parity(c) ^ 1
  {
  }

  lemma FeedZero(c: bv16)
    ensures Feed(c, 0) == Shift(c)
  {
  }

  lemma FeedOne(c: bv16)
    ensures Feed(c, 1) == Shift(c ^ 0x8000)
  {
  }

  lemma XorUnit(p: Bit)
    ensures Xor(p, 0) == p && Xor(p, 1) == p ^ 1
  {
  }

  lemma FeedParity(c: bv16, bit: Bit)
    ensures Parity(Feed(c, bit)) == Xor(Parity(c), bit)
  {
    XorUnit(Parity(c));
    if bit == 0 {
      FeedZero(c);
      ShiftParity(c);
    } else {
      FeedOne(c);
      ShiftParity(c ^ 0x8000);
      FlipParity(c);
    }
  }

  lemma ZeroParity()
    ensures Parity(0) == 0
  {
  }

  /** The checksum has the parity of the message. */
  lemma CrcParity(bits: seq<Bit>)
    ensures Parity(BitCrc(bits)) == Serial.Run(Xor, 0, bits, |bits|)
  {
    forall c, bit ensures Parity(Feed(c, bit)) == Xor(Parity(c), bit) { FeedParity(c, bit); }
    Serial.RunMaps(Feed, 0, Xor, Parity, bits, |bits|);
    ZeroParity();
  }

  /** The number of positions among the first `n` where the strings differ. */
  function Flips(u: seq<Bit>, v: seq<Bit>, n: nat): nat
    requires n <= |u| == |v|
  {
    if n == 0 then 0 else Flips(u, v, n - 1) + if u[n - 1] != v[n - 1] then 1 else 0
  }

  lemma XorDiffers(a: Bit, b: Bit, s: Bit, t: Bit)
    ensures Xor(a, s) != Xor(b, t) <==> (a != b <==> s == t)
  {
  }

  lemma {:induction false} FlipsParity(u: seq<Bit>, v: seq<Bit>, n: nat)
    requires n <= |u| == |v|
    ensures Flips(u, v, n) % 2 == 1 <==> Serial.Run(Xor, 0, u, n) != Serial.Run(Xor, 0, v, n)
  {
    if n > 0 {
      FlipsParity(u, v, n - 1);
      XorDiffers(Serial.Run(Xor, 0, u, n - 1), Serial.Run(Xor, 0, v, n - 1), u[n - 1], v[n - 1]);
    }
  }

  /** Any odd number of flipped bits, anywhere, changes the checksum. */
  lemma OddErrorsDetected(u: seq<Bit>, v: seq<Bit>)
    requires |u| == |v| && Flips(u, v, |u|) % 2 == 1
    ensures BitCrc(u) != BitCrc(v)
  {
    CrcParity(u);
    CrcParity(v);
    FlipsParity(u, v, |u|);
  }

  // ---------- Which checksum it is ----------

  /** Feeding a whole byte. */
  function FeedWhole(c: bv16, b: Byte): bv16 {
    Serial.Left(Shift, Hold(c, b), 8)
  }

  lemma {:induction false} CrcIsRun(data: seq<Byte>, n: nat)
    requires n <= |data|
    ensures Crc(data[..n]) == Serial.Run(FeedWhole, 0, data, n)
  {
    if n == 0 {
      assert data[..0] == [];
      CrcEmpty();
    } else {
      CrcIsRun(data, n - 1);
      assert data[..n] == data[..n - 1] + [data[n - 1]];
      CrcAppend(data[..n - 1], data[n - 1]);
    }
  }

  lemma WholeCrc(data: seq<Byte>)
    ensures Crc(data) == Serial.Run(FeedWhole, 0, data, |data|)
  {
    CrcIsRun(data, |data|);
    assert data[..|data|] == data;
  }

  lemma CrcEmpty()
    ensures Crc([]) == 0
  {
    assert Bits([]) == [];
  }

  lemma ZeroStays()
    ensures FeedWhole(0, 0) == 0
  {
    HoldNothing(0);
    LeftEight(Shift, 0);
    assert Shift(0) == 0;
  }

  /** The register starts at zero: zero bytes in front of a message change nothing. */
  lemma LeadingZero(s: seq<Byte>)
    ensures Crc([0] + s) == Crc(s)
  {
    WholeCrc(s);
    WholeCrc([0] + s);
    Serial.RunAppend(FeedWhole, 0, [0], s, |s|);
    ZeroStays();
    assert Serial.Run(FeedWhole, 0, [0], 1) == FeedWhole(Serial.Run(FeedWhole, 0, [0], 0), 0);
  }

  lemma ShiftedOne()
    ensures Shift(Shift(Shift(Shift(Shift(Shift(Shift(Shift(0x0100)))))))) == 0x1021
  {
    assert Shift(0x0100) == 0x0200 && Shift(0x0200) == 0x0400 && Shift(0x0400) == 0x0800 && Shift(0x0800) == 0x1000;
    assert Shift(0x1000) == 0x2000 && Shift(0x2000) == 0x4000 && Shift(0x4000) == 0x8000 && Shift(0x8000) == 0x1021;
  }

  /** The polynomial is x^16 + x^12 + x^5 + 1. */
  lemma CrcOfOne()
    ensures Crc([1]) == 0x1021
  {
    WholeCrc([1]);
    assert Hold(0, 1) == 0x0100;
    LeftEight(Shift, 0x0100);
    ShiftedOne();
    assert Serial.Run(FeedWhole, 0, [1], 1) == FeedWhole(Serial.Run(FeedWhole, 0, [1], 0), 1);
  }
}
