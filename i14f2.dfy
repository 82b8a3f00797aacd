// The signed 14-bit primitive with two flags (src/types/primitive/i14f2.rs),
// the raw form of the roll and pitch angles and accelerations. The 16-bit
// word's high byte (the first byte, big-endian) holds value bits 0-7; its
// low byte holds value bits 8-13 in bits 0-5, flag 2 in bit 6 and flag 1
// in bit 7. The value is a two's complement number in 14 bits.
//
// The `i16` value is kept as its 16-bit two's complement pattern `bits`;
// `Value` gives the number it stands for.

module I14F2 {
  import opened Binary
  import opened TwosComplement

  datatype I14F2 = I14F2(bits: bv16, flag1: bool, flag2: bool)

  function Value(x: I14F2): int
  {
    Signed16(x.bits)
  }

  /** Sign extension of a 14-bit field to 16 bits. */
  function Extend14(a: bv16): bv16
  {
    if a & 0x2000 != 0 then a | 0xC000 else a
  }

  /** The 14-bit field of a word: the low byte's low six bits above the high byte. */
  function Assemble(raw: bv16): (a: bv16)
    ensures a & 0xC000 == 0
    ensures a == ((raw & 0x3F) << 8) | (raw >> 8)
  {
    var low := (raw >> 8) as byte;
    var high := (raw & 0xFF) as byte;
    var highPart := (high & 0x3F) as bv16;
    ((highPart << 8) | (low as bv16)) & 0x3FFF
  }

  /** A sign-extended field repeats its sign in the top three bits and keeps its low fourteen. */
  lemma ExtendPattern(a: bv16)
    requires a & 0xC000 == 0
    ensures Fits14(Extend14(a))
    ensures Extend14(a) & 0x3FFF == a
  {
    var w := Extend14(a);
    if a & 0x2000 != 0 {
      assert w == a | 0xC000;
      assert w & 0xE000 == 0xE000 && w & 0x3FFF == a;
    } else {
      assert w == a;
      assert w & 0xE000 == 0;
    }
  }

  /** The value and flags a 16-bit word stands for: every word decodes to a valid value. */
  function FromRaw(raw: bv16): (x: I14F2)
    ensures ValidI14(Value(x))
    ensures x.bits & 0x3FFF == Assemble(raw)
    ensures x.flag1 <==> raw & 0x80 != 0
    ensures x.flag2 <==> raw & 0x40 != 0
  {
    var high := (raw & 0xFF) as byte;
    var a := Assemble(raw);
    ExtendPattern(a);
    ValidPattern(Extend14(a));
    I14F2(Extend14(a), high & 0x80 != 0, high & 0x40 != 0)
  }

  /** Flag 1 in bit 7 and flag 2 in bit 6. */
  function Flags(x: I14F2): (f: byte)
    ensures f & 0x3F == 0
    ensures (f & 0x80 != 0 <==> x.flag1) && (f & 0x40 != 0 <==> x.flag2)
  {
    (if x.flag1 then 0x80 else 0) | (if x.flag2 then 0x40 else 0)
  }

  /** The low byte of the word written for `x`: value bits 8-13, then the two flags. */
  function HighByte(x: I14F2): byte
  {
    ((x.bits >> 8) as byte & 0x3F) | Flags(x)
  }

  /** The word written for `x`, or a custom error at the writer's offset when the value does not fit. */
  function ToRaw(x: I14F2, pos: nat): (r: Result<bv16>)
    ensures r.Success? <==> ValidI14(Value(x))
    ensures r.Failure? ==> r.error == Custom(pos)
  {
    if !ValidI14(Value(x)) then Failure(Custom(pos))
    else Success(Join16((x.bits & 0xFF) as byte, HighByte(x)))
  }

  /**
   * write, step by step as the source builds it: the masked high byte,
   * each flag or-ed in, and the word assembled from the two bytes.
   */
  method WriteRaw(x: I14F2, pos: nat) returns (r: Result<bv16>)
    ensures r == ToRaw(x, pos)
  {
    if !ValidI14(Value(x)) {
      return Failure(Custom(pos));
    }
    var high := (x.bits >> 8) as byte & 0x3F;
    var low := (x.bits & 0xFF) as byte;
    if x.flag1 {
      high := high | 0x80;
    }
    if x.flag2 {
      high := high | 0x40;
    }
    r := Success(((low as bv16) << 8) | (high as bv16));
  }

  /** Every valid value with either pair of flags survives the trip through its word. */
  lemma FromToRaw(x: I14F2, pos: nat)
    requires ValidI14(Value(x))
    ensures ToRaw(x, pos).Success? && FromRaw(ToRaw(x, pos).value) == x
  {
    ValidPattern(x.bits);
    CutExtend(x.bits, Flags(x));
  }

  /** The bit-level half of the trip: a pattern with equal top bits is rebuilt from its word. */
  lemma CutExtend(w: bv16, flags: byte)
    requires Fits14(w) && flags & 0x3F == 0
    ensures var raw := Join16((w & 0xFF) as byte, ((w >> 8) as byte & 0x3F) | flags);
      Extend14(Assemble(raw)) == w && (raw & 0xFF) as byte & 0xC0 == flags
  {
  }

  /** All sixteen bits are used: writing back a decoded word reproduces it. */
  lemma ToFromRaw(raw: bv16, pos: nat)
    ensures ToRaw(FromRaw(raw), pos) == Success(raw)
  {
  }

  /** parse: a word in the stream's byte order; its range check can never fail. */
  function Parse(c: Cursor, e: Endian): (r: Decoded<I14F2>)
    ensures r.Success? <==> |c.rest| >= 2
    ensures r.Failure? ==> r.error == UnexpectedEof
    ensures r.Success? ==> ValidI14(Value(r.value.0)) && r.value.1 == Cursor(c.rest[2..], c.pos + 2)
  {
    var (raw, next) :- ReadU16(c, e);
    var x := FromRaw(raw);
    if !ValidI14(Value(x)) then Failure(Custom(next.pos)) else Success((x, next))
  }

  /** write: the word of the value and flags in the stream's byte order. */
  function Write(x: I14F2, e: Endian, pos: nat): (r: Result<seq<byte>>)
    ensures r.Success? <==> ValidI14(Value(x))
    ensures r.Failure? ==> r.error == Custom(pos)
    ensures r.Success? ==> |r.value| == 2
  {
    var raw :- ToRaw(x, pos);
    U16RoundTrip(raw, e, [], 0);
    Success(U16Bytes(raw, e))
  }

  lemma ParseWrite(x: I14F2, e: Endian, wpos: nat, rest: seq<byte>, rpos: nat)
    requires ValidI14(Value(x))
    ensures Write(x, e, wpos).Success?
    ensures Parse(Cursor(Write(x, e, wpos).value + rest, rpos), e) == Success((x, Cursor(rest, rpos + 2)))
  {
    FromToRaw(x, wpos);
    U16RoundTrip(ToRaw(x, wpos).value, e, rest, rpos);
  }

  /** Every two bytes decode, and writing the result back reproduces them. */
  lemma WriteParse(c: Cursor, e: Endian, pos: nat)
    requires |c.rest| >= 2
    ensures Parse(c, e).Success?
    ensures Write(Parse(c, e).value.0, e, pos) == Success(c.rest[..2])
  {
    var raw := ReadU16(c, e).value.0;
    ToFromRaw(raw, pos);
    assert c.rest[..2] == [c.rest[0], c.rest[1]];
  }

  /** Some of the examples of the i14f2 tests, big-endian: -1, 8191, -8192 and 1234 with flag 1. */
  lemma Examples(pos: nat)
    ensures Signed16(0xFFFF) == -1 && Signed16(0xE000) == -8192 && Signed16(0x04D2) == 1234
    ensures Write(I14F2(0xFFFF, false, false), Big, pos) == Success([0xFF, 0x3F])
    ensures Write(I14F2(0x1FFF, false, false), Big, pos) == Success([0xFF, 0x1F])
    ensures Write(I14F2(0xE000, false, false), Big, pos) == Success([0x00, 0x20])
    ensures Write(I14F2(0x04D2, true, false), Big, pos) == Success([0xD2, 0x84])
    ensures Write(I14F2(0x0002, true, true), Big, pos) == Success([0x02, 0xC0])
    ensures Write(I14F2(0x2000, true, false), Big, pos) == Failure(Custom(pos))
  {
  }
}
