// The position of the sonar head (src/types/head_position.rs): a 13-bit
// step count and the rotation direction, packed into a 16-bit word.
// Position 600 is angle zero and each step is 0.3 degrees. On the wire
// the first byte (big-endian) holds position bits 0-6; the second holds
// position bit 7 at bit 0, position bits 8-12 at bits 1-5 and the
// direction at bit 6. Bit 7 of both bytes is unused.

module HeadPosition {
  import opened Binary
  import PrimitiveBits
  import Direction

  const FLAG_DIRECTION: byte := 0x40
  const SHIFT_DIRECTION: nat := 6
  /** The position of angle zero. */
  const CENTRE: nat := 600

  /** The head position as the wire carries it: the step count, not the floating-point angle. */
  datatype HeadPosition = HeadPosition(position: bv16, direction: Direction.Direction)

  /** The angle, in tenths of a degree: three tenths per step away from position 600. */
  function AngleTenths(h: HeadPosition): int
  {
    3 * (Value16(h.position) as int - CENTRE as int)
  }

  /** The default: angle zero, in the default direction. */
  function Default(): (h: HeadPosition)
    ensures AngleTenths(h) == 0 && h.direction == Direction.Default()
  {
    var h := HeadPosition(0x0258, Direction.Default());
    assert Value16(h.position) == 600;
    h
  }

  /** `==`: the angles are equal; the direction is not compared. */
  predicate SameAngle(a: HeadPosition, b: HeadPosition)
  {
    AngleTenths(a) == AngleTenths(b)
  }

  /** `partial_cmp`: the order of the angles, always defined; the direction is not compared. */
  function PartialCmp(a: HeadPosition, b: HeadPosition): (r: Option<Ordering>)
    ensures r.Some?
    ensures r.value == Equal <==> SameAngle(a, b)
    ensures r.value == Less <==> AngleTenths(a) < AngleTenths(b)
  {
    Some(CompareInt(AngleTenths(a), AngleTenths(b)))
  }

  /** Equal angles are exactly equal positions. */
  lemma SameAngleSamePosition(a: HeadPosition, b: HeadPosition)
    ensures SameAngle(a, b) <==> a.position == b.position
  {
    Value16Injective(a.position, b.position);
  }

  /** Comparing head positions is comparing their step counts, whatever the directions. */
  lemma CmpByPosition(a: HeadPosition, b: HeadPosition)
    ensures PartialCmp(a, b) == Some(CompareInt(Value16(a.position), Value16(b.position)))
  {
  }

  /** The rotation direction stored at bit 6 of a word: read_u8_bits, which cannot fail. */
  function ReadDirection(low: byte, pos: nat): (r: Result<Direction.Direction>)
    ensures r.Success?
    ensures r.value == if low & FLAG_DIRECTION == 0 then Direction.Counterclockwise else Direction.Clockwise
  {
    assert PrimitiveBits.Field(low, FLAG_DIRECTION, SHIFT_DIRECTION) < 2;
    PrimitiveBits.ReadU8Bits(low, FLAG_DIRECTION, SHIFT_DIRECTION, pos, Direction.FromU8)
  }

  /** The step count a word carries: thirteen bits, gathered from both bytes. */
  function Position(raw: bv16): (v: bv16)
    ensures v < 0x2000
    ensures v & 0x7F == (raw >> 8) & 0x7F
    ensures (v >> 7) & 1 == raw & 1
    ensures v >> 8 == (raw & 0x3E) >> 1
  {
    var high := (raw >> 8) as byte;
    var low := (raw & 0xFF) as byte;
    var highPart := (low & 0x3E) >> 1;
    var lowPart := (high & 0x7F) | ((low & 1) << 7);
    ((highPart as bv16) << 8) | (lowPart as bv16)
  }

  /**
   * read_options with the word already read and `pos` the offset after it:
   * the position and the direction. The direction's read_u8_bits cannot
   * fail, so neither can this.
   */
  function FromRaw(raw: bv16, pos: nat): (h: HeadPosition)
    ensures h.position == Position(raw)
    ensures h.direction == if raw & 0x40 == 0 then Direction.Counterclockwise else Direction.Clockwise
  {
    var low := (raw & 0xFF) as byte;
    assert low & FLAG_DIRECTION == 0 <==> raw & 0x40 == 0;
    HeadPosition(Position(raw), ReadDirection(low, pos).value)
  }

  /** The code of a direction, as stored in bit 6. */
  function DirectionCode(d: Direction.Direction): (c: byte)
    ensures Direction.ToU8(d) == Some(c) && c < 2
  {
    if d == Direction.Clockwise then 1 else 0
  }

  /**
   * The word written for a head position: position bits 0-6 in the high
   * byte; bit 7, bits 8-12 and the direction code in the low byte. Bits
   * 13-15 of the position are lost and bit 7 of both bytes is clear.
   */
  function ToRaw(h: HeadPosition): (raw: bv16)
    ensures (raw >> 8) & 0x7F == h.position & 0x7F
    ensures raw & 1 == (h.position >> 7) & 1
    ensures (raw & 0x3E) >> 1 == (h.position >> 8) & 0x1F
    ensures (raw & 0x40 != 0) <==> h.direction == Direction.Clockwise
    ensures raw & 0x8080 == 0
  {
    var high := (h.position >> 8) as byte;
    var low := (h.position & 0xFF) as byte;
    var highByte := ((high << 1) & 0x3E) | ((low >> 7) & 1) | ((DirectionCode(h.direction) << 6) & 0x40);
    Join16(low & 0x7F, highByte)
  }

  /** u8's to_u8: every byte is its own code. */
  function ByteCode(b: byte): (r: Option<byte>)
    ensures r == Some(b)
  {
    Some(b)
  }

  /**
   * write_options with the angle already converted to its step count: the
   * high byte is assembled with write_u8_bits and `|=` step by step.
   */
  method WriteRaw(h: HeadPosition, pos: nat) returns (raw: bv16)
    ensures raw == ToRaw(h)
  {
    var value := h.position;
    var high := ((value >> 8) & 0xFF) as byte;
    var low := (value & 0xFF) as byte;
    ByteCuts(value);
    var highByte := PrimitiveBits.WriteU8Bits(high, 0x3E, 1, pos, ByteCode).value;
    StepBits(high, pos);
    highByte := highByte | ((low >> 7) & 1);
    var rawDirection := Direction.ToU8(h.direction).value;
    DirectionBits(h.direction, pos);
    highByte := highByte | PrimitiveBits.WriteU8Bits(rawDirection, FLAG_DIRECTION, SHIFT_DIRECTION, pos, ByteCode).value;
    low := low & 0x7F;
    raw := ((low as bv16) << 8) | (highByte as bv16);
    assert raw == Join16(low, highByte);
  }

  /** Masking the high byte before the cast changes nothing. */
  lemma ByteCuts(value: bv16)
    ensures ((value >> 8) & 0xFF) as byte == (value >> 8) as byte
  {
  }

  /** The write of position bits 8-12 at bits 1-5. */
  lemma StepBits(high: byte, pos: nat)
    ensures PrimitiveBits.WriteU8Bits(high, 0x3E, 1, pos, ByteCode).value == (high << 1) & 0x3E
  {
  }

  /** The write of the direction code at bit 6. */
  lemma DirectionBits(d: Direction.Direction, pos: nat)
    ensures PrimitiveBits.WriteU8Bits(Direction.ToU8(d).value, FLAG_DIRECTION, SHIFT_DIRECTION, pos, ByteCode).value
      == (DirectionCode(d) << 6) & 0x40
  {
  }

  /** Decode in the stream's byte order: a 16-bit word, then its fields. */
  function Decode(c: Cursor, e: Endian): (r: Decoded<HeadPosition>)
    ensures r.Success? <==> |c.rest| >= 2
    ensures r.Failure? ==> r.error == UnexpectedEof
    ensures r.Success? ==> r.value.1 == Cursor(c.rest[2..], c.pos + 2) && r.value.0.position < 0x2000
  {
    var (raw, next) :- ReadU16(c, e);
    Success((FromRaw(raw, next.pos), next))
  }

  /** Encode in the stream's byte order. */
  function Encode(h: HeadPosition, e: Endian): (r: seq<byte>)
    ensures |r| == 2 && r[0] & 0x80 == 0 && r[1] & 0x80 == 0
  {
    var raw := ToRaw(h);
    assert (raw >> 8) & 0x80 == 0 && (raw & 0xFF) & 0x80 == 0;
    U16Bytes(raw, e)
  }

  /** A written head position reads back with its position cut to thirteen bits. */
  lemma FromToRaw(h: HeadPosition, pos: nat)
    ensures FromRaw(ToRaw(h), pos) == HeadPosition(h.position & 0x1FFF, h.direction)
  {
    var raw := ToRaw(h);
    PositionOfFields(raw, h.position);
  }

  lemma PositionOfFields(raw: bv16, v: bv16)
    requires (raw >> 8) & 0x7F == v & 0x7F
    requires raw & 1 == (v >> 7) & 1
    requires (raw & 0x3E) >> 1 == (v >> 8) & 0x1F
    ensures Position(raw) == v & 0x1FFF
  {
  }

  /** Positions below 0x2000 survive the trip through the word exactly. */
  lemma FromToRawExact(h: HeadPosition, pos: nat)
    requires h.position < 0x2000
    ensures FromRaw(ToRaw(h), pos) == h
  {
    FromToRaw(h, pos);
    assert h.position & 0x1FFF == h.position;
  }

  /** Writing back a decoded word clears exactly the two unused bits. */
  lemma ToFromRaw(raw: bv16, pos: nat)
    ensures ToRaw(FromRaw(raw, pos)) == raw & 0x7F7F
  {
  }

  lemma DecodeEncode(h: HeadPosition, e: Endian, rest: seq<byte>, pos: nat)
    ensures Decode(Cursor(Encode(h, e) + rest, pos), e)
         == Success((HeadPosition(h.position & 0x1FFF, h.direction), Cursor(rest, pos + 2)))
  {
    U16RoundTrip(ToRaw(h), e, rest, pos);
    FromToRaw(h, pos + 2);
  }

  lemma EncodeDecode(c: Cursor, e: Endian)
    requires Decode(c, e).Success?
    ensures var raw := ReadU16(c, e).value.0;
      Encode(Decode(c, e).value.0, e) == U16Bytes(raw & 0x7F7F, e)
  {
    var raw := ReadU16(c, e).value.0;
    ToFromRaw(raw, c.pos + 2);
  }

  /** The default position, 600, is the bytes [0x58, 0x04] big-endian, or [0x58, 0x44] turning clockwise. */
  lemma Examples()
    ensures Encode(Default(), Big) == [0x58, 0x04]
    ensures Encode(HeadPosition(0x0258, Direction.Clockwise), Big) == [0x58, 0x44]
    ensures Encode(HeadPosition(0xFFFF, Direction.Counterclockwise), Big) == [0x7F, 0x3F]
  {
  }
}
