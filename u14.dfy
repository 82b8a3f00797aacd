// The unsigned 14-bit primitive (src/types/primitive/u14.rs), used for the
// profile range and the data length of a sonar return. On the wire it is a
// 16-bit word whose high byte (the first byte, big-endian) holds value
// bits 0-6 in its low seven bits, and whose low byte holds value bit 7 in
// bit 0 and value bits 8-13 in bits 1-6. Bit 7 of both bytes is unused.

module U14 {
  import opened Binary

  const MAX: bv16 := 0x3FFF

  /** `valid`: the value fits in 14 bits. */
  predicate Valid(value: bv16)
  {
    value <= MAX
  }

  /** The value a 16-bit word stands for; never fails, and the unused bits do not matter. */
  function FromRaw(raw: bv16): (value: bv16)
    ensures Valid(value)
    ensures value & 0x7F == (raw >> 8) & 0x7F
    ensures (value >> 7) & 1 == raw & 1
    ensures value >> 8 == (raw & 0x7E) >> 1
  {
    var high := (raw & 0xFF) as byte;
    var low := (raw >> 8) as byte;
    var highPart := (high & 0x7E) >> 1;
    var lowPart := (low & 0x7F) | ((high & 0x01) << 7);
    ((highPart as bv16) << 8) | (lowPart as bv16)
  }

  /** The 16-bit word written for a value; a value that does not fit is a custom error at the writer's offset. */
  function ToRaw(value: bv16, pos: nat): (r: Result<bv16>)
    ensures r.Success? <==> Valid(value)
    ensures r.Failure? ==> r.error == Custom(pos)
    ensures r.Success? ==> r.value & 0x8080 == 0
  {
    if !Valid(value) then Failure(Custom(pos))
    else
      var high := (value >> 8) as byte;
      var low := (value & 0xFF) as byte;
      var highPart := ((high << 1) & 0x7E) | ((low >> 7) & 0x01);
      var lowPart := low & 0x7F;
      Success(((lowPart as bv16) << 8) | (highPart as bv16))
  }

  /** Every valid value survives the trip through its word. */
  lemma FromToRaw(value: bv16, pos: nat)
    requires Valid(value)
    ensures ToRaw(value, pos).Success? && FromRaw(ToRaw(value, pos).value) == value
  {
  }

  /** Writing back a decoded word clears exactly the two unused bits. */
  lemma ToFromRaw(raw: bv16, pos: nat)
    ensures ToRaw(FromRaw(raw), pos) == Success(raw & 0x7F7F)
  {
  }

  /** parse: a 16-bit word in the stream's byte order. */
  function Parse(c: Cursor, e: Endian): (r: Decoded<bv16>)
    ensures r.Success? <==> |c.rest| >= 2
    ensures r.Failure? ==> r.error == UnexpectedEof
    ensures r.Success? ==> Valid(r.value.0) && r.value.1 == Cursor(c.rest[2..], c.pos + 2)
  {
    var (raw, next) :- ReadU16(c, e);
    Success((FromRaw(raw), next))
  }

  /** write: the word of the value in the stream's byte order. */
  function Write(value: bv16, e: Endian, pos: nat): (r: Result<seq<byte>>)
    ensures r.Success? <==> Valid(value)
    ensures r.Failure? ==> r.error == Custom(pos)
    ensures r.Success? ==> |r.value| == 2 && r.value[0] & 0x80 == 0 && r.value[1] & 0x80 == 0
  {
    var raw :- ToRaw(value, pos);
    assert (raw >> 8) & 0x80 == 0 && (raw & 0xFF) & 0x80 == 0;
    Success(U16Bytes(raw, e))
  }

  /** Reading back a written value gives the value, two bytes further on. */
  lemma ParseWrite(value: bv16, e: Endian, wpos: nat, rest: seq<byte>, rpos: nat)
    requires Valid(value)
    ensures Write(value, e, wpos).Success?
    ensures Parse(Cursor(Write(value, e, wpos).value + rest, rpos), e) == Success((value, Cursor(rest, rpos + 2)))
  {
    FromToRaw(value, wpos);
    U16RoundTrip(ToRaw(value, wpos).value, e, rest, rpos);
  }

  /** The examples of the u14 tests, big-endian. */
  lemma Examples(pos: nat)
    ensures Write(0x0000, Big, pos) == Success([0x00, 0x00])
    ensures Write(0x3FFF, Big, pos) == Success([0x7F, 0x7F])
    ensures Write(0x2AAA, Big, pos) == Success([0x2A, 0x55])
    ensures FromRaw(Join16(0x2A, 0x55)) == 0x2AAA && FromRaw(Join16(0x7F, 0x7F)) == 0x3FFF
    ensures Write(16384, Big, pos) == Failure(Custom(pos)) && Write(32768, Big, pos) == Failure(Custom(pos))
  {
  }
}
