// The motion configuration byte of a file header
// (src/types/motion_config.rs): rotation direction at bit 7, transducer
// orientation at bit 6, scan mode at bits 3-5 and step size at bits 0-2.

module MotionConfig {
  import opened Binary
  import opened PrimitiveBits
  import Direction
  import Transducer
  import Mode
  import StepSize

  datatype MotionConfig = MotionConfig(
    direction: Direction.Direction,
    transducer: Transducer.Transducer,
    mode: Mode.Mode,
    stepSize: StepSize.StepSize)

  const MASK_DIRECTION: byte := 0x80
  const MASK_TRANSDUCER: byte := 0x40
  const MASK_MODE: byte := 0x38
  const MASK_STEP_SIZE: byte := 0x07

  const SHIFT_DIRECTION: nat := 7
  const SHIFT_TRANSDUCER: nat := 6
  const SHIFT_MODE: nat := 3

  /** The byte written for a configuration: each field's code in its own bits. */
  function ToByte(m: MotionConfig): (raw: byte)
    ensures Field(raw, MASK_DIRECTION, SHIFT_DIRECTION) == Direction.ToU8(m.direction).value
    ensures Field(raw, MASK_TRANSDUCER, SHIFT_TRANSDUCER) == Transducer.ToU8(m.transducer).value
    ensures Field(raw, MASK_MODE, SHIFT_MODE) == Mode.ToU8(m.mode).value
    ensures Field(raw, MASK_STEP_SIZE, 0) == StepSize.ToU8(m.stepSize).value
  {
    var d := Direction.ToU8(m.direction).value;
    var t := Transducer.ToU8(m.transducer).value;
    var o := Mode.ToU8(m.mode).value;
    var s := StepSize.ToU8(m.stepSize).value;
    ((d << SHIFT_DIRECTION) & MASK_DIRECTION) | ((t << SHIFT_TRANSDUCER) & MASK_TRANSDUCER)
      | ((o << SHIFT_MODE) & MASK_MODE) | (s & MASK_STEP_SIZE)
  }

  /**
   * write: the byte starts at zero and each field's write_u8_bits
   * contribution is or-ed in. No field can fail to have a code.
   */
  method Write(m: MotionConfig, pos: nat) returns (raw: byte)
    ensures raw == ToByte(m)
  {
    raw := 0;
    raw := raw | WriteU8Bits(m.direction, MASK_DIRECTION, SHIFT_DIRECTION, pos, Direction.ToU8).value;
    raw := raw | WriteU8Bits(m.transducer, MASK_TRANSDUCER, SHIFT_TRANSDUCER, pos, Transducer.ToU8).value;
    raw := raw | WriteU8Bits(m.mode, MASK_MODE, SHIFT_MODE, pos, Mode.ToU8).value;
    raw := raw | WriteU8Bits(m.stepSize, MASK_STEP_SIZE, 0, pos, StepSize.ToU8).value;
  }

  /** The bytes a read accepts: the mode field names one of the three modes and the step size field one of the five sizes. */
  predicate Accepts(raw: byte)
  {
    Field(raw, MASK_MODE, SHIFT_MODE) < 3 && Field(raw, MASK_STEP_SIZE, 0) < 5
  }

  /**
   * read with the byte already read and `pos` the offset after it. The two
   * one-bit fields always name a variant; the mode (3-7) and the step
   * size (5-7) can fail, in that order, as assertion failures at `pos`.
   */
  function FromByte(raw: byte, pos: nat): (r: Result<MotionConfig>)
    ensures r.Success? <==> Accepts(raw)
    ensures r.Failure? ==> r.error == AssertFail(pos)
    ensures r.Success? ==> ToByte(r.value) == raw
  {
    assert Field(raw, MASK_DIRECTION, SHIFT_DIRECTION) < 2 && Field(raw, MASK_TRANSDUCER, SHIFT_TRANSDUCER) < 2;
    var direction := ReadU8Bits(raw, MASK_DIRECTION, SHIFT_DIRECTION, pos, Direction.FromU8).value;
    var transducer := ReadU8Bits(raw, MASK_TRANSDUCER, SHIFT_TRANSDUCER, pos, Transducer.FromU8).value;
    var mode :- ReadU8Bits(raw, MASK_MODE, SHIFT_MODE, pos, Mode.FromU8);
    var stepSize :- ReadU8Bits(raw, MASK_STEP_SIZE, 0, pos, StepSize.FromU8);
    var m := MotionConfig(direction, transducer, mode, stepSize);
    FieldsDetermineByte(raw, ToByte(m));
    Success(m)
  }

  /** Two bytes with the same four fields are the same byte: the fields cover all eight bits. */
  lemma FieldsDetermineByte(a: byte, b: byte)
    requires Field(a, MASK_DIRECTION, SHIFT_DIRECTION) == Field(b, MASK_DIRECTION, SHIFT_DIRECTION)
    requires Field(a, MASK_TRANSDUCER, SHIFT_TRANSDUCER) == Field(b, MASK_TRANSDUCER, SHIFT_TRANSDUCER)
    requires Field(a, MASK_MODE, SHIFT_MODE) == Field(b, MASK_MODE, SHIFT_MODE)
    requires Field(a, MASK_STEP_SIZE, 0) == Field(b, MASK_STEP_SIZE, 0)
    ensures a == b
  {
  }

  /** Every configuration reads back from its byte. */
  lemma FromToByte(m: MotionConfig, pos: nat)
    ensures FromByte(ToByte(m), pos) == Success(m)
  {
  }

  /** Decode: one byte; field errors are reported at the offset after it. */
  function Decode(c: Cursor): (r: Decoded<MotionConfig>)
    ensures |c.rest| == 0 ==> r == Failure(UnexpectedEof)
    ensures |c.rest| >= 1 ==> (r.Success? <==> Accepts(c.rest[0]))
    ensures r.Failure? && |c.rest| >= 1 ==> r.error == AssertFail(c.pos + 1)
    ensures r.Success? ==> ToByte(r.value.0) == c.rest[0] && r.value.1 == Cursor(c.rest[1..], c.pos + 1)
  {
    var (raw, next) :- Binary.ReadU8(c);
    var m :- FromByte(raw, next.pos);
    Success((m, next))
  }

  function Encode(m: MotionConfig): seq<byte>
  {
    [ToByte(m)]
  }

  lemma DecodeEncode(m: MotionConfig, rest: seq<byte>, pos: nat)
    ensures Decode(Cursor(Encode(m) + rest, pos)) == Success((m, Cursor(rest, pos + 1)))
  {
    FromToByte(m, pos + 1);
    assert (Encode(m) + rest)[1..] == rest;
  }

  lemma EncodeDecode(c: Cursor)
    requires Decode(c).Success?
    ensures Encode(Decode(c).value.0) == c.rest[..1]
  {
  }

  /** The byte values of the motion configuration tests. */
  lemma Examples()
    ensures ToByte(MotionConfig(Direction.Counterclockwise, Transducer.Down, Mode.Sector, StepSize.Slow)) == 0x00
    ensures ToByte(MotionConfig(Direction.Clockwise, Transducer.Up, Mode.Polar, StepSize.Medium)) == 0xC9
    ensures ToByte(MotionConfig(Direction.Clockwise, Transducer.Up, Mode.Polar, StepSize.Fast)) == 0xCA
  {
  }

  /** A mode field of 3 or a step-size field of 5 has no variant. */
  lemma InvalidFields(pos: nat)
    ensures FromByte(0x18, pos) == Failure(AssertFail(pos))
    ensures FromByte(0x05, pos) == Failure(AssertFail(pos))
    ensures FromByte(0xFF, pos) == Failure(AssertFail(pos))
  {
  }
}
