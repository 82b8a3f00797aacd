// The command byte of the switch data (src/types/command.rs): the profile
// point detection at bit 0 and the step direction at bit 6. Only reading
// is defined.

module Command {
  import opened Binary
  import opened PrimitiveBits
  import ProfilePointDetection
  import StepDirection

  datatype Command = Command(
    profilePointDetection: ProfilePointDetection.ProfilePointDetection,
    stepDirection: StepDirection.StepDirection)

  const MASK_STEP_DIRECTION: byte := 0x40
  const SHIFT_STEP_DIRECTION: nat := 6
  const MASK_PROFILE_POINT_DETECTION: byte := 0x01
  /** The bits that carry a field. */
  const USED: byte := 0x41

  /**
   * read with the byte already read and `pos` the offset after it: both
   * one-bit fields always name a variant, so nothing fails.
   */
  function FromByte(raw: byte, pos: nat): (cmd: Command)
    ensures ProfilePointDetection.ToU8(cmd.profilePointDetection) == Some(raw & MASK_PROFILE_POINT_DETECTION)
    ensures StepDirection.ToU8(cmd.stepDirection) == Some((raw & MASK_STEP_DIRECTION) >> SHIFT_STEP_DIRECTION)
  {
    assert Field(raw, MASK_PROFILE_POINT_DETECTION, 0) < 2 && Field(raw, MASK_STEP_DIRECTION, SHIFT_STEP_DIRECTION) < 2;
    var detection := ReadU8Bits(raw, MASK_PROFILE_POINT_DETECTION, 0, pos, ProfilePointDetection.FromU8).value;
    var direction := ReadU8Bits(raw, MASK_STEP_DIRECTION, SHIFT_STEP_DIRECTION, pos, StepDirection.FromU8).value;
    Command(detection, direction)
  }

  /** Two bytes read as the same command exactly when they agree on bits 0 and 6. */
  lemma SameCommand(a: byte, b: byte, pos: nat, pos': nat)
    ensures FromByte(a, pos) == FromByte(b, pos') <==> a & USED == b & USED
  {
    if FromByte(a, pos) == FromByte(b, pos') {
      assert a & MASK_PROFILE_POINT_DETECTION == b & MASK_PROFILE_POINT_DETECTION;
      assert (a & MASK_STEP_DIRECTION) >> SHIFT_STEP_DIRECTION == (b & MASK_STEP_DIRECTION) >> SHIFT_STEP_DIRECTION;
    }
  }

  /** Decode: one byte, which always reads as a command. */
  function Decode(c: Cursor): (r: Decoded<Command>)
    ensures r.Success? <==> |c.rest| >= 1
    ensures r.Failure? ==> r.error == UnexpectedEof
    ensures r.Success? ==> r.value == (FromByte(c.rest[0], c.pos + 1), Cursor(c.rest[1..], c.pos + 1))
  {
    var (raw, next) :- Binary.ReadU8(c);
    Success((FromByte(raw, next.pos), next))
  }

  /** The all-zero byte is detection at the centre of the pulse and the normal step direction; 0x41 is the other two. */
  lemma Examples(pos: nat)
    ensures FromByte(0x00, pos) == Command(ProfilePointDetection.CenterOfPulse, StepDirection.Normal)
    ensures FromByte(0x41, pos) == Command(ProfilePointDetection.StartOfPulse, StepDirection.Reverse)
    ensures FromByte(0xBE, pos) == FromByte(0x00, pos)
  {
  }
}
