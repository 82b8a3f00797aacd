// The switch data a host sends to the head (src/switch_data.rs): the tag
// FE 44, a byte of padding, the range code, a byte of padding, the command
// byte and a byte of padding, seven bytes in all. Only reading is
// modelled: the writer would need a write of the command, which the
// source does not define.

module SwitchData {
  import opened Binary
  import RangeCode
  import Command
  import ProfilePointDetection
  import StepDirection

  const MAGIC: seq<byte> := [0xFE, 0x44]
  /** The bytes switch data occupies. */
  const LENGTH: nat := 7

  datatype SwitchData = SwitchData(rangeIndex: RangeCode.RangeCode, command: Command.Command)

  /**
   * read of the switch data whose bytes start `b`, `pos` being its offset
   * in the stream, by offset: the tag, the range code at byte 3 and the
   * command at byte 5. The padding bytes are sought over, so the last one
   * need not be there; the command byte always reads.
   */
  function Decode(b: seq<byte>, pos: nat): (r: Result<SwitchData>)
    ensures r.Success? <==> |b| >= 6 && b[..2] == MAGIC && RangeCode.IsCode(b[3])
    ensures |b| >= 2 && b[..2] != MAGIC ==> r == Failure(BadMagic(pos))
    ensures |b| >= 4 && b[..2] == MAGIC && !RangeCode.IsCode(b[3]) ==> r == Failure(NoVariantMatch(pos + 3))
    ensures r.Success? ==> RangeCode.Code(r.value.rangeIndex) == b[3]
    ensures r.Failure? ==> r.error in {UnexpectedEof, BadMagic(pos), NoVariantMatch(pos + 3)}
  {
    if |b| < 2 then Failure(UnexpectedEof)
    else if b[..2] != MAGIC then Failure(BadMagic(pos))
    else if |b| < 4 then Failure(UnexpectedEof)
    else
      var rangeIndex :- RangeCode.FromByte(b[3], pos + 3);
      if |b| < 6 then Failure(UnexpectedEof)
      else Success(SwitchData(rangeIndex, Command.FromByte(b[5], pos + 6)))
  }

  /**
   * The same read field by field on a cursor, as the derived reader runs:
   * the tag, a seek, the range code, a seek, the command, a seek.
   */
  function Read(c: Cursor): Decoded<SwitchData>
  {
    var (_, c1) :- ReadMagic(c, MAGIC);
    var c2 :- Pad(c1, 1);
    var (rangeIndex, c3) :- RangeCode.Decode(c2);
    var c4 :- Pad(c3, 1);
    var (command, c5) :- Command.Decode(c4);
    Success((SwitchData(rangeIndex, command), Skip(c5, 1)))
  }

  /** The read by offset and the field by field read agree, on the value, the error and the seven bytes consumed. */
  lemma ReadByOffset(c: Cursor)
    ensures Read(c).Success? <==> Decode(c.rest, c.pos).Success?
    ensures Read(c).Success? ==> Read(c).value == (Decode(c.rest, c.pos).value, Skip(c, LENGTH))
    ensures Read(c).Failure? ==> Read(c).error == Decode(c.rest, c.pos).error
  {
    var s := c.rest;
    if |s| >= 4 && s[..2] == MAGIC {
      var c2 := Cursor(s[3..], c.pos + 3);
      assert Pad(Cursor(s[2..], c.pos + 2), 1) == Success(c2);
      assert c2.rest[0] == s[3];
      if RangeCode.IsCode(s[3]) && |s| >= 6 {
        var c4 := Cursor(s[5..], c.pos + 5);
        assert c2.rest[1..][1..] == c4.rest;
        assert c4.rest[0] == s[5];
        assert Skip(Cursor(c4.rest[1..], c.pos + 6), 1) == Skip(c, LENGTH);
      }
    }
  }

  /**
   * Only the tag, the range code byte and bits 0 and 6 of the command byte
   * matter: inputs that agree on those read alike, whatever their padding.
   */
  lemma PaddingIgnored(b: seq<byte>, b': seq<byte>, pos: nat)
    requires |b| >= 6 && |b'| >= 6
    requires b[..2] == b'[..2] && b[3] == b'[3] && b[5] & Command.USED == b'[5] & Command.USED
    ensures Decode(b, pos) == Decode(b', pos)
  {
    Command.SameCommand(b[5], b'[5], pos + 6, pos + 6);
  }

  /** A two-metre range with detection at the start of the pulse and the reverse step direction; a bad range byte; a bad tag. */
  lemma Examples(pos: nat)
    ensures Decode([0xFE, 0x44, 0x00, 20, 0x00, 0x41, 0x00], pos)
      == Success(SwitchData(RangeCode.X2m, Command.Command(ProfilePointDetection.StartOfPulse, StepDirection.Reverse)))
    ensures Decode([0xFE, 0x44, 0x00, 21, 0x00, 0x41, 0x00], pos) == Failure(NoVariantMatch(pos + 3))
    ensures Decode([0xFE, 0x45, 0x00, 20, 0x00, 0x41, 0x00], pos) == Failure(BadMagic(pos))
  {
    var good: seq<byte> := [0xFE, 0x44, 0x00, 20, 0x00, 0x41, 0x00];
    assert good[..2] == MAGIC;
    var bad: seq<byte> := [0xFE, 0x45, 0x00, 20, 0x00, 0x41, 0x00];
    assert bad[..2] != MAGIC by { assert bad[1] != MAGIC[1]; }
    Command.Examples(pos + 6);
  }
}
