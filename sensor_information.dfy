// The sensor information byte of a file header
// (src/types/sensor_information.rs): whether the pitch, roll and distance
// readings are valid, in bits 0, 1 and 2. The reader takes a clear bit to
// mean valid, but the writer sets the bit of a valid reading, so what is
// written reads back negated. The file header writes the byte as the
// source does; a writer that agrees with the reader is kept beside it as
// the intended one.

module SensorInformation {
  import opened Binary

  datatype SensorInformation = SensorInformation(pitchValid: bool, rollValid: bool, distanceValid: bool)

  const FLAG_PITCH: byte := 0x01
  const FLAG_ROLL: byte := 0x02
  const FLAG_DISTANCE: byte := 0x04
  /** The bits that carry a flag. */
  const USED: byte := 0x07

  /** The default: every reading valid. */
  function Default(): (s: SensorInformation)
    ensures s.pitchValid && s.rollValid && s.distanceValid
  {
    SensorInformation(true, true, true)
  }

  /** Every reading's validity turned over. */
  function Negated(s: SensorInformation): (n: SensorInformation)
    ensures n.pitchValid != s.pitchValid && n.rollValid != s.rollValid && n.distanceValid != s.distanceValid
  {
    SensorInformation(!s.pitchValid, !s.rollValid, !s.distanceValid)
  }

  /** read: a reading is valid when its bit is clear; bits 3 to 7 are ignored and nothing fails. */
  function FromByte(raw: byte): (s: SensorInformation)
    ensures s == Default() <==> raw & USED == 0
  {
    SensorInformation(raw & FLAG_PITCH == 0, raw & FLAG_ROLL == 0, raw & FLAG_DISTANCE == 0)
  }

  /** Bits 3 to 7 do not change what is read. */
  lemma UnusedBitsIgnored(raw: byte, other: byte)
    requires other & USED == 0
    ensures FromByte(raw | other) == FromByte(raw)
  {
  }

  /** The byte the source writes: the bit of each valid reading set. */
  function ToByteAsWritten(s: SensorInformation): (raw: byte)
    ensures raw & !USED == 0
    ensures (raw & FLAG_PITCH != 0) == s.pitchValid
    ensures (raw & FLAG_ROLL != 0) == s.rollValid
    ensures (raw & FLAG_DISTANCE != 0) == s.distanceValid
  {
    (if s.pitchValid then FLAG_PITCH else 0)
      | (if s.rollValid then FLAG_ROLL else 0)
      | (if s.distanceValid then FLAG_DISTANCE else 0)
  }

  /** write as the source has it: a zero byte, and `|=` of each valid reading's bit. */
  method WriteAsWritten(s: SensorInformation) returns (raw: byte)
    ensures raw == ToByteAsWritten(s)
  {
    raw := 0;
    if s.pitchValid {
      raw := raw | FLAG_PITCH;
    }
    if s.rollValid {
      raw := raw | FLAG_ROLL;
    }
    if s.distanceValid {
      raw := raw | FLAG_DISTANCE;
    }
  }

  /** What the source writes reads back with every flag turned over. */
  lemma AsWrittenNegates(s: SensorInformation)
    ensures FromByte(ToByteAsWritten(s)) == Negated(s)
    ensures FromByte(ToByteAsWritten(s)) != s
  {
  }

  /** The default, all valid, is written as 0x07 and reads back as all invalid. */
  lemma AsWrittenDefault()
    ensures ToByteAsWritten(Default()) == 0x07
    ensures FromByte(0x07) == SensorInformation(false, false, false)
  {
  }

  /** The byte that agrees with the reader: the bit of each invalid reading set. */
  function ToByte(s: SensorInformation): (raw: byte)
    ensures raw & !USED == 0
    ensures (raw & FLAG_PITCH == 0) == s.pitchValid
    ensures (raw & FLAG_ROLL == 0) == s.rollValid
    ensures (raw & FLAG_DISTANCE == 0) == s.distanceValid
  {
    ToByteAsWritten(Negated(s))
  }

  /** The corrected write: a zero byte, and `|=` of each invalid reading's bit. */
  method Write(s: SensorInformation) returns (raw: byte)
    ensures raw == ToByte(s)
  {
    raw := 0;
    if !s.pitchValid {
      raw := raw | FLAG_PITCH;
    }
    if !s.rollValid {
      raw := raw | FLAG_ROLL;
    }
    if !s.distanceValid {
      raw := raw | FLAG_DISTANCE;
    }
  }

  /** With the corrected writer every value reads back as itself. */
  lemma FromToByte(s: SensorInformation)
    ensures FromByte(ToByte(s)) == s
  {
  }

  /** Writing back a read byte keeps bits 0 to 2 and clears the rest. */
  lemma ToFromByte(raw: byte)
    ensures ToByte(FromByte(raw)) == raw & USED
  {
  }

  function Decode(c: Cursor): (r: Decoded<SensorInformation>)
    ensures r.Success? <==> |c.rest| >= 1
    ensures r.Failure? ==> r.error == UnexpectedEof
    ensures r.Success? ==> ToByte(r.value.0) == c.rest[0] & USED && r.value.1 == Cursor(c.rest[1..], c.pos + 1)
  {
    var (raw, next) :- ReadU8(c);
    ToFromByte(raw);
    Success((FromByte(raw), next))
  }

  /** The one byte the source writes, and the file header with it. */
  function EncodeAsWritten(s: SensorInformation): seq<byte>
  {
    [ToByteAsWritten(s)]
  }

  /** What the source writes reads back negated, one byte on. */
  lemma DecodeEncodeAsWritten(s: SensorInformation, rest: seq<byte>, pos: nat)
    ensures Decode(Cursor(EncodeAsWritten(s) + rest, pos)) == Success((Negated(s), Cursor(rest, pos + 1)))
  {
    assert (EncodeAsWritten(s) + rest)[1..] == rest;
    AsWrittenNegates(s);
  }

  /** The one byte of the writer that agrees with the reader. */
  function Encode(s: SensorInformation): seq<byte>
  {
    [ToByte(s)]
  }

  lemma DecodeEncode(s: SensorInformation, rest: seq<byte>, pos: nat)
    ensures Decode(Cursor(Encode(s) + rest, pos)) == Success((s, Cursor(rest, pos + 1)))
  {
    assert (Encode(s) + rest)[1..] == rest;
  }

  function ValidText(valid: bool): string
  {
    if valid then "valid" else "invalid"
  }

  /** Display: the three readings' validity, in parentheses. */
  function Display(s: SensorInformation): string
  {
    "(pitch: " + ValidText(s.pitchValid) + ", roll: " + ValidText(s.rollValid)
      + ", distance: " + ValidText(s.distanceValid) + ")"
  }

  lemma DisplayDefault()
    ensures Display(Default()) == "(pitch: valid, roll: valid, distance: valid)"
  {
  }
}
