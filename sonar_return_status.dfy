// The status byte of a sonar return (src/types/sonar_return_status.rs):
// four error flags in bits 7 to 4 and the "switches accepted" flag in
// bit 0. Bits 1 to 3 are not used.

module SonarReturnStatus {
  import opened Binary
  import Text

  datatype Status = Status(
    rangeError: bool,
    frequencyError: bool,
    internalSensorError: bool,
    calibrationError: bool,
    switchesAccepted: bool)

  const FLAG_RANGE_ERROR: byte := 0x80
  const FLAG_FREQUENCY_ERROR: byte := 0x40
  const FLAG_INTERNAL_SENSOR_ERROR: byte := 0x20
  const FLAG_CALIBRATION_ERROR: byte := 0x10
  const FLAG_SWITCHES_ACCEPTED: byte := 0x01
  /** The bits that carry a flag. */
  const USED: byte := 0xF1

  /** The derived default: no flag set. */
  function Default(): (s: Status)
    ensures ToByte(s) == 0 && !HasError(s) && !s.switchesAccepted
  {
    Status(false, false, false, false, false)
  }

  /** `has_error`: any of the four error flags; whether switches were accepted does not count. */
  predicate HasError(s: Status)
  {
    s.rangeError || s.frequencyError || s.internalSensorError || s.calibrationError
  }

  /** read: each flag is its bit; never fails. */
  function FromByte(raw: byte): (s: Status)
    ensures HasError(s) <==> raw & 0xF0 != 0
    ensures s.switchesAccepted <==> raw & 1 != 0
  {
    Status(raw & FLAG_RANGE_ERROR != 0, raw & FLAG_FREQUENCY_ERROR != 0,
           raw & FLAG_INTERNAL_SENSOR_ERROR != 0, raw & FLAG_CALIBRATION_ERROR != 0,
           raw & FLAG_SWITCHES_ACCEPTED != 0)
  }

  /** The byte written for a status: each set flag's bit and nothing else. */
  function ToByte(s: Status): (raw: byte)
    ensures raw & !USED == 0
    ensures (raw & FLAG_RANGE_ERROR != 0) == s.rangeError
    ensures (raw & FLAG_FREQUENCY_ERROR != 0) == s.frequencyError
    ensures (raw & FLAG_INTERNAL_SENSOR_ERROR != 0) == s.internalSensorError
    ensures (raw & FLAG_CALIBRATION_ERROR != 0) == s.calibrationError
    ensures (raw & FLAG_SWITCHES_ACCEPTED != 0) == s.switchesAccepted
  {
    (if s.rangeError then FLAG_RANGE_ERROR else 0)
      | (if s.frequencyError then FLAG_FREQUENCY_ERROR else 0)
      | (if s.internalSensorError then FLAG_INTERNAL_SENSOR_ERROR else 0)
      | (if s.calibrationError then FLAG_CALIBRATION_ERROR else 0)
      | (if s.switchesAccepted then FLAG_SWITCHES_ACCEPTED else 0)
  }

  /** write: a zero byte with each set flag's bit or-ed in, one `if` at a time. */
  method Write(s: Status) returns (raw: byte)
    ensures raw == ToByte(s)
  {
    raw := 0;
    if s.rangeError {
      raw := raw | FLAG_RANGE_ERROR;
    }
    if s.frequencyError {
      raw := raw | FLAG_FREQUENCY_ERROR;
    }
    if s.internalSensorError {
      raw := raw | FLAG_INTERNAL_SENSOR_ERROR;
    }
    if s.calibrationError {
      raw := raw | FLAG_CALIBRATION_ERROR;
    }
    if s.switchesAccepted {
      raw := raw | FLAG_SWITCHES_ACCEPTED;
    }
  }

  /** Every status reads back from its byte. */
  lemma FromToByte(s: Status)
    ensures FromByte(ToByte(s)) == s
  {
  }

  /** Writing back a read byte keeps the flag bits and clears bits 1 to 3. */
  lemma ToFromByte(raw: byte)
    ensures ToByte(FromByte(raw)) == raw & USED
  {
  }

  /** Bits 1 to 3 do not change what is read. */
  lemma UnusedBitsIgnored(raw: byte, other: byte)
    requires other & USED == 0
    ensures FromByte(raw | other) == FromByte(raw)
  {
  }

  function Decode(c: Cursor): (r: Decoded<Status>)
    ensures r.Success? <==> |c.rest| >= 1
    ensures r.Failure? ==> r.error == UnexpectedEof
    ensures r.Success? ==> ToByte(r.value.0) == c.rest[0] & USED && r.value.1 == Cursor(c.rest[1..], c.pos + 1)
  {
    var (raw, next) :- ReadU8(c);
    ToFromByte(raw);
    Success((FromByte(raw), next))
  }

  function Encode(s: Status): seq<byte>
  {
    [ToByte(s)]
  }

  lemma DecodeEncode(s: Status, rest: seq<byte>, pos: nat)
    ensures Decode(Cursor(Encode(s) + rest, pos)) == Success((s, Cursor(rest, pos + 1)))
  {
    assert (Encode(s) + rest)[1..] == rest;
  }

  /** The byte values of the status tests. */
  lemma Examples()
    ensures ToByte(Status(false, false, false, false, false)) == 0x00
    ensures ToByte(Status(true, false, false, false, true)) == 0x81
    ensures ToByte(Status(true, true, true, true, true)) == 0xF1
    ensures ToByte(Status(false, true, false, true, false)) == 0x50
    ensures ToByte(Status(true, true, false, false, false)) == 0xC0
  {
  }

  /** The error names of the set error flags, in bit order. */
  function ErrorMessages(s: Status): (m: seq<string>)
    ensures |m| >= 1 <==> HasError(s)
  {
    (if s.rangeError then ["range error"] else [])
      + (if s.frequencyError then ["frequency error"] else [])
      + (if s.internalSensorError then ["internal sensor error"] else [])
      + (if s.calibrationError then ["calibration error"] else [])
  }

  /**
   * The messages Display joins: the error names, or "no errors" when there
   * is none; then "switches accepted" when that flag is set.
   */
  function Messages(s: Status): (m: seq<string>)
    ensures |m| >= 1
    ensures m[0] == "no errors" <==> !HasError(s)
    ensures (m[|m| - 1] == "switches accepted") <==> s.switchesAccepted
    ensures |m| == (if HasError(s) then |ErrorMessages(s)| else 1) + (if s.switchesAccepted then 1 else 0)
  {
    var m := (if HasError(s) then ErrorMessages(s) else ["no errors"])
      + (if s.switchesAccepted then ["switches accepted"] else []);
    assert HasError(s) ==> m[0] in ["range error", "frequency error", "internal sensor error", "calibration error"];
    assert !s.switchesAccepted ==> m[|m| - 1] in ["no errors", "range error", "frequency error", "internal sensor error", "calibration error"];
    m
  }

  /** fmt's message list, built by pushing onto an empty vector as the flags are checked. */
  method BuildMessages(s: Status) returns (messages: seq<string>)
    ensures messages == Messages(s)
  {
    messages := [];
    if HasError(s) {
      if s.rangeError {
        messages := messages + ["range error"];
      }
      if s.frequencyError {
        messages := messages + ["frequency error"];
      }
      if s.internalSensorError {
        messages := messages + ["internal sensor error"];
      }
      if s.calibrationError {
        messages := messages + ["calibration error"];
      }
    } else {
      messages := messages + ["no errors"];
    }
    if s.switchesAccepted {
      messages := messages + ["switches accepted"];
    }
  }

  /** Display: the messages separated by ", ". */
  function Display(s: Status): string
  {
    Text.Join(Messages(s), ", ")
  }

  lemma DisplayExamples()
    ensures Display(Default()) == "no errors"
    ensures Display(Status(false, false, false, false, true)) == "no errors, switches accepted"
  {
    assert Messages(Status(false, false, false, false, true)) == ["no errors", "switches accepted"];
  }
}
