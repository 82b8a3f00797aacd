# IMAGENEX 831L sonar records in Dafny

This project models the byte-level codec of the IMAGENEX 831L sonar file
format, as the Rust crate under `src/` reads and writes it, and proves
properties of that model. An 831L file is a sequence of shots. Each shot is
the tag `31L`, a 108-byte file header, 117 bytes of padding, a sonar return
and one byte of padding, all big-endian. A sonar return is a 32-byte return
header, as many data bytes as that header announces, and the termination
byte `0xFC`. A host sends 7-byte switch-data records to the head.

The model works at the integer and bit level. Floating-point fields keep
their wire units:

- the head position is its 13-bit step count (angle = 0.3° × (count − 600));
- the profile range is its raw 14-bit value;
- the roll and pitch angles and accelerations are their signed 14-bit values with two flags;
- the absorption is in hundredths of a dB/m;
- the sound velocity is in tenths of a m/s;
- the real-time pulse repetition frequency is in hundredths of a hertz;
- pitch, roll and distance are the raw bits of their `f32`;
- range codes, ranges and filter delays are in millimetres (the delay is a distance, added to a range in metres).

Layout of the project, one module per source file:

- `binary.dfy`: bytes, errors (`AssertFail`, `Custom`, `NoVariantMatch`,
  `BadMagic`, each with its stream offset, and `UnexpectedEof`), a cursor over
  the input, and 16- and 32-bit words in either byte order.
- `primitive_bits.dfy`: the generic mask-and-shift helpers.
- One module per enumeration (`direction.dfy`, `mode.dfy`, `step_size.dfy`, …):
  codes, defaults, orderings and display texts.
- `u14.dfy`, `i14f2.dfy`, `twos_complement.dfy`, `head_position.dfy`,
  `sound_velocity.dfy`: the two-byte packings.
- `train_angle.dfy`, `sector_size.dfy`, `pulse_length.dfy`, `start_gain.dfy`,
  `absorption.dfy`, `real_time_prf.dfy`: the scaled primitives with their
  range checks.
- `fixed_string.dfy` (with `utf8.dfy`) and `datetime_text.dfy`: the
  NUL-padded text fields.
- `motion_config.dfy`, `config.dfy`, `sonar_return_status.dfy`,
  `sensor_information.dfy`, `command.dfy`: the one-byte bit-field records.
- `sonar_return_magic.dfy`, `range_code.dfy`, `file_header.dfy`,
  `sonar_return_header.dfy`, `sonar_return.dfy`, `shot.dfy`,
  `switch_data.dfy`: the tagged variants and the record layouts.

Decoders take the input from the field's first byte, with its absolute
offset in the stream. They return the value, or the value and the cursor
after it, or the error binrw would raise, at the offset binrw reports.
Encoders take the writer's offset, which is used only in error positions,
and return the bytes or the error.

Where the source builds a value step by step, the model has a method that
does the same and is proved equal to the specification function. This
covers the `|=` writes of the bit-field records, head position and i14f2,
the zero-filled buffer of the string writer, and the message list of the
status display.

Each codec is paired with its inverse. Round trips are proved from value
to bytes to value over every value a read can produce, and from bytes to
value to bytes where the source keeps all the bits. Where a round trip
does not hold, the exact loss is stated:

- u14 drops bit 7 of both bytes;
- the head position drops step bits 13-15 and bit 7 of both bytes;
- sound velocity turns the word 15000 into `0x8000`;
- scaled primitives round down to their step;
- `write_u8_bits` truncates a code too wide for its field.

In the record layouts, a read by offset agrees with the field-by-field stream read. The
properties shown are:

- which bytes a record accepts;
- which error, at which offset, the first bad field gives;
- that padding is never looked at;
- that whatever a read produces writes and reads back as itself, except
  that the file header's three validity flags come back turned over (see
  below).

Where the source's description and its code disagree, the model follows
the code:

- The absorption range check is half-open in the code, so 2.55 dB/m (byte
  255) is refused both ways, while the error text and the tests take the
  range as closed. The file header, and with it the shot, reads and writes
  the absorption as the code does. The closed range is modelled beside it,
  at the field level only, as the intended reading (see "## Findings").
- The sensor information writer sets the bit of each valid reading, while
  the reader takes a clear bit to mean valid. The file header writes that
  byte as the code does, so a header or a shot written and read back has
  its pitch, roll and distance validity turned over; the round-trip lemmas
  of the file header and the shot state exactly that. A writer that agrees
  with the reader is modelled beside it, at the field level only, as the
  intended one (see "## Findings").
- The code names the file header's data size field `DataPoints`, which no
  module defines; the model uses the `DataSizeIndex` enumeration that
  `src/types/data_size_index.rs` declares.
- `datetime::write` takes a sub-second format argument that the file
  header never passes. The model writes the three strings as they are.
- `SwitchData` derives a writer, but `Command` has none, so switch data is
  only read.

## Model

| member | source | states |
|---|---|---|
| Direction.ToU8 | src/types/direction.rs:20-23 | every direction has a code, and from_u8 maps the code back to it |
| Direction.FromU8 | src/types/direction.rs:7-23 | a code names a direction exactly when it is 0 or 1 |
| Direction.CodesInverse | src/types/direction.rs:7-23 | to_u8 gives back the code of any direction from_u8 produces |
| Direction.Default | src/types/direction.rs:25-29 | the default direction is the one with code 0 (counterclockwise) |
| Direction.DisplayDistinct | src/types/direction.rs:31-42 | Display gives the two texts, and no two directions display alike |
| Transducer.ToU8 | src/types/transducer.rs:20-23 | every orientation has a code, and from_u8 maps it back |
| Transducer.FromU8 | src/types/transducer.rs:7-23 | a code names an orientation exactly when it is 0 or 1 |
| Transducer.CodesInverse | src/types/transducer.rs:7-23 | to_u8 inverts from_u8 on the codes 0 and 1 |
| Transducer.DisplayDistinct | src/types/transducer.rs:25-36 | Display gives "down" and "up", distinct |
| Zero.ToU8 | src/types/zero.rs:20-23 | every zero position has a code, and from_u8 maps it back |
| Zero.FromU8 | src/types/zero.rs:7-23 | a code names a zero position exactly when it is 0 or 1 |
| Zero.CodesInverse | src/types/zero.rs:7-23 | to_u8 inverts from_u8 on the codes 0 and 1 |
| Zero.DisplayDistinct | src/types/zero.rs:25-36 | Display gives "up" and "down", distinct |
| StepDirection.ToU8 | src/types/step_direction.rs:13-16 | every step direction has a code, and from_u8 maps it back |
| StepDirection.FromU8 | src/types/step_direction.rs:5-16 | a code names a step direction exactly when it is 0 or 1 |
| StepDirection.CodesInverse | src/types/step_direction.rs:5-16 | to_u8 inverts from_u8 on the codes |
| StepDirection.Default | src/types/step_direction.rs:18-22 | the default is the step direction with code 0 (normal) |
| StepDirection.DisplayDistinct | src/types/step_direction.rs:24-35 | Display gives "normal" and "reverse step direction", distinct |
| ProfilePointDetection.ToU8 | src/types/profile_point_detection.rs:6-9 | centre of pulse is 0, start of pulse 1, and from_u8 maps each code back |
| ProfilePointDetection.FromU8 | src/types/profile_point_detection.rs:4-9 | a code names a detection point exactly when it is 0 or 1 |
| ProfilePointDetection.CodesInverse | src/types/profile_point_detection.rs:4-9 | to_u8 inverts from_u8 on the codes |
| Mode.ToU8 | src/types/mode.rs:22-26 | every mode has a code, and from_u8 maps it back |
| Mode.FromU8 | src/types/mode.rs:8-26 | a code names a mode exactly when it is below 3 |
| Mode.CodesInverse | src/types/mode.rs:8-26 | to_u8 inverts from_u8 on the codes |
| Mode.Decode | src/types/mode.rs:8-26 | the one-byte form reads exactly the bytes below 3, fails any other byte with no variant at its offset, and consumes one byte |
| Mode.DecodeEncode | src/types/mode.rs:8-10 | Encode writes the discriminant byte, and a written mode reads back, whatever follows |
| Mode.DisplayDistinct | src/types/mode.rs:28-40 | Display gives the three texts, distinct |
| StepSize.ToU8 | src/types/step_size.rs:20-26 | every step size has a code, and from_u8 maps it back |
| StepSize.FromU8 | src/types/step_size.rs:7-26 | a code names a step size exactly when it is below 5 |
| StepSize.CodesInverse | src/types/step_size.rs:7-26 | to_u8 inverts from_u8 on the codes |
| StepSize.DegreesTenths | src/types/step_size.rs:28-38 | 0.3 degrees per code step up to Faster, 2.4 degrees for Fastest, in tenths |
| StepSize.DegreesIncrease | src/types/step_size.rs:20-38 | a step size has the larger code exactly when it has the larger step |
| StepSize.DisplayDistinct | src/types/step_size.rs:40-54 | Display gives a text per step size, and no two step sizes display alike |
| Logf.ToU8 | src/types/logf.rs:20-32 | every range has a code, and from_u8 maps it back |
| Logf.FromU8 | src/types/logf.rs:9-32 | a code names a range exactly when it is below 4 |
| Logf.CodesInverse | src/types/logf.rs:9-32 | to_u8 inverts from_u8 on the codes |
| Logf.Decibels | src/types/logf.rs:34-43 | ten decibels per code step, from 10 dB at code 0 |
| Logf.Display | src/types/logf.rs:45-49 | the decibels in decimal followed by " dB" |
| Logf.Cmp | src/types/logf.rs:51-55 | comparing codes is comparing decibels |
| Logf.PartialCmp | src/types/logf.rs:57-61 | always defined, and orders by decibels |
| DataBits.ToU8 | src/types/data_bits.rs:20-29 | every width has a code, and from_u8 maps it back |
| DataBits.FromU8 | src/types/data_bits.rs:8-29 | a code names a width exactly when it is below 3 |
| DataBits.CodesInverse | src/types/data_bits.rs:8-29 | to_u8 inverts from_u8 on the codes |
| DataBits.Bits | src/types/data_bits.rs:31-39 | the width is 4, 8 or 14 |
| DataBits.Display | src/types/data_bits.rs:41-45 | the width in decimal followed by " bits" |
| DataBits.Cmp | src/types/data_bits.rs:47-51 | comparing widths is comparing codes |
| DataBits.PartialCmp | src/types/data_bits.rs:53-57 | always defined, and orders by code |
| DataSizeIndex.ToU8 | src/types/data_size_index.rs:24-27 | the single variant has code 2, which from_u8 maps back |
| DataSizeIndex.FromU8 | src/types/data_size_index.rs:11-27 | 2 is the only code |
| DataSizeIndex.CodesInverse | src/types/data_size_index.rs:11-27 | to_u8 inverts from_u8 on the code |
| DataSizeIndex.FromByte | src/types/data_size_index.rs:11-13 | a byte already read is the variant exactly when it is 2; any other fails with no variant at its offset |
| DataSizeIndex.Decode | src/types/data_size_index.rs:11-13 | the one-byte form accepts only 2, fails at end of input or with no variant at its offset, and consumes one byte |
| DataSizeIndex.DecodeEncode | src/types/data_size_index.rs:11-13 | Encode writes the variant as the byte 2, which reads back, whatever follows |
| DataSizeIndex.Bytes | src/types/data_size_index.rs:29-35 | 250 bytes |
| DataSizeIndex.Default | src/types/data_size_index.rs:37-41 | the default is the variant with code 2 |
| DataSizeIndex.Display | src/types/data_size_index.rs:43-47 | "250 bytes" |
| DataSizeIndex.Cmp | src/types/data_size_index.rs:49-53 | comparing byte counts makes every two size indices equal |
| DataSizeIndex.PartialCmp | src/types/data_size_index.rs:55-59 | always defined and equal, agreeing with cmp |
| MotorCalibrate.ToU8 | src/types/motor_calibrate.rs:20-23 | every setting has a code, and from_u8 maps it back |
| MotorCalibrate.FromU8 | src/types/motor_calibrate.rs:7-23 | a code names a setting exactly when it is 0 or 1 |
| MotorCalibrate.CodesInverse | src/types/motor_calibrate.rs:7-23 | to_u8 inverts from_u8 on the codes |
| MotorCalibrate.Default | src/types/motor_calibrate.rs:25-29 | the default is the setting with code 0 (no calibration) |
| MotorCalibrate.ToBool | src/types/motor_calibrate.rs:53-57 | true exactly for the setting with code 1 (calibrate) |
| MotorCalibrate.FromBool | src/types/motor_calibrate.rs:44-51 | a flag becomes the setting whose conversion back is that flag |
| MotorCalibrate.BoolRoundTrip | src/types/motor_calibrate.rs:44-57 | converting a setting to a flag and back gives the setting |
| MotorCalibrate.DisplayDistinct | src/types/motor_calibrate.rs:31-42 | Display gives the two sentences, distinct |
| ProfileGrid.ToU8 | src/types/profile_grid.rs:19-22 | every grid setting has a code, and from_u8 maps it back |
| ProfileGrid.FromU8 | src/types/profile_grid.rs:7-22 | a code names a grid setting exactly when it is 0 or 1 |
| ProfileGrid.CodesInverse | src/types/profile_grid.rs:7-22 | to_u8 inverts from_u8 on the codes |
| ProfileGrid.Default | src/types/profile_grid.rs:24-28 | the default grid setting has code 0 (off) |
| ProfileGrid.FromBool | src/types/profile_grid.rs:43-50 | true becomes the setting with code 1 (on), false the one with code 0 |
| ProfileGrid.DisplayDistinct | src/types/profile_grid.rs:30-41 | Display gives "off" and "on", distinct |
| SonarType.ToU8 | src/types/sonar_type.rs:22-25 | every sonar type has a code, and from_u8 maps it back |
| SonarType.FromU8 | src/types/sonar_type.rs:8-25 | a code names a sonar type exactly when it is 0 or 1 |
| SonarType.CodesInverse | src/types/sonar_type.rs:8-25 | to_u8 inverts from_u8 on the codes |
| SonarType.Decode | src/types/sonar_type.rs:8-10 | the one-byte form reads exactly 0 and 1, fails at end of input or with no variant at its offset, and consumes one byte |
| SonarType.DecodeEncode | src/types/sonar_type.rs:8-10 | Encode writes the discriminant byte, and a written sonar type reads back, whatever follows |
| SonarType.DisplayDistinct | src/types/sonar_type.rs:27-38 | Display gives "scanning" and "fixed position", distinct |
| SensorAvailable.Code | src/types/sensor_available.rs:7-23 | every variant has a byte, which maps back to it |
| SensorAvailable.FromCode | src/types/sensor_available.rs:7-23 | exactly the bytes 0 and 1 are variants |
| SensorAvailable.FromByte | src/types/sensor_available.rs:7-8 | a byte already read is a variant exactly when it is 0 or 1, otherwise no variant at its offset |
| SensorAvailable.FromCodeByte | src/types/sensor_available.rs:7-8 | every variant reads back from its byte |
| SensorAvailable.Decode | src/types/sensor_available.rs:7-8 | the one-byte form reads exactly 0 and 1, fails at end of input or with no variant at its offset, and consumes one byte |
| SensorAvailable.DecodeEncode | src/types/sensor_available.rs:7-8 | Encode writes the repr byte, and a written variant reads back, whatever follows |
| SensorAvailable.Default | src/types/sensor_available.rs:25-29 | the default is the variant with byte 0 (not available) |
| SensorAvailable.ToBool | src/types/sensor_available.rs:54-58 | true exactly for Available |
| SensorAvailable.FromBool | src/types/sensor_available.rs:45-52 | a flag becomes the variant whose conversion back is that flag |
| SensorAvailable.BoolRoundTrip | src/types/sensor_available.rs:45-58 | converting a variant to a flag and back gives the variant |
| SensorAvailable.DisplayDistinct | src/types/sensor_available.rs:31-43 | Display gives the two sentences, distinct |
| RangeCode.Code | src/types/range_code.rs:19-56 | every range has a wire byte, which maps back to it |
| RangeCode.FromCode | src/types/range_code.rs:19-56 | exactly the ten discriminants 2, 4, 6, 8, 10, 20, 30, 40, 50, 60 name a range |
| RangeCode.CodeInjective | src/types/range_code.rs:26-56 | distinct ranges have distinct bytes |
| RangeCode.FromByte | src/types/range_code.rs:19-20 | a byte already read is a range exactly when it is a discriminant; any other fails with no variant at its offset |
| RangeCode.FromCodeByte | src/types/range_code.rs:19-20 | every range reads back from its byte |
| RangeCode.Decode | src/types/range_code.rs:19-20 | the one-byte form reads exactly the discriminants, fails at end of input or with no variant at its offset, and consumes one byte |
| RangeCode.DecodeEncode | src/types/range_code.rs:19-20 | Encode writes the discriminant byte, and a written range reads back, whatever follows |
| RangeCode.EncodeDecode | src/types/range_code.rs:19-20 | a byte that reads is written back unchanged |
| RangeCode.RangeMillimetres | src/types/range_code.rs:58-72 | from 1 m on, the range in millimetres is 100 times the byte; below, under a metre |
| RangeCode.FilterDelayMillimetres | src/types/range_code.rs:89-97 | a delay of 16 mm up to 0.75 m, 20 mm at 1 m, 24 mm at 2 m and 30 mm from 3 m |
| RangeCode.Cmp | src/types/range_code.rs:6-72 | the derived order, by discriminant, is the order of the ranges in metres |
| RangeCode.FilterDelayMonotone | src/types/range_code.rs:6-97 | along that order the filter delay never decreases |
| RangeCode.DisplayText | src/types/range_code.rs:100-105 | Display shows the range in metres with three decimals, then " meters" |
| RangeCode.DisplayShortest | src/types/range_code.rs:100-183 | the shortest range displays as "0.125 meters" |
| RangeCode.DisplayLongest | src/types/range_code.rs:100-192 | the longest range displays as "6.000 meters" |
| SonarReturnMagic.Tag | src/types/sonar_return_magic.rs:94-97 | each tag is three bytes |
| SonarReturnMagic.DataLength | src/types/sonar_return_magic.rs:25-32 | IMX stands for 250 data bytes and IPX for none |
| SonarReturnMagic.Decode | src/types/sonar_return_magic.rs:58-75 | reads three bytes; succeeds exactly on "IMX" and "IPX", fails short input as an unexpected end and other bytes with a custom error at the offset before the read |
| SonarReturnMagic.FromTag | src/types/sonar_return_magic.rs:67-74 | three bytes already read name a variant exactly when they spell a tag, otherwise a custom error at `pos` |
| SonarReturnMagic.Encode | src/types/sonar_return_magic.rs:90-101 | write puts out exactly the tag's three bytes |
| SonarReturnMagic.DecodeEncode | src/types/sonar_return_magic.rs:58-101 | a written tag reads back, consuming three bytes, whatever follows |
| SonarReturnMagic.EncodeDecode | src/types/sonar_return_magic.rs:58-101 | a tag that reads is written back as the bytes read |
| SonarReturnMagic.InvalidTag | src/types/sonar_return_magic.rs:67-74 | three bytes that spell neither tag fail at their offset |
| SonarReturnMagic.InvalidTags | src/types/sonar_return_magic.rs:167-178 | "ASD", "QWE" and "TFD" are refused |
| SonarReturnMagic.Display | src/types/sonar_return_magic.rs:34-45 | the display spells the tag's three characters |
| Command.FromByte | src/types/command.rs:7-41 | the profile point detection is bit 0 and the step direction bit 6 of the byte; reading never fails |
| Command.SameCommand | src/types/command.rs:36-39 | two bytes read as the same command exactly when they agree on bits 0 and 6 |
| Command.Decode | src/types/command.rs:29-42 | one byte, which always reads unless the input is empty; the bit reads get the offset after the byte |
| Command.Examples | src/types/command.rs:7-39 | 0x00 and 0x41 read as the two extreme commands, and 0xBE reads as 0x00 |
| PrimitiveBits.ReadU8 | src/types/util/primitive.rs:9-17 | the variant whose code is the byte, or an assertion failure carrying `pos` when from_u8 has none |
| PrimitiveBits.ReadU8Bits | src/types/util/primitive.rs:19-24 | the result depends only on `(raw & mask) >> shift`; it fails, with an assertion at `pos`, exactly when that code has no variant |
| PrimitiveBits.WriteU8 | src/types/util/primitive.rs:26-34 | the variant's code, failing with an assertion at `pos` exactly when to_u8 gives none |
| PrimitiveBits.ReadWriteU8 | src/types/util/primitive.rs:9-34 | a code written by write_u8 reads back as the variant when from_u8 inverts to_u8 |
| PrimitiveBits.WriteU8Bits | src/types/util/primitive.rs:36-42 | fails exactly when write_u8 does; otherwise `(code << shift) & mask`, with no bit outside the mask |
| PrimitiveBits.FieldOfShifted | src/types/util/primitive.rs:19-42 | for a contiguous mask starting at `shift`, reading the field of `(code << shift) & mask` gives the low `width` bits of the code |
| PrimitiveBits.BitsRoundTrip | src/types/util/primitive.rs:19-42 | a variant whose code fits the field is written and read back as itself |
| PrimitiveBits.BitsTruncate | src/types/util/primitive.rs:36-42 | a code too wide for the field is written without error and reads back cut to the field's width |
| PrimitiveBits.FieldIgnoresOtherBits | src/types/util/primitive.rs:19-24 | bits outside the mask never change what a field reads |
| TwosComplement.Signed16 | src/types/primitive/i14f2.rs:42-47 | the `i16` a 16-bit pattern stands for: within the `i16` range, negative exactly when bit 15 is set |
| TwosComplement.ValidPattern | src/types/primitive/i14f2.rs:5-23 | an `i16` lies in [-8192, 8191] exactly when the top three bits of its pattern are equal |
| TwosComplement.PatternBounds | src/types/primitive/i14f2.rs:5-16 | the top three bits are equal exactly when the pattern is below 0x2000 or at least 0xE000 |
| U14.FromRaw | src/types/primitive/u14.rs:48-60 | every word decodes to a value of at most 0x3FFF: value bits 0-6 from bits 0-6 of the first byte, bit 7 from bit 0 of the second, bits 8-13 from bits 1-6 of the second; bit 7 of both bytes is ignored |
| U14.ToRaw | src/types/primitive/u14.rs:62-81 | a word exactly for values of at most 0x3FFF, with bit 7 of both bytes clear; any other value is a custom error at the writer's offset |
| U14.FromToRaw | src/types/primitive/u14.rs:48-81 | every valid value is read back from its word |
| U14.ToFromRaw | src/types/primitive/u14.rs:52-79 | rewriting a decoded word gives the word with bit 7 of both bytes cleared |
| U14.Parse | src/types/primitive/u14.rs:46-60 | reads two bytes, fails only at the end of input, and always yields a valid value |
| U14.Write | src/types/primitive/u14.rs:62-81 | two bytes with bit 7 clear exactly for valid values, a custom error otherwise |
| U14.ParseWrite | src/types/primitive/u14.rs:48-81 | a written value reads back two bytes on, in either byte order, whatever follows |
| U14.Examples | src/types/primitive/u14.rs:103-145 | 0x0000, 0x3FFF and 0x2AAA against their test bytes both ways; 16384 and 32768 refused |
| I14F2.Assemble | src/types/primitive/i14f2.rs:30-39 | the 14-bit field is the second byte's low six bits above the first byte |
| I14F2.ExtendPattern | src/types/primitive/i14f2.rs:41-47 | sign extension of bit 13 keeps the low fourteen bits and makes the top three equal |
| I14F2.FromRaw | src/types/primitive/i14f2.rs:26-56 | every word decodes to a value in [-8192, 8191] whose low fourteen bits are the assembled field; flag 1 is bit 7 and flag 2 bit 6 of the second byte |
| I14F2.Flags | src/types/primitive/i14f2.rs:8-77 | flag 1 sets bit 7 and flag 2 bit 6, and nothing else |
| I14F2.ToRaw | src/types/primitive/i14f2.rs:58-81 | a word exactly for values in [-8192, 8191], a custom error at the writer's offset otherwise |
| I14F2.WriteRaw | src/types/primitive/i14f2.rs:58-81 | the step-by-step write (mask, or in each flag, assemble) computes the word of ToRaw |
| I14F2.FromToRaw | src/types/primitive/i14f2.rs:26-81 | every valid value with either pair of flags is read back from its word |
| I14F2.CutExtend | src/types/primitive/i14f2.rs:39-79 | a pattern with equal top bits is rebuilt from the bytes write puts out, and the flags land in bits 6 and 7 |
| I14F2.ToFromRaw | src/types/primitive/i14f2.rs:27-80 | all sixteen bits are used: rewriting a decoded word reproduces it |
| I14F2.Parse | src/types/primitive/i14f2.rs:25-56 | reads two bytes, fails only at the end of input, and the range check after sign extension never fails |
| I14F2.Write | src/types/primitive/i14f2.rs:58-81 | two bytes exactly for valid values, a custom error at the writer's offset otherwise |
| I14F2.ParseWrite | src/types/primitive/i14f2.rs:25-81 | a written value and its flags read back two bytes on, whatever follows |
| I14F2.WriteParse | src/types/primitive/i14f2.rs:25-81 | every two bytes decode, and writing the result back reproduces them |
| I14F2.Examples | src/types/primitive/i14f2.rs:93-161 | -1, 8191, -8192, 1234 with flag 1 and 2 with both flags against their test bytes; 8192 refused |
| HeadPosition.Default | src/types/head_position.rs:54-58 | angle zero (step count 600) in the default direction, counterclockwise |
| HeadPosition.PartialCmp | src/types/head_position.rs:66-76 | always defined; equal exactly when the angles are, less exactly when the angle is smaller; the direction plays no part |
| HeadPosition.SameAngleSamePosition | src/types/head_position.rs:66-103 | two head positions are `==` exactly when their step counts are equal, whatever their directions |
| HeadPosition.CmpByPosition | src/types/head_position.rs:72-103 | the order of head positions is the order of their step counts |
| HeadPosition.ReadDirection | src/types/head_position.rs:45-95 | the direction is bit 6 of the second byte, and reading it never fails |
| HeadPosition.Position | src/types/head_position.rs:97-100 | the step count is below 0x2000: bits 0-6 from bits 0-6 of the first byte, bit 7 from bit 0 of the second, bits 8-12 from its bits 1-5 |
| HeadPosition.FromRaw | src/types/head_position.rs:86-105 | a decoded word gives the gathered step count and the direction of bit 6, and never fails |
| HeadPosition.DirectionCode | src/types/head_position.rs:129-132 | the direction's to_u8 code, which always exists and is below 2 |
| HeadPosition.ToRaw | src/types/head_position.rs:118-141 | first byte is step bits 0-6; second byte has step bit 7 at bit 0, bits 8-12 at bits 1-5 and the direction at bit 6; bit 7 of both bytes clear |
| HeadPosition.WriteRaw | src/types/head_position.rs:120-139 | the step-by-step write, two write_u8_bits calls joined with `\|=`, computes the word of ToRaw |
| HeadPosition.Decode | src/types/head_position.rs:81-106 | reads two bytes in the stream's byte order, fails only at the end of input, and the step count is below 0x2000 |
| HeadPosition.Encode | src/types/head_position.rs:112-143 | two bytes, both with bit 7 clear |
| HeadPosition.FromToRaw | src/types/head_position.rs:98-139 | a written step count reads back with bits 13-15 dropped by the 0x3E mask, and the direction unchanged |
| HeadPosition.FromToRawExact | src/types/head_position.rs:98-139 | step counts below 0x2000 make the round trip exactly, in either direction |
| HeadPosition.ToFromRaw | src/types/head_position.rs:90-139 | rewriting a decoded word clears bit 7 of both bytes and changes nothing else |
| HeadPosition.DecodeEncode | src/types/head_position.rs:81-143 | the round trip through bytes in either byte order, on the wire, whatever follows |
| HeadPosition.EncodeDecode | src/types/head_position.rs:81-143 | re-encoding what was decoded gives the word read with bits 7 and 15 cleared |
| HeadPosition.Examples | src/types/head_position.rs:54-141 | the default is [0x58, 0x04] big-endian, [0x58, 0x44] turning clockwise; an all-ones step count is cut to 13 bits |
| SoundVelocity.FromRaw | src/types/primitive/sound_velocity.rs:21-25 | bit 15 set gives exactly 1500 m/s whatever the other bits; otherwise the low fifteen bits in tenths, never over 3276.7 m/s |
| SoundVelocity.Decode | src/types/primitive/sound_velocity.rs:17-33 | reads a word, fails only at the end of input, and the range check after it never fails |
| SoundVelocity.Encode | src/types/primitive/sound_velocity.rs:35-50 | fails with an assertion at the writer's offset exactly outside 0 to 3276.7 m/s; 1500 m/s is the word 0x8000 alone; any other speed is its tenths with bit 15 clear |
| SoundVelocity.DecodeEncode | src/types/primitive/sound_velocity.rs:17-50 | every valid speed, 1500 m/s included, reads back as itself, whatever follows |
| SoundVelocity.FromRawEncoded | src/types/primitive/sound_velocity.rs:21-48 | the two big-endian bytes written for a valid speed join to a word that stands for that speed |
| SoundVelocity.ToFromRaw | src/types/primitive/sound_velocity.rs:21-48 | a word is written back as itself exactly when it is 0x8000, or has bit 15 clear and does not spell 15000 |
| SoundVelocity.KeptWord | src/types/primitive/sound_velocity.rs:25-48 | a word with bit 15 clear that does not spell 15000 is written back unchanged |
| SoundVelocity.EncodeDecode | src/types/primitive/sound_velocity.rs:17-50 | the same condition on the two bytes a read consumed |
| SoundVelocity.DefaultSpelledOut | src/types/primitive/sound_velocity.rs:21-45 | the bytes [0x3A, 0x98] decode to 1500 m/s, which writes back as [0x80, 0x00]: no byte round trip here |
| SoundVelocity.FlagWins | src/types/primitive/sound_velocity.rs:21-40 | [0xFF, 0xFF] decodes to the default; -0.1 and 3276.8 m/s are refused |
| TrainAngle.FromByte | src/types/primitive/train_angle.rs:18-28 | a byte `b` is 3 * b degrees; a byte above 120 is an assertion failure at the offset after it |
| TrainAngle.Decode | src/types/primitive/train_angle.rs:14-29 | reads exactly one byte; fails at the end of input, or with the assertion exactly when the byte exceeds 120 |
| TrainAngle.Encode | src/types/primitive/train_angle.rs:31-45 | fails with an assertion at the writer's offset exactly above 360 degrees; otherwise the one byte of a third, rounded down |
| TrainAngle.DecodeEncode | src/types/primitive/train_angle.rs:15-45 | a valid angle reads back rounded down to a multiple of 3, one byte on |
| TrainAngle.EncodeDecode | src/types/primitive/train_angle.rs:15-45 | every byte that decodes is written back as itself |
| TrainAngle.Examples | src/types/primitive/train_angle.rs:67-124 | 0, 3, 180 and 360 degrees against bytes 0, 1, 60 and 120; bytes 0xC1 and 0xFF and angles 361 and 400 refused |
| SectorSize.FromByte | src/types/primitive/sector_size.rs:16-23 | a byte `b` is 3 * b degrees; a byte above 120 is an assertion failure at the offset after it |
| SectorSize.Decode | src/types/primitive/sector_size.rs:13-24 | reads exactly one byte; fails at the end of input, or with the assertion exactly when the byte exceeds 120 |
| SectorSize.Encode | src/types/primitive/sector_size.rs:26-36 | fails with an assertion at the writer's offset exactly above 360 degrees; otherwise the one byte of a third, rounded down |
| SectorSize.DecodeEncode | src/types/primitive/sector_size.rs:13-36 | a valid size reads back rounded down to a multiple of 3, one byte on |
| SectorSize.EncodeDecode | src/types/primitive/sector_size.rs:13-36 | every byte that decodes is written back as itself |
| SectorSize.Examples | src/types/primitive/sector_size.rs:59-97 | 360, 60, 9 and 15 degrees against bytes 120, 20, 3 and 5; byte 122 and 361 degrees refused |
| PulseLength.FromByte | src/types/primitive/pulse_length.rs:16-23 | a byte `b` is 10 * b microseconds; a byte above 100 is an assertion failure at the offset after it |
| PulseLength.Decode | src/types/primitive/pulse_length.rs:13-24 | reads exactly one byte; fails at the end of input, or with the assertion exactly when the byte exceeds 100 |
| PulseLength.Encode | src/types/primitive/pulse_length.rs:26-36 | fails with an assertion at the writer's offset exactly above 1000 microseconds; otherwise the one byte of a tenth, rounded down |
| PulseLength.DecodeEncode | src/types/primitive/pulse_length.rs:13-36 | a valid length reads back rounded down to a multiple of 10, one byte on |
| PulseLength.EncodeDecode | src/types/primitive/pulse_length.rs:13-36 | every byte that decodes is written back as itself |
| StartGain.FromByte | src/types/primitive/start_gain.rs:17-27 | the byte itself; a byte above 40 is an assertion failure at the offset after it |
| StartGain.Decode | src/types/primitive/start_gain.rs:15-28 | reads exactly one byte; fails at the end of input, or with the assertion exactly when the byte exceeds 40 |
| StartGain.Encode | src/types/primitive/start_gain.rs:31-43 | fails with an assertion at the writer's offset exactly above 40 dB; otherwise the value as one byte |
| StartGain.DecodeEncode | src/types/primitive/start_gain.rs:15-43 | every valid gain reads back as itself, one byte on |
| StartGain.EncodeDecode | src/types/primitive/start_gain.rs:15-43 | every byte that decodes is written back as itself |
| StartGain.Examples | src/types/primitive/start_gain.rs:53-58 | 12 and 30 dB against their bytes; 41 refused both ways |
| FixedString.TrimNul | src/types/primitive/string.rs:12 | the text with its trailing NULs removed: a prefix, not ending in NUL, with only NULs cut off; interior NULs stay |
| FixedString.Parse | src/types/primitive/string.rs:4-16 | consumes exactly `length` bytes; too few is an end-of-file error, ill-formed UTF-8 a custom error at the field's start; the text is well-formed and has its trailing NULs removed |
| FixedString.Padded | src/types/primitive/string.rs:20-24 | exactly `length` bytes: byte i is the text's byte i while there is one, NUL after |
| FixedString.Write | src/types/primitive/string.rs:18-26 | filling a zeroed buffer in place with the first min(len, length) bytes of the text gives Padded |
| FixedString.TrimmedValid | src/types/primitive/string.rs:10-13 | removing trailing NULs keeps text well-formed UTF-8 |
| FixedString.PaddedFacts | src/types/primitive/string.rs:20-24 | a written field is well-formed and, trimmed, is the text cut to the field, trimmed |
| FixedString.ParseWritten | src/types/primitive/string.rs:4-26 | reading back a written field gives the text cut to `length` without trailing NULs, `length` bytes on |
| FixedString.ParseField | src/types/primitive/string.rs:4-16 | any well-formed field of `length` bytes parses to its trimmed text, whatever follows |
| FixedString.ParseWrittenFits | src/types/primitive/string.rs:4-42 | text that fits the field and does not end in NUL reads back unchanged |
| FixedString.WriteParsed | src/types/primitive/string.rs:4-26 | writing back a parsed text reproduces the field's bytes exactly |
| FixedString.TrimPadding | src/types/primitive/string.rs:12-24 | NUL padding is exactly what the trim removes |
| FixedString.HelloWorldWritten | src/types/primitive/string.rs:38-39 | "HELLO WORLD" in a 12-byte field is its bytes and one NUL |
| MotionConfig.ToByte | src/types/motion_config.rs:24-87 | the direction code sits at bit 7, the transducer at bit 6, the mode at bits 3-5 and the step size at bits 0-2 of the byte written |
| MotionConfig.Write | src/types/motion_config.rs:76-91 | starting from zero and or-ing in each field's write_u8_bits contribution gives ToByte; the write never fails |
| MotionConfig.FromByte | src/types/motion_config.rs:50-60 | succeeds exactly when the mode field is below 3 and the step-size field below 5, otherwise an assertion at the offset after the byte; on success the fields rebuild the byte |
| MotionConfig.FieldsDetermineByte | src/types/motion_config.rs:24-27 | the four fields cover all eight bits |
| MotionConfig.FromToByte | src/types/motion_config.rs:50-88 | every configuration reads back from its byte |
| MotionConfig.Decode | src/types/motion_config.rs:45-61 | reads one byte; end of input, or Accepts and the fields that rebuild it |
| MotionConfig.DecodeEncode | src/types/motion_config.rs:45-91 | Encode writes the packed byte, and every configuration reads back as itself, one byte on |
| MotionConfig.EncodeDecode | src/types/motion_config.rs:24-87 | every byte that decodes is written back as itself |
| MotionConfig.Examples | src/types/motion_config.rs:112-140 | the three test configurations against 0x00, 0b1100_1001 and 0b1100_1010 |
| MotionConfig.InvalidFields | src/types/motion_config.rs:57-58 | mode field 3, step-size field 5 and 0xFF are refused |
| Config.ToByte | src/types/config.rs:24-96 | the profile grid code sits at bit 7, zero at bit 6, data bits at bits 3-5 and logf at bits 0-2 of the byte written |
| Config.Write | src/types/config.rs:80-100 | starting from zero and or-ing in each field's write_u8_bits contribution gives ToByte; the write never fails |
| Config.FromByte | src/types/config.rs:50-65 | succeeds exactly when the data-bits field is below 3 and the logf field below 4, otherwise an assertion at the offset after the byte; on success the fields rebuild the byte |
| Config.FieldsDetermineByte | src/types/config.rs:24-27 | the four fields cover all eight bits |
| Config.FromToByte | src/types/config.rs:50-98 | every configuration reads back from its byte |
| Config.Decode | src/types/config.rs:45-65 | reads one byte; end of input, or Accepts and the fields that rebuild it |
| Config.DecodeEncode | src/types/config.rs:45-100 | Encode writes the packed byte, and every configuration reads back as itself, one byte on |
| Config.EncodeDecode | src/types/config.rs:24-62 | every byte that decodes is written back as itself |
| Config.Examples | src/types/config.rs:24-31 | all-zero fields give 0x00; grid on, zero down, 14 bits and 40 dB give 0xD3 |
| Config.InvalidFields | src/types/config.rs:60-62 | data-bits field 3, logf field 4 and 0xFF are refused |
| SonarReturnStatus.Default | src/types/sonar_return_status.rs:9-250 | no flag set: the byte 0, no error, switches not accepted |
| SonarReturnStatus.FromByte | src/types/sonar_return_status.rs:116-135 | never fails; has_error (HasError: any of the four error flags) holds exactly when one of bits 4-7 is set, and switches accepted is bit 0 |
| SonarReturnStatus.ToByte | src/types/sonar_return_status.rs:58-173 | range error at bit 7, frequency at bit 6, internal sensor at bit 5, calibration at bit 4, switches accepted at bit 0, and bits 1-3 clear |
| SonarReturnStatus.Write | src/types/sonar_return_status.rs:149-176 | or-ing each set flag into a zero byte, one `if` at a time, gives ToByte |
| SonarReturnStatus.FromToByte | src/types/sonar_return_status.rs:116-176 | every status reads back from its byte |
| SonarReturnStatus.ToFromByte | src/types/sonar_return_status.rs:120-175 | writing back a read byte keeps its flag bits and clears bits 1-3 |
| SonarReturnStatus.UnusedBitsIgnored | src/types/sonar_return_status.rs:120-134 | bits 1-3 never change what is read |
| SonarReturnStatus.Decode | src/types/sonar_return_status.rs:116-135 | reads one byte and fails only at the end of input; the status's byte is the byte read without bits 1-3 |
| SonarReturnStatus.DecodeEncode | src/types/sonar_return_status.rs:116-176 | Encode writes the status byte, and every status reads back as itself, one byte on |
| SonarReturnStatus.Examples | src/types/sonar_return_status.rs:271-322 | the five test statuses against 0b0000_0000, 0b1000_0001, 0b1111_0001, 0b0101_0000 and 0b1100_0000 |
| SonarReturnStatus.ErrorMessages | src/types/sonar_return_status.rs:64-91 | the error names of the set error flags, non-empty exactly when has_error holds |
| SonarReturnStatus.Messages | src/types/sonar_return_status.rs:72-99 | the first message is "no errors" exactly when there is no error, and the last is "switches accepted" exactly when that flag is set |
| SonarReturnStatus.BuildMessages | src/types/sonar_return_status.rs:74-98 | pushing onto an empty list as the flags are checked gives Messages |
| SonarReturnStatus.DisplayExamples | src/types/sonar_return_status.rs:72-102 | Display joins the messages with ", ": the default shows "no errors"; switches accepted alone shows "no errors, switches accepted" |
| SensorInformation.Default | src/types/sensor_information.rs:29-33 | pitch, roll and distance all valid |
| SensorInformation.Negated | src/types/sensor_information.rs:65-100 | every reading's validity turned over |
| SensorInformation.FromByte | src/types/sensor_information.rs:58-69 | never fails; a reading is valid when its bit (pitch 0, roll 1, distance 2) is clear, so the default is read exactly from bytes with bits 0-2 clear |
| SensorInformation.UnusedBitsIgnored | src/types/sensor_information.rs:63-68 | bits 3-7 never change what is read |
| SensorInformation.ToByteAsWritten | src/types/sensor_information.rs:88-100 | the writer as written: the bit of each VALID reading set, bits 3-7 clear |
| SensorInformation.WriteAsWritten | src/types/sensor_information.rs:83-104 | the step-by-step `\|=` write as written computes ToByteAsWritten |
| SensorInformation.AsWrittenNegates | src/types/sensor_information.rs:65-100 | what the source writes reads back with every reading turned over, never as itself |
| SensorInformation.AsWrittenDefault | src/types/sensor_information.rs:29-100 | the default is written as 0x07, which reads back as all invalid |
| SensorInformation.DecodeEncodeAsWritten | src/types/sensor_information.rs:58-104 | EncodeAsWritten, the one byte the source writes and the file header uses, reads back with every reading turned over, one byte on |
| SensorInformation.ToByte | src/types/sensor_information.rs:63-68 | the writer that agrees with the reader: a bit clear exactly when its reading is valid, bits 3-7 clear |
| SensorInformation.Write | src/types/sensor_information.rs:83-104 | the same step-by-step `\|=` write with each condition turned over computes ToByte |
| SensorInformation.FromToByte | src/types/sensor_information.rs:58-104 | with the corrected writer every value reads back as itself |
| SensorInformation.ToFromByte | src/types/sensor_information.rs:63-68 | writing back a read byte with the corrected writer keeps bits 0-2 and clears the rest |
| SensorInformation.Decode | src/types/sensor_information.rs:58-69 | reads one byte and fails only at the end of input |
| SensorInformation.DecodeEncode | src/types/sensor_information.rs:58-104 | Encode, the one byte of the writer that agrees with the reader (the intended half of the Findings row), reads back as every value itself, one byte on |
| SensorInformation.DisplayDefault | src/types/sensor_information.rs:18-45 | Display gives the three readings' validity in parentheses; the default shows "(pitch: valid, roll: valid, distance: valid)" |
| SwitchData.Decode | src/switch_data.rs:7-30 | succeeds exactly when the tag is FE 44, the range byte at offset 3 is a range code and the command byte at offset 5 is there; a bad tag fails at the start, a bad range code at offset 3, and the command never fails |
| SwitchData.ReadByOffset | src/switch_data.rs:7-30 | Read, the field-by-field read (tag, seek, range code, seek, command, seek), agrees with the read by offset on value and error, and the whole record is seven bytes |
| SwitchData.PaddingIgnored | src/switch_data.rs:12-29 | only the tag, the range byte and bits 0 and 6 of the command byte matter; the padding never does |
| SwitchData.Examples | src/switch_data.rs:8-29 | a two-metre range with start-of-pulse detection and reverse stepping; range byte 21 refused at offset 3; a bad tag refused at the start |
| DateTimeText.CanonicalWellFormed | src/types/primitive/datetime.rs:72-92 | text that a read can produce is text the writer accepts |
| DateTimeText.ParsedFits | src/types/primitive/string.rs:4-16 | a parsed string is well-formed, no longer than its field and not ending in NUL |
| DateTimeText.Decode | src/types/primitive/datetime.rs:40-45 | the date, time and sub-second strings of 12, 9 and 4 bytes in turn; ill-formed UTF-8 is a custom error at the start of its field; 25 bytes consumed |
| DateTimeText.Encode | src/types/primitive/datetime.rs:88-91 | exactly 25 bytes |
| DateTimeText.DecodeParts | src/types/primitive/datetime.rs:43-45 | three strings that parse in turn give the date-time of those strings |
| DateTimeText.DecodeFields | src/types/primitive/datetime.rs:43-45 | a read that succeeds parsed its strings at offsets 0, 12 and 21 |
| DateTimeText.EncodeParts | src/types/primitive/datetime.rs:88-90 | a write is the three padded strings end to end |
| DateTimeText.EncodeSplit | src/types/primitive/datetime.rs:88-90 | a write followed by anything starts with the padded date field |
| DateTimeText.DecodeWritten | src/types/primitive/datetime.rs:40-92 | the three written fields, followed by anything, read back as the date-time written |
| DateTimeText.DecodeEncode | src/types/primitive/datetime.rs:40-92 | text that fits its fields reads back as written, 25 bytes on |
| DateTimeText.FieldsAt | src/types/primitive/datetime.rs:18-20 | the first 25 bytes are the three fields end to end |
| DateTimeText.EncodeDecode | src/types/primitive/datetime.rs:40-92 | writing back what was read reproduces the 25 bytes exactly |
| FileHeader.DecodePreamble | src/types/file_header.rs:38-71 | the data size code at offset 0 (anything but 2 fails there), the two big-endian lengths at 1 and 3, and the date-time text from 5 |
| FileHeader.EncodePreamble | src/types/file_header.rs:38-71 | 30 bytes, the written date-time text from offset 5 |
| FileHeader.DecodeEncodePreamble | src/types/file_header.rs:38-71 | the written preamble reads back |
| FileHeader.DecodeHead | src/types/file_header.rs:73-98 | sensor availability at offset 31 (after a byte of padding), motion at 34 (after two), start gain at 35; fails exactly on a bad availability byte, motion byte or gain |
| FileHeader.DecodeSweep | src/types/file_header.rs:100-127 | sector size at 36, train angle at 37, range code at 38, each refused exactly as its own codec refuses it |
| FileHeader.DecodePulse | src/types/file_header.rs:129-158 | absorption at 39, byte 255 (2.55 dB/m) refused with an assertion after it, at 40, as the source's half-open range check does; config at 40; pulse length at 41; fails exactly on those refusals or the end of input |
| FileHeader.DecodeSettings | src/types/file_header.rs:73-158 | the nine settings at offsets 31-41, the first that fails giving the error; succeeds exactly when every code, bit pattern and range is accepted, absorption byte 255 being refused as the source refuses it |
| FileHeader.EncodeHead | src/types/file_header.rs:73-98 | fails exactly on an out-of-range start gain, with an assertion at its offset 35; otherwise 5 bytes |
| FileHeader.EncodeSweep | src/types/file_header.rs:100-127 | fails exactly on an out-of-range sector size (at 36) or train angle (at 37), in that order; otherwise 3 bytes |
| FileHeader.EncodePulse | src/types/file_header.rs:129-158 | fails exactly on an absorption of 2.55 dB/m or more, which the source's half-open range refuses (at 39), or an out-of-range pulse length (at 41), in that order; otherwise 3 bytes |
| FileHeader.EncodeSettings | src/types/file_header.rs:73-158 | fails exactly when a setting is out of range by the source's checks, 2.55 dB/m of absorption included, at that setting's offset; otherwise 11 bytes |
| FileHeader.DecodeEncodeHead | src/types/file_header.rs:73-98 | the written head fields read back |
| FileHeader.DecodeEncodeSweep | src/types/file_header.rs:100-127 | the written sweep fields that lie on the 3-degree steps read back |
| FileHeader.DecodeEncodePulse | src/types/file_header.rs:129-158 | the written pulse fields read back, for every absorption the source accepts (below 2.55 dB/m) and a pulse length on its 10-microsecond step |
| FileHeader.SettingsRunsAt | src/types/file_header.rs:73-158 | the three runs of settings sit at offsets 31, 36 and 39 |
| FileHeader.DecodeEncodeSettings | src/types/file_header.rs:73-158 | written settings that a read can produce read back; those never hold absorption 2.55 dB/m |
| FileHeader.DecodeAcoustics | src/types/file_header.rs:160-191 | sound velocity at 43, 31 bytes of padding, operating frequency at 76, real-time PRF at 78; fails only at the end of input |
| FileHeader.EncodeAcoustics | src/types/file_header.rs:160-191 | fails exactly on an out-of-range sound velocity (at 43) or PRF (at 78), in that order; otherwise 37 bytes |
| FileHeader.AcousticsAt | src/types/file_header.rs:160-191 | the written speed sits at 43, the frequency at 76 and the PRF at 78 |
| FileHeader.DecodeEncodeAcoustics | src/types/file_header.rs:160-191 | the written acoustics read back |
| FileHeader.DecodeAttitude | src/types/file_header.rs:193-219 | sensor information at 95, after 15 bytes of padding, read with a clear bit meaning valid; then pitch, roll and distance; fails only at the end of input |
| FileHeader.EncodeAttitude | src/types/file_header.rs:193-219 | 13 bytes, the first the sensor byte as the source writes it, which the reader takes for the three validity flags turned over |
| FileHeader.DecodeEncodeAttitude | src/types/file_header.rs:193-219 | the written attitude reads back with pitch, roll and distance unchanged and the three validity flags turned over |
| FileHeader.Assemble | src/types/file_header.rs:38-219 | the header keeps the lengths its preamble read |
| FileHeader.ReadBackFacts | src/types/file_header.rs:193-198 | turning the validity flags over twice gives the header back, never leaves it as it was, and keeps it canonical |
| FileHeader.Decode | src/types/file_header.rs:18-225 | succeeds exactly when the 108 bytes hold every field, absorption byte 255 being refused, and both lengths are 512 and 283; a bad data size code fails at the start; with every field read, wrong lengths are an assertion at the header's offset; what it reads is canonical |
| FileHeader.LengthBytes | src/types/file_header.rs:29-224 | the lengths pass the assertions exactly when bytes 1-4 are 02 00 01 1B |
| FileHeader.FieldErrorFirst | src/types/file_header.rs:29-80 | a bad sensor-availability byte fails at its offset 31 whatever the lengths say: the length assertions are checked only after every field is read |
| FileHeader.Encode | src/types/file_header.rs:18-225 | succeeds exactly when both lengths are right and every field is in range by the source's checks (absorption below 2.55 dB/m); wrong lengths fail first, at the header's offset; then each field at its own offset; 108 bytes |
| FileHeader.RunsAt | src/types/file_header.rs:63-183 | the runs sit at offsets 0, 31, 43 and 95 with zero padding at 30, 42 and 80-94 |
| FileHeader.EncodeLayout | src/types/file_header.rs:38-219 | where the writer puts each run of fields, and the zeros between them |
| FileHeader.DecodeRuns | src/types/file_header.rs:38-219 | bytes holding each run of a canonical header where the writer puts it read back as that header with its three validity flags turned over, whatever the padding |
| FileHeader.PrefixRuns | src/types/file_header.rs:38-219 | the runs of 108 bytes are where they were in any longer input |
| FileHeader.DecodeEncode | src/types/file_header.rs:18-225 | every header a read can produce is written, whatever follows, and reads back as itself but for the three validity flags, which come back turned over |
| FileHeader.ReadWriteRead | src/types/file_header.rs:18-225 | whatever a read produces is written, and reads back with its three validity flags turned over, so never as itself |
| FileHeader.DecodeEncodeTwice | src/types/file_header.rs:193-198 | writing and reading back the header a first round trip gave restores the original: two round trips are the identity |
| FileHeader.AbsorptionMaxRefused | src/types/file_header.rs:129-138 | once the fields before it are accepted, absorption byte 255 fails the read with an assertion at offset 40, after the byte |
| FileHeader.AbsorptionMaxNotWritten | src/types/file_header.rs:129-138 | once the fields before it are in range, an absorption of 2.55 dB/m fails the write with an assertion at its offset 39 |
| SonarReturnHeader.DecodeIdentity | src/types/sonar_return_header.rs:21-41 | the tag at 0 (anything but IMX or IPX is a custom error at the header's start), the sonar type at 3 (refused there), the status at 4 |
| SonarReturnHeader.EncodeIdentity | src/types/sonar_return_header.rs:21-41 | five bytes |
| SonarReturnHeader.DecodeEncodeIdentity | src/types/sonar_return_header.rs:21-41 | the written identity reads back |
| SonarReturnHeader.DecodePlacement | src/types/sonar_return_header.rs:43-83 | head position at 5, range code at 7 (the only byte refused here, at its offset), profile range at 8 and data length at 10, both u14 and so at most 16383 |
| SonarReturnHeader.EncodePlacement | src/types/sonar_return_header.rs:43-83 | fails exactly on a profile range (at 8) or data length (at 10) above 16383, in that order; otherwise 7 bytes |
| SonarReturnHeader.DecodeEncodePlacement | src/types/sonar_return_header.rs:43-83 | the written placement reads back when the head position has thirteen bits |
| SonarReturnHeader.DecodeMotion | src/types/sonar_return_header.rs:85-113 | the roll and pitch angles and accelerations at 16, 18, 20 and 22, after 4 bytes of padding; always in range; fails only at the end of input |
| SonarReturnHeader.EncodeMotion | src/types/sonar_return_header.rs:85-113 | fails exactly when a value is outside [-8192, 8191], at the first such word's offset; otherwise 8 bytes |
| SonarReturnHeader.WordBack | src/types/primitive/i14f2.rs:25-81 | a word written big-endian for a value in range joins back to that value |
| SonarReturnHeader.DecodeEncodeMotion | src/types/sonar_return_header.rs:85-113 | the written motion words read back |
| SonarReturnHeader.Decode | src/types/sonar_return_header.rs:10-114 | succeeds exactly on 24 bytes holding a tag, a sonar type code and a range code at their offsets; a bad tag fails at the start, a bad range code at offset 7 |
| SonarReturnHeader.DecodeDataLength | src/types/sonar_return_header.rs:72-83 | the data length read is the u14 of bytes 10 and 11 |
| SonarReturnHeader.DecodeCanonical | src/types/sonar_return_header.rs:10-114 | whatever a read produces is a header the writer accepts, with a thirteen-bit head position |
| SonarReturnHeader.DecodeLocal | src/types/sonar_return_header.rs:107-113 | the read looks only at the first 24 bytes: the closing 8 bytes of padding are sought over |
| SonarReturnHeader.BadSonarType | src/types/sonar_return_header.rs:29-34 | a bad sonar type byte after a good tag fails at offset 3 |
| SonarReturnHeader.Encode | src/types/sonar_return_header.rs:10-114 | succeeds exactly when both u14 fields and the four i14f2 values are in range; the first failing field gives a custom error at its offset; 32 bytes |
| SonarReturnHeader.RunsAt | src/types/sonar_return_header.rs:75-107 | the runs sit at offsets 0, 5 and 16, with zeros at 12-15 and 24-31 |
| SonarReturnHeader.DecodeEncode | src/types/sonar_return_header.rs:10-114 | every header a read can produce is written and read back as itself, whatever follows |
| SonarReturnHeader.ReadWriteRead | src/types/sonar_return_header.rs:10-114 | whatever a read produces is written and reads back as itself |
| SonarReturn.CountAt | src/sonar_return.rs:20 | the count the header's bytes 10 and 11 announce, at most 16383 |
| SonarReturn.HeaderCount | src/sonar_return.rs:20 | the count read is the header's data length field, not the tag's data length |
| SonarReturn.Decode | src/sonar_return.rs:7-34 | a header failure is the return's failure; a read consumes no more than the input holds |
| SonarReturn.DecodeAccepts | src/sonar_return.rs:7-34 | succeeds exactly on a header that reads, enough bytes for the count it announces and 0xFC after them; any other byte there is an assertion at the return's offset |
| SonarReturn.Encode | src/sonar_return.rs:7-34 | fails exactly on a termination byte other than 0xFC (first, at the return's offset) or a header out of range; the data count is not checked; header, data and termination byte in turn |
| SonarReturn.DecodeCanonical | src/sonar_return.rs:7-34 | whatever a read produces has a canonical header, exactly the announced count of data bytes and 0xFC |
| SonarReturn.DecodeFields | src/sonar_return.rs:12-33 | a read took its header from the start, its data from offset 32 and its termination byte after them |
| SonarReturn.DecodeData | src/sonar_return.rs:20-33 | the bytes after the header are the data, then 0xFC |
| SonarReturn.EncodeData | src/sonar_return.rs:20-33 | a write puts the data and 0xFC after the 32 bytes of the header |
| SonarReturn.DecodeParts | src/sonar_return.rs:12-33 | a header that reads and 0xFC after its count of bytes give those bytes as data |
| SonarReturn.EncodeParts | src/sonar_return.rs:7-34 | a write lays out the header's bytes, the data and the termination byte |
| SonarReturn.DecodeWritten | src/sonar_return.rs:7-34 | a written header, the data, 0xFC and anything after read back as the return |
| SonarReturn.DecodeEncode | src/sonar_return.rs:7-34 | every return a read can produce is written and read back as itself, whatever follows |
| SonarReturn.TailAt | src/sonar_return.rs:20-33 | after a 32-byte header, the data and 0xFC sit at their offsets |
| SonarReturn.ReadWriteRead | src/sonar_return.rs:7-34 | whatever a read produces is written and reads back as itself |
| SonarReturn.CountNotChecked | src/sonar_return.rs:9-20 | a return whose data is not as long as its header announces is still written, but does not read back as itself |
| SonarReturn.TagCountIgnored | src/sonar_return.rs:20 | an IPX return, whose tag stands for no data, reads back with all the bytes its header announces |
| SonarReturn.DecodeLocal | src/sonar_return.rs:7-34 | a read looks at no byte past the return |
| Shot.Decode | src/shot.rs:7-28 | succeeds exactly on the tag "31L", a file header at offset 3 and a return at 228 that read; a bad tag fails at the start, and otherwise the first part that fails gives its own error, so absorption byte 255 at offset 42 fails the shot |
| Shot.DecodeCanonical | src/shot.rs:7-28 | whatever a read produces has parts a read can produce |
| Shot.DecodeSize | src/shot.rs:21-27 | a read consumes the shot's bytes, of which only the closing byte of padding may lie past the input |
| Shot.Encode | src/shot.rs:7-28 | fails exactly when the file header or the return is refused, the header first, each with its own error, so 2.55 dB/m of absorption fails the shot; the tag, header, 117 zeros, return and one zero |
| Shot.PartsAt | src/shot.rs:9-27 | the tag, file header and return sit at offsets 0, 3 and 228 |
| Shot.DecodeParts | src/shot.rs:9-27 | a good tag and parts that read give the shot of those parts |
| Shot.EncodeParts | src/shot.rs:9-27 | a write lays out the tag, the two parts and the padding as zeros |
| Shot.DecodeEncode | src/shot.rs:7-28 | every shot a read can produce is written, whatever follows, and reads back with the same return and its header's three validity flags turned over |
| Shot.ReadWriteRead | src/shot.rs:7-28 | whatever a read produces is written, and reads back with its header's validity flags turned over, so never as itself |
| Absorption.DecodeAsWritten | src/types/primitive/absorption.rs:7-23 | the range checks as written: one byte of hundredths, byte 255 (2.55 dB/m) refused with an assertion after it |
| Absorption.EncodeAsWritten | src/types/primitive/absorption.rs:7-35 | the range checks as written: 2.55 dB/m and more refused at the writer's offset |
| Absorption.FromByteAsWritten | src/types/primitive/absorption.rs:14-22 | the range check after the read as written, which the file header uses: every byte but 255 is its own hundredths, and 255 fails with an assertion at the offset after the byte |
| Absorption.DecodeEncodeAsWritten | src/types/primitive/absorption.rs:12-35 | every absorption the source accepts, below 2.55 dB/m, reads back exactly, one byte on |
| Absorption.AsWrittenRefusesMax | src/types/primitive/absorption.rs:9-47 | the test pair 2.55 dB/m and [255] fails in both directions as written |
| Absorption.FromByte | src/types/primitive/absorption.rs:14-22 | the intended closed range of the Findings row, not the source's check: over the closed range every byte is a valid absorption, its own hundredths |
| Absorption.Decode | src/types/primitive/absorption.rs:12-23 | the intended closed range of the Findings row, not the source's check: reads one byte and fails only at the end of input |
| Absorption.Encode | src/types/primitive/absorption.rs:25-35 | the intended closed range of the Findings row, not the source's check: fails with an assertion at the writer's offset exactly above 2.55 dB/m; otherwise the one byte of hundredths |
| Absorption.DecodeEncode | src/types/primitive/absorption.rs:12-47 | the intended closed range of the Findings row, not the source's check: every valid absorption, 2.55 dB/m included, reads back exactly |
| Absorption.EncodeDecode | src/types/primitive/absorption.rs:12-35 | the intended closed range of the Findings row, not the source's check: every byte is written back as itself |
| Absorption.Examples | src/types/primitive/absorption.rs:47-49 | the intended closed range of the Findings row, not the source's check: 1.0, 2.55 and 0.0 dB/m against bytes 100, 255 and 0; 2.56 refused |
| RealTimePrf.FromRaw | src/types/primitive/real_time_prf.rs:16-17 | the low fifteen bits in hundredths of a hertz, so never above 327.67 Hz |
| RealTimePrf.Decode | src/types/primitive/real_time_prf.rs:14-25 | reads a word, fails only at the end of input; the range check after it never fails |
| RealTimePrf.Encode | src/types/primitive/real_time_prf.rs:27-36 | fails with an assertion at the writer's offset exactly outside 0 to 327.67 Hz; otherwise the word of the hundredths, bit 15 clear |
| RealTimePrf.DecodeEncode | src/types/primitive/real_time_prf.rs:14-36 | every valid frequency reads back exactly, two bytes on |
| RealTimePrf.FromRawEncoded | src/types/primitive/real_time_prf.rs:16-34 | the big-endian bytes written join to a word that stands for the frequency |
| RealTimePrf.ToFromRaw | src/types/primitive/real_time_prf.rs:17-34 | rewriting the frequency of a word gives the word with bit 15 cleared |
| RealTimePrf.EncodeDecode | src/types/primitive/real_time_prf.rs:14-36 | the same on the two bytes a read consumed |

## Left out

- `src/types/range_table.rs` and `RangeCode::table()`: about 2,500 `f32` correction constants with lookup behaviour only.
- `src/types/angle.rs` and `src/types/acceleration.rs`: `f32` scaling over i14f2, with float-to-integer casts. The header keeps the i14f2 triples.
- `src/types/primitive/profile_range.rs`: the profile range kept as its raw u14 value. The `f32` metres, the `floor` and the range code's filter delay added to it are float arithmetic, so the range code passed as context plays no part in the model.
- `src/types/primitive/frequency.rs` and `src/types/primitive/profile_min_range.rs`: float scaling. Neither is a field of the records modelled.
- HeadPosition.Decode: the angle `0.3 * (value - 600)` as `f32`, the write's `round() as u16` and `saturating_add(600)`, and `valid()` on `f32` are not modelled. The head position is its step count.
- HeadPosition.PartialCmp: compares exact step counts. An `f32` angle made from a step count is never NaN, so `partial_cmp` is always defined.
- SoundVelocity.Encode: speeds are exact tenths. The `f32` product `* 10.0` and its truncating `as u16`, which may give one tenth less for some speeds, are not modelled.
- RealTimePrf.Encode: frequencies are exact hundredths. The `f32` product and its `round()` are not modelled.
- Absorption.EncodeAsWritten: absorptions are exact hundredths. The `f32` product and its `round()` are not modelled.
- Absorption.Encode: the same, for the closed range.
- DateTimeText.Decode: the chrono parsing of the three strings into a calendar time is not modelled. The source raises custom errors at the date's, the time's or the sub-second field's offset on bad text. The model accepts any well-formed text there, so FileHeader.Decode and Shot.Decode accept headers the source refuses for a malformed date.
- DateTimeText.Encode: writes the three strings as given. The formatting of a calendar time, the upper-casing of the month and the two sub-second formats are not modelled. The millisecond format's use of epoch milliseconds is not modelled either.
- FixedString.Parse: the source also returns the field's start offset. That is the offset of the cursor passed in, so the model does not return it.
- FixedString.Write: requires well-formed UTF-8 and a cut on a character boundary. Rust strings are always well-formed, and slicing through a character panics. Panics are not modelled.
- Error messages, and the field context and backtraces binrw attaches to errors, are dropped. Only the error kind and its offset are kept.
- Padding is sought over on read. A record is read from its bytes by offset, and a seek that runs past the end shows up as an end-of-file error at the next read. I/O errors from the stream are not modelled.
- `src/io.rs` and `src/file.rs` (memory-mapped and buffered file access), `src/error.rs`, `src/logger.rs`, `src/build.rs`, `src/lib.rs`, the module lists and the command-line tool: I/O, logging and wiring.
- The Python (pyo3), WebAssembly and serde glue, and the “derive_new” constructors: language bindings. Datatype constructors stand for the constructors.
- `src/types/range_index.rs`, `src/types/data_length.rs`, `src/types/reverse.rs`, `src/types/data.rs` and `src/array.rs`: no module list declares them, so they are not compiled.
- SwitchData.Decode: there is no matching encoder. The writer of `Command` that the derived switch-data writer needs is not defined in the source.
- The derived `Debug`, `Clone` and `PartialEq` are not modelled. Dafny's datatype equality stands for `PartialEq`.
- The `Display` of HeadPosition, which formats an `f32`, is not modelled.
- The fields with `u8` and `u16` types in the source (start gain, sector size, train angle, pulse length) are `nat` here. Each codec applies the source's range check, which already lies inside those widths.

## Findings

| source | as written | input that shows it | evidently intended | confidence | as-written member | corrected member |
|---|---|---|---|---|---|---|
| src/types/primitive/absorption.rs:9 | the range check is the half-open range `MIN..MAX`, which leaves out 2.55 dB/m | byte 255 is refused on read and 2.55 dB/m on write, although the test cases at line 47 pair them and the error text names the range "from 0.0 to 2.55" | the closed range 0 to 2.55 dB/m, under which every byte reads and writes back; the file header and the shot keep the check as written (FileHeader.AbsorptionMaxRefused) | not executed | Absorption.AsWrittenRefusesMax | Absorption.DecodeEncode |
| src/types/sensor_information.rs:88-100 | the writer sets a reading's bit when that reading is valid, while the reader (lines 65-67) takes a clear bit to mean valid | the default, all valid, is written as 0x07 and reads back as all invalid | reader and writer agree on the polarity, the reader's: clear for valid. The file header and the shot keep the writer as written, so their round trips turn the flags over (FileHeader.DecodeEncode) | not executed | SensorInformation.AsWrittenNegates | SensorInformation.FromToByte |
