// The 108-byte file header of a shot (src/types/file_header.rs): a
// big-endian list of fields with fixed padding, whose total length and
// data length must be 512 and 283. Float-valued fields are kept in their
// wire units: speeds in tenths of m/s, the absorption in hundredths of
// dB/m, the pulse repetition frequency in hundredths of Hz, and pitch,
// roll and distance as the raw bits of their f32.
//
// Every field sits at a fixed offset, so the header is read from its 108
// bytes by offset: a field whose byte lies past the end of the input is an
// unexpected end, which is what seeking over the padding and then reading
// gives. The field list is taken in runs of a few fields each: the
// preamble (data size, lengths, date-time), the settings (sensor
// availability to pulse length, in three runs of three), the acoustics
// (sound velocity to pulse repetition frequency) and the attitude (sensor
// information, pitch, roll, distance).
//
// The absorption and the sensor information are read and written as the
// source has them: absorption byte 255 (2.55 dB/m) is refused both ways,
// and the sensor byte is written with the bit of each valid reading set,
// which the reader takes for invalid, so a header written and read back
// has its three validity flags turned over.

module FileHeader {
  import opened Binary
  import Utf8
  import DataSizeIndex
  import DateTimeText
  import SensorAvailable
  import MotionConfig
  import StartGain
  import SectorSize
  import TrainAngle
  import RangeCode
  import Absorption
  import Config
  import PulseLength
  import SoundVelocity
  import RealTimePrf
  import SensorInformation

  const VALID_TOTAL_LENGTH: bv16 := 512
  const VALID_DATA_LENGTH: bv16 := 283
  /** The bytes a header occupies. */
  const LENGTH: nat := 108

  datatype FileHeader = FileHeader(
    dataSizeIndex: DataSizeIndex.DataSizeIndex,
    totalLength: bv16,
    dataLength: bv16,
    datetime: DateTimeText.DateTimeText,
    sensorAvailable: SensorAvailable.SensorAvailable,
    motion: MotionConfig.MotionConfig,
    startGain: nat,
    sectorSize: nat,
    trainAngle: nat,
    rangeCode: RangeCode.RangeCode,
    absorption: nat,
    config: Config.Config,
    pulseLength: nat,
    soundVelocity: nat,
    operatingFrequency: bv16,
    realTimePrf: nat,
    sensorInformation: SensorInformation.SensorInformation,
    pitch: bv32,
    roll: bv32,
    distance: bv32)

  /** The two struct-level assertions. */
  predicate LengthsValid(h: FileHeader)
  {
    h.totalLength == VALID_TOTAL_LENGTH && h.dataLength == VALID_DATA_LENGTH
  }

  /** The ranges the writer checks, field by field. */
  predicate FieldsValid(h: FileHeader)
  {
    StartGain.Valid(h.startGain) && SectorSize.Valid(h.sectorSize)
    && TrainAngle.Valid(h.trainAngle) && Absorption.ValidAsWritten(h.absorption) && PulseLength.Valid(h.pulseLength)
    && SoundVelocity.Valid(h.soundVelocity) && RealTimePrf.Valid(h.realTimePrf)
  }

  /** What the writer accepts: the assertions and every field's range. */
  predicate Valid(h: FileHeader)
  {
    LengthsValid(h) && FieldsValid(h)
  }

  /** The settings a read can produce: in range, and the scaled ones on their steps (3 degrees, 10 microseconds). */
  predicate SettingsCanonical(h: FileHeader)
  {
    StartGain.Valid(h.startGain) && SectorSize.Valid(h.sectorSize) && h.sectorSize % 3 == 0
    && TrainAngle.Valid(h.trainAngle) && h.trainAngle % 3 == 0 && Absorption.ValidAsWritten(h.absorption)
    && PulseLength.Valid(h.pulseLength) && h.pulseLength % 10 == 0
  }

  /** The headers a read can produce: valid, with text that fits its fields and canonical settings. */
  predicate Canonical(h: FileHeader)
  {
    Valid(h) && DateTimeText.Canonical(h.datetime) && SettingsCanonical(h)
  }

  /** What a write and a read make of `h`: the same header with its three validity flags turned over. */
  function ReadBack(h: FileHeader): FileHeader
  {
    h.(sensorInformation := SensorInformation.Negated(h.sensorInformation))
  }

  /** Turning the flags over twice gives the header back, and never leaves a header as it was. */
  lemma ReadBackFacts(h: FileHeader)
    ensures ReadBack(ReadBack(h)) == h && ReadBack(h) != h
    ensures Canonical(ReadBack(h)) <==> Canonical(h)
  {
    SensorInformation.AsWrittenNegates(h.sensorInformation);
  }

  // ---------------------------------------------------------------------
  // The preamble, bytes 0 to 29: data size index, total length, data
  // length, date-time.

  datatype Preamble = Preamble(
    dataSizeIndex: DataSizeIndex.DataSizeIndex,
    totalLength: bv16,
    dataLength: bv16,
    datetime: DateTimeText.DateTimeText)

  /** Whether the preamble bytes are accepted: the data size code and well-formed text. */
  predicate PreambleAccepts(b: seq<byte>)
    requires |b| >= 30
  {
    b[0] == 2 && Utf8.Valid(b[5..17]) && Utf8.Valid(b[17..26]) && Utf8.Valid(b[26..30])
  }

  /** The preamble of the header whose bytes start `b`, `pos` being the header's offset in the stream. */
  function DecodePreamble(b: seq<byte>, pos: nat): (r: Result<Preamble>)
    ensures r.Success? <==> |b| >= 30 && PreambleAccepts(b)
    ensures |b| >= 1 && b[0] != 2 ==> r == Failure(NoVariantMatch(pos))
    ensures r.Success? ==>
      r.value.totalLength == Join16(b[1], b[2]) && r.value.dataLength == Join16(b[3], b[4])
      && DateTimeText.Canonical(r.value.datetime)
  {
    if |b| < 1 then Failure(UnexpectedEof)
    else
      var dataSizeIndex :- DataSizeIndex.FromByte(b[0], pos);
      if |b| < 5 then Failure(UnexpectedEof)
      else
        assert |b| >= 30 ==> b[5..][..12] == b[5..17] && b[5..][12..21] == b[17..26] && b[5..][21..25] == b[26..30];
        var (datetime, _) :- DateTimeText.Decode(Cursor(b[5..], pos + 5));
        Success(Preamble(dataSizeIndex, Join16(b[1], b[2]), Join16(b[3], b[4]), datetime))
  }

  function EncodePreamble(h: FileHeader): (r: seq<byte>)
    requires DateTimeText.WellFormed(h.datetime)
    ensures |r| == 30 && r[5..] == DateTimeText.Encode(h.datetime)
  {
    var total := U16Bytes(h.totalLength, Big);
    var data := U16Bytes(h.dataLength, Big);
    [DataSizeIndex.ToU8(h.dataSizeIndex).value, total[0], total[1], data[0], data[1]] + DateTimeText.Encode(h.datetime)
  }

  lemma DecodeEncodePreamble(h: FileHeader, b: seq<byte>, pos: nat)
    requires DateTimeText.Canonical(h.datetime)
    requires |b| >= 30 && b[..30] == EncodePreamble(h)
    ensures DecodePreamble(b, pos) == Success(Preamble(h.dataSizeIndex, h.totalLength, h.dataLength, h.datetime))
  {
    var e := EncodePreamble(h);
    assert b[0] == e[0] && b[1] == e[1] && b[2] == e[2] && b[3] == e[3] && b[4] == e[4];
    Join16Split(h.totalLength);
    Join16Split(h.dataLength);
    assert b[5..] == DateTimeText.Encode(h.datetime) + b[30..];
    DateTimeText.DecodeEncode(h.datetime, b[30..], pos + 5);
  }

  // ---------------------------------------------------------------------
  // The settings, bytes 31 to 41: sensor availability, two bytes of
  // padding, motion, start gain, sector size, train angle, range code,
  // absorption, config and pulse length. A one-byte field's error is
  // reported at the offset after its byte, an enumeration's mismatch at
  // the byte itself, as the field modules say.

  datatype Settings = Settings(
    sensorAvailable: SensorAvailable.SensorAvailable,
    motion: MotionConfig.MotionConfig,
    startGain: nat,
    sectorSize: nat,
    trainAngle: nat,
    rangeCode: RangeCode.RangeCode,
    absorption: nat,
    config: Config.Config,
    pulseLength: nat)

  /** Whether the settings bytes are accepted: every enumerated code, bit pattern and range checked. */
  predicate SettingsAccepts(b: seq<byte>)
    requires |b| >= 42
  {
    b[31] < 2 && MotionConfig.Accepts(b[34]) && b[35] <= 40
    && b[36] <= 120 && b[37] <= 120 && RangeCode.IsCode(b[38])
    && b[39] != 255 && Config.Accepts(b[40]) && b[41] <= 100
  }

  /** Sensor availability, motion and start gain. */
  function DecodeHead(b: seq<byte>, pos: nat): (r: Result<(SensorAvailable.SensorAvailable, MotionConfig.MotionConfig, nat)>)
    ensures r.Success? <==> |b| >= 36 && b[31] < 2 && MotionConfig.Accepts(b[34]) && b[35] <= 40
    ensures |b| >= 32 && b[31] >= 2 ==> r == Failure(NoVariantMatch(pos + 31))
    ensures r.Success? ==> StartGain.Valid(r.value.2)
  {
    if |b| < 32 then Failure(UnexpectedEof)
    else
      var sensorAvailable :- SensorAvailable.FromByte(b[31], pos + 31);
      if |b| < 35 then Failure(UnexpectedEof)
      else
        var motion :- MotionConfig.FromByte(b[34], pos + 35);
        if |b| < 36 then Failure(UnexpectedEof)
        else
          var startGain :- StartGain.FromByte(b[35], pos + 36);
          Success((sensorAvailable, motion, startGain))
  }

  /** Sector size, train angle and range code. */
  function DecodeSweep(b: seq<byte>, pos: nat): (r: Result<(nat, nat, RangeCode.RangeCode)>)
    ensures r.Success? <==> |b| >= 39 && b[36] <= 120 && b[37] <= 120 && RangeCode.IsCode(b[38])
    ensures r.Success? ==>
      SectorSize.Valid(r.value.0) && r.value.0 % 3 == 0 && TrainAngle.Valid(r.value.1) && r.value.1 % 3 == 0
  {
    if |b| < 37 then Failure(UnexpectedEof)
    else
      var sectorSize :- SectorSize.FromByte(b[36], pos + 37);
      if |b| < 38 then Failure(UnexpectedEof)
      else
        var trainAngle :- TrainAngle.FromByte(b[37], pos + 38);
        if |b| < 39 then Failure(UnexpectedEof)
        else
          var rangeCode :- RangeCode.FromByte(b[38], pos + 38);
          Success((sectorSize, trainAngle, rangeCode))
  }

  /** Absorption, config and pulse length. */
  function DecodePulse(b: seq<byte>, pos: nat): (r: Result<(nat, Config.Config, nat)>)
    ensures r.Success? <==> |b| >= 42 && b[39] != 255 && Config.Accepts(b[40]) && b[41] <= 100
    ensures |b| >= 40 && b[39] == 255 ==> r == Failure(AssertFail(pos + 40))
    ensures r.Success? ==>
      Absorption.ValidAsWritten(r.value.0) && PulseLength.Valid(r.value.2) && r.value.2 % 10 == 0
  {
    if |b| < 40 then Failure(UnexpectedEof)
    else
      var absorption :- Absorption.FromByteAsWritten(b[39], pos + 40);
      if |b| < 41 then Failure(UnexpectedEof)
      else
        var config :- Config.FromByte(b[40], pos + 41);
        if |b| < 42 then Failure(UnexpectedEof)
        else
          var pulseLength :- PulseLength.FromByte(b[41], pos + 42);
          Success((absorption, config, pulseLength))
  }

  function DecodeSettings(b: seq<byte>, pos: nat): (r: Result<Settings>)
    ensures r.Success? <==> |b| >= 42 && SettingsAccepts(b)
    ensures |b| >= 32 && b[31] >= 2 ==> r == Failure(NoVariantMatch(pos + 31))
    ensures r.Success? ==>
      var s := r.value;
      StartGain.Valid(s.startGain) && SectorSize.Valid(s.sectorSize) && s.sectorSize % 3 == 0
      && TrainAngle.Valid(s.trainAngle) && s.trainAngle % 3 == 0 && Absorption.ValidAsWritten(s.absorption)
      && PulseLength.Valid(s.pulseLength) && s.pulseLength % 10 == 0
  {
    var (sensorAvailable, motion, startGain) :- DecodeHead(b, pos);
    var (sectorSize, trainAngle, rangeCode) :- DecodeSweep(b, pos);
    var (absorption, config, pulseLength) :- DecodePulse(b, pos);
    Success(Settings(sensorAvailable, motion, startGain, sectorSize, trainAngle, rangeCode,
      absorption, config, pulseLength))
  }

  /** write of sensor availability, padding, motion and start gain, `pos` being the header's offset. */
  function EncodeHead(h: FileHeader, pos: nat): (r: Result<seq<byte>>)
    ensures r.Success? <==> StartGain.Valid(h.startGain)
    ensures r.Failure? ==> r.error == AssertFail(pos + 35)
    ensures r.Success? ==> |r.value| == 5
  {
    var gain :- StartGain.Encode(h.startGain, pos + 35);
    Success([SensorAvailable.Code(h.sensorAvailable), 0, 0, MotionConfig.ToByte(h.motion), gain[0]])
  }

  /** write of sector size, train angle and range code. */
  function EncodeSweep(h: FileHeader, pos: nat): (r: Result<seq<byte>>)
    ensures r.Success? <==> SectorSize.Valid(h.sectorSize) && TrainAngle.Valid(h.trainAngle)
    ensures !SectorSize.Valid(h.sectorSize) ==> r == Failure(AssertFail(pos + 36))
    ensures SectorSize.Valid(h.sectorSize) && !TrainAngle.Valid(h.trainAngle) ==> r == Failure(AssertFail(pos + 37))
    ensures r.Success? ==> |r.value| == 3
  {
    var sector :- SectorSize.Encode(h.sectorSize, pos + 36);
    var train :- TrainAngle.Encode(h.trainAngle, pos + 37);
    Success([sector[0], train[0], RangeCode.Code(h.rangeCode)])
  }

  /** write of absorption, config and pulse length. */
  function EncodePulse(h: FileHeader, pos: nat): (r: Result<seq<byte>>)
    ensures r.Success? <==> Absorption.ValidAsWritten(h.absorption) && PulseLength.Valid(h.pulseLength)
    ensures !Absorption.ValidAsWritten(h.absorption) ==> r == Failure(AssertFail(pos + 39))
    ensures Absorption.ValidAsWritten(h.absorption) && !PulseLength.Valid(h.pulseLength) ==> r == Failure(AssertFail(pos + 41))
    ensures r.Success? ==> |r.value| == 3
  {
    var absorption :- Absorption.EncodeAsWritten(h.absorption, pos + 39);
    var pulse :- PulseLength.Encode(h.pulseLength, pos + 41);
    Success([absorption[0], Config.ToByte(h.config), pulse[0]])
  }

  /** write of the settings: each range checked at its field's offset, in field order. */
  function EncodeSettings(h: FileHeader, pos: nat): (r: Result<seq<byte>>)
    ensures r.Success? <==>
      StartGain.Valid(h.startGain) && SectorSize.Valid(h.sectorSize) && TrainAngle.Valid(h.trainAngle)
      && Absorption.ValidAsWritten(h.absorption) && PulseLength.Valid(h.pulseLength)
    ensures !StartGain.Valid(h.startGain) ==> r == Failure(AssertFail(pos + 35))
    ensures r.Failure? ==> r.error.AssertFail? && pos + 35 <= r.error.pos <= pos + 41
    ensures r.Success? ==> |r.value| == 11
  {
    var head :- EncodeHead(h, pos);
    var sweep :- EncodeSweep(h, pos);
    var pulse :- EncodePulse(h, pos);
    Success(head + sweep + pulse)
  }

  lemma DecodeEncodeHead(h: FileHeader, b: seq<byte>, wpos: nat, pos: nat)
    requires StartGain.Valid(h.startGain)
    requires |b| >= 36 && b[31..36] == EncodeHead(h, wpos).value
    ensures DecodeHead(b, pos) == Success((h.sensorAvailable, h.motion, h.startGain))
  {
    var e := EncodeHead(h, wpos).value;
    assert b[31] == e[0] && b[34] == e[3] && b[35] == e[4];
    ByteOfNat(h.startGain);
    SensorAvailable.FromCodeByte(h.sensorAvailable, pos + 31);
    MotionConfig.FromToByte(h.motion, pos + 35);
  }

  lemma DecodeEncodeSweep(h: FileHeader, b: seq<byte>, wpos: nat, pos: nat)
    requires SectorSize.Valid(h.sectorSize) && h.sectorSize % 3 == 0 && TrainAngle.Valid(h.trainAngle) && h.trainAngle % 3 == 0
    requires |b| >= 39 && b[36..39] == EncodeSweep(h, wpos).value
    ensures DecodeSweep(b, pos) == Success((h.sectorSize, h.trainAngle, h.rangeCode))
  {
    var e := EncodeSweep(h, wpos).value;
    assert b[36] == e[0] && b[37] == e[1] && b[38] == e[2];
    ByteOfNat(h.sectorSize / 3);
    ByteOfNat(h.trainAngle / 3);
    RangeCode.FromCodeByte(h.rangeCode, pos + 38);
  }

  lemma DecodeEncodePulse(h: FileHeader, b: seq<byte>, wpos: nat, pos: nat)
    requires Absorption.ValidAsWritten(h.absorption) && PulseLength.Valid(h.pulseLength) && h.pulseLength % 10 == 0
    requires |b| >= 42 && b[39..42] == EncodePulse(h, wpos).value
    ensures DecodePulse(b, pos) == Success((h.absorption, h.config, h.pulseLength))
  {
    var e := EncodePulse(h, wpos).value;
    assert b[39] == e[0] && b[40] == e[1] && b[41] == e[2];
    ByteOfNat(h.absorption);
    ByteOfNat(h.pulseLength / 10);
    Config.FromToByte(h.config, pos + 41);
  }

  /** The three runs of the settings, at their offsets. */
  lemma SettingsRunsAt(head: seq<byte>, sweep: seq<byte>, pulse: seq<byte>, b: seq<byte>)
    requires |head| == 5 && |sweep| == 3 && |pulse| == 3
    requires |b| >= 42 && b[31..42] == head + sweep + pulse
    ensures b[31..36] == head && b[36..39] == sweep && b[39..42] == pulse
  {
    var s := b[31..42];
    assert forall i | 0 <= i < 5 :: b[31..36][i] == s[i] == head[i];
    assert forall i | 0 <= i < 3 :: b[36..39][i] == s[5 + i] == sweep[i];
    assert forall i | 0 <= i < 3 :: b[39..42][i] == s[8 + i] == pulse[i];
  }

  lemma DecodeEncodeSettings(h: FileHeader, b: seq<byte>, wpos: nat, pos: nat)
    requires SettingsCanonical(h)
    requires |b| >= 42 && b[31..42] == EncodeSettings(h, wpos).value
    ensures DecodeSettings(b, pos) == Success(Settings(h.sensorAvailable, h.motion, h.startGain, h.sectorSize,
      h.trainAngle, h.rangeCode, h.absorption, h.config, h.pulseLength))
  {
    SettingsRunsAt(EncodeHead(h, wpos).value, EncodeSweep(h, wpos).value, EncodePulse(h, wpos).value, b);
    DecodeEncodeHead(h, b, wpos, pos);
    DecodeEncodeSweep(h, b, wpos, pos);
    DecodeEncodePulse(h, b, wpos, pos);
  }

  // ---------------------------------------------------------------------
  // The acoustics, bytes 43 to 79: sound velocity, 31 bytes of padding,
  // operating frequency and pulse repetition frequency. The range checks
  // after reading the two speeds cannot fail: a word stands for a valid
  // speed whatever its bits.

  datatype Acoustics = Acoustics(soundVelocity: nat, operatingFrequency: bv16, realTimePrf: nat)

  function DecodeAcoustics(b: seq<byte>): (r: Result<Acoustics>)
    ensures r.Success? <==> |b| >= 80
    ensures r.Failure? ==> r.error == UnexpectedEof
    ensures r.Success? ==> SoundVelocity.Valid(r.value.soundVelocity) && RealTimePrf.Valid(r.value.realTimePrf)
  {
    if |b| < 80 then Failure(UnexpectedEof)
    else
      Success(Acoustics(SoundVelocity.FromRaw(Join16(b[43], b[44])), Join16(b[76], b[77]),
        RealTimePrf.FromRaw(Join16(b[78], b[79]))))
  }

  /** write of the acoustics, `pos` being the header's offset. */
  function EncodeAcoustics(h: FileHeader, pos: nat): (r: Result<seq<byte>>)
    ensures r.Success? <==> SoundVelocity.Valid(h.soundVelocity) && RealTimePrf.Valid(h.realTimePrf)
    ensures !SoundVelocity.Valid(h.soundVelocity) ==> r == Failure(AssertFail(pos + 43))
    ensures SoundVelocity.Valid(h.soundVelocity) && !RealTimePrf.Valid(h.realTimePrf) ==> r == Failure(AssertFail(pos + 78))
    ensures r.Success? ==> |r.value| == 37
  {
    var velocity :- SoundVelocity.Encode(h.soundVelocity, Big, pos + 43);
    var prf :- RealTimePrf.Encode(h.realTimePrf, Big, pos + 78);
    Success(velocity + Zeros(31) + U16Bytes(h.operatingFrequency, Big) + prf)
  }

  /** The bytes of the written acoustics at their offsets: the speeds at 43 and 78, the frequency at 76. */
  lemma AcousticsAt(h: FileHeader, b: seq<byte>, wpos: nat)
    requires SoundVelocity.Valid(h.soundVelocity) && RealTimePrf.Valid(h.realTimePrf)
    requires |b| >= 80 && b[43..80] == EncodeAcoustics(h, wpos).value
    ensures var velocity := SoundVelocity.Encode(h.soundVelocity, Big, wpos + 43).value;
      var prf := RealTimePrf.Encode(h.realTimePrf, Big, wpos + 78).value;
      |velocity| == 2 && |prf| == 2
      && b[43] == velocity[0] && b[44] == velocity[1] && b[78] == prf[0] && b[79] == prf[1]
      && b[76] == (h.operatingFrequency >> 8) as byte && b[77] == (h.operatingFrequency & 0xFF) as byte
  {
    var velocity := SoundVelocity.Encode(h.soundVelocity, Big, wpos + 43).value;
    var prf := RealTimePrf.Encode(h.realTimePrf, Big, wpos + 78).value;
    var e := EncodeAcoustics(h, wpos).value;
    assert e == velocity + Zeros(31) + U16Bytes(h.operatingFrequency, Big) + prf;
    assert b[43] == e[0] && b[44] == e[1] && b[78] == e[35] && b[79] == e[36];
    assert b[76] == e[33] && b[77] == e[34];
  }

  lemma DecodeEncodeAcoustics(h: FileHeader, b: seq<byte>, wpos: nat)
    requires SoundVelocity.Valid(h.soundVelocity) && RealTimePrf.Valid(h.realTimePrf)
    requires |b| >= 80 && b[43..80] == EncodeAcoustics(h, wpos).value
    ensures DecodeAcoustics(b) == Success(Acoustics(h.soundVelocity, h.operatingFrequency, h.realTimePrf))
  {
    AcousticsAt(h, b, wpos);
    SoundVelocity.FromRawEncoded(h.soundVelocity, wpos + 43);
    RealTimePrf.FromRawEncoded(h.realTimePrf, wpos + 78);
    Join16Split(h.operatingFrequency);
  }

  // ---------------------------------------------------------------------
  // The attitude, bytes 95 to 107: sensor information, then pitch, roll
  // and distance.

  datatype Attitude = Attitude(
    sensorInformation: SensorInformation.SensorInformation,
    pitch: bv32,
    roll: bv32,
    distance: bv32)

  function DecodeAttitude(b: seq<byte>): (r: Result<Attitude>)
    ensures r.Success? <==> |b| >= LENGTH
    ensures r.Failure? ==> r.error == UnexpectedEof
  {
    if |b| < LENGTH then Failure(UnexpectedEof)
    else
      Success(Attitude(SensorInformation.FromByte(b[95]), Join32(b[96], b[97], b[98], b[99]),
        Join32(b[100], b[101], b[102], b[103]), Join32(b[104], b[105], b[106], b[107])))
  }

  /** write of the attitude: the sensor byte as the source writes it, then three words. */
  function EncodeAttitude(h: FileHeader): (r: seq<byte>)
    ensures |r| == 13
    ensures SensorInformation.FromByte(r[0]) == SensorInformation.Negated(h.sensorInformation)
  {
    SensorInformation.EncodeAsWritten(h.sensorInformation)
      + U32Bytes(h.pitch, Big) + U32Bytes(h.roll, Big) + U32Bytes(h.distance, Big)
  }

  lemma DecodeEncodeAttitude(h: FileHeader, b: seq<byte>)
    requires |b| >= LENGTH && b[95..108] == EncodeAttitude(h)
    ensures DecodeAttitude(b) == Success(Attitude(SensorInformation.Negated(h.sensorInformation), h.pitch, h.roll, h.distance))
  {
    var e := EncodeAttitude(h);
    assert b[95] == e[0];
    assert b[96] == e[1] && b[97] == e[2] && b[98] == e[3] && b[99] == e[4];
    assert b[100] == e[5] && b[101] == e[6] && b[102] == e[7] && b[103] == e[8];
    assert b[104] == e[9] && b[105] == e[10] && b[106] == e[11] && b[107] == e[12];
    SensorInformation.AsWrittenNegates(h.sensorInformation);
    Join32Split(h.pitch);
    Join32Split(h.roll);
    Join32Split(h.distance);
  }

  // ---------------------------------------------------------------------
  // The header.

  function Assemble(p: Preamble, s: Settings, a: Acoustics, t: Attitude): (h: FileHeader)
    ensures h.totalLength == p.totalLength && h.dataLength == p.dataLength
  {
    FileHeader(p.dataSizeIndex, p.totalLength, p.dataLength, p.datetime,
      s.sensorAvailable, s.motion, s.startGain, s.sectorSize, s.trainAngle, s.rangeCode,
      s.absorption, s.config, s.pulseLength,
      a.soundVelocity, a.operatingFrequency, a.realTimePrf,
      t.sensorInformation, t.pitch, t.roll, t.distance)
  }

  /**
   * The 108 bytes a read accepts, stated on the bytes alone: the preamble
   * and settings checks, and the lengths 512 and 283. The padding, the
   * acoustics and the attitude accept anything.
   */
  predicate Accepts(b: seq<byte>)
    requires |b| >= LENGTH
  {
    PreambleAccepts(b) && SettingsAccepts(b)
    && Join16(b[1], b[2]) == VALID_TOTAL_LENGTH && Join16(b[3], b[4]) == VALID_DATA_LENGTH
  }

  /**
   * read of the header whose 108 bytes start `b`, `pos` being its offset in
   * the stream: the fields in order, the first that fails failing the
   * header; the two length assertions are checked after the last field, at
   * the header's offset.
   */
  function Decode(b: seq<byte>, pos: nat): (r: Result<FileHeader>)
    ensures r.Success? <==> |b| >= LENGTH && Accepts(b)
    ensures |b| >= 1 && b[0] != 2 ==> r == Failure(NoVariantMatch(pos))
    ensures |b| >= LENGTH && PreambleAccepts(b) && SettingsAccepts(b) && !Accepts(b) ==> r == Failure(AssertFail(pos))
    ensures r.Success? ==> Canonical(r.value)
  {
    var preamble :- DecodePreamble(b, pos);
    var settings :- DecodeSettings(b, pos);
    var acoustics :- DecodeAcoustics(b);
    var attitude :- DecodeAttitude(b);
    if preamble.totalLength != VALID_TOTAL_LENGTH || preamble.dataLength != VALID_DATA_LENGTH then
      Failure(AssertFail(pos))
    else
      Success(Assemble(preamble, settings, acoustics, attitude))
  }

  /** The two lengths as bytes: 512 is 02 00 and 283 is 01 1B, big-endian. */
  lemma LengthBytes(b1: byte, b2: byte, b3: byte, b4: byte)
    ensures Join16(b1, b2) == VALID_TOTAL_LENGTH && Join16(b3, b4) == VALID_DATA_LENGTH
      <==> b1 == 0x02 && b2 == 0x00 && b3 == 0x01 && b4 == 0x1B
  {
    JoinParts(b1, b2);
    JoinParts(b3, b4);
  }

  /**
   * The length assertions come after the fields: with a bad sensor
   * availability byte the header fails there, whatever its lengths say.
   */
  lemma FieldErrorFirst(b: seq<byte>, pos: nat)
    requires |b| >= LENGTH && PreambleAccepts(b) && b[31] >= 2
    ensures Decode(b, pos) == Failure(NoVariantMatch(pos + 31))
  {
    assert DecodePreamble(b, pos).Success?;
    assert DecodeSettings(b, pos) == Failure(NoVariantMatch(pos + 31));
  }

  /**
   * write: the two length assertions first, at the header's offset; then
   * the fields in order, the first out of range failing at its own offset;
   * padding is written as zeros.
   */
  function Encode(h: FileHeader, pos: nat): (r: Result<seq<byte>>)
    requires DateTimeText.WellFormed(h.datetime)
    ensures r.Success? <==> Valid(h)
    ensures !LengthsValid(h) ==> r == Failure(AssertFail(pos))
    ensures LengthsValid(h) && !StartGain.Valid(h.startGain) ==> r == Failure(AssertFail(pos + 35))
    ensures r.Failure? ==> r.error.AssertFail? && pos <= r.error.pos <= pos + 78
    ensures r.Success? ==> |r.value| == LENGTH
  {
    if !LengthsValid(h) then Failure(AssertFail(pos))
    else
      var settings :- EncodeSettings(h, pos);
      var acoustics :- EncodeAcoustics(h, pos);
      Success(EncodePreamble(h) + [0] + settings + [0] + acoustics + Zeros(15) + EncodeAttitude(h))
  }

  /** The runs of a header and the padding between them, at their offsets. */
  lemma RunsAt(p: seq<byte>, s: seq<byte>, a: seq<byte>, t: seq<byte>, e: seq<byte>)
    requires |p| == 30 && |s| == 11 && |a| == 37 && |t| == 13
    requires e == p + [0] + s + [0] + a + Zeros(15) + t
    ensures |e| == LENGTH && e[..30] == p && e[31..42] == s && e[43..80] == a && e[95..] == t
    ensures e[30] == 0 && e[42] == 0 && e[80..95] == Zeros(15)
  {
    assert e[..30] == p;
    assert e[31..42] == s;
    assert e[43..80] == a;
    assert e[80..95] == Zeros(15);
    assert e[95..] == t;
  }

  /** Where the writer puts each run of fields, and the zeros between them. */
  lemma EncodeLayout(h: FileHeader, pos: nat)
    requires DateTimeText.WellFormed(h.datetime) && Valid(h)
    ensures var e := Encode(h, pos).value;
      e[..30] == EncodePreamble(h) && e[31..42] == EncodeSettings(h, pos).value
      && e[43..80] == EncodeAcoustics(h, pos).value && e[95..] == EncodeAttitude(h)
      && e[30] == 0 && e[42] == 0 && e[80..95] == Zeros(15)
  {
    RunsAt(EncodePreamble(h), EncodeSettings(h, pos).value, EncodeAcoustics(h, pos).value, EncodeAttitude(h),
      Encode(h, pos).value);
  }

  /**
   * Bytes holding each run of a canonical header where the writer puts it
   * read back as that header with its validity flags turned over.
   */
  lemma DecodeRuns(h: FileHeader, b: seq<byte>, wpos: nat, pos: nat)
    requires Canonical(h)
    requires DateTimeText.WellFormed(h.datetime)
    requires |b| >= LENGTH && b[..30] == EncodePreamble(h) && b[31..42] == EncodeSettings(h, wpos).value
    requires b[43..80] == EncodeAcoustics(h, wpos).value && b[95..108] == EncodeAttitude(h)
    ensures Decode(b, pos) == Success(ReadBack(h))
  {
    DecodeEncodePreamble(h, b, pos);
    DecodeEncodeSettings(h, b, wpos, pos);
    DecodeEncodeAcoustics(h, b, wpos);
    DecodeEncodeAttitude(h, b);
  }

  /** The first 108 bytes of a longer sequence, slice by slice. */
  lemma PrefixRuns(e: seq<byte>, rest: seq<byte>)
    requires |e| == LENGTH
    ensures var b := e + rest;
      b[..30] == e[..30] && b[31..42] == e[31..42] && b[43..80] == e[43..80] && b[95..108] == e[95..]
  {
    var b := e + rest;
    assert b[..30] == e[..30];
    assert b[31..42] == e[31..42];
    assert b[43..80] == e[43..80];
    assert b[95..108] == e[95..];
  }

  /**
   * Every header a read can produce is written, whatever follows it, and
   * reads back as itself but for the three validity flags, which come back
   * turned over.
   */
  lemma DecodeEncode(h: FileHeader, wpos: nat, rest: seq<byte>, rpos: nat)
    requires Canonical(h)
    ensures DateTimeText.WellFormed(h.datetime) && Encode(h, wpos).Success?
    ensures Decode(Encode(h, wpos).value + rest, rpos) == Success(ReadBack(h))
  {
    DateTimeText.CanonicalWellFormed(h.datetime);
    var e := Encode(h, wpos).value;
    EncodeLayout(h, wpos);
    PrefixRuns(e, rest);
    DecodeRuns(h, e + rest, wpos, rpos);
  }

  /**
   * Whatever a read produces is written, and reads back as itself but for
   * the three validity flags, which come back turned over.
   */
  lemma ReadWriteRead(b: seq<byte>, pos: nat, wpos: nat, rest: seq<byte>, rpos: nat)
    requires Decode(b, pos).Success?
    ensures var h := Decode(b, pos).value;
      DateTimeText.WellFormed(h.datetime) && Encode(h, wpos).Success?
      && Decode(Encode(h, wpos).value + rest, rpos) == Success(ReadBack(h))
      && ReadBack(h) != h
  {
    DecodeEncode(Decode(b, pos).value, wpos, rest, rpos);
    ReadBackFacts(Decode(b, pos).value);
  }

  /**
   * Writing and reading the header a first write and read gave back
   * restores the original: two round trips in a row are the identity.
   */
  lemma DecodeEncodeTwice(h: FileHeader, wpos: nat, rest: seq<byte>, rpos: nat)
    requires Canonical(h)
    ensures DateTimeText.WellFormed(ReadBack(h).datetime) && Encode(ReadBack(h), wpos).Success?
    ensures Decode(Encode(ReadBack(h), wpos).value + rest, rpos) == Success(h)
  {
    ReadBackFacts(h);
    DecodeEncode(ReadBack(h), wpos, rest, rpos);
  }

  /**
   * An absorption byte of 255 fails the read with an assertion failure
   * after the byte, at offset 40, once the fields before it are accepted.
   */
  lemma AbsorptionMaxRefused(b: seq<byte>, pos: nat)
    requires |b| >= LENGTH && PreambleAccepts(b)
    requires b[31] < 2 && MotionConfig.Accepts(b[34]) && b[35] <= 40
    requires b[36] <= 120 && b[37] <= 120 && RangeCode.IsCode(b[38]) && b[39] == 255
    ensures Decode(b, pos) == Failure(AssertFail(pos + 40))
  {
    assert DecodePreamble(b, pos).Success?;
    assert DecodeHead(b, pos).Success? && DecodeSweep(b, pos).Success?;
    assert DecodePulse(b, pos) == Failure(AssertFail(pos + 40));
  }

  /**
   * An absorption of 2.55 dB/m fails the write at its field's offset, 39,
   * once the fields before it are in range.
   */
  lemma AbsorptionMaxNotWritten(h: FileHeader, pos: nat)
    requires DateTimeText.WellFormed(h.datetime) && LengthsValid(h)
    requires StartGain.Valid(h.startGain) && SectorSize.Valid(h.sectorSize) && TrainAngle.Valid(h.trainAngle)
    requires h.absorption == Absorption.MAX
    ensures Encode(h, pos) == Failure(AssertFail(pos + 39))
  {
    assert EncodePulse(h, pos) == Failure(AssertFail(pos + 39));
  }
}
