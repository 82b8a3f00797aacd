// The 32-byte header of a sonar return (src/types/sonar_return_header.rs):
// the return's tag, sonar type, status, head position, range code, profile
// range and data length, four bytes of padding, the roll and pitch angles
// and accelerations, and eight bytes of padding, in the big-endian byte
// order of the enclosing shot. The profile range is kept as its raw u14
// value and the angles and accelerations as their i14f2 triples; the
// scaling of those to metres, degrees and g, which is where the range code
// passed to the profile range codec takes part, is not part of this model.
//
// As for the file header, every field sits at a fixed offset and the
// header is read from its bytes by offset. The fields are taken in three
// runs: the identity (tag, type, status), the placement (head position to
// data length) and the motion (the four i14f2 words).

module SonarReturnHeader {
  import opened Binary
  import TwosComplement
  import SonarReturnMagic
  import SonarType
  import SonarReturnStatus
  import HeadPosition
  import RangeCode
  import U14
  import I14F2

  /** The bytes a header occupies. */
  const LENGTH: nat := 32
  /**
   * The bytes a read needs: the eight bytes of padding after the pitch
   * acceleration are sought over, so the read ends after byte 23.
   */
  const READ_LENGTH: nat := 24

  datatype SonarReturnHeader = SonarReturnHeader(
    magic: SonarReturnMagic.SonarReturnMagic,
    sonarType: SonarType.SonarType,
    status: SonarReturnStatus.Status,
    headPosition: HeadPosition.HeadPosition,
    rangeCode: RangeCode.RangeCode,
    profileRange: bv16,
    dataLength: bv16,
    rollAngle: I14F2.I14F2,
    pitchAngle: I14F2.I14F2,
    rollAcceleration: I14F2.I14F2,
    pitchAcceleration: I14F2.I14F2)

  /** An i14f2 triple whose value fits in fourteen bits. */
  predicate Fits(x: I14F2.I14F2)
  {
    TwosComplement.ValidI14(I14F2.Value(x))
  }

  /** The motion fields a write accepts. */
  predicate MotionValid(h: SonarReturnHeader)
  {
    Fits(h.rollAngle) && Fits(h.pitchAngle) && Fits(h.rollAcceleration) && Fits(h.pitchAcceleration)
  }

  /** The headers a write accepts: both u14 fields and all four i14f2 values in range. */
  predicate Valid(h: SonarReturnHeader)
  {
    U14.Valid(h.profileRange) && U14.Valid(h.dataLength) && MotionValid(h)
  }

  /** The headers a read can produce: valid, with a head position of thirteen bits. */
  predicate Canonical(h: SonarReturnHeader)
  {
    Valid(h) && h.headPosition.position < 0x2000
  }

  // ---------------------------------------------------------------------
  // The identity: bytes 0-4.

  /** The identity bytes a read accepts: one of the two tags and a sonar type code. */
  predicate IdentityAccepts(b: seq<byte>)
    requires |b| >= 5
  {
    SonarReturnMagic.IsTag(b[..3]) && b[3] < 2
  }

  function DecodeIdentity(b: seq<byte>, pos: nat): (r: Result<(SonarReturnMagic.SonarReturnMagic, SonarType.SonarType, SonarReturnStatus.Status)>)
    ensures r.Success? <==> |b| >= 5 && IdentityAccepts(b)
    ensures |b| >= 3 && !SonarReturnMagic.IsTag(b[..3]) ==> r == Failure(Custom(pos))
    ensures r.Failure? ==> r.error in {UnexpectedEof, Custom(pos), NoVariantMatch(pos + 3)}
    ensures r.Success? ==> SonarReturnMagic.Tag(r.value.0) == b[..3] && SonarType.ToU8(r.value.1) == Some(b[3])
  {
    if |b| < 3 then Failure(UnexpectedEof)
    else
      var magic :- SonarReturnMagic.FromTag(b[..3], pos);
      if |b| < 4 then Failure(UnexpectedEof)
      else
        match SonarType.FromU8(b[3])
        case None => Failure(NoVariantMatch(pos + 3))
        case Some(sonarType) =>
          if |b| < 5 then Failure(UnexpectedEof)
          else Success((magic, sonarType, SonarReturnStatus.FromByte(b[4])))
  }

  function EncodeIdentity(h: SonarReturnHeader): (r: seq<byte>)
    ensures |r| == 5
  {
    SonarReturnMagic.Encode(h.magic) + SonarType.Encode(h.sonarType) + SonarReturnStatus.Encode(h.status)
  }

  lemma DecodeEncodeIdentity(h: SonarReturnHeader, b: seq<byte>, pos: nat)
    requires |b| >= 5 && b[..5] == EncodeIdentity(h)
    ensures DecodeIdentity(b, pos) == Success((h.magic, h.sonarType, h.status))
  {
    var e := EncodeIdentity(h);
    assert b[..3] == e[..3] == SonarReturnMagic.Tag(h.magic);
    assert b[3] == e[3] == SonarType.ToU8(h.sonarType).value;
    assert b[4] == e[4] == SonarReturnStatus.ToByte(h.status);
    SonarReturnStatus.FromToByte(h.status);
  }

  // ---------------------------------------------------------------------
  // The placement: bytes 5-11.

  datatype Placement = Placement(
    headPosition: HeadPosition.HeadPosition,
    rangeCode: RangeCode.RangeCode,
    profileRange: bv16,
    dataLength: bv16)

  /**
   * The head position, range code, profile range and data length: only the
   * range code byte can be refused, at its own offset.
   */
  function DecodePlacement(b: seq<byte>, pos: nat): (r: Result<Placement>)
    ensures r.Success? <==> |b| >= 12 && RangeCode.IsCode(b[7])
    ensures |b| >= 8 && !RangeCode.IsCode(b[7]) ==> r == Failure(NoVariantMatch(pos + 7))
    ensures r.Failure? ==> r.error in {UnexpectedEof, NoVariantMatch(pos + 7)}
    ensures r.Success? ==> (RangeCode.Code(r.value.rangeCode) == b[7]
      && r.value.dataLength == U14.FromRaw(Join16(b[10], b[11]))
      && U14.Valid(r.value.profileRange) && U14.Valid(r.value.dataLength)
      && r.value.headPosition.position < 0x2000)
  {
    if |b| < 7 then Failure(UnexpectedEof)
    else
      var headPosition := HeadPosition.FromRaw(Join16(b[5], b[6]), pos + 7);
      if |b| < 8 then Failure(UnexpectedEof)
      else
        var rangeCode :- RangeCode.FromByte(b[7], pos + 7);
        if |b| < 12 then Failure(UnexpectedEof)
        else
          Success(Placement(headPosition, rangeCode, U14.FromRaw(Join16(b[8], b[9])), U14.FromRaw(Join16(b[10], b[11]))))
  }

  /**
   * The placement as written: a profile range or data length of more than
   * fourteen bits is refused at its own offset.
   */
  function EncodePlacement(h: SonarReturnHeader, pos: nat): (r: Result<seq<byte>>)
    ensures r.Success? <==> U14.Valid(h.profileRange) && U14.Valid(h.dataLength)
    ensures !U14.Valid(h.profileRange) ==> r == Failure(Custom(pos + 8))
    ensures U14.Valid(h.profileRange) && !U14.Valid(h.dataLength) ==> r == Failure(Custom(pos + 10))
    ensures r.Success? ==> |r.value| == 7
  {
    var profile :- U14.Write(h.profileRange, Big, pos + 8);
    var length :- U14.Write(h.dataLength, Big, pos + 10);
    Success(HeadPosition.Encode(h.headPosition, Big) + RangeCode.Encode(h.rangeCode) + profile + length)
  }

  lemma DecodeEncodePlacement(h: SonarReturnHeader, b: seq<byte>, wpos: nat, pos: nat)
    requires U14.Valid(h.profileRange) && U14.Valid(h.dataLength) && h.headPosition.position < 0x2000
    requires |b| >= 12 && b[5..12] == EncodePlacement(h, wpos).value
    ensures DecodePlacement(b, pos) == Success(Placement(h.headPosition, h.rangeCode, h.profileRange, h.dataLength))
  {
    var e := EncodePlacement(h, wpos).value;
    var hp := HeadPosition.ToRaw(h.headPosition);
    var pr := U14.ToRaw(h.profileRange, wpos + 8).value;
    var dl := U14.ToRaw(h.dataLength, wpos + 10).value;
    U16RoundTrip(hp, Big, [], 0);
    U16RoundTrip(pr, Big, [], 0);
    U16RoundTrip(dl, Big, [], 0);
    assert b[5] == e[0] && b[6] == e[1] && b[7] == e[2];
    assert b[8] == e[3] && b[9] == e[4] && b[10] == e[5] && b[11] == e[6];
    Join16Split(hp);
    Join16Split(pr);
    Join16Split(dl);
    HeadPosition.FromToRawExact(h.headPosition, pos + 7);
    RangeCode.FromCodeByte(h.rangeCode, pos + 7);
    U14.FromToRaw(h.profileRange, wpos + 8);
    U14.FromToRaw(h.dataLength, wpos + 10);
  }

  // ---------------------------------------------------------------------
  // The motion: bytes 16-23.

  datatype Motion = Motion(roll: I14F2.I14F2, pitch: I14F2.I14F2, rollAcceleration: I14F2.I14F2, pitchAcceleration: I14F2.I14F2)

  /** The four i14f2 words; their range checks after the read cannot fail. */
  function DecodeMotion(b: seq<byte>): (r: Result<Motion>)
    ensures r.Success? <==> |b| >= READ_LENGTH
    ensures r.Failure? ==> r.error == UnexpectedEof
    ensures r.Success? ==> (Fits(r.value.roll) && Fits(r.value.pitch)
      && Fits(r.value.rollAcceleration) && Fits(r.value.pitchAcceleration))
  {
    if |b| < READ_LENGTH then Failure(UnexpectedEof)
    else
      Success(Motion(I14F2.FromRaw(Join16(b[16], b[17])), I14F2.FromRaw(Join16(b[18], b[19])),
        I14F2.FromRaw(Join16(b[20], b[21])), I14F2.FromRaw(Join16(b[22], b[23]))))
  }

  /** The four words as written: the first value out of range is refused at its own offset. */
  function EncodeMotion(h: SonarReturnHeader, pos: nat): (r: Result<seq<byte>>)
    ensures r.Success? <==> MotionValid(h)
    ensures !Fits(h.rollAngle) ==> r == Failure(Custom(pos + 16))
    ensures r.Failure? ==> r.error in {Custom(pos + 16), Custom(pos + 18), Custom(pos + 20), Custom(pos + 22)}
    ensures r.Success? ==> |r.value| == 8
  {
    var roll :- I14F2.Write(h.rollAngle, Big, pos + 16);
    var pitch :- I14F2.Write(h.pitchAngle, Big, pos + 18);
    var rollAcceleration :- I14F2.Write(h.rollAcceleration, Big, pos + 20);
    var pitchAcceleration :- I14F2.Write(h.pitchAcceleration, Big, pos + 22);
    Success(roll + pitch + rollAcceleration + pitchAcceleration)
  }

  /** A word written for a value in range joins back to that value. */
  lemma WordBack(x: I14F2.I14F2, pos: nat)
    requires Fits(x)
    ensures var w := I14F2.Write(x, Big, pos).value; I14F2.FromRaw(Join16(w[0], w[1])) == x
  {
    var raw := I14F2.ToRaw(x, pos).value;
    U16RoundTrip(raw, Big, [], 0);
    Join16Split(raw);
    I14F2.FromToRaw(x, pos);
  }

  lemma DecodeEncodeMotion(h: SonarReturnHeader, b: seq<byte>, wpos: nat)
    requires MotionValid(h)
    requires |b| >= READ_LENGTH && b[16..24] == EncodeMotion(h, wpos).value
    ensures DecodeMotion(b) == Success(Motion(h.rollAngle, h.pitchAngle, h.rollAcceleration, h.pitchAcceleration))
  {
    var e := EncodeMotion(h, wpos).value;
    var w1 := I14F2.Write(h.rollAngle, Big, wpos + 16).value;
    var w2 := I14F2.Write(h.pitchAngle, Big, wpos + 18).value;
    var w3 := I14F2.Write(h.rollAcceleration, Big, wpos + 20).value;
    var w4 := I14F2.Write(h.pitchAcceleration, Big, wpos + 22).value;
    assert e == w1 + w2 + w3 + w4;
    assert b[16] == w1[0] && b[17] == w1[1] && b[18] == w2[0] && b[19] == w2[1];
    assert b[20] == w3[0] && b[21] == w3[1] && b[22] == w4[0] && b[23] == w4[1];
    WordBack(h.rollAngle, wpos + 16);
    WordBack(h.pitchAngle, wpos + 18);
    WordBack(h.rollAcceleration, wpos + 20);
    WordBack(h.pitchAcceleration, wpos + 22);
  }

  // ---------------------------------------------------------------------
  // The header.

  /** The header bytes a read accepts, stated on the bytes alone; the other fields accept anything. */
  predicate Accepts(b: seq<byte>)
    requires |b| >= READ_LENGTH
  {
    IdentityAccepts(b) && RangeCode.IsCode(b[7])
  }

  /**
   * read of the header whose bytes start `b`, `pos` being its offset in the
   * stream: the fields in order, the first that fails failing the header.
   */
  function Decode(b: seq<byte>, pos: nat): (r: Result<SonarReturnHeader>)
    ensures r.Success? <==> |b| >= READ_LENGTH && Accepts(b)
    ensures |b| >= 3 && !SonarReturnMagic.IsTag(b[..3]) ==> r == Failure(Custom(pos))
    ensures |b| >= 8 && IdentityAccepts(b) && !RangeCode.IsCode(b[7]) ==> r == Failure(NoVariantMatch(pos + 7))
    ensures r.Failure? ==> r.error in {UnexpectedEof, Custom(pos), NoVariantMatch(pos + 3), NoVariantMatch(pos + 7)}
  {
    var (magic, sonarType, status) :- DecodeIdentity(b, pos);
    var placement :- DecodePlacement(b, pos);
    var motion :- DecodeMotion(b);
    Success(SonarReturnHeader(magic, sonarType, status, placement.headPosition, placement.rangeCode,
      placement.profileRange, placement.dataLength,
      motion.roll, motion.pitch, motion.rollAcceleration, motion.pitchAcceleration))
  }

  /** The data length a read gives is the u14 of bytes 10 and 11. */
  lemma DecodeDataLength(b: seq<byte>, pos: nat)
    requires Decode(b, pos).Success?
    ensures |b| >= 12 && Decode(b, pos).value.dataLength == U14.FromRaw(Join16(b[10], b[11]))
  {
  }

  /** Whatever a read produces is a header a write accepts, with a head position of thirteen bits. */
  lemma DecodeCanonical(b: seq<byte>, pos: nat)
    requires Decode(b, pos).Success?
    ensures Canonical(Decode(b, pos).value)
  {
  }

  /** A read looks only at the first 24 bytes: inputs that agree on them read alike. */
  lemma DecodeLocal(b: seq<byte>, b': seq<byte>, pos: nat)
    requires |b| >= READ_LENGTH && |b'| >= READ_LENGTH && b[..READ_LENGTH] == b'[..READ_LENGTH]
    ensures Decode(b, pos) == Decode(b', pos)
  {
    assert b[..3] == b'[..3];
    assert forall i :: 0 <= i < READ_LENGTH ==> b[i] == b'[i] by {
      forall i | 0 <= i < READ_LENGTH ensures b[i] == b'[i] {
        assert b[i] == b[..READ_LENGTH][i];
      }
    }
  }

  /** A bad sonar type byte fails the header at offset 3. */
  lemma BadSonarType(b: seq<byte>, pos: nat)
    requires |b| >= 5 && b[..3] == SonarReturnMagic.Tag(SonarReturnMagic.IMX) && b[3] >= 2
    ensures Decode(b, pos) == Failure(NoVariantMatch(pos + 3))
  {
    assert DecodeIdentity(b, pos) == Failure(NoVariantMatch(pos + 3));
  }

  /**
   * write: the fields in order, padding as zeros; the first u14 or i14f2
   * value out of range is refused at its own offset.
   */
  function Encode(h: SonarReturnHeader, pos: nat): (r: Result<seq<byte>>)
    ensures r.Success? <==> Valid(h)
    ensures !U14.Valid(h.profileRange) ==> r == Failure(Custom(pos + 8))
    ensures U14.Valid(h.profileRange) && !U14.Valid(h.dataLength) ==> r == Failure(Custom(pos + 10))
    ensures r.Failure? ==> r.error.Custom? && pos + 8 <= r.error.pos <= pos + 22
    ensures r.Success? ==> |r.value| == LENGTH
  {
    var placement :- EncodePlacement(h, pos);
    var motion :- EncodeMotion(h, pos);
    Success(EncodeIdentity(h) + placement + Zeros(4) + motion + Zeros(8))
  }

  /** The runs of a header and the padding between them, at their offsets. */
  lemma RunsAt(i: seq<byte>, p: seq<byte>, m: seq<byte>, e: seq<byte>, rest: seq<byte>)
    requires |i| == 5 && |p| == 7 && |m| == 8
    requires e == i + p + Zeros(4) + m + Zeros(8)
    ensures |e| == LENGTH
    ensures var b := e + rest; b[..5] == i && b[5..12] == p && b[16..24] == m
    ensures e[12..16] == Zeros(4) && e[24..] == Zeros(8)
  {
    var b := e + rest;
    assert b[..5] == i;
    assert b[5..12] == p;
    assert b[16..24] == m;
    assert e[12..16] == Zeros(4);
    assert e[24..] == Zeros(8);
  }

  /** Every header a read can produce is written and read back as itself, whatever follows it. */
  lemma DecodeEncode(h: SonarReturnHeader, wpos: nat, rest: seq<byte>, rpos: nat)
    requires Canonical(h)
    ensures Encode(h, wpos).Success?
    ensures Decode(Encode(h, wpos).value + rest, rpos) == Success(h)
  {
    var e := Encode(h, wpos).value;
    RunsAt(EncodeIdentity(h), EncodePlacement(h, wpos).value, EncodeMotion(h, wpos).value, e, rest);
    var b := e + rest;
    DecodeEncodeIdentity(h, b, rpos);
    DecodeEncodePlacement(h, b, wpos, rpos);
    DecodeEncodeMotion(h, b, wpos);
  }

  /** Whatever a read produces is written, and reads back as itself. */
  lemma ReadWriteRead(b: seq<byte>, pos: nat, wpos: nat, rest: seq<byte>, rpos: nat)
    requires Decode(b, pos).Success?
    ensures Encode(Decode(b, pos).value, wpos).Success?
    ensures Decode(Encode(Decode(b, pos).value, wpos).value + rest, rpos) == Success(Decode(b, pos).value)
  {
    DecodeCanonical(b, pos);
    DecodeEncode(Decode(b, pos).value, wpos, rest, rpos);
  }
}
