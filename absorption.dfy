// The absorption field of a file header (src/types/primitive/absorption.rs)
// in hundredths of a dB/m, one byte on the wire, the byte being the
// hundredths. The source checks the range 0 to 2.55 as the half-open
// Rust range `MIN..MAX`, so 2.55 itself, byte 255, is refused in both
// directions, although the error text says "from 0.0 to 2.55" and the
// tests pair 2.55 with byte 255. Both readings are kept here: the file
// header reads and writes its absorption as written, and the closed range
// is the intended reading the error text and the tests describe.

module Absorption {
  import opened Binary

  const FACTOR: nat := 1
  /** MAX: 2.55 dB/m. */
  const MAX: nat := 255

  /** `valid` as written: `(MIN..MAX).contains`, which leaves out MAX. */
  predicate ValidAsWritten(hundredths: nat)
  {
    hundredths < MAX
  }

  /**
   * The absorption of a byte already read, as written: byte 255 fails the
   * range check, `pos` being the offset after the byte.
   */
  function FromByteAsWritten(raw: byte, pos: nat): (r: Result<nat>)
    ensures r.Success? <==> raw != 255
    ensures r.Failure? ==> r.error == AssertFail(pos)
    ensures r.Success? ==> ValidAsWritten(r.value) && r.value == raw as nat
  {
    var hundredths := raw as nat;
    if hundredths > 254 then Failure(AssertFail(pos)) else Success(hundredths)
  }

  /** parse as written: byte 255 is refused after it is read. */
  function DecodeAsWritten(c: Cursor): (r: Decoded<nat>)
    ensures r.Success? <==> |c.rest| >= 1 && c.rest[0] < 255
    ensures |c.rest| >= 1 && c.rest[0] == 255 ==> r == Failure(AssertFail(c.pos + 1))
    ensures r.Success? ==> ValidAsWritten(r.value.0) && r.value == (c.rest[0] as nat, Cursor(c.rest[1..], c.pos + 1))
  {
    var (raw, next) :- ReadU8(c);
    var hundredths :- FromByteAsWritten(raw, next.pos);
    Success((hundredths, next))
  }

  /** write as written: 2.55 dB/m and more are refused. */
  function EncodeAsWritten(hundredths: nat, pos: nat): (r: Result<seq<byte>>)
    ensures r.Success? <==> ValidAsWritten(hundredths)
    ensures r.Failure? ==> r.error == AssertFail(pos)
    ensures r.Success? ==> r.value == [hundredths as byte]
  {
    if hundredths > 254 then Failure(AssertFail(pos)) else Success([(hundredths) as byte])
  }

  /** Every absorption the source accepts reads back exactly. */
  lemma DecodeEncodeAsWritten(hundredths: nat, wpos: nat, rest: seq<byte>, rpos: nat)
    requires ValidAsWritten(hundredths)
    ensures DecodeAsWritten(Cursor(EncodeAsWritten(hundredths, wpos).value + rest, rpos))
      == Success((hundredths, Cursor(rest, rpos + 1)))
  {
    ByteOfNat(hundredths);
    assert (EncodeAsWritten(hundredths, wpos).value + rest)[1..] == rest;
  }

  /** The test pair (2.55, [255]) fails both ways as written. */
  lemma AsWrittenRefusesMax(pos: nat)
    ensures DecodeAsWritten(Cursor([255], pos)) == Failure(AssertFail(pos + 1))
    ensures EncodeAsWritten(255, pos) == Failure(AssertFail(pos))
  {
  }

  /** `valid` as the error text and the tests mean it: 0 to 2.55 inclusive. */
  predicate Valid(hundredths: nat)
  {
    hundredths <= MAX
  }

  /** The absorption of a byte already read, over the closed range: the range check after the read refuses no byte. */
  function FromByte(raw: byte, pos: nat): (r: Result<nat>)
    ensures r.Success? && Valid(r.value) && r.value == raw as nat
  {
    var hundredths := raw as nat;
    if hundredths > 255 then Failure(AssertFail(pos)) else Success(hundredths)
  }

  /** parse over the closed range: every byte is a valid absorption. */
  function Decode(c: Cursor): (r: Decoded<nat>)
    ensures r.Success? <==> |c.rest| >= 1
    ensures r.Failure? ==> r.error == UnexpectedEof
    ensures r.Success? ==> Valid(r.value.0) && r.value == (c.rest[0] as nat, Cursor(c.rest[1..], c.pos + 1))
  {
    var (raw, next) :- ReadU8(c);
    Success((FromByte(raw, next.pos).value, next))
  }

  /** write over the closed range: more than 2.55 dB/m is refused. */
  function Encode(hundredths: nat, pos: nat): (r: Result<seq<byte>>)
    ensures r.Success? <==> Valid(hundredths)
    ensures r.Failure? ==> r.error == AssertFail(pos)
    ensures r.Success? ==> r.value == [hundredths as byte]
  {
    if hundredths > 255 then Failure(AssertFail(pos)) else Success([(hundredths) as byte])
  }

  /** Every valid absorption reads back exactly, 2.55 dB/m included. */
  lemma DecodeEncode(hundredths: nat, wpos: nat, rest: seq<byte>, rpos: nat)
    requires Valid(hundredths)
    ensures Decode(Cursor(Encode(hundredths, wpos).value + rest, rpos)) == Success((hundredths, Cursor(rest, rpos + 1)))
  {
    ByteOfNat(hundredths);
    assert (Encode(hundredths, wpos).value + rest)[1..] == rest;
  }

  lemma EncodeDecode(c: Cursor, pos: nat)
    requires Decode(c).Success?
    ensures Encode(Decode(c).value.0, pos) == Success(c.rest[..1])
  {
    NatOfByte(c.rest[0]);
    assert c.rest[..1] == [c.rest[0]];
  }

  /** The test pairs: 1.0 and [100], 2.55 and [255], 0.0 and [0]. */
  lemma Examples(pos: nat)
    ensures Encode(100, pos) == Success([100]) && Encode(255, pos) == Success([255]) && Encode(0, pos) == Success([0])
    ensures Encode(256, pos).Failure?
    ensures Decode(Cursor([255], pos)) == Success((255, Cursor([], pos + 1)))
  {
    var one: seq<byte> := [255];
    assert one[1..] == [];
  }
}
