// The sector size (src/types/primitive/sector_size.rs): the width of the
// scanned sector in degrees, sent as one byte of thirds of it.

module SectorSize {
  import opened Binary

  const FACTOR: nat := 3
  const MAX: nat := 360

  /** `valid`: at most 360 degrees. */
  predicate Valid(degrees: nat)
  {
    degrees <= MAX
  }

  /** The value of a byte already read; `pos` is the offset after it, where a byte above 120 is refused. */
  function FromByte(raw: byte, pos: nat): (r: Result<nat>)
    ensures r.Success? <==> raw <= 120
    ensures r.Failure? ==> r.error == AssertFail(pos)
    ensures r.Success? ==> Valid(r.value) && r.value == 3 * raw as nat
  {
    var degrees := 3 * raw as nat;
    if degrees > 360 then Failure(AssertFail(pos)) else Success(degrees)
  }

  /** parse: one byte `b` is 3 * b degrees; a byte above 120 is refused after it is read. */
  function Decode(c: Cursor): (r: Decoded<nat>)
    ensures r.Success? <==> |c.rest| >= 1 && c.rest[0] <= 120
    ensures |c.rest| >= 1 && c.rest[0] > 120 ==> r == Failure(AssertFail(c.pos + 1))
    ensures r.Success? ==> Valid(r.value.0) && r.value == (3 * c.rest[0] as nat, Cursor(c.rest[1..], c.pos + 1))
  {
    var (raw, next) :- ReadU8(c);
    var degrees :- FromByte(raw, next.pos);
    Success((degrees, next))
  }

  /** write: refuses more than 360 degrees, otherwise writes a third of it, rounded down. */
  function Encode(degrees: nat, pos: nat): (r: Result<seq<byte>>)
    ensures r.Success? <==> Valid(degrees)
    ensures r.Failure? ==> r.error == AssertFail(pos)
    ensures r.Success? ==> r.value == [(degrees / 3) as byte]
  {
    if degrees > 360 then Failure(AssertFail(pos)) else Success([(degrees / 3) as byte])
  }

  lemma DecodeEncode(degrees: nat, wpos: nat, rest: seq<byte>, rpos: nat)
    requires Valid(degrees)
    ensures Decode(Cursor(Encode(degrees, wpos).value + rest, rpos))
         == Success((degrees - degrees % 3, Cursor(rest, rpos + 1)))
  {
    var b := degrees / 3;
    ByteOfNat(b);
    assert (Encode(degrees, wpos).value + rest)[1..] == rest;
  }

  lemma EncodeDecode(c: Cursor, pos: nat)
    requires Decode(c).Success?
    ensures Encode(Decode(c).value.0, pos) == Success(c.rest[..1])
  {
    var raw := c.rest[0];
    NatOfByte(raw);
    assert Decode(c).value.0 == 3 * raw as nat;
    assert (3 * raw as nat) / 3 == raw as nat;
    assert c.rest[..1] == [raw];
  }

  /** The examples of the sector size tests: 360, 60, 9 and 15 degrees, and byte 122 refused. */
  lemma Examples(pos: nat)
    ensures Encode(360, pos) == Success([120]) && Encode(60, pos) == Success([20])
    ensures Encode(9, pos) == Success([3]) && Encode(15, pos) == Success([5])
    ensures Encode(361, pos).Failure?
    ensures Decode(Cursor([5], pos)) == Success((15, Cursor([], pos + 1)))
    ensures Decode(Cursor([122], pos)) == Failure(AssertFail(pos + 1))
  {
    var one: seq<byte> := [5];
    assert one[1..] == [];
  }
}
