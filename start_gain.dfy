// The start gain (src/types/primitive/start_gain.rs) in decibels, sent as
// one byte unchanged.

module StartGain {
  import opened Binary

  const FACTOR: nat := 1
  const MAX: nat := 40

  /** `valid`: at most 40 dB. */
  predicate Valid(gain: nat)
  {
    gain <= MAX
  }

  /** The value of a byte already read; `pos` is the offset after it, where a byte above 40 is refused. */
  function FromByte(raw: byte, pos: nat): (r: Result<nat>)
    ensures r.Success? <==> raw <= 40
    ensures r.Failure? ==> r.error == AssertFail(pos)
    ensures r.Success? ==> Valid(r.value) && r.value == raw as nat
  {
    var gain := raw as nat;
    if gain > 40 then Failure(AssertFail(pos)) else Success(gain)
  }

  /** parse: the byte itself; a byte above 40 is refused after it is read. */
  function Decode(c: Cursor): (r: Decoded<nat>)
    ensures r.Success? <==> |c.rest| >= 1 && c.rest[0] <= 40
    ensures |c.rest| >= 1 && c.rest[0] > 40 ==> r == Failure(AssertFail(c.pos + 1))
    ensures r.Success? ==> Valid(r.value.0) && r.value == (c.rest[0] as nat, Cursor(c.rest[1..], c.pos + 1))
  {
    var (raw, next) :- ReadU8(c);
    var gain :- FromByte(raw, next.pos);
    Success((gain, next))
  }

  /** write: refuses more than 40 dB, otherwise writes the gain unchanged. */
  function Encode(gain: nat, pos: nat): (r: Result<seq<byte>>)
    ensures r.Success? <==> Valid(gain)
    ensures r.Failure? ==> r.error == AssertFail(pos)
    ensures r.Success? ==> r.value == [gain as byte]
  {
    if gain > 40 then Failure(AssertFail(pos)) else Success([(gain) as byte])
  }

  /** Start gain loses nothing: every valid gain reads back exactly. */
  lemma DecodeEncode(gain: nat, wpos: nat, rest: seq<byte>, rpos: nat)
    requires Valid(gain)
    ensures Decode(Cursor(Encode(gain, wpos).value + rest, rpos)) == Success((gain, Cursor(rest, rpos + 1)))
  {
    var b := gain / 1;
    ByteOfNat(b);
    assert (Encode(gain, wpos).value + rest)[1..] == rest;
  }

  lemma EncodeDecode(c: Cursor, pos: nat)
    requires Decode(c).Success?
    ensures Encode(Decode(c).value.0, pos) == Success(c.rest[..1])
  {
    NatOfByte(c.rest[0]);
    assert c.rest[..1] == [c.rest[0]];
  }

  /** The examples of the start gain tests: 12 and 30 dB, and 41 refused. */
  lemma Examples(pos: nat)
    ensures Encode(12, pos) == Success([12]) && Encode(30, pos) == Success([30])
    ensures Encode(41, pos).Failure?
    ensures Decode(Cursor([30], pos)) == Success((30, Cursor([], pos + 1)))
    ensures Decode(Cursor([41], pos)) == Failure(AssertFail(pos + 1))
  {
    var one: seq<byte> := [30];
    assert one[1..] == [];
  }
}
