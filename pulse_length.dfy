// The pulse length (src/types/primitive/pulse_length.rs) in microseconds,
// sent as one byte of tens of them.

module PulseLength {
  import opened Binary

  const FACTOR: nat := 10
  const MAX: nat := 1000

  /** `valid`: at most 1000 microseconds. */
  predicate Valid(micros: nat)
  {
    micros <= MAX
  }

  /** The value of a byte already read; `pos` is the offset after it, where a byte above 100 is refused. */
  function FromByte(raw: byte, pos: nat): (r: Result<nat>)
    ensures r.Success? <==> raw <= 100
    ensures r.Failure? ==> r.error == AssertFail(pos)
    ensures r.Success? ==> Valid(r.value) && r.value == 10 * raw as nat
  {
    var micros := 10 * raw as nat;
    if micros > 1000 then Failure(AssertFail(pos)) else Success(micros)
  }

  /** parse: one byte `b` is 10 * b microseconds; a byte above 100 is refused after it is read. */
  function Decode(c: Cursor): (r: Decoded<nat>)
    ensures r.Success? <==> |c.rest| >= 1 && c.rest[0] <= 100
    ensures |c.rest| >= 1 && c.rest[0] > 100 ==> r == Failure(AssertFail(c.pos + 1))
    ensures r.Success? ==> Valid(r.value.0) && r.value == (10 * c.rest[0] as nat, Cursor(c.rest[1..], c.pos + 1))
  {
    var (raw, next) :- ReadU8(c);
    var micros :- FromByte(raw, next.pos);
    Success((micros, next))
  }

  /** write: refuses more than 1000 microseconds, otherwise writes a tenth of it, rounded down. */
  function Encode(micros: nat, pos: nat): (r: Result<seq<byte>>)
    ensures r.Success? <==> Valid(micros)
    ensures r.Failure? ==> r.error == AssertFail(pos)
    ensures r.Success? ==> r.value == [(micros / 10) as byte]
  {
    if micros > 1000 then Failure(AssertFail(pos)) else Success([(micros / 10) as byte])
  }

  lemma DecodeEncode(micros: nat, wpos: nat, rest: seq<byte>, rpos: nat)
    requires Valid(micros)
    ensures Decode(Cursor(Encode(micros, wpos).value + rest, rpos))
         == Success((micros - micros % 10, Cursor(rest, rpos + 1)))
  {
    var b := micros / 10;
    ByteOfNat(b);
    assert (Encode(micros, wpos).value + rest)[1..] == rest;
  }

  lemma EncodeDecode(c: Cursor, pos: nat)
    requires Decode(c).Success?
    ensures Encode(Decode(c).value.0, pos) == Success(c.rest[..1])
  {
    var raw := c.rest[0];
    NatOfByte(raw);
    assert Decode(c).value.0 == 10 * raw as nat;
    assert (10 * raw as nat) / 10 == raw as nat;
    assert c.rest[..1] == [raw];
  }
}
