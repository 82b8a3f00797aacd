// The scan mode of the sonar head (src/types/mode.rs). It is both a
// bit-field code and a one-byte binrw enumeration.

module Mode {
  import opened Binary

  datatype Mode = Sector | Polar | Sidescan

  /** to_u8 of the `repr(u8)` discriminant: always defined, and from_u8 maps it back. */
  function ToU8(m: Mode): (r: Option<byte>)
    ensures r.Some? && FromU8(r.value) == Some(m)
  {
    Some(match m case Sector => 0 case Polar => 1 case Sidescan => 2)
  }

  /** from_u8: exactly the codes 0 to 2 name a mode. */
  function FromU8(c: byte): (r: Option<Mode>)
    ensures r.Some? <==> c < 3
  {
    if c == 0 then Some(Sector) else if c == 1 then Some(Polar) else if c == 2 then Some(Sidescan) else None
  }

  /** to_u8 and from_u8 are inverse on the codes. */
  lemma CodesInverse()
    ensures forall c :: FromU8(c).Some? ==> ToU8(FromU8(c).value) == Some(c)
  {
  }

  /** The one-byte binrw form: any other byte matches no variant. */
  function Decode(c: Cursor): (r: Decoded<Mode>)
    ensures r.Success? <==> |c.rest| >= 1 && c.rest[0] < 3
    ensures |c.rest| >= 1 && c.rest[0] >= 3 ==> r == Failure(NoVariantMatch(c.pos))
    ensures r.Success? ==> ToU8(r.value.0) == Some(c.rest[0]) && r.value.1 == Cursor(c.rest[1..], c.pos + 1)
  {
    ReadRepr(c, FromU8)
  }

  function Encode(m: Mode): seq<byte>
  {
    [ToU8(m).value]
  }

  lemma DecodeEncode(m: Mode, rest: seq<byte>, pos: nat)
    ensures Decode(Cursor(Encode(m) + rest, pos)) == Success((m, Cursor(rest, pos + 1)))
  {
    ReprRoundTrip(m, ToU8(m).value, FromU8, rest, pos);
  }

  function Display(m: Mode): string
  {
    match m
    case Sector => "sector"
    case Polar => "polar"
    case Sidescan => "sidescan"
  }

  /** Each mode has its own display text. */
  lemma DisplayDistinct()
    ensures Display(Sector) == "sector" && Display(Polar) == "polar" && Display(Sidescan) == "sidescan"
    ensures forall a, b :: Display(a) == Display(b) ==> a == b
  {
  }
}
