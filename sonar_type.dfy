// The kind of sonar head (src/types/sonar_type.rs): a one-byte binrw
// enumeration with num_traits codes.

module SonarType {
  import opened Binary

  datatype SonarType = Scanning | FixedPosition

  /** to_u8 of the `repr(u8)` discriminant: always defined, and from_u8 maps it back. */
  function ToU8(t: SonarType): (r: Option<byte>)
    ensures r.Some? && FromU8(r.value) == Some(t)
  {
    Some(match t case Scanning => 0 case FixedPosition => 1)
  }

  /** from_u8: exactly the codes 0 and 1 name a sonar type. */
  function FromU8(c: byte): (r: Option<SonarType>)
    ensures r.Some? <==> c < 2
  {
    if c == 0 then Some(Scanning) else if c == 1 then Some(FixedPosition) else None
  }

  /** to_u8 and from_u8 are inverse on the codes. */
  lemma CodesInverse()
    ensures forall c :: FromU8(c).Some? ==> ToU8(FromU8(c).value) == Some(c)
  {
  }

  /** The one-byte binrw form: any other byte matches no variant. */
  function Decode(c: Cursor): (r: Decoded<SonarType>)
    ensures r.Success? <==> |c.rest| >= 1 && c.rest[0] < 2
    ensures |c.rest| == 0 ==> r == Failure(UnexpectedEof)
    ensures |c.rest| >= 1 && c.rest[0] >= 2 ==> r == Failure(NoVariantMatch(c.pos))
    ensures r.Success? ==> ToU8(r.value.0) == Some(c.rest[0]) && r.value.1 == Cursor(c.rest[1..], c.pos + 1)
  {
    ReadRepr(c, FromU8)
  }

  function Encode(t: SonarType): seq<byte>
  {
    [ToU8(t).value]
  }

  lemma DecodeEncode(t: SonarType, rest: seq<byte>, pos: nat)
    ensures Decode(Cursor(Encode(t) + rest, pos)) == Success((t, Cursor(rest, pos + 1)))
  {
    ReprRoundTrip(t, ToU8(t).value, FromU8, rest, pos);
  }

  function Display(t: SonarType): string
  {
    match t
    case Scanning => "scanning"
    case FixedPosition => "fixed position"
  }

  /** Each sonar type has its own display text. */
  lemma DisplayDistinct()
    ensures Display(Scanning) == "scanning" && Display(FixedPosition) == "fixed position"
    ensures forall a, b :: Display(a) == Display(b) ==> a == b
  {
  }
}
