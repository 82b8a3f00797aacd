// Whether an external pitch / roll / distance sensor is fitted
// (src/types/sensor_available.rs): a one-byte binrw enumeration.

module SensorAvailable {
  import opened Binary

  datatype SensorAvailable = NotAvailable | Available

  /** The `repr(u8)` byte of each variant. */
  function Code(s: SensorAvailable): (b: byte)
    ensures FromCode(b) == Some(s)
  {
    match s case NotAvailable => 0 case Available => 1
  }

  /** Exactly the bytes 0 and 1 are variants. */
  function FromCode(b: byte): (r: Option<SensorAvailable>)
    ensures r.Some? <==> b < 2
  {
    if b == 0 then Some(NotAvailable) else if b == 1 then Some(Available) else None
  }

  /** The variant of a byte already read, `pos` being its offset: any byte but 0 and 1 matches no variant. */
  function FromByte(raw: byte, pos: nat): (r: Result<SensorAvailable>)
    ensures r.Success? <==> raw < 2
    ensures r.Failure? ==> r.error == NoVariantMatch(pos)
    ensures r.Success? ==> Code(r.value) == raw
  {
    match FromCode(raw)
    case Some(s) => Success(s)
    case None => Failure(NoVariantMatch(pos))
  }

  /** Every variant reads back from its byte. */
  lemma FromCodeByte(s: SensorAvailable, pos: nat)
    ensures FromByte(Code(s), pos) == Success(s)
  {
  }

  /** The one-byte binrw form: any other byte matches no variant. */
  function Decode(c: Cursor): (r: Decoded<SensorAvailable>)
    ensures r.Success? <==> |c.rest| >= 1 && c.rest[0] < 2
    ensures |c.rest| == 0 ==> r == Failure(UnexpectedEof)
    ensures |c.rest| >= 1 && c.rest[0] >= 2 ==> r == Failure(NoVariantMatch(c.pos))
    ensures r.Success? ==> Code(r.value.0) == c.rest[0] && r.value.1 == Cursor(c.rest[1..], c.pos + 1)
  {
    var (raw, next) :- ReadU8(c);
    var s :- FromByte(raw, c.pos);
    Success((s, next))
  }

  function Encode(s: SensorAvailable): seq<byte>
  {
    [Code(s)]
  }

  lemma DecodeEncode(s: SensorAvailable, rest: seq<byte>, pos: nat)
    ensures Decode(Cursor(Encode(s) + rest, pos)) == Success((s, Cursor(rest, pos + 1)))
  {
    assert (Encode(s) + rest)[1..] == rest;
  }

  /** The default is the variant with byte 0. */
  function Default(): (s: SensorAvailable)
    ensures Code(s) == 0
  {
    NotAvailable
  }

  /** `Into<bool>`: true exactly for Available. */
  function ToBool(s: SensorAvailable): (b: bool)
    ensures b <==> Code(s) == 1
  {
    s == Available
  }

  /** `From<bool>`, which `Into<bool>` inverts. */
  function FromBool(b: bool): (s: SensorAvailable)
    ensures ToBool(s) == b
  {
    if b then Available else NotAvailable
  }

  /** `From<bool>` inverts `Into<bool>` too. */
  lemma BoolRoundTrip(s: SensorAvailable)
    ensures FromBool(ToBool(s)) == s
  {
  }

  function Display(s: SensorAvailable): string
  {
    match s
    case NotAvailable => "no external pitch / roll / distance sensor present"
    case Available => "external pitch / roll / distance sensor present"
  }

  /** Each setting has its own display text. */
  lemma DisplayDistinct()
    ensures Display(NotAvailable) == "no external pitch / roll / distance sensor present"
    ensures Display(Available) == "external pitch / roll / distance sensor present"
    ensures forall a, b :: Display(a) == Display(b) ==> a == b
  {
  }
}
