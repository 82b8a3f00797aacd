// The rotation direction of the sonar head (src/types/direction.rs).

module Direction {
  import opened Binary

  datatype Direction = Counterclockwise | Clockwise

  /** to_u8 of the `repr(u8)` discriminant: always defined, and from_u8 maps it back. */
  function ToU8(d: Direction): (r: Option<byte>)
    ensures r.Some? && FromU8(r.value) == Some(d)
  {
    Some(match d case Counterclockwise => 0 case Clockwise => 1)
  }

  /** from_u8: exactly the codes 0 and 1 name a direction. */
  function FromU8(c: byte): (r: Option<Direction>)
    ensures r.Some? <==> c < 2
  {
    if c == 0 then Some(Counterclockwise) else if c == 1 then Some(Clockwise) else None
  }

  /** to_u8 and from_u8 are inverse on the codes. */
  lemma CodesInverse()
    ensures forall c :: FromU8(c).Some? ==> ToU8(FromU8(c).value) == Some(c)
  {
  }

  /** The default direction is the one with code 0. */
  function Default(): (d: Direction)
    ensures ToU8(d) == Some(0)
  {
    Counterclockwise
  }

  function Display(d: Direction): string
  {
    match d
    case Clockwise => "clockwise"
    case Counterclockwise => "counterclockwise"
  }

  /** Each direction has its own display text. */
  lemma DisplayDistinct()
    ensures Display(Clockwise) == "clockwise" && Display(Counterclockwise) == "counterclockwise"
    ensures forall a, b :: Display(a) == Display(b) ==> a == b
  {
  }
}
