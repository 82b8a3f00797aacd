// Where the head's zero angle points (src/types/zero.rs).

module Zero {
  import opened Binary

  datatype Zero = Up | Down

  /** to_u8 of the `repr(u8)` discriminant: always defined, and from_u8 maps it back. */
  function ToU8(z: Zero): (r: Option<byte>)
    ensures r.Some? && FromU8(r.value) == Some(z)
  {
    Some(match z case Up => 0 case Down => 1)
  }

  /** from_u8: exactly the codes 0 and 1 name a zero position. */
  function FromU8(c: byte): (r: Option<Zero>)
    ensures r.Some? <==> c < 2
  {
    if c == 0 then Some(Up) else if c == 1 then Some(Down) else None
  }

  /** to_u8 and from_u8 are inverse on the codes. */
  lemma CodesInverse()
    ensures forall c :: FromU8(c).Some? ==> ToU8(FromU8(c).value) == Some(c)
  {
  }

  function Display(z: Zero): string
  {
    match z
    case Up => "up"
    case Down => "down"
  }

  /** Each zero position has its own display text. */
  lemma DisplayDistinct()
    ensures Display(Up) == "up" && Display(Down) == "down"
    ensures forall a, b :: Display(a) == Display(b) ==> a == b
  {
  }
}
