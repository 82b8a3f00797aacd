// Which way the transducer faces (src/types/transducer.rs).

module Transducer {
  import opened Binary

  datatype Transducer = Down | Up

  /** to_u8 of the `repr(u8)` discriminant: always defined, and from_u8 maps it back. */
  function ToU8(t: Transducer): (r: Option<byte>)
    ensures r.Some? && FromU8(r.value) == Some(t)
  {
    Some(match t case Down => 0 case Up => 1)
  }

  /** from_u8: exactly the codes 0 and 1 name a transducer orientation. */
  function FromU8(c: byte): (r: Option<Transducer>)
    ensures r.Some? <==> c < 2
  {
    if c == 0 then Some(Down) else if c == 1 then Some(Up) else None
  }

  /** to_u8 and from_u8 are inverse on the codes. */
  lemma CodesInverse()
    ensures forall c :: FromU8(c).Some? ==> ToU8(FromU8(c).value) == Some(c)
  {
  }

  function Display(t: Transducer): string
  {
    match t
    case Down => "down"
    case Up => "up"
  }

  /** Each orientation has its own display text. */
  lemma DisplayDistinct()
    ensures Display(Down) == "down" && Display(Up) == "up"
    ensures forall a, b :: Display(a) == Display(b) ==> a == b
  {
  }
}
