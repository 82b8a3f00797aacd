// The step direction of a switch command (src/types/step_direction.rs).

module StepDirection {
  import opened Binary

  datatype StepDirection = Normal | Reverse

  /** to_u8 of the `repr(u8)` discriminant: always defined, and from_u8 maps it back. */
  function ToU8(d: StepDirection): (r: Option<byte>)
    ensures r.Some? && FromU8(r.value) == Some(d)
  {
    Some(match d case Normal => 0 case Reverse => 1)
  }

  /** from_u8: exactly the codes 0 and 1 name a step direction. */
  function FromU8(c: byte): (r: Option<StepDirection>)
    ensures r.Some? <==> c < 2
  {
    if c == 0 then Some(Normal) else if c == 1 then Some(Reverse) else None
  }

  /** to_u8 and from_u8 are inverse on the codes. */
  lemma CodesInverse()
    ensures forall c :: FromU8(c).Some? ==> ToU8(FromU8(c).value) == Some(c)
  {
  }

  /** The default step direction is the one with code 0. */
  function Default(): (d: StepDirection)
    ensures ToU8(d) == Some(0)
  {
    Normal
  }

  function Display(d: StepDirection): string
  {
    match d
    case Normal => "normal"
    case Reverse => "reverse step direction"
  }

  /** Each step direction has its own display text. */
  lemma DisplayDistinct()
    ensures Display(Normal) == "normal" && Display(Reverse) == "reverse step direction"
    ensures forall a, b :: Display(a) == Display(b) ==> a == b
  {
  }
}
