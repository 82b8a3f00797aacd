// The angular step of the sonar head (src/types/step_size.rs). Step
// angles are modelled exactly, in tenths of a degree.

module StepSize {
  import opened Binary

  datatype StepSize = Slow | Medium | Fast | Faster | Fastest

  /** to_u8 of the `repr(u8)` discriminant: always defined, and from_u8 maps it back. */
  function ToU8(s: StepSize): (r: Option<byte>)
    ensures r.Some? && FromU8(r.value) == Some(s)
  {
    Some(match s case Slow => 0 case Medium => 1 case Fast => 2 case Faster => 3 case Fastest => 4)
  }

  /** from_u8: exactly the codes 0 to 4 name a step size. */
  function FromU8(c: byte): (r: Option<StepSize>)
    ensures r.Some? <==> c < 5
  {
    if c == 0 then Some(Slow)
    else if c == 1 then Some(Medium)
    else if c == 2 then Some(Fast)
    else if c == 3 then Some(Faster)
    else if c == 4 then Some(Fastest)
    else None
  }

  /** to_u8 and from_u8 are inverse on the codes. */
  lemma CodesInverse()
    ensures forall c :: FromU8(c).Some? ==> ToU8(FromU8(c).value) == Some(c)
  {
  }

  /**
   * `degrees`, in tenths: 0.3 degrees per code step up to Faster (1.2),
   * and Fastest is twice that.
   */
  function DegreesTenths(s: StepSize): (t: nat)
    ensures s != Fastest ==> t == 3 * (ToU8(s).value as nat + 1)
    ensures s == Fastest ==> t == 2 * 12
  {
    match s
    case Slow => 3
    case Medium => 6
    case Fast => 9
    case Faster => 12
    case Fastest => 24
  }

  /** A larger code is a larger step. */
  lemma DegreesIncrease(a: StepSize, b: StepSize)
    ensures ToU8(a).value < ToU8(b).value <==> DegreesTenths(a) < DegreesTenths(b)
  {
  }

  function Display(s: StepSize): string
  {
    match s
    case Slow => "slow"
    case Medium => "medium"
    case Fast => "fast"
    case Faster => "faster"
    case Fastest => "fastest"
  }

  /** Each step size has its own display text. */
  lemma DisplayDistinct()
    ensures forall a, b :: Display(a) == Display(b) ==> a == b
  {
  }
}
