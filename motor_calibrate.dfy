// Whether the head is asked to calibrate its motor
// (src/types/motor_calibrate.rs).

module MotorCalibrate {
  import opened Binary

  datatype MotorCalibrate = NoCalibrate | Calibrate

  /** to_u8 of the `repr(u8)` discriminant: always defined, and from_u8 maps it back. */
  function ToU8(m: MotorCalibrate): (r: Option<byte>)
    ensures r.Some? && FromU8(r.value) == Some(m)
  {
    Some(match m case NoCalibrate => 0 case Calibrate => 1)
  }

  /** from_u8: exactly the codes 0 and 1 name a setting. */
  function FromU8(c: byte): (r: Option<MotorCalibrate>)
    ensures r.Some? <==> c < 2
  {
    if c == 0 then Some(NoCalibrate) else if c == 1 then Some(Calibrate) else None
  }

  /** to_u8 and from_u8 are inverse on the codes. */
  lemma CodesInverse()
    ensures forall c :: FromU8(c).Some? ==> ToU8(FromU8(c).value) == Some(c)
  {
  }

  /** The default is the setting with code 0. */
  function Default(): (m: MotorCalibrate)
    ensures ToU8(m) == Some(0)
  {
    NoCalibrate
  }

  /** `Into<bool>`: true exactly for the setting with code 1. */
  function ToBool(m: MotorCalibrate): (b: bool)
    ensures b <==> ToU8(m) == Some(1)
  {
    m == Calibrate
  }

  /** `From<bool>`, which `Into<bool>` inverts. */
  function FromBool(b: bool): (m: MotorCalibrate)
    ensures ToBool(m) == b
  {
    if b then Calibrate else NoCalibrate
  }

  /** `From<bool>` inverts `Into<bool>` too. */
  lemma BoolRoundTrip(m: MotorCalibrate)
    ensures FromBool(ToBool(m)) == m
  {
  }

  function Display(m: MotorCalibrate): string
  {
    match m
    case NoCalibrate => "normal operation"
    case Calibrate => "calibrate sonar head transducer"
  }

  /** Each setting has its own display text. */
  lemma DisplayDistinct()
    ensures Display(NoCalibrate) == "normal operation" && Display(Calibrate) == "calibrate sonar head transducer"
    ensures forall a, b :: Display(a) == Display(b) ==> a == b
  {
  }
}
