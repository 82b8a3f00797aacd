// Where in the pulse a profile point is detected
// (src/types/profile_point_detection.rs).

module ProfilePointDetection {
  import opened Binary

  datatype ProfilePointDetection = CenterOfPulse | StartOfPulse

  /** to_u8 of the `repr(u8)` discriminant: always defined, and from_u8 maps it back. */
  function ToU8(p: ProfilePointDetection): (r: Option<byte>)
    ensures r.Some? && FromU8(r.value) == Some(p)
  {
    Some(match p case CenterOfPulse => 0 case StartOfPulse => 1)
  }

  /** from_u8: exactly the codes 0 and 1 name a detection point. */
  function FromU8(c: byte): (r: Option<ProfilePointDetection>)
    ensures r.Some? <==> c < 2
  {
    if c == 0 then Some(CenterOfPulse) else if c == 1 then Some(StartOfPulse) else None
  }

  /** to_u8 and from_u8 are inverse on the codes. */
  lemma CodesInverse()
    ensures forall c :: FromU8(c).Some? ==> ToU8(FromU8(c).value) == Some(c)
  {
  }
}
