// Whether the profile grid is drawn (src/types/profile_grid.rs).

module ProfileGrid {
  import opened Binary

  datatype ProfileGrid = Off | On

  /** to_u8 of the discriminant: always defined, and from_u8 maps it back. */
  function ToU8(g: ProfileGrid): (r: Option<byte>)
    ensures r.Some? && FromU8(r.value) == Some(g)
  {
    Some(match g case Off => 0 case On => 1)
  }

  /** from_u8: exactly the codes 0 and 1 name a grid setting. */
  function FromU8(c: byte): (r: Option<ProfileGrid>)
    ensures r.Some? <==> c < 2
  {
    if c == 0 then Some(Off) else if c == 1 then Some(On) else None
  }

  /** to_u8 and from_u8 are inverse on the codes. */
  lemma CodesInverse()
    ensures forall c :: FromU8(c).Some? ==> ToU8(FromU8(c).value) == Some(c)
  {
  }

  /** The default grid setting is the one with code 0. */
  function Default(): (g: ProfileGrid)
    ensures ToU8(g) == Some(0)
  {
    Off
  }

  /** `From<bool>`: a flag becomes the grid setting whose code is the flag's 0 or 1. */
  function FromBool(enabled: bool): (g: ProfileGrid)
    ensures ToU8(g) == Some(if enabled then 1 else 0)
  {
    if enabled then On else Off
  }

  function Display(g: ProfileGrid): string
  {
    match g
    case Off => "off"
    case On => "on"
  }

  /** Each grid setting has its own display text. */
  lemma DisplayDistinct()
    ensures Display(Off) == "off" && Display(On) == "on"
    ensures forall a, b :: Display(a) == Display(b) ==> a == b
  {
  }
}
