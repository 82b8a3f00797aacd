// The logarithmic gain range (src/types/logf.rs).

module Logf {
  import opened Binary
  import Text

  datatype Logf = X10dB | X20dB | X30dB | X40dB

  /** to_u8 of the discriminant: always defined, and from_u8 maps it back. */
  function ToU8(l: Logf): (r: Option<byte>)
    ensures r.Some? && FromU8(r.value) == Some(l)
  {
    Some(match l case X10dB => 0 case X20dB => 1 case X30dB => 2 case X40dB => 3)
  }

  /** from_u8: exactly the codes 0 to 3 name a range. */
  function FromU8(c: byte): (r: Option<Logf>)
    ensures r.Some? <==> c < 4
  {
    if c == 0 then Some(X10dB)
    else if c == 1 then Some(X20dB)
    else if c == 2 then Some(X30dB)
    else if c == 3 then Some(X40dB)
    else None
  }

  /** to_u8 and from_u8 are inverse on the codes. */
  lemma CodesInverse()
    ensures forall c :: FromU8(c).Some? ==> ToU8(FromU8(c).value) == Some(c)
  {
  }

  /** `decibels`: 10 dB per code step, starting at 10 dB for code 0. */
  function Decibels(l: Logf): (db: nat)
    ensures db == 10 * (ToU8(l).value as nat + 1)
  {
    match l
    case X10dB => 10
    case X20dB => 20
    case X30dB => 30
    case X40dB => 40
  }

  /** Display: the decibels followed by " dB". */
  function Display(l: Logf): (s: string)
    ensures s == match l
      case X10dB => "10 dB"
      case X20dB => "20 dB"
      case X30dB => "30 dB"
      case X40dB => "40 dB"
  {
    Text.SmallDecimal(Decibels(l));
    Text.Decimal(Decibels(l)) + " dB"
  }

  /** `Ord::cmp` compares codes, which is the same as comparing decibels. */
  function Cmp(a: Logf, b: Logf): (o: Ordering)
    ensures o == CompareInt(Decibels(a), Decibels(b))
  {
    CompareInt(ToU8(a).value as int, ToU8(b).value as int)
  }

  /** `PartialOrd::partial_cmp` is always defined and orders by decibels. */
  function PartialCmp(a: Logf, b: Logf): (o: Option<Ordering>)
    ensures o == Some(CompareInt(Decibels(a), Decibels(b)))
  {
    Some(Cmp(a, b))
  }
}
