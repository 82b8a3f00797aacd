// The sample width of the returned data (src/types/data_bits.rs).

module DataBits {
  import opened Binary
  import Text

  datatype DataBits = X4Bits | X8Bits | X14Bits

  /** to_u8 of the `repr(u8)` discriminant: always defined, and from_u8 maps it back. */
  function ToU8(d: DataBits): (r: Option<byte>)
    ensures r.Some? && FromU8(r.value) == Some(d)
  {
    Some(match d case X4Bits => 0 case X8Bits => 1 case X14Bits => 2)
  }

  /** from_u8: exactly the codes 0 to 2 name a sample width. */
  function FromU8(c: byte): (r: Option<DataBits>)
    ensures r.Some? <==> c < 3
  {
    if c == 0 then Some(X4Bits) else if c == 1 then Some(X8Bits) else if c == 2 then Some(X14Bits) else None
  }

  /** to_u8 and from_u8 are inverse on the codes. */
  lemma CodesInverse()
    ensures forall c :: FromU8(c).Some? ==> ToU8(FromU8(c).value) == Some(c)
  {
  }

  /** `bits`: the sample width, 4, 8 or 14 (ordered by code, see Cmp). */
  function Bits(d: DataBits): (n: nat)
    ensures n in {4, 8, 14}
  {
    match d
    case X4Bits => 4
    case X8Bits => 8
    case X14Bits => 14
  }

  /** Display: the width followed by " bits". */
  function Display(d: DataBits): (s: string)
    ensures s == match d
      case X4Bits => "4 bits"
      case X8Bits => "8 bits"
      case X14Bits => "14 bits"
  {
    Text.SmallDecimal(Bits(d));
    Text.Decimal(Bits(d)) + " bits"
  }

  /** `Ord::cmp` compares widths, which is the same as comparing codes. */
  function Cmp(a: DataBits, b: DataBits): (o: Ordering)
    ensures o == CompareInt(ToU8(a).value as int, ToU8(b).value as int)
  {
    CompareInt(Bits(a), Bits(b))
  }

  /** `PartialOrd::partial_cmp` is always defined and orders by code. */
  function PartialCmp(a: DataBits, b: DataBits): (o: Option<Ordering>)
    ensures o == Some(CompareInt(ToU8(a).value as int, ToU8(b).value as int))
  {
    Some(Cmp(a, b))
  }
}
