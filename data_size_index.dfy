// The size index of the sonar data field (src/types/data_size_index.rs):
// a one-byte binrw enumeration with a single variant, code 2.

module DataSizeIndex {
  import opened Binary
  import Text

  datatype DataSizeIndex = X250Bytes

  /** to_u8 of the `repr(u8)` discriminant: always defined, and from_u8 maps it back. */
  function ToU8(d: DataSizeIndex): (r: Option<byte>)
    ensures r.Some? && FromU8(r.value) == Some(d)
  {
    match d case X250Bytes => Some(2)
  }

  /** from_u8: the code 2 is the only size index. */
  function FromU8(c: byte): (r: Option<DataSizeIndex>)
    ensures r.Some? <==> c == 2
  {
    if c == 2 then Some(X250Bytes) else None
  }

  /** to_u8 and from_u8 are inverse on the codes. */
  lemma CodesInverse()
    ensures forall c :: FromU8(c).Some? ==> ToU8(FromU8(c).value) == Some(c)
  {
  }

  /** The size index of a byte already read, `pos` being its offset: any byte but 2 matches no variant. */
  function FromByte(raw: byte, pos: nat): (r: Result<DataSizeIndex>)
    ensures r.Success? <==> raw == 2
    ensures r.Failure? ==> r.error == NoVariantMatch(pos)
    ensures r.Success? ==> ToU8(r.value) == Some(raw)
  {
    match FromU8(raw)
    case Some(d) => Success(d)
    case None => Failure(NoVariantMatch(pos))
  }

  /** The one-byte binrw form: any byte but 2 matches no variant. */
  function Decode(c: Cursor): (r: Decoded<DataSizeIndex>)
    ensures r.Success? <==> |c.rest| >= 1 && c.rest[0] == 2
    ensures |c.rest| == 0 ==> r == Failure(UnexpectedEof)
    ensures |c.rest| >= 1 && c.rest[0] != 2 ==> r == Failure(NoVariantMatch(c.pos))
    ensures r.Success? ==> r.value.1 == Cursor(c.rest[1..], c.pos + 1)
  {
    var (raw, next) :- ReadU8(c);
    var d :- FromByte(raw, c.pos);
    Success((d, next))
  }

  function Encode(d: DataSizeIndex): seq<byte>
  {
    [ToU8(d).value]
  }

  lemma DecodeEncode(d: DataSizeIndex, rest: seq<byte>, pos: nat)
    ensures Encode(d) == [2]
    ensures Decode(Cursor(Encode(d) + rest, pos)) == Success((d, Cursor(rest, pos + 1)))
  {
    assert (Encode(d) + rest)[1..] == rest;
  }

  /** `bytes`: the data field of every size index holds 250 samples. */
  function Bytes(d: DataSizeIndex): (n: nat)
    ensures n == 250
  {
    250
  }

  /** The default is the only variant, code 2. */
  function Default(): (d: DataSizeIndex)
    ensures ToU8(d) == Some(2)
  {
    X250Bytes
  }

  /** Display: the byte count followed by " bytes". */
  function Display(d: DataSizeIndex): (s: string)
    ensures s == "250 bytes"
  {
    Text.Decimal(Bytes(d)) + " bytes"
  }

  /** `Ord::cmp` compares byte counts, so all size indices are equal. */
  function Cmp(a: DataSizeIndex, b: DataSizeIndex): (o: Ordering)
    ensures o == Equal
  {
    CompareInt(Bytes(a), Bytes(b))
  }

  /** `PartialOrd::partial_cmp` is always defined. */
  function PartialCmp(a: DataSizeIndex, b: DataSizeIndex): (o: Option<Ordering>)
    ensures o == Some(Equal)
  {
    Some(CompareInt(Bytes(a), Bytes(b)))
  }
}
