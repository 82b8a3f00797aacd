// The three-byte tag that opens a sonar return
// (src/types/sonar_return_magic.rs): "IMX" for a return carrying 250 data
// bytes, "IPX" for one carrying none.

module SonarReturnMagic {
  import opened Binary

  datatype SonarReturnMagic = IMX | IPX

  /** The ASCII bytes of each tag. */
  function Tag(m: SonarReturnMagic): (t: seq<byte>)
    ensures |t| == 3
  {
    match m
    case IMX => [0x49, 0x4D, 0x58]
    case IPX => [0x49, 0x50, 0x58]
  }

  /** `data_length`: the number of data bytes the variant stands for. */
  function DataLength(m: SonarReturnMagic): (n: nat)
    ensures n == 250 || n == 0
    ensures n == 250 <==> m == IMX
  {
    match m
    case IMX => 250
    case IPX => 0
  }

  /**
   * read: three bytes (fewer is an end-of-file error) that must spell one of
   * the tags; anything else is a custom error at the tag's offset.
   */
  function Decode(c: Cursor): (r: Decoded<SonarReturnMagic>)
    ensures |c.rest| < 3 ==> r == Failure(UnexpectedEof)
    ensures r.Success? <==> |c.rest| >= 3 && (c.rest[..3] == Tag(IMX) || c.rest[..3] == Tag(IPX))
    ensures |c.rest| >= 3 && r.Failure? ==> r.error == Custom(c.pos)
    ensures r.Success? ==> Tag(r.value.0) == c.rest[..3] && r.value.1 == Cursor(c.rest[3..], c.pos + 3)
  {
    var (raw, next) :- ReadBytes(c, 3);
    if raw == Tag(IMX) then Success((IMX, next))
    else if raw == Tag(IPX) then Success((IPX, next))
    else Failure(Custom(c.pos))
  }

  /** The tags a read accepts. */
  predicate IsTag(t: seq<byte>)
  {
    t == Tag(IMX) || t == Tag(IPX)
  }

  /** The variant a three-byte tag already read spells, `pos` being its offset. */
  function FromTag(t: seq<byte>, pos: nat): (r: Result<SonarReturnMagic>)
    ensures r.Success? <==> IsTag(t)
    ensures r.Failure? ==> r.error == Custom(pos)
    ensures r.Success? ==> Tag(r.value) == t
  {
    if t == Tag(IMX) then Success(IMX)
    else if t == Tag(IPX) then Success(IPX)
    else Failure(Custom(pos))
  }

  /** write: the three tag bytes. */
  function Encode(m: SonarReturnMagic): (b: seq<byte>)
    ensures b == Tag(m)
  {
    Tag(m)
  }

  lemma DecodeEncode(m: SonarReturnMagic, rest: seq<byte>, pos: nat)
    ensures Decode(Cursor(Encode(m) + rest, pos)) == Success((m, Cursor(rest, pos + 3)))
  {
    ReadBytesRoundTrip(Tag(m), rest, pos);
  }

  /** Writing back a decoded tag reproduces the bytes read. */
  lemma EncodeDecode(c: Cursor)
    requires Decode(c).Success?
    ensures Encode(Decode(c).value.0) == c.rest[..3]
  {
  }

  /** Three bytes that spell neither tag are refused at their offset. */
  lemma InvalidTag(t: seq<byte>, pos: nat)
    requires |t| == 3 && t != Tag(IMX) && t != Tag(IPX)
    ensures Decode(Cursor(t, pos)) == Failure(Custom(pos))
  {
    assert t[..3] == t;
  }

  /** The three tags that the tag's tests expect to be refused ("ASD", "QWE", "TFD"). */
  lemma InvalidTags(pos: nat)
    ensures Decode(Cursor([0x41, 0x53, 0x44], pos)) == Failure(Custom(pos))
    ensures Decode(Cursor([0x51, 0x57, 0x45], pos)) == Failure(Custom(pos))
    ensures Decode(Cursor([0x54, 0x46, 0x44], pos)) == Failure(Custom(pos))
  {
    InvalidTag([0x41, 0x53, 0x44], pos);
    InvalidTag([0x51, 0x57, 0x45], pos);
    InvalidTag([0x54, 0x46, 0x44], pos);
  }

  function Display(m: SonarReturnMagic): (s: string)
    ensures |s| == 3 && forall i :: 0 <= i < 3 ==> s[i] as int == Tag(m)[i] as int
  {
    match m
    case IMX => "IMX"
    case IPX => "IPX"
  }
}
