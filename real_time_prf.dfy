// The real-time pulse repetition frequency of a file header
// (src/types/primitive/real_time_prf.rs), in hundredths of a hertz: a
// 16-bit word whose low fifteen bits are the hundredths; bit 15 is
// ignored on read and cleared on write.

module RealTimePrf {
  import opened Binary

  /** MAX: 327.67 Hz. */
  const MAX: int := 32767

  /** `valid`: from 0 to 327.67 Hz. */
  predicate Valid(hundredths: int)
  {
    0 <= hundredths <= MAX
  }

  /** The frequency a word stands for: its low fifteen bits. */
  function FromRaw(raw: bv16): (hundredths: nat)
    ensures Valid(hundredths)
    ensures raw & 0x8000 == 0 ==> hundredths == Value16(raw)
  {
    Value15(raw);
    Value16(raw & 0x7FFF)
  }

  /** parse: the frequency of a 16-bit word; the range check after the read cannot fail. */
  function Decode(c: Cursor, e: Endian): (r: Decoded<nat>)
    ensures r.Success? <==> |c.rest| >= 2
    ensures r.Failure? ==> r.error == UnexpectedEof
    ensures r.Success? ==> r.value == (FromRaw(ReadU16(c, e).value.0), Cursor(c.rest[2..], c.pos + 2))
  {
    var (raw, next) :- ReadU16(c, e);
    var hundredths := FromRaw(raw);
    if !Valid(hundredths) then Failure(AssertFail(next.pos))
    else Success((hundredths, next))
  }

  /** write: a frequency out of range is an assertion failure at the writer's offset; otherwise its word. */
  function Encode(hundredths: int, e: Endian, pos: nat): (r: Result<seq<byte>>)
    ensures r.Success? <==> Valid(hundredths)
    ensures r.Failure? ==> r.error == AssertFail(pos)
    ensures r.Success? ==> r.value == U16Bytes(Word16(hundredths), e) && Word16(hundredths) & 0x8000 == 0
  {
    if !Valid(hundredths) then Failure(AssertFail(pos))
    else
      WordBelow15(hundredths);
      Success(U16Bytes(Word16(hundredths) & 0x7FFF, e))
  }

  /** Every valid frequency reads back exactly. */
  lemma DecodeEncode(hundredths: int, e: Endian, wpos: nat, rest: seq<byte>, rpos: nat)
    requires Valid(hundredths)
    ensures Decode(Cursor(Encode(hundredths, e, wpos).value + rest, rpos), e) == Success((hundredths as nat, Cursor(rest, rpos + 2)))
  {
    U16RoundTrip(Word16(hundredths), e, rest, rpos);
    ValueWord(hundredths);
  }

  /** The same on the two big-endian bytes of the word. */
  lemma FromRawEncoded(hundredths: int, pos: nat)
    requires Valid(hundredths)
    ensures var w := Encode(hundredths, Big, pos).value; |w| == 2 && FromRaw(Join16(w[0], w[1])) == hundredths
  {
    Join16Split(Word16(hundredths));
    ValueWord(hundredths);
  }

  /** Writing back the frequency of a word gives the word with bit 15 cleared. */
  lemma ToFromRaw(raw: bv16, e: Endian, pos: nat)
    ensures Encode(FromRaw(raw), e, pos) == Success(U16Bytes(raw & 0x7FFF, e))
  {
    Mask15(raw);
    WordValue(raw & 0x7FFF);
  }

  lemma EncodeDecode(c: Cursor, e: Endian, pos: nat)
    requires Decode(c, e).Success?
    ensures Encode(Decode(c, e).value.0, e, pos) == Success(U16Bytes(ReadU16(c, e).value.0 & 0x7FFF, e))
  {
    ToFromRaw(ReadU16(c, e).value.0, e, pos);
  }
}
