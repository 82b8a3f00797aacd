// The speed of sound (src/types/primitive/sound_velocity.rs), in tenths of
// a metre per second. On the wire it is a 16-bit word: bit 15 set means
// "use the default of 1500 m/s" whatever the other bits hold, otherwise
// the low fifteen bits are the speed in tenths.

module SoundVelocity {
  import opened Binary

  /** MAX: 3276.7 m/s. */
  const MAX: int := 32767
  /** V_VALUE: the default speed, 1500 m/s. */
  const DEFAULT: nat := 15000
  const FLAG_DEFAULT: bv16 := 0x8000

  /** `valid`: from 0 to 3276.7 m/s. */
  predicate Valid(tenths: int)
  {
    0 <= tenths <= MAX
  }

  /** The speed a word stands for: the default when bit 15 is set, otherwise the low fifteen bits. */
  function FromRaw(raw: bv16): (tenths: nat)
    ensures Valid(tenths)
    ensures raw & FLAG_DEFAULT != 0 ==> tenths == DEFAULT
    ensures raw & FLAG_DEFAULT == 0 ==> tenths == Value16(raw)
  {
    Value15(raw);
    if raw & FLAG_DEFAULT != 0 then DEFAULT else Value16(raw & 0x7FFF)
  }

  /** parse: the speed of a 16-bit word; the range check after the read cannot fail. */
  function Decode(c: Cursor, e: Endian): (r: Decoded<nat>)
    ensures r.Success? <==> |c.rest| >= 2
    ensures r.Failure? ==> r.error == UnexpectedEof
    ensures r.Success? ==> r.value == (FromRaw(ReadU16(c, e).value.0), Cursor(c.rest[2..], c.pos + 2))
  {
    var (raw, next) :- ReadU16(c, e);
    var tenths := FromRaw(raw);
    if !Valid(tenths) then Failure(AssertFail(next.pos))
    else Success((tenths, next))
  }

  /**
   * write: a speed out of range is an assertion failure at the writer's
   * offset; exactly 1500 m/s is written as the default bit alone; any
   * other speed as its tenths with bit 15 clear.
   */
  function Encode(tenths: int, e: Endian, pos: nat): (r: Result<seq<byte>>)
    ensures r.Success? <==> Valid(tenths)
    ensures r.Failure? ==> r.error == AssertFail(pos)
    ensures r.Success? && tenths == DEFAULT ==> r.value == U16Bytes(FLAG_DEFAULT, e)
    ensures r.Success? && tenths != DEFAULT ==>
      r.value == U16Bytes(Word16(tenths), e) && Word16(tenths) & FLAG_DEFAULT == 0
  {
    if !Valid(tenths) then Failure(AssertFail(pos))
    else if tenths == DEFAULT then Success(U16Bytes(FLAG_DEFAULT, e))
    else
      WordBelow15(tenths);
      Success(U16Bytes(Word16(tenths) & 0x7FFF, e))
  }

  /** Every valid speed reads back as itself, the default included. */
  lemma DecodeEncode(tenths: int, e: Endian, wpos: nat, rest: seq<byte>, rpos: nat)
    requires Valid(tenths)
    ensures Decode(Cursor(Encode(tenths, e, wpos).value + rest, rpos), e) == Success((tenths as nat, Cursor(rest, rpos + 2)))
  {
    var s := Encode(tenths, e, wpos).value;
    if tenths == DEFAULT {
      U16RoundTrip(FLAG_DEFAULT, e, rest, rpos);
    } else {
      var w := Word16(tenths);
      U16RoundTrip(w, e, rest, rpos);
      ValueWord(tenths);
    }
  }

  /** The same on the two big-endian bytes of the word: they join back to a word that stands for the speed. */
  lemma FromRawEncoded(tenths: int, pos: nat)
    requires Valid(tenths)
    ensures var w := Encode(tenths, Big, pos).value; |w| == 2 && FromRaw(Join16(w[0], w[1])) == tenths
  {
    if tenths == DEFAULT {
      Join16Split(FLAG_DEFAULT);
    } else {
      Join16Split(Word16(tenths));
      ValueWord(tenths);
    }
  }

  /**
   * Writing back the speed of a word reproduces the word unless the
   * default bit was set or the word spells 1500 m/s without it: only the
   * default word itself, 0x8000, survives with the bit set.
   */
  lemma ToFromRaw(raw: bv16, e: Endian, pos: nat)
    ensures Encode(FromRaw(raw), e, pos) == Success(U16Bytes(raw, e)) <==>
      (raw == FLAG_DEFAULT || (raw & FLAG_DEFAULT == 0 && Value16(raw) != DEFAULT))
  {
    if raw & 0x8000 != 0 || Value16(raw) == DEFAULT {
      assert Encode(FromRaw(raw), e, pos) == Success(U16Bytes(FLAG_DEFAULT, e));
      U16BytesInjective(FLAG_DEFAULT, raw, e);
    } else {
      KeptWord(raw, e, pos);
    }
  }

  /** A word with bit 15 clear that does not spell 1500 m/s is written back as itself. */
  lemma KeptWord(raw: bv16, e: Endian, pos: nat)
    requires raw & 0x8000 == 0 && Value16(raw) != DEFAULT
    ensures Encode(FromRaw(raw), e, pos) == Success(U16Bytes(raw, e))
  {
    var tenths := FromRaw(raw);
    assert tenths == Value16(raw);
    assert Encode(tenths, e, pos) == Success(U16Bytes(Word16(tenths), e));
    WordValue(raw);
  }

  /** The same for the bytes a decode consumed. */
  lemma EncodeDecode(c: Cursor, e: Endian, pos: nat)
    requires Decode(c, e).Success?
    ensures var raw := ReadU16(c, e).value.0;
      Encode(Decode(c, e).value.0, e, pos) == Success(c.rest[..2]) <==>
      (raw == FLAG_DEFAULT || (raw & FLAG_DEFAULT == 0 && Value16(raw) != DEFAULT))
  {
    WordsBytes(c, e);
    ToFromRaw(ReadU16(c, e).value.0, e, pos);
  }

  /** The bytes of the word read are the bytes the read consumed. */
  lemma WordsBytes(c: Cursor, e: Endian)
    requires |c.rest| >= 2
    ensures U16Bytes(ReadU16(c, e).value.0, e) == c.rest[..2]
  {
    JoinParts(c.rest[0], c.rest[1]);
    JoinParts(c.rest[1], c.rest[0]);
  }

  lemma U16BytesInjective(a: bv16, b: bv16, e: Endian)
    ensures U16Bytes(a, e) == U16Bytes(b, e) <==> a == b
  {
    if U16Bytes(a, e) == U16Bytes(b, e) {
      Join16Split(a);
      Join16Split(b);
    }
  }

  /**
   * The word 15000 without the default bit decodes to 1500 m/s, which
   * writes back as the default bit alone, [0x80, 0x00] big-endian.
   */
  lemma DefaultSpelledOut(pos: nat, wpos: nat)
    ensures Decode(Cursor([0x3A, 0x98], pos), Big) == Success((DEFAULT, Cursor([], pos + 2)))
    ensures Encode(DEFAULT, Big, wpos) == Success([0x80, 0x00])
  {
    var s: seq<byte> := [0x3A, 0x98];
    assert s[2..] == [];
    assert Value16(0x3A98) == 15000;
  }

  /** Any word with bit 15 set decodes to the default, 0xFFFF included. */
  lemma FlagWins(pos: nat)
    ensures Decode(Cursor([0xFF, 0xFF], pos), Big) == Success((DEFAULT, Cursor([], pos + 2)))
    ensures Encode(-1, Big, pos) == Failure(AssertFail(pos))
    ensures Encode(32768, Big, pos) == Failure(AssertFail(pos))
  {
    var s: seq<byte> := [0xFF, 0xFF];
    assert s[2..] == [];
  }
}
