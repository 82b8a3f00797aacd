// A sonar return (src/sonar_return.rs): the 32-byte return header, as many
// data bytes as the header's data length field says, and a termination
// byte that must be 0xFC on read and on write. The count comes from the
// header's data length, not from the data length the tag stands for, and
// the writer does not check that the data has that many bytes.

module SonarReturn {
  import opened Binary
  import SonarReturnMagic
  import SonarReturnHeader
  import U14

  const TERMINATOR: byte := 0xFC
  /** The offset of the data within a return. */
  const DATA_OFFSET: nat := 32

  datatype SonarReturn = SonarReturn(header: SonarReturnHeader.SonarReturnHeader, data: seq<byte>, terminationByte: byte)

  /** The number of data bytes a header announces. */
  function Count(h: SonarReturnHeader.SonarReturnHeader): nat
  {
    Value16(h.dataLength)
  }

  /** The number of data bytes the header in `b` announces, read from bytes 10 and 11. */
  function CountAt(b: seq<byte>): (n: nat)
    requires |b| >= 12
    ensures n <= 16383
  {
    Value16(U14.FromRaw(Join16(b[10], b[11])))
  }

  /** The count of a header read from `b` is the count its bytes 10 and 11 announce. */
  lemma HeaderCount(b: seq<byte>, pos: nat)
    requires SonarReturnHeader.Decode(b, pos).Success?
    ensures |b| >= 12 && Count(SonarReturnHeader.Decode(b, pos).value) == CountAt(b)
  {
    SonarReturnHeader.DecodeDataLength(b, pos);
  }

  /** The bytes a return occupies: header, data and termination byte. */
  function Size(r: SonarReturn): nat
  {
    DATA_OFFSET + |r.data| + 1
  }

  /** The returns a write accepts: the termination byte and the header's fields in range. */
  predicate Writable(r: SonarReturn)
  {
    r.terminationByte == TERMINATOR && SonarReturnHeader.Valid(r.header)
  }

  /** The returns a read can produce: a canonical header, the announced count of data bytes, and 0xFC. */
  predicate Canonical(r: SonarReturn)
  {
    SonarReturnHeader.Canonical(r.header) && |r.data| == Count(r.header) && r.terminationByte == TERMINATOR
  }

  /**
   * read of the return whose bytes start `b`, `pos` being its offset in the
   * stream: the header, the data, the termination byte, and the assertion
   * on it after the last field, at the return's offset. Too short an input
   * for the data or for the termination byte is an unexpected end.
   */
  function Decode(b: seq<byte>, pos: nat): (r: Result<SonarReturn>)
    ensures SonarReturnHeader.Decode(b, pos).Failure? ==> r == Failure(SonarReturnHeader.Decode(b, pos).error)
    ensures r.Success? ==> Size(r.value) <= |b|
  {
    var header :- SonarReturnHeader.Decode(b, pos);
    var n := Count(header);
    if |b| <= DATA_OFFSET + n then Failure(UnexpectedEof)
    else
      var data := b[DATA_OFFSET..DATA_OFFSET + n];
      var terminationByte := b[DATA_OFFSET + n];
      if terminationByte != TERMINATOR then Failure(AssertFail(pos))
      else Success(SonarReturn(header, data, terminationByte))
  }

  /**
   * A read succeeds exactly on a header that reads, enough bytes for the
   * count it announces and 0xFC after them; another byte there fails the
   * read at the return's offset.
   */
  lemma DecodeAccepts(b: seq<byte>, pos: nat)
    ensures Decode(b, pos).Success? <==> (|b| >= SonarReturnHeader.READ_LENGTH && SonarReturnHeader.Accepts(b)
      && |b| > DATA_OFFSET + CountAt(b) && b[DATA_OFFSET + CountAt(b)] == TERMINATOR)
    ensures (SonarReturnHeader.Decode(b, pos).Success? && |b| > DATA_OFFSET + CountAt(b)
      && b[DATA_OFFSET + CountAt(b)] != TERMINATOR) ==> Decode(b, pos) == Failure(AssertFail(pos))
  {
    if SonarReturnHeader.Decode(b, pos).Success? {
      HeaderCount(b, pos);
    }
  }

  /**
   * write: the assertion on the termination byte first, at the return's
   * offset; then the header, the data as it is, and the termination byte.
   */
  function Encode(r: SonarReturn, pos: nat): (e: Result<seq<byte>>)
    ensures e.Success? <==> Writable(r)
    ensures r.terminationByte != TERMINATOR ==> e == Failure(AssertFail(pos))
    ensures r.terminationByte == TERMINATOR && !SonarReturnHeader.Valid(r.header) ==>
      e == Failure(SonarReturnHeader.Encode(r.header, pos).error)
    ensures e.Success? ==> |e.value| == Size(r)
  {
    if r.terminationByte != TERMINATOR then Failure(AssertFail(pos))
    else
      var header :- SonarReturnHeader.Encode(r.header, pos);
      Success(header + r.data + [r.terminationByte])
  }

  /** Whatever a read produces is a return a write accepts, with as many data bytes as its header announces. */
  lemma DecodeCanonical(b: seq<byte>, pos: nat)
    requires Decode(b, pos).Success?
    ensures Canonical(Decode(b, pos).value)
  {
    SonarReturnHeader.DecodeCanonical(b, pos);
  }

  /** A read that gives `r` took its header, its data and its termination byte from `b`, at their offsets. */
  lemma DecodeFields(b: seq<byte>, pos: nat, r: SonarReturn)
    requires Decode(b, pos) == Success(r)
    ensures SonarReturnHeader.Decode(b, pos) == Success(r.header)
    ensures |b| > DATA_OFFSET + Count(r.header) && r.data == b[DATA_OFFSET..DATA_OFFSET + Count(r.header)]
    ensures r.terminationByte == b[DATA_OFFSET + Count(r.header)] == TERMINATOR
  {
  }

  /** A read takes its data and termination byte from the bytes after the header: the data, then 0xFC. */
  lemma DecodeData(b: seq<byte>, pos: nat, r: SonarReturn)
    requires Decode(b, pos) == Success(r)
    ensures Size(r) <= |b| && b[DATA_OFFSET..Size(r)] == r.data + [TERMINATOR]
  {
    DecodeFields(b, pos, r);
    assert b[DATA_OFFSET..Size(r)] == b[DATA_OFFSET..DATA_OFFSET + |r.data|] + [b[DATA_OFFSET + |r.data|]];
  }

  /** A write puts the data and the termination byte after the 32 bytes of the header. */
  lemma EncodeData(r: SonarReturn, pos: nat)
    requires Writable(r)
    ensures Encode(r, pos).value[DATA_OFFSET..] == r.data + [TERMINATOR]
  {
    var header := SonarReturnHeader.Encode(r.header, pos).value;
    assert (header + r.data + [r.terminationByte])[DATA_OFFSET..] == r.data + [TERMINATOR];
  }

  /** A read whose header reads as `h` and whose termination byte is 0xFC gives the bytes between them as data. */
  lemma DecodeParts(h: SonarReturnHeader.SonarReturnHeader, b: seq<byte>, pos: nat, n: nat, data: seq<byte>)
    requires SonarReturnHeader.Decode(b, pos) == Success(h) && n == Count(h)
    requires |b| > DATA_OFFSET + n && data == b[DATA_OFFSET..DATA_OFFSET + n] && b[DATA_OFFSET + n] == TERMINATOR
    ensures Decode(b, pos) == Success(SonarReturn(h, data, TERMINATOR))
  {
  }

  /** A write lays out the header's bytes, the data and the termination byte. */
  lemma EncodeParts(r: SonarReturn, wpos: nat, rest: seq<byte>)
    requires Writable(r)
    ensures Encode(r, wpos).value + rest == SonarReturnHeader.Encode(r.header, wpos).value + (r.data + [TERMINATOR] + rest)
  {
  }

  /** The bytes of a written header, the data, 0xFC and anything after read back as the return. */
  lemma DecodeWritten(r: SonarReturn, header: seq<byte>, rest: seq<byte>, b: seq<byte>, wpos: nat, rpos: nat)
    requires Canonical(r)
    requires SonarReturnHeader.Encode(r.header, wpos) == Success(header)
    requires b == header + (r.data + [TERMINATOR] + rest)
    ensures Decode(b, rpos) == Success(r)
  {
    SonarReturnHeader.DecodeEncode(r.header, wpos, r.data + [TERMINATOR] + rest, rpos);
    TailAt(header, r.data, rest);
    DecodeParts(r.header, b, rpos, |r.data|, r.data);
  }

  /** Every return a read can produce is written and read back as itself, whatever follows it. */
  lemma DecodeEncode(r: SonarReturn, wpos: nat, rest: seq<byte>, rpos: nat)
    requires Canonical(r)
    ensures Encode(r, wpos).Success?
    ensures Decode(Encode(r, wpos).value + rest, rpos) == Success(r)
  {
    EncodeParts(r, wpos, rest);
    DecodeWritten(r, SonarReturnHeader.Encode(r.header, wpos).value, rest, Encode(r, wpos).value + rest, wpos, rpos);
  }

  /** The data and termination byte after a 32-byte header, at their offsets. */
  lemma TailAt(header: seq<byte>, data: seq<byte>, rest: seq<byte>)
    requires |header| == DATA_OFFSET
    ensures var b := header + (data + [TERMINATOR] + rest);
      |b| > DATA_OFFSET + |data| && b[DATA_OFFSET..DATA_OFFSET + |data|] == data && b[DATA_OFFSET + |data|] == TERMINATOR
  {
    var b := header + (data + [TERMINATOR] + rest);
    assert b[DATA_OFFSET..DATA_OFFSET + |data|] == data;
  }

  /** Whatever a read produces is written, and reads back as itself. */
  lemma ReadWriteRead(b: seq<byte>, pos: nat, wpos: nat, rest: seq<byte>, rpos: nat)
    requires Decode(b, pos).Success?
    ensures Encode(Decode(b, pos).value, wpos).Success?
    ensures Decode(Encode(Decode(b, pos).value, wpos).value + rest, rpos) == Success(Decode(b, pos).value)
  {
    DecodeCanonical(b, pos);
    DecodeEncode(Decode(b, pos).value, wpos, rest, rpos);
  }

  /**
   * The writer takes the data as it is: a return whose data is not as long
   * as its header announces is written, but does not read back as itself.
   */
  lemma CountNotChecked(r: SonarReturn, wpos: nat, rest: seq<byte>, rpos: nat)
    requires Writable(r) && |r.data| != Count(r.header)
    ensures Encode(r, wpos).Success?
    ensures Decode(Encode(r, wpos).value + rest, rpos) != Success(r)
  {
    var b := Encode(r, wpos).value + rest;
    if Decode(b, rpos).Success? {
      DecodeFields(b, rpos, Decode(b, rpos).value);
    }
  }

  /**
   * The tag's own data length plays no part: a return tagged IPX, for no
   * data, with a header announcing `n` bytes reads back with all `n`.
   */
  lemma TagCountIgnored(r: SonarReturn, wpos: nat, rpos: nat)
    requires Canonical(r) && r.header.magic == SonarReturnMagic.IPX && |r.data| > 0
    ensures var d := Decode(Encode(r, wpos).value, rpos);
      d.Success? && |d.value.data| == Count(r.header) > SonarReturnMagic.DataLength(r.header.magic)
  {
    DecodeEncode(r, wpos, [], rpos);
    assert Encode(r, wpos).value + [] == Encode(r, wpos).value;
  }

  /** A read looks at no byte past the return: a successful read gives the same return whatever follows. */
  lemma DecodeLocal(b: seq<byte>, pos: nat, r: SonarReturn, rest: seq<byte>)
    requires Decode(b, pos) == Success(r)
    ensures Size(r) <= |b| && Decode(b[..Size(r)] + rest, pos) == Success(r)
  {
    DecodeFields(b, pos, r);
    var b' := b[..Size(r)] + rest;
    var n := Count(r.header);
    assert b'[..SonarReturnHeader.READ_LENGTH] == b[..SonarReturnHeader.READ_LENGTH];
    SonarReturnHeader.DecodeLocal(b, b', pos);
    assert b'[DATA_OFFSET..DATA_OFFSET + n] == b[DATA_OFFSET..DATA_OFFSET + n];
    assert b'[DATA_OFFSET + n] == b[DATA_OFFSET + n];
    DecodeParts(r.header, b', pos, n, r.data);
  }
}
