// One shot of an 831L file (src/shot.rs): the tag "31L", the file header,
// 117 bytes of padding, the sonar return and one byte of padding, all
// big-endian. The endianness reaches the nested fields through the
// file header and return header codecs, which read and write their 16-
// and 32-bit words big-endian.
//
// The shot is read from its bytes by offset: the file header starts at
// byte 3 and the return at byte 228. The byte of padding after the return
// is sought over, so a read does not need it.

module Shot {
  import opened Binary
  import DateTimeText
  import FileHeader
  import SonarReturn

  /** The tag "31L". */
  const MAGIC: seq<byte> := [0x33, 0x31, 0x4C]
  const HEADER_OFFSET: nat := 3
  const HEADER_PADDING: nat := 117
  /** The offset of the return: the tag, the file header and its padding. */
  const RETURN_OFFSET: nat := 228

  datatype Shot = Shot(header: FileHeader.FileHeader, sonarReturn: SonarReturn.SonarReturn)

  /** The bytes a shot occupies, the byte of padding after the return included. */
  function Size(s: Shot): nat
  {
    RETURN_OFFSET + SonarReturn.Size(s.sonarReturn) + 1
  }

  /** The shots a write accepts. */
  predicate Writable(s: Shot)
  {
    DateTimeText.WellFormed(s.header.datetime) && FileHeader.Valid(s.header) && SonarReturn.Writable(s.sonarReturn)
  }

  /** The shots a read can produce. */
  predicate Canonical(s: Shot)
  {
    FileHeader.Canonical(s.header) && SonarReturn.Canonical(s.sonarReturn)
  }

  /** The file header's bytes in `b`, from offset 3. */
  function HeaderBytes(b: seq<byte>): seq<byte>
  {
    if |b| < HEADER_OFFSET then [] else b[HEADER_OFFSET..]
  }

  /** The return's bytes in `b`, from offset 228. */
  function ReturnBytes(b: seq<byte>): seq<byte>
  {
    if |b| < RETURN_OFFSET then [] else b[RETURN_OFFSET..]
  }

  /**
   * read of the shot whose bytes start `b`, `pos` being its offset in the
   * stream: the tag, then the file header and the return in turn; the
   * first part that fails fails the shot with its own error.
   */
  function Decode(b: seq<byte>, pos: nat): (r: Result<Shot>)
    ensures r.Success? <==> (|b| >= RETURN_OFFSET && b[..3] == MAGIC
      && FileHeader.Decode(HeaderBytes(b), pos + HEADER_OFFSET).Success?
      && SonarReturn.Decode(ReturnBytes(b), pos + RETURN_OFFSET).Success?)
    ensures |b| >= 3 && b[..3] != MAGIC ==> r == Failure(BadMagic(pos))
    ensures (|b| >= 3 && b[..3] == MAGIC && FileHeader.Decode(HeaderBytes(b), pos + HEADER_OFFSET).Failure?) ==>
      r == Failure(FileHeader.Decode(HeaderBytes(b), pos + HEADER_OFFSET).error)
    ensures (|b| >= 3 && b[..3] == MAGIC && FileHeader.Decode(HeaderBytes(b), pos + HEADER_OFFSET).Success?
      && SonarReturn.Decode(ReturnBytes(b), pos + RETURN_OFFSET).Failure?) ==>
      r == Failure(SonarReturn.Decode(ReturnBytes(b), pos + RETURN_OFFSET).error)
  {
    if |b| < 3 then Failure(UnexpectedEof)
    else if b[..3] != MAGIC then Failure(BadMagic(pos))
    else
      var header :- FileHeader.Decode(HeaderBytes(b), pos + HEADER_OFFSET);
      var sonarReturn :- SonarReturn.Decode(ReturnBytes(b), pos + RETURN_OFFSET);
      Success(Shot(header, sonarReturn))
  }

  /** Whatever a read produces is a shot whose parts a read can produce. */
  lemma DecodeCanonical(b: seq<byte>, pos: nat)
    requires Decode(b, pos).Success?
    ensures Canonical(Decode(b, pos).value)
  {
    SonarReturn.DecodeCanonical(ReturnBytes(b), pos + RETURN_OFFSET);
  }

  /**
   * A read consumes the shot's bytes, the byte of padding after the return
   * being sought over: at most that one byte may lie past the input.
   */
  lemma DecodeSize(b: seq<byte>, pos: nat)
    requires Decode(b, pos).Success?
    ensures |b| + 1 >= Size(Decode(b, pos).value) > RETURN_OFFSET + SonarReturn.DATA_OFFSET
  {
    var r := Decode(b, pos).value.sonarReturn;
    assert SonarReturn.Decode(ReturnBytes(b), pos + RETURN_OFFSET) == Success(r);
    assert SonarReturn.Size(r) <= |ReturnBytes(b)| == |b| - RETURN_OFFSET;
  }

  /**
   * write: the tag, the file header, 117 zeros, the return and one zero;
   * the first part that fails fails the shot with its own error.
   */
  function Encode(s: Shot, pos: nat): (r: Result<seq<byte>>)
    requires DateTimeText.WellFormed(s.header.datetime)
    ensures r.Success? <==> Writable(s)
    ensures !FileHeader.Valid(s.header) ==> r == Failure(FileHeader.Encode(s.header, pos + HEADER_OFFSET).error)
    ensures FileHeader.Valid(s.header) && !SonarReturn.Writable(s.sonarReturn) ==>
      r == Failure(SonarReturn.Encode(s.sonarReturn, pos + RETURN_OFFSET).error)
    ensures r.Success? ==> |r.value| == Size(s)
  {
    var header :- FileHeader.Encode(s.header, pos + HEADER_OFFSET);
    var sonarReturn :- SonarReturn.Encode(s.sonarReturn, pos + RETURN_OFFSET);
    Success(MAGIC + header + Zeros(HEADER_PADDING) + sonarReturn + [0])
  }

  /** The parts of a shot at their offsets. */
  lemma PartsAt(header: seq<byte>, sonarReturn: seq<byte>, rest: seq<byte>)
    requires |header| == FileHeader.LENGTH
    ensures var b := MAGIC + header + Zeros(HEADER_PADDING) + sonarReturn + [0] + rest;
      |b| >= RETURN_OFFSET && b[..3] == MAGIC
      && HeaderBytes(b) == header + (Zeros(HEADER_PADDING) + sonarReturn + [0] + rest)
      && ReturnBytes(b) == sonarReturn + ([0] + rest)
  {
    var b := MAGIC + header + Zeros(HEADER_PADDING) + sonarReturn + [0] + rest;
    assert b[..3] == MAGIC;
    assert HeaderBytes(b) == header + (Zeros(HEADER_PADDING) + sonarReturn + [0] + rest);
    assert ReturnBytes(b) == sonarReturn + ([0] + rest);
  }

  /** A read whose tag is right and whose two parts read as `h` and `r` gives the shot of those parts. */
  lemma DecodeParts(b: seq<byte>, pos: nat, h: FileHeader.FileHeader, r: SonarReturn.SonarReturn)
    requires |b| >= RETURN_OFFSET && b[..3] == MAGIC
    requires FileHeader.Decode(HeaderBytes(b), pos + HEADER_OFFSET) == Success(h)
    requires SonarReturn.Decode(ReturnBytes(b), pos + RETURN_OFFSET) == Success(r)
    ensures Decode(b, pos) == Success(Shot(h, r))
  {
  }

  /** A write that succeeds lays out the tag, the two parts, and the padding as zeros. */
  lemma EncodeParts(s: Shot, pos: nat)
    requires Writable(s)
    ensures Encode(s, pos).value == MAGIC + FileHeader.Encode(s.header, pos + HEADER_OFFSET).value
      + Zeros(HEADER_PADDING) + SonarReturn.Encode(s.sonarReturn, pos + RETURN_OFFSET).value + [0]
  {
  }

  /**
   * Every shot a read can produce is written, whatever follows it, and
   * reads back as itself but for the file header's three validity flags,
   * which come back turned over.
   */
  lemma DecodeEncode(s: Shot, wpos: nat, rest: seq<byte>, rpos: nat)
    requires Canonical(s)
    ensures DateTimeText.WellFormed(s.header.datetime) && Encode(s, wpos).Success?
    ensures Decode(Encode(s, wpos).value + rest, rpos) == Success(Shot(FileHeader.ReadBack(s.header), s.sonarReturn))
  {
    var sonarReturn := SonarReturn.Encode(s.sonarReturn, wpos + RETURN_OFFSET).value;
    SonarReturn.DecodeEncode(s.sonarReturn, wpos + RETURN_OFFSET, [0] + rest, rpos + RETURN_OFFSET);
    FileHeader.DecodeEncode(s.header, wpos + HEADER_OFFSET, Zeros(HEADER_PADDING) + sonarReturn + [0] + rest, rpos + HEADER_OFFSET);
    var header := FileHeader.Encode(s.header, wpos + HEADER_OFFSET).value;
    EncodeParts(s, wpos);
    PartsAt(header, sonarReturn, rest);
    var b := MAGIC + header + Zeros(HEADER_PADDING) + sonarReturn + [0] + rest;
    assert Encode(s, wpos).value + rest == b;
    DecodeParts(b, rpos, FileHeader.ReadBack(s.header), s.sonarReturn);
  }

  /**
   * Whatever a read produces is written, and reads back as itself but for
   * the file header's validity flags, which come back turned over.
   */
  lemma ReadWriteRead(b: seq<byte>, pos: nat, wpos: nat, rest: seq<byte>, rpos: nat)
    requires Decode(b, pos).Success?
    ensures DateTimeText.WellFormed(Decode(b, pos).value.header.datetime)
    ensures Encode(Decode(b, pos).value, wpos).Success?
    ensures var s := Decode(b, pos).value;
      Decode(Encode(s, wpos).value + rest, rpos) == Success(Shot(FileHeader.ReadBack(s.header), s.sonarReturn))
      && Decode(Encode(s, wpos).value + rest, rpos) != Success(s)
  {
    var s := Decode(b, pos).value;
    DecodeCanonical(b, pos);
    DecodeEncode(s, wpos, rest, rpos);
    FileHeader.ReadBackFacts(s.header);
  }
}
