// Byte-level vocabulary shared by every codec of the 831L record format:
// the binrw error kinds, a result type whose failures they are, stream
// endianness, and a read cursor with the primitive readers and writers
// (integers, fixed magic tags, padding).

module Binary {

  type byte = bv8

  datatype Option<T> = None | Some(value: T)

  /** The binrw error kinds raised by the codecs; `pos` is a stream offset. */
  datatype Error =
    | AssertFail(pos: nat)
    | Custom(pos: nat)
    | NoVariantMatch(pos: nat)
    | BadMagic(pos: nat)
    | UnexpectedEof

  datatype Result<T> = Success(value: T) | Failure(error: Error)
  {
    predicate IsFailure() { Failure? }

    function PropagateFailure<U>(): Result<U>
      requires Failure?
    {
      Failure(error)
    }

    function Extract(): T
      requires Success?
    {
      value
    }
  }

  datatype Endian = Big | Little

  datatype Ordering = Less | Equal | Greater

  /** The total order on integers, as Rust's `Ord::cmp`. */
  function CompareInt(a: int, b: int): Ordering
  {
    if a < b then Less else if a == b then Equal else Greater
  }

  /**
   * A reader positioned at absolute stream offset `pos`; `rest` is what is
   * left of the input from there on.
   */
  datatype Cursor = Cursor(rest: seq<byte>, pos: nat)

  /** The result of a decoder: the value and the cursor after it. */
  type Decoded<T> = Result<(T, Cursor)>

  function ReadU8(c: Cursor): Decoded<byte>
  {
    if |c.rest| < 1 then Failure(UnexpectedEof)
    else Success((c.rest[0], Cursor(c.rest[1..], c.pos + 1)))
  }

  /** Reads exactly `n` bytes (`read_exact`): a short input is an end-of-file error. */
  function ReadBytes(c: Cursor, n: nat): Decoded<seq<byte>>
  {
    if |c.rest| < n then Failure(UnexpectedEof)
    else Success((c.rest[..n], Cursor(c.rest[n..], c.pos + n)))
  }

  /**
   * Padding on read is a seek: the skipped bytes are not inspected, and the
   * cursor may move past the end of the input.
   */
  function Skip(c: Cursor, n: nat): Cursor
  {
    Cursor(if n <= |c.rest| then c.rest[n..] else [], c.pos + n)
  }

  /**
   * Padding inside a record on read. The seek itself never fails, but a
   * record's inner padding is always followed by a field of at least one
   * byte, whose read then fails for want of input; failing at the padding
   * gives the same error and the same result.
   */
  function Pad(c: Cursor, n: nat): (r: Result<Cursor>)
    ensures r.Success? <==> n <= |c.rest|
    ensures r.Failure? ==> r.error == UnexpectedEof
    ensures r.Success? ==> r.value == Skip(c, n)
  {
    if n <= |c.rest| then Success(Cursor(c.rest[n..], c.pos + n)) else Failure(UnexpectedEof)
  }

  /** Padding on write: `n` zero bytes. */
  function Zeros(n: nat): (z: seq<byte>)
    ensures |z| == n
    ensures forall i :: 0 <= i < n ==> z[i] == 0
  {
    seq(n, _ => 0)
  }

  /**
   * The byte whose value is `x`, reached by counting up from zero, so that
   * reasoning about it needs no conversion from a number to a byte.
   */
  function ByteOf(x: nat): (b: byte)
    requires x < 256
    ensures b as nat == x
  {
    if x == 0 then 0
    else
      SuccessorValue(ByteOf(x - 1));
      ByteOf(x - 1) + 1
  }

  /** Below 0xFF, adding one to a byte adds one to its value. */
  lemma SuccessorValue(c: byte)
    requires c < 0xFF
    ensures (c + 1) as nat == c as nat + 1
  {
  }

  /** A number below 256 survives the trip through a byte. */
  lemma ByteOfNat(x: nat)
    requires x < 256
    ensures (x as byte) as nat == x && x as byte == ByteOf(x)
  {
    NatOfByte(ByteOf(x));
  }

  /** A byte survives the trip through a number. */
  lemma NatOfByte(b: byte)
    ensures b as nat < 256 && (b as nat) as byte == b
  {
  }

  function U16Bytes(x: bv16, e: Endian): seq<byte>
  {
    var hi := (x >> 8) as byte;
    var lo := (x & 0xFF) as byte;
    if e == Big then [hi, lo] else [lo, hi]
  }

  /** The 16-bit value whose high byte is `hi` and low byte is `lo`. */
  function Join16(hi: byte, lo: byte): bv16
  {
    ((hi as bv16) << 8) | (lo as bv16)
  }

  lemma Join16Split(x: bv16)
    ensures Join16((x >> 8) as byte, (x & 0xFF) as byte) == x
  {
  }

  /** The bytes a 16-bit value is joined from. */
  lemma JoinParts(hi: byte, lo: byte)
    ensures (Join16(hi, lo) >> 8) as byte == hi && (Join16(hi, lo) & 0xFF) as byte == lo
  {
  }

  /** The number a 16-bit word stands for, unsigned. */
  function Value16(w: bv16): (n: nat)
    ensures n < 65536
  {
    ((w >> 8) as byte) as nat * 256 + ((w & 0xFF) as byte) as nat
  }

  /** The 16-bit word of a number below 65536. */
  function Word16(n: nat): bv16
    requires n < 65536
  {
    Join16(ByteOf(n / 256), ByteOf(n % 256))
  }

  lemma ValueWord(n: nat)
    requires n < 65536
    ensures Value16(Word16(n)) == n
  {
    JoinParts(ByteOf(n / 256), ByteOf(n % 256));
  }

  lemma WordValue(w: bv16)
    ensures Word16(Value16(w)) == w
  {
    WordOfParts((w >> 8) as byte, (w & 0xFF) as byte, Value16(w));
    Join16Split(w);
  }

  /** Different words stand for different numbers. */
  lemma Value16Injective(x: bv16, y: bv16)
    ensures Value16(x) == Value16(y) <==> x == y
  {
    if Value16(x) == Value16(y) {
      WordValue(x);
      WordValue(y);
    }
  }

  lemma WordOfParts(hi: byte, lo: byte, n: nat)
    requires n == hi as nat * 256 + lo as nat
    ensures n < 65536 && Word16(n) == Join16(hi, lo)
  {
    ValueBound(hi);
    ValueBound(lo);
    DivModParts(hi as nat, lo as nat);
    ByteOfValue(hi, n / 256);
    ByteOfValue(lo, n % 256);
  }

  /** The value of a byte is below 256. */
  lemma ValueBound(b: byte)
    ensures b as nat < 256
  {
  }

  /** The byte of a byte's value is that byte. */
  lemma ByteOfValue(b: byte, x: nat)
    requires x == b as nat
    ensures ByteOf(x) == b
  {
    NatOfByte(b);
    NatOfByte(ByteOf(x));
  }

  lemma DivModParts(h: nat, l: nat)
    requires l < 256
    ensures (h * 256 + l) / 256 == h && (h * 256 + l) % 256 == l
  {
  }

  /** Bit 15 is clear exactly for the words below 32768. */
  lemma TopBit16(w: bv16)
    ensures w & 0x8000 == 0 <==> Value16(w) < 32768
  {
    var hi := (w >> 8) as byte;
    assert w & 0x8000 == 0 <==> hi & 0x80 == 0;
    ByteTopBit(hi);
  }

  /** Bit 15 of the word of `n` is clear exactly when `n` is below 32768. */
  lemma WordTopBit(n: nat)
    requires n < 65536
    ensures Word16(n) & 0x8000 == 0 <==> n < 32768
  {
    var hi := ByteOf(n / 256);
    JoinTopBit(hi, ByteOf(n % 256));
    ByteTopBit(hi);
  }

  /** The word of a number below 32768 has bit 15 clear, so masking it with 0x7FFF keeps it. */
  lemma WordBelow15(n: nat)
    requires n < 32768
    ensures Word16(n) & 0x8000 == 0 && Word16(n) & 0x7FFF == Word16(n)
  {
    WordTopBit(n);
    Mask15(Word16(n));
  }

  /** The low fifteen bits of a word stand for a number below 32768. */
  lemma Value15(w: bv16)
    ensures Value16(w & 0x7FFF) < 32768
    ensures w & 0x8000 == 0 ==> Value16(w & 0x7FFF) == Value16(w)
  {
    Mask15(w);
    TopBit16(w & 0x7FFF);
  }

  lemma Mask15(w: bv16)
    ensures w & 0x7FFF & 0x8000 == 0
    ensures w & 0x8000 == 0 <==> w & 0x7FFF == w
  {
  }

  lemma JoinTopBit(hi: byte, lo: byte)
    ensures Join16(hi, lo) & 0x8000 == 0 <==> hi & 0x80 == 0
  {
  }

  lemma ByteTopBit(b: byte)
    ensures b & 0x80 == 0 <==> b as nat < 128
  {
  }

  function ReadU16(c: Cursor, e: Endian): Decoded<bv16>
  {
    if |c.rest| < 2 then Failure(UnexpectedEof)
    else
      var x := if e == Big then Join16(c.rest[0], c.rest[1]) else Join16(c.rest[1], c.rest[0]);
      Success((x, Cursor(c.rest[2..], c.pos + 2)))
  }

  function U32Bytes(x: bv32, e: Endian): seq<byte>
  {
    var big := [(x >> 24) as byte, ((x >> 16) & 0xFF) as byte,
                ((x >> 8) & 0xFF) as byte, (x & 0xFF) as byte];
    if e == Big then big else [big[3], big[2], big[1], big[0]]
  }

  function Join32(b0: byte, b1: byte, b2: byte, b3: byte): bv32
  {
    ((b0 as bv32) << 24) | ((b1 as bv32) << 16) | ((b2 as bv32) << 8) | (b3 as bv32)
  }

  lemma Join32Split(x: bv32)
    ensures Join32((x >> 24) as byte, ((x >> 16) & 0xFF) as byte,
                   ((x >> 8) & 0xFF) as byte, (x & 0xFF) as byte) == x
  {
  }

  function ReadU32(c: Cursor, e: Endian): Decoded<bv32>
  {
    if |c.rest| < 4 then Failure(UnexpectedEof)
    else
      var s := if e == Big then c.rest[..4] else [c.rest[3], c.rest[2], c.rest[1], c.rest[0]];
      Success((Join32(s[0], s[1], s[2], s[3]), Cursor(c.rest[4..], c.pos + 4)))
  }

  /** A fixed tag checked by binrw's `magic`: a mismatch reports the tag's offset. */
  function ReadMagic(c: Cursor, tag: seq<byte>): Decoded<()>
  {
    var (found, next) :- ReadBytes(c, |tag|);
    if found == tag then Success(((), next)) else Failure(BadMagic(c.pos))
  }

  /**
   * A `#[brw(repr = u8)]` enumeration: one byte that must be the code of a
   * variant, otherwise no variant matches at the byte's offset.
   */
  function ReadRepr<T>(c: Cursor, fromCode: byte -> Option<T>): Decoded<T>
  {
    var (b, next) :- ReadU8(c);
    match fromCode(b)
    case Some(v) => Success((v, next))
    case None => Failure(NoVariantMatch(c.pos))
  }

  /** Big-endian puts the high byte of a 16-bit value first on the wire. */
  lemma U16RoundTrip(x: bv16, e: Endian, rest: seq<byte>, pos: nat)
    ensures |U16Bytes(x, e)| == 2
    ensures e == Big ==> U16Bytes(x, e) == [(x >> 8) as byte, (x & 0xFF) as byte]
    ensures ReadU16(Cursor(U16Bytes(x, e) + rest, pos), e) == Success((x, Cursor(rest, pos + 2)))
  {
    var s := U16Bytes(x, e) + rest;
    assert s[2..] == rest;
    Join16Split(x);
  }

  lemma U32RoundTrip(x: bv32, e: Endian, rest: seq<byte>, pos: nat)
    ensures |U32Bytes(x, e)| == 4
    ensures ReadU32(Cursor(U32Bytes(x, e) + rest, pos), e) == Success((x, Cursor(rest, pos + 4)))
  {
    var s := U32Bytes(x, e) + rest;
    assert s[4..] == rest;
    assert s[..4] == U32Bytes(x, e);
    Join32Split(x);
  }

  lemma ReprRoundTrip<T>(v: T, code: byte, fromCode: byte -> Option<T>, rest: seq<byte>, pos: nat)
    requires fromCode(code) == Some(v)
    ensures ReadRepr(Cursor([code] + rest, pos), fromCode) == Success((v, Cursor(rest, pos + 1)))
  {
    assert ([code] + rest)[1..] == rest;
  }

  lemma ReadBytesRoundTrip(b: seq<byte>, rest: seq<byte>, pos: nat)
    ensures ReadBytes(Cursor(b + rest, pos), |b|) == Success((b, Cursor(rest, pos + |b|)))
  {
    assert (b + rest)[..|b|] == b;
    assert (b + rest)[|b|..] == rest;
  }

  lemma SkipZeros(n: nat, rest: seq<byte>, pos: nat)
    ensures Skip(Cursor(Zeros(n) + rest, pos), n) == Cursor(rest, pos + n)
  {
    assert (Zeros(n) + rest)[n..] == rest;
  }

  lemma PadZeros(n: nat, rest: seq<byte>, pos: nat)
    ensures Pad(Cursor(Zeros(n) + rest, pos), n) == Success(Cursor(rest, pos + n))
  {
    assert (Zeros(n) + rest)[n..] == rest;
  }

  lemma MagicRoundTrip(tag: seq<byte>, rest: seq<byte>, pos: nat)
    ensures ReadMagic(Cursor(tag + rest, pos), tag) == Success(((), Cursor(rest, pos + |tag|)))
  {
    ReadBytesRoundTrip(tag, rest, pos);
  }
}
