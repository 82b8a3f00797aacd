// Bit-field helpers of src/types/util/primitive.rs: an enumeration is read
// from (or written to) a masked, shifted group of bits of one byte through
// its numeric code (num_traits' from_u8 / to_u8).

module PrimitiveBits {
  import opened Binary

  /** read_u8: the variant whose code is `raw`, or an assertion failure at `pos`. */
  function ReadU8<T>(raw: byte, pos: nat, fromU8: byte -> Option<T>): (r: Result<T>)
    ensures r.Success? <==> fromU8(raw).Some?
    ensures r.Success? ==> Some(r.value) == fromU8(raw)
    ensures r.Failure? ==> r.error == AssertFail(pos)
  {
    match fromU8(raw)
    case Some(v) => Success(v)
    case None => Failure(AssertFail(pos))
  }

  /** The bits of `raw` under `mask`, moved down by `shift`. */
  function Field(raw: byte, mask: byte, shift: nat): byte
    requires shift < 8
  {
    (raw & mask) >> shift
  }

  /** read_u8_bits: decodes the variant stored in the masked bits of `raw`. */
  function ReadU8Bits<T>(raw: byte, mask: byte, shift: nat, pos: nat, fromU8: byte -> Option<T>): (r: Result<T>)
    requires shift < 8
    ensures r.Success? <==> fromU8(Field(raw, mask, shift)).Some?
    ensures r.Success? ==> Some(r.value) == fromU8(Field(raw, mask, shift))
    ensures r.Failure? ==> r.error == AssertFail(pos)
  {
    ReadU8((raw & mask) >> shift, pos, fromU8)
  }

  /** write_u8: the code of `value`, or an assertion failure at `pos` when it has none. */
  function WriteU8<T>(value: T, pos: nat, toU8: T -> Option<byte>): (r: Result<byte>)
    ensures r.Success? <==> toU8(value).Some?
    ensures r.Success? ==> Some(r.value) == toU8(value)
    ensures r.Failure? ==> r.error == AssertFail(pos)
  {
    match toU8(value)
    case Some(c) => Success(c)
    case None => Failure(AssertFail(pos))
  }

  /** A variant written as its code reads back from that code, when from_u8 inverts to_u8 on it. */
  lemma ReadWriteU8<T>(value: T, wpos: nat, rpos: nat, fromU8: byte -> Option<T>, toU8: T -> Option<byte>)
    requires toU8(value).Some? && fromU8(toU8(value).value) == Some(value)
    ensures WriteU8(value, wpos, toU8).Success?
    ensures ReadU8(WriteU8(value, wpos, toU8).value, rpos, fromU8) == Success(value)
  {
  }

  /**
   * write_u8_bits: the code of `value` shifted into place and masked. Only
   * bits under `mask` can be set, and code bits shifted past the mask are
   * dropped without an error.
   */
  function WriteU8Bits<T>(value: T, mask: byte, shift: nat, pos: nat, toU8: T -> Option<byte>): (r: Result<byte>)
    requires shift < 8
    ensures r.Success? <==> toU8(value).Some?
    ensures r.Success? ==> r.value & !mask == 0
    ensures r.Success? ==> r.value == (toU8(value).value << shift) & mask
    ensures r.Failure? ==> r.error == AssertFail(pos)
  {
    var raw :- WriteU8(value, pos, toU8);
    Success((raw << shift) & mask)
  }

  /** The low `width` bits set. */
  function Ones(width: nat): byte
    requires 1 <= width <= 8
  {
    (((1 as bv16) << width) - 1) as byte
  }

  /** A mask of `width` contiguous bits starting at bit `shift`. */
  predicate IsFieldMask(mask: byte, shift: nat, width: nat)
  {
    1 <= width && shift + width <= 8 && mask == Ones(width) << shift
  }

  lemma FieldOfShifted(code: byte, mask: byte, shift: nat, width: nat)
    requires IsFieldMask(mask, shift, width)
    ensures Field((code << shift) & mask, mask, shift) == code & Ones(width)
  {
    if shift == 0 {
    } else if shift == 1 {
    } else if shift == 2 {
    } else if shift == 3 {
    } else if shift == 4 {
    } else if shift == 5 {
    } else if shift == 6 {
    } else {
    }
  }

  /**
   * Writing a variant into a contiguous field and reading it back returns
   * it, provided its code fits the field.
   */
  lemma BitsRoundTrip<T>(value: T, code: byte, mask: byte, shift: nat, width: nat, wpos: nat, rpos: nat,
                         fromU8: byte -> Option<T>, toU8: T -> Option<byte>)
    requires IsFieldMask(mask, shift, width)
    requires toU8(value) == Some(code) && fromU8(code) == Some(value)
    requires code as int < Pow2(width)
    ensures WriteU8Bits(value, mask, shift, wpos, toU8).Success?
    ensures ReadU8Bits(WriteU8Bits(value, mask, shift, wpos, toU8).value, mask, shift, rpos, fromU8)
         == Success(value)
  {
    FieldOfShifted(code, mask, shift, width);
    FitsWidth(code, width);
  }

  lemma FitsWidth(code: byte, width: nat)
    requires 1 <= width <= 8 && code as int < Pow2(width)
    ensures code & Ones(width) == code
  {
    if width == 1 {
    } else if width == 2 {
    } else if width == 3 {
    } else if width == 4 {
    } else if width == 5 {
    } else if width == 6 {
    } else if width == 7 {
    } else {
    }
  }

  /**
   * A code too wide for its field is cut to its low `width` bits: the
   * write succeeds and the field reads back only those bits.
   */
  lemma BitsTruncate<T>(value: T, code: byte, mask: byte, shift: nat, width: nat, pos: nat,
                        toU8: T -> Option<byte>)
    requires IsFieldMask(mask, shift, width)
    requires toU8(value) == Some(code)
    ensures WriteU8Bits(value, mask, shift, pos, toU8).Success?
    ensures Field(WriteU8Bits(value, mask, shift, pos, toU8).value, mask, shift) == code & Ones(width)
  {
    FieldOfShifted(code, mask, shift, width);
  }

  function Pow2(n: nat): nat
  {
    if n == 0 then 1 else 2 * Pow2(n - 1)
  }

  /** Bits outside a field do not change what the field reads. */
  lemma FieldIgnoresOtherBits(raw: byte, other: byte, mask: byte, shift: nat)
    requires shift < 8 && other & mask == 0
    ensures Field(raw | other, mask, shift) == Field(raw, mask, shift)
  {
  }
}
