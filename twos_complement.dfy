// Two's complement numbers: the `i16` a 16-bit pattern stands for, and
// the range of a 14-bit one.

module TwosComplement {
  const MIN14: int := -8192
  const MAX14: int := 8191

  /** An `i16`: the number whose two's complement pattern is `w`. */
  function Signed16(w: bv16): (v: int)
    ensures -32768 <= v <= 32767
    ensures v < 0 <==> w as int >= 32768
  {
    var n := w as int;
    if n >= 32768 then n - 65536 else n
  }

  /** `valid_i14`. */
  predicate ValidI14(v: int)
  {
    MIN14 <= v <= MAX14
  }

  /** The top three bits of the pattern are all equal: all clear or all set. */
  predicate Fits14(w: bv16)
  {
    w & 0xE000 == 0 || w & 0xE000 == 0xE000
  }

  /** A value fits in 14 bits exactly when its top three bits are all equal. */
  lemma ValidPattern(w: bv16)
    ensures ValidI14(Signed16(w)) <==> Fits14(w)
  {
    PatternBounds(w);
  }

  lemma PatternBounds(w: bv16)
    ensures Fits14(w) <==> (w as int < 8192 || w as int >= 57344)
  {
    if w & 0xE000 == 0 {
      assert w < 0x2000;
    } else if w & 0xE000 == 0xE000 {
      assert w >= 0xE000;
    } else {
      assert 0x2000 <= w < 0xE000;
    }
  }
}
