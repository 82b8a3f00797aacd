// Well-formed UTF-8, the invariant of a Rust `String` and what
// `str::from_utf8` accepts: every scalar value is encoded in its shortest
// form, with no surrogates and nothing above U+10FFFF.

module Utf8 {
  import opened Binary

  /** Bytes 0x80 to 0xBF, which never begin a character. */
  predicate IsContinuation(b: byte)
  {
    b & 0xC0 == 0x80
  }

  /**
   * The length of the well-formed character at the start of `s`, or 0 when
   * `s` does not start with one.
   */
  function Width(s: seq<byte>): (w: nat)
    ensures w <= 4 && w <= |s|
    ensures |s| > 0 && s[0] < 0x80 ==> w == 1
  {
    if |s| == 0 then 0
    else
      var b := s[0];
      if b < 0x80 then 1
      else if 0xC2 <= b <= 0xDF then
        if |s| >= 2 && IsContinuation(s[1]) then 2 else 0
      else if 0xE0 <= b <= 0xEF then
        var lo: byte := if b == 0xE0 then 0xA0 else 0x80;
        var hi: byte := if b == 0xED then 0x9F else 0xBF;
        if |s| >= 3 && lo <= s[1] <= hi && IsContinuation(s[2]) then 3 else 0
      else if 0xF0 <= b <= 0xF4 then
        var lo: byte := if b == 0xF0 then 0x90 else 0x80;
        var hi: byte := if b == 0xF4 then 0x8F else 0xBF;
        if |s| >= 4 && lo <= s[1] <= hi && IsContinuation(s[2]) && IsContinuation(s[3]) then 4 else 0
      else 0
  }

  /** Every byte of a character after its first is a continuation byte. */
  lemma WidthContinuations(s: seq<byte>)
    ensures forall i :: 0 < i < Width(s) ==> IsContinuation(s[i])
  {
  }

  /** `s` is a sequence of well-formed characters. */
  predicate Valid(s: seq<byte>)
    decreases |s|
  {
    |s| == 0 || (Width(s) > 0 && Valid(s[Width(s)..]))
  }

  /** Rust's `str::is_char_boundary`: `n` is at the start or end, or not inside a character. */
  predicate IsCharBoundary(s: seq<byte>, n: nat)
  {
    n == 0 || n == |s| || (n < |s| && !IsContinuation(s[n]))
  }

  /** The width of the first character depends only on its own bytes. */
  lemma WidthLocal(s: seq<byte>, t: seq<byte>)
    requires Width(s) > 0 && Width(s) <= |t|
    requires t[..Width(s)] == s[..Width(s)]
    ensures Width(t) == Width(s)
  {
    var w := Width(s);
    assert t[0] == s[0];
    assert w >= 2 ==> t[1] == s[1];
    assert w >= 3 ==> t[2] == s[2];
    assert w >= 4 ==> t[3] == s[3];
  }

  lemma {:induction false} ValidConcat(a: seq<byte>, b: seq<byte>)
    requires Valid(a) && Valid(b)
    ensures Valid(a + b)
    decreases |a|
  {
    if |a| == 0 {
      assert a + b == b;
    } else {
      var w := Width(a);
      assert (a + b)[..w] == a[..w];
      WidthLocal(a, a + b);
      assert (a + b)[w..] == a[w..] + b;
      ValidConcat(a[w..], b);
    }
  }

  /** Every byte below 0x80 is a character of its own. */
  lemma {:induction false} AsciiValid(s: seq<byte>)
    requires forall i :: 0 <= i < |s| ==> s[i] < 0x80
    ensures Valid(s)
    decreases |s|
  {
    if |s| > 0 {
      AsciiValid(s[1..]);
    }
  }

  lemma ZerosValid(n: nat)
    ensures Valid(Zeros(n))
  {
    AsciiValid(Zeros(n));
  }

  /** Cutting well-formed text at a character boundary leaves well-formed text. */
  lemma {:induction false} ValidPrefix(s: seq<byte>, n: nat)
    requires Valid(s) && n <= |s| && IsCharBoundary(s, n)
    ensures Valid(s[..n])
    decreases |s|
  {
    if n > 0 {
      var w := Width(s);
      WidthContinuations(s);
      assert w <= n;
      assert s[..n][..w] == s[..w];
      WidthLocal(s, s[..n]);
      assert s[..n][w..] == s[w..][..n - w];
      ValidPrefix(s[w..], n - w);
    }
  }
}
