// The fixed-width text field (src/types/primitive/string.rs): `length`
// bytes of UTF-8 on the wire, NUL-padded on write and with trailing NULs
// removed on read. Text is modelled as its UTF-8 bytes.

module FixedString {
  import opened Binary
  import Utf8

  function Min(a: nat, b: nat): nat
  {
    if a <= b then a else b
  }

  /** `trim_end_matches('\0')`: the longest prefix that leaves only NULs behind and does not end in one. */
  function TrimNul(s: seq<byte>): (r: seq<byte>)
    ensures r <= s
    ensures |r| == 0 || r[|r| - 1] != 0
    ensures forall i :: |r| <= i < |s| ==> s[i] == 0
    decreases |s|
  {
    if |s| > 0 && s[|s| - 1] == 0 then TrimNul(s[..|s| - 1]) else s
  }

  /**
   * Parse: exactly `length` bytes are read (too few is an end-of-file
   * error), they must be well-formed UTF-8 (otherwise a custom error at the
   * field's offset), and trailing NULs are cut from the text.
   */
  function Parse(c: Cursor, length: nat): (r: Decoded<seq<byte>>)
    ensures r.Success? <==> |c.rest| >= length && Utf8.Valid(c.rest[..length])
    ensures |c.rest| < length ==> r == Failure(UnexpectedEof)
    ensures |c.rest| >= length && !Utf8.Valid(c.rest[..length]) ==> r == Failure(Custom(c.pos))
    ensures r.Success? ==>
      var (text, next) := r.value;
      Utf8.Valid(text) && text == TrimNul(c.rest[..length]) &&
      next == Cursor(c.rest[length..], c.pos + length)
  {
    var (field, next) :- ReadBytes(c, length);
    if !Utf8.Valid(field) then Failure(Custom(c.pos))
    else
      TrimmedValid(field);
      Success((TrimNul(field), next))
  }

  /** The bytes written for `data` in a field of `length`: its first bytes, then NULs. */
  function Padded(data: seq<byte>, length: nat): (r: seq<byte>)
    ensures |r| == length
    ensures forall i :: 0 <= i < length ==> r[i] == if i < |data| then data[i] else 0
  {
    var n := Min(|data|, length);
    data[..n] + Zeros(length - n)
  }

  /**
   * Write: a zeroed buffer of `length` bytes whose first min(len, length)
   * bytes are copied from `data`. Rust panics when that count cuts a
   * character, so callers must not ask for it.
   */
  method Write(data: seq<byte>, length: nat) returns (r: seq<byte>)
    requires Utf8.Valid(data)
    requires Utf8.IsCharBoundary(data, Min(|data|, length))
    ensures r == Padded(data, length)
  {
    var buffer := new byte[length](_ => 0);
    var n := Min(|data|, length);
    var i := 0;
    while i < n
      invariant 0 <= i <= n
      invariant forall k :: 0 <= k < i ==> buffer[k] == data[k]
      invariant forall k :: i <= k < length ==> buffer[k] == 0
    {
      buffer[i] := data[i];
      i := i + 1;
    }
    r := buffer[..];
  }

  lemma {:induction false} TrimmedValid(s: seq<byte>)
    requires Utf8.Valid(s)
    ensures Utf8.Valid(TrimNul(s))
    decreases |s|
  {
    if |s| > 0 && s[|s| - 1] == 0 {
      Utf8.ValidPrefix(s, |s| - 1);
      TrimmedValid(s[..|s| - 1]);
    }
  }

  /**
   * Reading back a written field gives the text cut to the field and
   * stripped of trailing NULs; the cursor moves by exactly `length`.
   */
  lemma PaddedFacts(data: seq<byte>, length: nat)
    requires Utf8.Valid(data)
    requires Utf8.IsCharBoundary(data, Min(|data|, length))
    ensures Utf8.Valid(Padded(data, length))
    ensures TrimNul(Padded(data, length)) == TrimNul(data[..Min(|data|, length)])
  {
    var n := Min(|data|, length);
    assert Padded(data, length) == data[..n] + Zeros(length - n);
    Utf8.ValidPrefix(data, n);
    Utf8.ZerosValid(length - n);
    Utf8.ValidConcat(data[..n], Zeros(length - n));
    TrimPadding(data[..n], length - n);
  }

  lemma ParseWritten(data: seq<byte>, length: nat, rest: seq<byte>, pos: nat)
    requires Utf8.Valid(data)
    requires Utf8.IsCharBoundary(data, Min(|data|, length))
    ensures Parse(Cursor(Padded(data, length) + rest, pos), length)
         == Success((TrimNul(data[..Min(|data|, length)]), Cursor(rest, pos + length)))
  {
    PaddedFacts(data, length);
    ParseField(Padded(data, length), length, rest, pos);
  }

  lemma ParseField(field: seq<byte>, length: nat, rest: seq<byte>, pos: nat)
    requires Utf8.Valid(field) && |field| == length
    ensures Parse(Cursor(field + rest, pos), length) == Success((TrimNul(field), Cursor(rest, pos + length)))
  {
    ReadBytesRoundTrip(field, rest, pos);
    assert (field + rest)[..length] == field;
  }

  /** Text that fits its field and has no trailing NUL reads back unchanged. */
  lemma ParseWrittenFits(data: seq<byte>, length: nat, rest: seq<byte>, pos: nat)
    requires Utf8.Valid(data) && |data| <= length
    requires |data| == 0 || data[|data| - 1] != 0
    ensures Parse(Cursor(Padded(data, length) + rest, pos), length)
         == Success((data, Cursor(rest, pos + length)))
  {
    ParseWritten(data, length, rest, pos);
    assert data[..|data|] == data;
  }

  /** Writing back a parsed field reproduces its bytes exactly. */
  lemma WriteParsed(c: Cursor, length: nat)
    requires Parse(c, length).Success?
    ensures var text := Parse(c, length).value.0;
      |text| <= length && Utf8.IsCharBoundary(text, Min(|text|, length)) &&
      Padded(text, length) == c.rest[..length]
  {
    var field := c.rest[..length];
    var text := TrimNul(field);
    assert Padded(text, length) == text + Zeros(length - |text|);
  }

  lemma {:induction false} TrimPadding(s: seq<byte>, k: nat)
    ensures TrimNul(s + Zeros(k)) == TrimNul(s)
    decreases k
  {
    if k == 0 {
      assert s + Zeros(0) == s;
    } else {
      var t := s + Zeros(k);
      assert t[..|t| - 1] == s + Zeros(k - 1);
      TrimPadding(s, k - 1);
    }
  }

  /** The ASCII text "HELLO WORLD" of string.rs's first test case. */
  function HelloWorld(): seq<byte>
  {
    [0x48, 0x45, 0x4C, 0x4C, 0x4F, 0x20, 0x57, 0x4F, 0x52, 0x4C, 0x44]
  }

  /** Written to a 12-byte field it gains one NUL, the bytes that test parses. */
  lemma HelloWorldWritten()
    ensures Padded(HelloWorld(), 12) == HelloWorld() + [0]
  {
    assert Zeros(1) == [0];
    assert HelloWorld()[..11] == HelloWorld();
  }
}
