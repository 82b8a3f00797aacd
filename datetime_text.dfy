// The date-time of a file header (src/types/primitive/datetime.rs) at the
// byte level: three NUL-padded strings of 12, 9 and 4 bytes holding the
// date, the time and the sub-seconds. The conversion of that text to and
// from a calendar time is not part of this model; the text is kept as read.

module DateTimeText {
  import opened Binary
  import Utf8
  import FixedString

  const DATE_LENGTH: nat := 12
  const TIME_LENGTH: nat := 9
  const SUB_LENGTH: nat := 4
  /** The three fields together. */
  const LENGTH: nat := 25

  datatype DateTimeText = DateTimeText(date: seq<byte>, time: seq<byte>, sub: seq<byte>)

  /** Text that string `write` accepts for a field of `length` bytes: well-formed, cut on a character boundary. */
  predicate Writable(text: seq<byte>, length: nat)
  {
    Utf8.Valid(text) && Utf8.IsCharBoundary(text, FixedString.Min(|text|, length))
  }

  /** Text that a field of `length` bytes gives back unchanged: well-formed, short enough, no trailing NUL. */
  predicate Fits(text: seq<byte>, length: nat)
  {
    Utf8.Valid(text) && |text| <= length && (|text| == 0 || text[|text| - 1] != 0)
  }

  predicate WellFormed(d: DateTimeText)
  {
    Writable(d.date, DATE_LENGTH) && Writable(d.time, TIME_LENGTH) && Writable(d.sub, SUB_LENGTH)
  }

  predicate Canonical(d: DateTimeText)
  {
    Fits(d.date, DATE_LENGTH) && Fits(d.time, TIME_LENGTH) && Fits(d.sub, SUB_LENGTH)
  }

  /** Text that fits its field is text the writer accepts. */
  lemma CanonicalWellFormed(d: DateTimeText)
    requires Canonical(d)
    ensures WellFormed(d)
  {
  }

  /** A parsed string fits its field. */
  lemma ParsedFits(c: Cursor, length: nat)
    requires FixedString.Parse(c, length).Success?
    ensures Fits(FixedString.Parse(c, length).value.0, length)
  {
  }

  /**
   * parse: the date, time and sub-second strings in turn; the first that
   * is short or not UTF-8 fails the whole, at that string's offset.
   */
  function Decode(c: Cursor): (r: Decoded<DateTimeText>)
    ensures r.Success? <==>
      |c.rest| >= LENGTH && Utf8.Valid(c.rest[..12]) && Utf8.Valid(c.rest[12..21]) && Utf8.Valid(c.rest[21..25])
    ensures |c.rest| >= 12 && !Utf8.Valid(c.rest[..12]) ==> r == Failure(Custom(c.pos))
    ensures r.Failure? ==> r.error in {UnexpectedEof, Custom(c.pos), Custom(c.pos + 12), Custom(c.pos + 21)}
    ensures r.Success? ==> Canonical(r.value.0) && r.value.1 == Cursor(c.rest[25..], c.pos + 25)
  {
    var (date, c1) :- FixedString.Parse(c, DATE_LENGTH);
    ParsedFits(c, DATE_LENGTH);
    assert c1 == Cursor(c.rest[12..], c.pos + 12);
    assert |c1.rest| >= 9 ==> c1.rest[..9] == c.rest[12..21];
    var (time, c2) :- FixedString.Parse(c1, TIME_LENGTH);
    ParsedFits(c1, TIME_LENGTH);
    assert c2 == Cursor(c.rest[21..], c.pos + 21);
    assert |c2.rest| >= 4 ==> c2.rest[..4] == c.rest[21..25];
    var (sub, c3) :- FixedString.Parse(c2, SUB_LENGTH);
    ParsedFits(c2, SUB_LENGTH);
    assert c3 == Cursor(c.rest[25..], c.pos + 25);
    Success((DateTimeText(date, time, sub), c3))
  }

  /** write: each string cut to its field and padded with NULs. */
  function Encode(d: DateTimeText): (r: seq<byte>)
    requires WellFormed(d)
    ensures |r| == LENGTH
  {
    FixedString.Padded(d.date, DATE_LENGTH) + FixedString.Padded(d.time, TIME_LENGTH)
      + FixedString.Padded(d.sub, SUB_LENGTH)
  }

  /** A read whose three strings parse in turn gives the date-time of those strings. */
  lemma DecodeParts(c: Cursor, date: seq<byte>, time: seq<byte>, sub: seq<byte>, c1: Cursor, c2: Cursor, c3: Cursor)
    requires FixedString.Parse(c, DATE_LENGTH) == Success((date, c1))
    requires FixedString.Parse(c1, TIME_LENGTH) == Success((time, c2))
    requires FixedString.Parse(c2, SUB_LENGTH) == Success((sub, c3))
    ensures Decode(c) == Success((DateTimeText(date, time, sub), c3))
  {
  }

  /** A read that succeeds parsed its three strings at offsets 0, 12 and 21. */
  lemma DecodeFields(c: Cursor)
    requires Decode(c).Success?
    ensures |c.rest| >= LENGTH
    ensures var c1 := Cursor(c.rest[12..], c.pos + 12);
      var c2 := Cursor(c.rest[21..], c.pos + 21);
      FixedString.Parse(c, DATE_LENGTH).Success? && FixedString.Parse(c1, TIME_LENGTH).Success?
      && FixedString.Parse(c2, SUB_LENGTH).Success?
      && Decode(c).value.0 == DateTimeText(FixedString.Parse(c, DATE_LENGTH).value.0,
        FixedString.Parse(c1, TIME_LENGTH).value.0, FixedString.Parse(c2, SUB_LENGTH).value.0)
  {
    var c1 := Cursor(c.rest[12..], c.pos + 12);
    assert FixedString.Parse(c, DATE_LENGTH).value.1 == c1;
    assert FixedString.Parse(c1, TIME_LENGTH).value.1 == Cursor(c.rest[21..], c.pos + 21);
  }

  /** A write lays the three padded strings end to end. */
  lemma EncodeParts(d: DateTimeText)
    requires WellFormed(d)
    ensures Encode(d) == FixedString.Padded(d.date, DATE_LENGTH) + FixedString.Padded(d.time, TIME_LENGTH)
      + FixedString.Padded(d.sub, SUB_LENGTH)
  {
  }

  /** A write followed by `rest` is the date field followed by the rest of the write and `rest`. */
  lemma EncodeSplit(d: DateTimeText, rest: seq<byte>)
    requires Canonical(d)
    ensures Encode(d) + rest == FixedString.Padded(d.date, DATE_LENGTH)
      + (FixedString.Padded(d.time, TIME_LENGTH) + (FixedString.Padded(d.sub, SUB_LENGTH) + rest))
  {
    CanonicalWellFormed(d);
    EncodeParts(d);
  }

  /** The three fields of a write, followed by anything, read back as the date-time written. */
  lemma DecodeWritten(d: DateTimeText, time: seq<byte>, sub: seq<byte>, rest: seq<byte>, b: seq<byte>, pos: nat)
    requires Canonical(d)
    requires time == FixedString.Padded(d.time, TIME_LENGTH) && sub == FixedString.Padded(d.sub, SUB_LENGTH)
    requires b == FixedString.Padded(d.date, DATE_LENGTH) + (time + (sub + rest))
    ensures Decode(Cursor(b, pos)) == Success((d, Cursor(rest, pos + LENGTH)))
  {
    FixedString.ParseWrittenFits(d.date, DATE_LENGTH, time + (sub + rest), pos);
    FixedString.ParseWrittenFits(d.time, TIME_LENGTH, sub + rest, pos + 12);
    FixedString.ParseWrittenFits(d.sub, SUB_LENGTH, rest, pos + 21);
    DecodeParts(Cursor(b, pos), d.date, d.time, d.sub,
      Cursor(time + (sub + rest), pos + 12), Cursor(sub + rest, pos + 21), Cursor(rest, pos + LENGTH));
  }

  /** Text that fits its fields reads back as written. */
  lemma DecodeEncode(d: DateTimeText, rest: seq<byte>, pos: nat)
    requires Canonical(d)
    ensures Decode(Cursor(Encode(d) + rest, pos)) == Success((d, Cursor(rest, pos + LENGTH)))
  {
    EncodeSplit(d, rest);
    DecodeWritten(d, FixedString.Padded(d.time, TIME_LENGTH), FixedString.Padded(d.sub, SUB_LENGTH), rest,
      Encode(d) + rest, pos);
  }

  /** The first 25 bytes are the three fields end to end. */
  lemma FieldsAt(b: seq<byte>)
    requires |b| >= LENGTH
    ensures b[..LENGTH] == b[..12] + b[12..][..9] + b[21..][..4]
  {
    assert b[12..][..9] == b[12..21];
    assert b[21..][..4] == b[21..25];
  }

  /** Writing back what was read reproduces the 25 bytes exactly. */
  lemma EncodeDecode(c: Cursor)
    requires Decode(c).Success?
    ensures WellFormed(Decode(c).value.0)
    ensures Encode(Decode(c).value.0) == c.rest[..LENGTH]
  {
    var d := Decode(c).value.0;
    DecodeFields(c);
    var c1 := Cursor(c.rest[12..], c.pos + 12);
    var c2 := Cursor(c.rest[21..], c.pos + 21);
    FixedString.WriteParsed(c, DATE_LENGTH);
    FixedString.WriteParsed(c1, TIME_LENGTH);
    FixedString.WriteParsed(c2, SUB_LENGTH);
    assert WellFormed(d);
    EncodeParts(d);
    FieldsAt(c.rest);
  }
}
