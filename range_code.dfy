// The range setting of the head (src/types/range_code.rs): a one-byte
// binrw enumeration whose wire bytes are the range in tenths of a metre,
// except below one metre. Ranges and filter delays are kept in integer
// thousandths (of a metre and of a second) instead of `f32`.

module RangeCode {
  import opened Binary
  import Text

  datatype RangeCode = X0_125m | X0_25m | X0_50m | X0_75m | X1m | X2m | X3m | X4m | X5m | X6m

  /** The `repr(u8)` discriminant, which is also the byte binrw writes. */
  function Code(r: RangeCode): (b: byte)
    ensures FromCode(b) == Some(r)
  {
    match r
    case X0_125m => 2
    case X0_25m => 4
    case X0_50m => 6
    case X0_75m => 8
    case X1m => 10
    case X2m => 20
    case X3m => 30
    case X4m => 40
    case X5m => 50
    case X6m => 60
  }

  predicate IsCode(b: byte)
  {
    b == 2 || b == 4 || b == 6 || b == 8 || b == 10 || b == 20 || b == 30 || b == 40 || b == 50 || b == 60
  }

  /** from_u8 and the binrw repr: exactly the ten discriminants name a range. */
  function FromCode(b: byte): (r: Option<RangeCode>)
    ensures r.Some? <==> IsCode(b)
  {
    if b == 2 then Some(X0_125m) else if b == 4 then Some(X0_25m)
    else if b == 6 then Some(X0_50m) else if b == 8 then Some(X0_75m)
    else if b == 10 then Some(X1m) else if b == 20 then Some(X2m)
    else if b == 30 then Some(X3m) else if b == 40 then Some(X4m)
    else if b == 50 then Some(X5m) else if b == 60 then Some(X6m)
    else None
  }

  /** Distinct ranges have distinct bytes. */
  lemma CodeInjective(a: RangeCode, b: RangeCode)
    ensures Code(a) == Code(b) ==> a == b
  {
    assert FromCode(Code(a)) == Some(a) && FromCode(Code(b)) == Some(b);
  }

  /** The range of a byte already read, `pos` being its offset: a byte that is no code matches no variant. */
  function FromByte(raw: byte, pos: nat): (r: Result<RangeCode>)
    ensures r.Success? <==> IsCode(raw)
    ensures r.Failure? ==> r.error == NoVariantMatch(pos)
    ensures r.Success? ==> Code(r.value) == raw
  {
    match FromCode(raw)
    case Some(v) => Success(v)
    case None => Failure(NoVariantMatch(pos))
  }

  /** Every range reads back from its code. */
  lemma FromCodeByte(r: RangeCode, pos: nat)
    ensures FromByte(Code(r), pos) == Success(r)
  {
    CodeInjective(r, FromByte(Code(r), pos).value);
  }

  /** The one-byte binrw form: a byte that is not a discriminant matches no variant. */
  function Decode(c: Cursor): (r: Decoded<RangeCode>)
    ensures r.Success? <==> |c.rest| >= 1 && IsCode(c.rest[0])
    ensures |c.rest| == 0 ==> r == Failure(UnexpectedEof)
    ensures |c.rest| >= 1 && !IsCode(c.rest[0]) ==> r == Failure(NoVariantMatch(c.pos))
    ensures r.Success? ==> Code(r.value.0) == c.rest[0] && r.value.1 == Cursor(c.rest[1..], c.pos + 1)
  {
    var (raw, next) :- ReadU8(c);
    var v :- FromByte(raw, c.pos);
    Success((v, next))
  }

  function Encode(r: RangeCode): seq<byte>
  {
    [Code(r)]
  }

  lemma DecodeEncode(r: RangeCode, rest: seq<byte>, pos: nat)
    ensures Decode(Cursor(Encode(r) + rest, pos)) == Success((r, Cursor(rest, pos + 1)))
  {
    FromCodeByte(r, pos);
    assert (Encode(r) + rest)[1..] == rest;
  }

  /** Reading a byte and writing the range back reproduces that byte. */
  lemma EncodeDecode(c: Cursor)
    requires Decode(c).Success?
    ensures Encode(Decode(c).value.0) == c.rest[..1]
  {
  }

  /**
   * `range()` in millimetres: one eighth, a quarter, a half and three
   * quarters of a metre, and from one metre on a tenth of the wire byte.
   */
  function RangeMillimetres(r: RangeCode): (mm: nat)
    ensures Code(r) >= 10 ==> mm == 100 * Code(r) as nat
    ensures Code(r) < 10 ==> mm < 1000
  {
    match r
    case X0_125m => 125
    case X0_25m => 250
    case X0_50m => 500
    case X0_75m => 750
    case X1m => 1000
    case X2m => 2000
    case X3m => 3000
    case X4m => 4000
    case X5m => 5000
    case X6m => 6000
  }

  /**
   * `filter_delay()` in millimetres, being added to a range in metres: 16 up
   * to three quarters of a metre, 20 at one metre, 24 at two and 30 from three on.
   */
  function FilterDelayMillimetres(r: RangeCode): (mm: nat)
    ensures RangeMillimetres(r) <= 750 ==> mm == 16
    ensures RangeMillimetres(r) == 1000 ==> mm == 20
    ensures RangeMillimetres(r) == 2000 ==> mm == 24
    ensures RangeMillimetres(r) >= 3000 ==> mm == 30
  {
    match r
    case X0_125m | X0_25m | X0_50m | X0_75m => 16
    case X1m => 20
    case X2m => 24
    case X3m => 30
    case X4m | X5m | X6m => 30
  }

  /** The derived `Ord`: variants compare by their discriminants, which follow declaration order. */
  function Cmp(a: RangeCode, b: RangeCode): (o: Ordering)
    ensures o == CompareInt(RangeMillimetres(a), RangeMillimetres(b))
  {
    CompareInt(Code(a) as int, Code(b) as int)
  }

  /** A longer range never has a shorter filter delay. */
  lemma FilterDelayMonotone(a: RangeCode, b: RangeCode)
    requires Cmp(a, b) != Greater
    ensures FilterDelayMillimetres(a) <= FilterDelayMillimetres(b)
  {
  }

  /** `{:.3} meters` of the range. */
  function Display(r: RangeCode): string
  {
    Text.Thousandths(RangeMillimetres(r)) + " meters"
  }

  /** The display text of a range: its metres with three decimals. */
  lemma DisplayText(r: RangeCode)
    ensures var mm := RangeMillimetres(r); var frac := mm % 1000;
      Display(r) == [Text.DigitChar(mm / 1000), '.', Text.DigitChar(frac / 100),
                     Text.DigitChar(frac / 10 % 10), Text.DigitChar(frac % 10)] + " meters"
  {
    Text.SmallThousandths(RangeMillimetres(r));
  }

  /** The shortest range as the range tests show it. */
  lemma DisplayShortest()
    ensures Display(X0_125m) == "0.125 meters"
  {
    DisplayText(X0_125m);
    assert Display(X0_125m) == ['0', '.', '1', '2', '5'] + " meters";
  }

  /** The longest range as the range tests show it. */
  lemma DisplayLongest()
    ensures Display(X6m) == "6.000 meters"
  {
    DisplayText(X6m);
    assert Display(X6m) == ['6', '.', '0', '0', '0'] + " meters";
  }
}
