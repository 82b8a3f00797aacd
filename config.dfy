// The configuration byte of a file header (src/types/config.rs): profile
// grid at bit 7, zero orientation at bit 6, sample width at bits 3-5 and
// logarithmic gain range at bits 0-2.

module Config {
  import opened Binary
  import opened PrimitiveBits
  import ProfileGrid
  import Zero
  import DataBits
  import Logf

  datatype Config = Config(
    profileGrid: ProfileGrid.ProfileGrid,
    zero: Zero.Zero,
    dataBits: DataBits.DataBits,
    logf: Logf.Logf)

  const MASK_PROFILE_GRID: byte := 0x80
  const MASK_ZERO: byte := 0x40
  const MASK_DATA_BITS: byte := 0x38
  const MASK_LOGF: byte := 0x07

  const SHIFT_PROFILE_GRID: nat := 7
  const SHIFT_ZERO: nat := 6
  const SHIFT_DATA_BITS: nat := 3

  /** The byte written for a configuration: each field's code in its own bits. */
  function ToByte(cfg: Config): (raw: byte)
    ensures Field(raw, MASK_PROFILE_GRID, SHIFT_PROFILE_GRID) == ProfileGrid.ToU8(cfg.profileGrid).value
    ensures Field(raw, MASK_ZERO, SHIFT_ZERO) == Zero.ToU8(cfg.zero).value
    ensures Field(raw, MASK_DATA_BITS, SHIFT_DATA_BITS) == DataBits.ToU8(cfg.dataBits).value
    ensures Field(raw, MASK_LOGF, 0) == Logf.ToU8(cfg.logf).value
  {
    var g := ProfileGrid.ToU8(cfg.profileGrid).value;
    var z := Zero.ToU8(cfg.zero).value;
    var b := DataBits.ToU8(cfg.dataBits).value;
    var l := Logf.ToU8(cfg.logf).value;
    ((g << SHIFT_PROFILE_GRID) & MASK_PROFILE_GRID) | ((z << SHIFT_ZERO) & MASK_ZERO)
      | ((b << SHIFT_DATA_BITS) & MASK_DATA_BITS) | (l & MASK_LOGF)
  }

  /**
   * write: the byte starts at zero and each field's write_u8_bits
   * contribution is or-ed in. No field can fail to have a code.
   */
  method Write(cfg: Config, pos: nat) returns (raw: byte)
    ensures raw == ToByte(cfg)
  {
    raw := 0;
    raw := raw | WriteU8Bits(cfg.profileGrid, MASK_PROFILE_GRID, SHIFT_PROFILE_GRID, pos, ProfileGrid.ToU8).value;
    raw := raw | WriteU8Bits(cfg.zero, MASK_ZERO, SHIFT_ZERO, pos, Zero.ToU8).value;
    raw := raw | WriteU8Bits(cfg.dataBits, MASK_DATA_BITS, SHIFT_DATA_BITS, pos, DataBits.ToU8).value;
    raw := raw | WriteU8Bits(cfg.logf, MASK_LOGF, 0, pos, Logf.ToU8).value;
  }

  /** The bytes a read accepts: the data bits field names one of the three widths and the logf field one of the four ranges. */
  predicate Accepts(raw: byte)
  {
    Field(raw, MASK_DATA_BITS, SHIFT_DATA_BITS) < 3 && Field(raw, MASK_LOGF, 0) < 4
  }

  /**
   * read with the byte already read and `pos` the offset after it. The two
   * one-bit fields always name a variant; the sample width (3-7) and
   * the gain range (4-7) can fail, in that order, as assertion failures at `pos`.
   */
  function FromByte(raw: byte, pos: nat): (r: Result<Config>)
    ensures r.Success? <==> Accepts(raw)
    ensures r.Failure? ==> r.error == AssertFail(pos)
    ensures r.Success? ==> ToByte(r.value) == raw
  {
    assert Field(raw, MASK_PROFILE_GRID, SHIFT_PROFILE_GRID) < 2 && Field(raw, MASK_ZERO, SHIFT_ZERO) < 2;
    var profileGrid := ReadU8Bits(raw, MASK_PROFILE_GRID, SHIFT_PROFILE_GRID, pos, ProfileGrid.FromU8).value;
    var zero := ReadU8Bits(raw, MASK_ZERO, SHIFT_ZERO, pos, Zero.FromU8).value;
    var dataBits :- ReadU8Bits(raw, MASK_DATA_BITS, SHIFT_DATA_BITS, pos, DataBits.FromU8);
    var logf :- ReadU8Bits(raw, MASK_LOGF, 0, pos, Logf.FromU8);
    var cfg := Config(profileGrid, zero, dataBits, logf);
    FieldsDetermineByte(raw, ToByte(cfg));
    Success(cfg)
  }

  /** Two bytes with the same four fields are the same byte: the fields cover all eight bits. */
  lemma FieldsDetermineByte(a: byte, b: byte)
    requires Field(a, MASK_PROFILE_GRID, SHIFT_PROFILE_GRID) == Field(b, MASK_PROFILE_GRID, SHIFT_PROFILE_GRID)
    requires Field(a, MASK_ZERO, SHIFT_ZERO) == Field(b, MASK_ZERO, SHIFT_ZERO)
    requires Field(a, MASK_DATA_BITS, SHIFT_DATA_BITS) == Field(b, MASK_DATA_BITS, SHIFT_DATA_BITS)
    requires Field(a, MASK_LOGF, 0) == Field(b, MASK_LOGF, 0)
    ensures a == b
  {
  }

  /** Every configuration reads back from its byte. */
  lemma FromToByte(cfg: Config, pos: nat)
    ensures FromByte(ToByte(cfg), pos) == Success(cfg)
  {
  }

  /** Decode: one byte; field errors are reported at the offset after it. */
  function Decode(c: Cursor): (r: Decoded<Config>)
    ensures |c.rest| == 0 ==> r == Failure(UnexpectedEof)
    ensures |c.rest| >= 1 ==> (r.Success? <==> Accepts(c.rest[0]))
    ensures r.Failure? && |c.rest| >= 1 ==> r.error == AssertFail(c.pos + 1)
    ensures r.Success? ==> ToByte(r.value.0) == c.rest[0] && r.value.1 == Cursor(c.rest[1..], c.pos + 1)
  {
    var (raw, next) :- Binary.ReadU8(c);
    var cfg :- FromByte(raw, next.pos);
    Success((cfg, next))
  }

  function Encode(cfg: Config): seq<byte>
  {
    [ToByte(cfg)]
  }

  lemma DecodeEncode(cfg: Config, rest: seq<byte>, pos: nat)
    ensures Decode(Cursor(Encode(cfg) + rest, pos)) == Success((cfg, Cursor(rest, pos + 1)))
  {
    FromToByte(cfg, pos + 1);
    assert (Encode(cfg) + rest)[1..] == rest;
  }

  lemma EncodeDecode(c: Cursor)
    requires Decode(c).Success?
    ensures Encode(Decode(c).value.0) == c.rest[..1]
  {
  }

  /** All-zero fields are the zero byte; every field at its highest code gives 0xD3. */
  lemma Examples()
    ensures ToByte(Config(ProfileGrid.Off, Zero.Up, DataBits.X4Bits, Logf.X10dB)) == 0x00
    ensures ToByte(Config(ProfileGrid.On, Zero.Down, DataBits.X14Bits, Logf.X40dB)) == 0xD3
  {
  }

  /** A sample-width field of 3 or a gain-range field of 4 has no variant. */
  lemma InvalidFields(pos: nat)
    ensures FromByte(0x18, pos) == Failure(AssertFail(pos))
    ensures FromByte(0x04, pos) == Failure(AssertFail(pos))
    ensures FromByte(0xFF, pos) == Failure(AssertFail(pos))
  {
  }
}
