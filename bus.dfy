/** Signal values on the 16-bit data lines of the two buses: what the driver puts on
    `mat_in` (the value masked to 16 bits) and how both monitors read a raw 16-bit
    line back as a signed value (two's-complement sign extension). */
module Bus {
  import opened MatrixDetTypes

  /** A raw 16-bit line value. */
  type Word = x: int | 0 <= x < 0x1_0000

  /** `v & 0xFFFF`: the low 16 bits of v in two's complement. On Python's unbounded
      integers this is the non-negative remainder modulo 2^16, which is what Dafny's
      Euclidean `%` computes. */
  function Mask16(v: int): (r: Word)
    ensures (v - r) % 0x1_0000 == 0
  {
    v % 0x1_0000
  }

  /** The monitors' conversion of a raw line value: values above 32767 are negative. */
  function SignExtend16(raw: Word): (v: int)
    ensures -32768 <= v <= 32767
    ensures v == raw || v == raw - 0x1_0000
  {
    if raw > 32767 then raw - 65536 else raw
  }

  /** Every value the matrix bus can carry survives masking and reading back. */
  lemma MaskThenSignExtend(v: int)
    requires MatUnderflowValue <= v <= MatOverflowValue
    ensures SignExtend16(Mask16(v)) == v
  {
    MatLimits();
    if v < 0 {
      assert Mask16(v) == v + 0x1_0000;
    }
  }

  /** Conversely, masking a converted line value gives the raw value back, so the
      conversion is a bijection between raw words and signed 16-bit values. */
  lemma SignExtendThenMask(raw: Word)
    ensures Mask16(SignExtend16(raw)) == raw
  {
    if raw > 32767 {
      assert SignExtend16(raw) + 0x1_0000 == raw;
    }
  }

  /** The conversion is the identity on the non-negative half and subtracts 2^16 on the
      upper half; 2^16 is 2^W for the 16-bit buses. */
  lemma SignExtendHalves(raw: Word)
    ensures raw <= 32767 ==> SignExtend16(raw) == raw
    ensures raw > 32767 ==> SignExtend16(raw) == raw - Pow2(DetBusWidth) && SignExtend16(raw) < 0
  {
    Pow2_16();
  }
}
