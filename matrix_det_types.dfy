/** Widths, sizes and the signed limits of the matrix and determinant buses.
    The limits are derived from the widths, as 2^(W-1) expressions. */
module MatrixDetTypes {

  /** 2^n. */
  function Pow2(n: nat): (r: int)
    ensures r >= 1
  {
    if n == 0 then 1 else 2 * Pow2(n - 1)
  }

  const MatBusWidth: nat := 16
  const MatMatrixSize: nat := 3
  const DetBusWidth: nat := 16

  const MatUnderflowValue: int := -Pow2(MatBusWidth - 1)
  const MatOverflowValue: int := Pow2(MatBusWidth - 1) - 1
  const DetUnderflowValue: int := -Pow2(DetBusWidth - 1)
  const DetOverflowValue: int := Pow2(DetBusWidth - 1) - 1

  /** The concrete value 2^15 = 32768 and 2^16 = 65536, by unfolding. */
  lemma Pow2_16()
    ensures Pow2(15) == 32768 && Pow2(16) == 65536
  {
    assert Pow2(4) == 16;
    assert Pow2(8) == 256;
    assert Pow2(12) == 4096;
  }

  /** The matrix bus limits are those of a signed 16-bit value. */
  lemma MatLimits()
    ensures MatUnderflowValue == -32768 && MatOverflowValue == 32767
    ensures MatOverflowValue - MatUnderflowValue + 1 == Pow2(MatBusWidth)
    ensures MatUnderflowValue < 0 < MatOverflowValue
  {
    Pow2_16();
  }

  /** The determinant bus limits are those of a signed 16-bit value. */
  lemma DetLimits()
    ensures DetUnderflowValue == -32768 && DetOverflowValue == 32767
    ensures DetOverflowValue - DetUnderflowValue + 1 == Pow2(DetBusWidth)
    ensures DetUnderflowValue < 0 < DetOverflowValue
  {
    Pow2_16();
  }

  /** The matrix is 3x3, so it has nine elements. */
  lemma MatrixSize()
    ensures MatMatrixSize == 3 && MatMatrixSize * MatMatrixSize == 9
  {
  }
}
