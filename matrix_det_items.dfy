/** The two transactions of the testbench: the input matrix item (a 3x3 grid of
    values and a 3x3 grid of pre-element delays) and the output determinant item. */
module MatrixDetItems {
  import opened MatrixDetTypes

  /** A 3x3 grid, rows of columns, as the nested lists of the transaction items. */
  predicate IsGrid(g: seq<seq<int>>)
  {
    |g| == MatMatrixSize && forall i :: 0 <= i < |g| ==> |g[i]| == MatMatrixSize
  }

  type Grid = g: seq<seq<int>> | IsGrid(g) witness [[0, 0, 0], [0, 0, 0], [0, 0, 0]]

  /** Index of a grid position in row-major order. */
  predicate InGrid(i: int, j: int)
  {
    0 <= i < MatMatrixSize && 0 <= j < MatMatrixSize
  }

  datatype MatrixItem = MatrixItem(matrix: Grid, preElementDelay: Grid)

  datatype DeterminantItem = DeterminantItem(determinant: int, overflow: bool, preDetDelay: int)

  /** The grid's elements in row-major order: (0,0), (0,1), ..., (2,2). */
  function Cells(g: Grid): (r: seq<int>)
    ensures |r| == MatMatrixSize * MatMatrixSize
  {
    g[0] + g[1] + g[2]
  }

  /** Element (i, j) is cell 3i + j. */
  lemma CellAt(g: Grid, i: nat, j: nat)
    requires InGrid(i, j)
    ensures Cells(g)[3 * i + j] == g[i][j]
  {
  }

  /** The grid with the element at (i, j) replaced by v. */
  function SetCell(g: Grid, i: nat, j: nat, v: int): Grid
    requires InGrid(i, j)
  {
    g[i := g[i][j := v]]
  }

  /** SetCell changes element (i, j) to v and no other element. */
  lemma SetCellEffect(g: Grid, i: nat, j: nat, v: int)
    requires InGrid(i, j)
    ensures SetCell(g, i, j, v)[i][j] == v
    ensures forall a, b :: InGrid(a, b) && (a, b) != (i, j) ==> SetCell(g, i, j, v)[a][b] == g[a][b]
  {
  }

  /** The grid of zeros that a fresh item starts with. */
  function ZeroGrid(): (g: Grid)
    ensures forall i, j :: InGrid(i, j) ==> g[i][j] == 0
  {
    [[0, 0, 0], [0, 0, 0], [0, 0, 0]]
  }

  /** A freshly constructed matrix item: values and delays all zero. */
  function NewMatrixItem(): MatrixItem
  {
    MatrixItem(ZeroGrid(), ZeroGrid())
  }

  /** A freshly constructed determinant item. */
  function NewDeterminantItem(): DeterminantItem
  {
    DeterminantItem(0, false, 0)
  }

  /** The determinant of the 3x3 matrix by the six-term rule, at full precision. */
  function Determinant(m: Grid): int
  {
    m[0][0] * m[1][1] * m[2][2] +
    m[0][1] * m[1][2] * m[2][0] +
    m[0][2] * m[1][0] * m[2][1] -
    m[0][2] * m[1][1] * m[2][0] -
    m[0][1] * m[1][0] * m[2][2] -
    m[0][0] * m[1][2] * m[2][1]
  }

  /** Sum of a sequence of integers. */
  function Sum(s: seq<int>): int
  {
    if s == [] then 0 else Sum(s[..|s| - 1]) + s[|s| - 1]
  }

  /** Appending one element adds it to the sum. */
  lemma SumSnoc(s: seq<int>, x: int)
    ensures Sum(s + [x]) == Sum(s) + x
  {
    assert (s + [x])[..|s|] == s;
  }

  /** A position (i, j) that a row-major scan of the grid can reach, the end (3, 0)
      included. */
  predicate ScanPosition(i: int, j: int)
  {
    (0 <= i < MatMatrixSize && 0 <= j <= MatMatrixSize) || (i == MatMatrixSize && j == 0)
  }

  /** The elements a row-major scan has visited before reaching position (i, j). */
  function RowMajorPrefix(g: Grid, i: nat, j: nat): seq<int>
    requires ScanPosition(i, j)
    decreases i, j
  {
    if j == 0 then (if i == 0 then [] else RowMajorPrefix(g, i - 1, MatMatrixSize))
    else RowMajorPrefix(g, i, j - 1) + [g[i][j - 1]]
  }

  /** A full scan of a row appends the row. */
  lemma RowMajorRow(g: Grid, i: nat)
    requires i < MatMatrixSize
    ensures RowMajorPrefix(g, i, MatMatrixSize) == RowMajorPrefix(g, i, 0) + g[i]
  {
    assert g[i] == [g[i][0], g[i][1], g[i][2]];
  }

  /** The completed scan visits the cells in row-major order. */
  lemma RowMajorScanIsCells(g: Grid)
    ensures RowMajorPrefix(g, MatMatrixSize, 0) == Cells(g)
  {
    RowMajorRow(g, 0);
    RowMajorRow(g, 1);
    RowMajorRow(g, 2);
    assert RowMajorPrefix(g, 1, 0) == g[0];
    assert RowMajorPrefix(g, 2, 0) == g[0] + g[1];
  }

  /** Sum of all elements of a grid. */
  function GridSum(g: Grid): int
  {
    Sum(Cells(g))
  }

  // ----- properties -----

  /** A 2x2 determinant, used for the cofactors. */
  function Det2(a: int, b: int, c: int, d: int): int
  {
    a * d - b * c
  }

  /** The six-term rule is the Laplace (cofactor) expansion along the first row. */
  lemma CofactorExpansion(m: Grid)
    ensures Determinant(m) ==
      m[0][0] * Det2(m[1][1], m[1][2], m[2][1], m[2][2])
      - m[0][1] * Det2(m[1][0], m[1][2], m[2][0], m[2][2])
      + m[0][2] * Det2(m[1][0], m[1][1], m[2][0], m[2][1])
  {
    var a, b, c := m[0][0], m[0][1], m[0][2];
    calc {
      a * Det2(m[1][1], m[1][2], m[2][1], m[2][2]);
      a * (m[1][1] * m[2][2] - m[1][2] * m[2][1]);
      a * m[1][1] * m[2][2] - a * m[1][2] * m[2][1];
    }
    calc {
      b * Det2(m[1][0], m[1][2], m[2][0], m[2][2]);
      b * (m[1][0] * m[2][2] - m[1][2] * m[2][0]);
      b * m[1][0] * m[2][2] - b * m[1][2] * m[2][0];
    }
    calc {
      c * Det2(m[1][0], m[1][1], m[2][0], m[2][1]);
      c * (m[1][0] * m[2][1] - m[1][1] * m[2][0]);
      c * m[1][0] * m[2][1] - c * m[1][1] * m[2][0];
    }
  }

  /** The transpose of a grid. */
  function Transpose(m: Grid): (t: Grid)
    ensures forall i, j :: InGrid(i, j) ==> t[i][j] == m[j][i]
  {
    [[m[0][0], m[1][0], m[2][0]],
     [m[0][1], m[1][1], m[2][1]],
     [m[0][2], m[1][2], m[2][2]]]
  }

  /** Transposing does not change the determinant. */
  lemma DeterminantOfTranspose(m: Grid)
    ensures Determinant(Transpose(m)) == Determinant(m)
  {
    var t := Transpose(m);
    assert t[0][1] * t[1][2] * t[2][0] == m[0][2] * m[1][0] * m[2][1];
    assert t[0][2] * t[1][0] * t[2][1] == m[0][1] * m[1][2] * m[2][0];
    assert t[0][2] * t[1][1] * t[2][0] == m[0][2] * m[1][1] * m[2][0];
    assert t[0][1] * t[1][0] * t[2][2] == m[0][1] * m[1][0] * m[2][2];
    assert t[0][0] * t[1][2] * t[2][1] == m[0][0] * m[1][2] * m[2][1];
  }

  /** All entries below the diagonal are zero. */
  predicate IsUpperTriangular(m: Grid)
  {
    forall i, j | 0 <= i < MatMatrixSize && 0 <= j < i :: m[i][j] == 0
  }

  /** All entries above the diagonal are zero. */
  predicate IsLowerTriangular(m: Grid)
  {
    forall i, j | 0 <= i < MatMatrixSize && i < j < MatMatrixSize :: m[i][j] == 0
  }

  /** For a triangular matrix the rule reduces to the product of the diagonal. */
  lemma TriangularDeterminant(m: Grid)
    requires IsUpperTriangular(m) || IsLowerTriangular(m)
    ensures Determinant(m) == m[0][0] * m[1][1] * m[2][2]
  {
    if IsUpperTriangular(m) {
      assert m[1][0] == 0 && m[2][0] == 0 && m[2][1] == 0;
    } else {
      assert m[0][1] == 0 && m[0][2] == 0 && m[1][2] == 0;
    }
  }

  /** A fresh matrix item is all zeros: its determinant is 0 and its delays add up to 0. */
  lemma FreshMatrixItem()
    ensures forall i, j :: InGrid(i, j) ==>
      NewMatrixItem().matrix[i][j] == 0 && NewMatrixItem().preElementDelay[i][j] == 0
    ensures Determinant(NewMatrixItem().matrix) == 0
    ensures GridSum(NewMatrixItem().preElementDelay) == 0
  {
    GridSumElements(NewMatrixItem().preElementDelay);
  }

  /** A fresh determinant item holds determinant 0, no overflow and delay 0. */
  lemma FreshDeterminantItem()
    ensures NewDeterminantItem().determinant == 0
    ensures !NewDeterminantItem().overflow && NewDeterminantItem().preDetDelay == 0
  {
  }

  /** The 3x3 identity. */
  function IdentityGrid(): Grid
  {
    [[1, 0, 0], [0, 1, 0], [0, 0, 1]]
  }

  /** The two fixed vectors of the simple sequence: the identity and a matrix of determinant 3. */
  lemma KnownDeterminants()
    ensures Determinant(IdentityGrid()) == 1
    ensures Determinant([[2, 1, 0], [1, 2, 0], [0, 0, 1]]) == 3
  {
  }

  /** The row-major sum of the cells adds up as the rows do. */
  lemma {:induction false} SumAppend(s: seq<int>, t: seq<int>)
    ensures Sum(s + t) == Sum(s) + Sum(t)
    decreases |t|
  {
    if t == [] {
      assert s + t == s;
    } else {
      assert (s + t)[..|s + t| - 1] == s + t[..|t| - 1];
      SumAppend(s, t[..|t| - 1]);
    }
  }

  /** The sum of the cells is the sum of the nine elements. */
  lemma GridSumElements(g: Grid)
    ensures GridSum(g) == g[0][0] + g[0][1] + g[0][2] + g[1][0] + g[1][1] + g[1][2]
                          + g[2][0] + g[2][1] + g[2][2]
  {
    var c := Cells(g);
    assert c[..8] == c[..7] + [c[7]];
    assert c[..1] == [c[0]];
    assert c[..0] == [];
    assert c[..9] == c;
    assert Sum(c[..1]) == c[0];
    assert Sum(c[..2]) == Sum(c[..1]) + c[1] by { assert c[..2][..1] == c[..1]; }
    assert Sum(c[..3]) == Sum(c[..2]) + c[2] by { assert c[..3][..2] == c[..2]; }
    assert Sum(c[..4]) == Sum(c[..3]) + c[3] by { assert c[..4][..3] == c[..3]; }
    assert Sum(c[..5]) == Sum(c[..4]) + c[4] by { assert c[..5][..4] == c[..4]; }
    assert Sum(c[..6]) == Sum(c[..5]) + c[5] by { assert c[..6][..5] == c[..5]; }
    assert Sum(c[..7]) == Sum(c[..6]) + c[6] by { assert c[..7][..6] == c[..6]; }
    assert Sum(c[..8]) == Sum(c[..7]) + c[7] by { assert c[..8][..7] == c[..7]; }
    assert Sum(c) == Sum(c[..8]) + c[8] by { assert c[..8] == c[..|c| - 1]; }
  }
}
