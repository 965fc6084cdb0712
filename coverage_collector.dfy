/** The coverage collector: it sorts every observed input matrix and output determinant
    into bins (value ranges, overflow, total delay, matrix shape) and counts them.
    Bin keys are datatype values instead of the strings of the testbench. */
module Coverage {
  import opened MatrixDetTypes
  import opened MatrixDetItems
  import opened Scoreboard

  /** Value-range bins: "min", "max", "small", "medium", "large". */
  datatype ValueRange = Min | Max | Small | Medium | Large

  /** Delay bins: "short", "medium", "long". */
  datatype DelayRange = ShortDelay | MediumDelay | LongDelay

  /** Matrix-shape bins: "triangular_upper", "triangular_lower", "diagonal",
      "identity", "general". */
  datatype MatrixType = TriangularUpper | TriangularLower | Diagonal | Identity | General

  const ValueRanges: seq<ValueRange> := [Min, Max, Small, Medium, Large]
  const DelayRanges: seq<DelayRange> := [ShortDelay, MediumDelay, LongDelay]
  const MatrixTypes: seq<MatrixType> := [TriangularUpper, TriangularLower, Diagonal, Identity, General]
  const OverflowKeys: seq<bool> := [true, false]

  // ----- value and delay binning -----

  /** The two saturation values of the determinant bus. */
  predicate IsSentinel(v: int)
  {
    v == DetUnderflowValue || v == DetOverflowValue
  }

  /** The value-range bin of a matrix element or a determinant. The saturation values
      are tested before the magnitude ranges, so they get their own bins although their
      magnitude is that of "large". */
  function ValueRangeOf(v: int): (r: ValueRange)
    ensures r == Min <==> v == DetUnderflowValue
    ensures r == Max <==> v == DetOverflowValue
    ensures r == Small <==> !IsSentinel(v) && Abs(v) <= 1000
    ensures r == Medium <==> !IsSentinel(v) && 1000 < Abs(v) <= 10000
    ensures r == Large <==> !IsSentinel(v) && 10000 < Abs(v)
  {
    if v == DetUnderflowValue then Min
    else if v == DetOverflowValue then Max
    else if -1000 <= v <= 1000 then Small
    else if -10000 <= v <= 10000 then Medium
    else Large
  }

  /** Order of the magnitude bins. */
  function MagnitudeRank(r: ValueRange): nat
  {
    match r
    case Small => 0
    case Medium => 1
    case Large => 2
    case Min => 3
    case Max => 3
  }

  /** Away from the sentinels, the bin grows with the magnitude of the value. */
  lemma ValueRangeMonotone(v: int, w: int)
    requires !IsSentinel(v) && !IsSentinel(w) && Abs(v) <= Abs(w)
    ensures MagnitudeRank(ValueRangeOf(v)) <= MagnitudeRank(ValueRangeOf(w))
  {
  }

  /** Both sentinels have the magnitude of a "large" value, yet they are binned as
      "min" and "max" because they are tested first. */
  lemma SentinelPrecedence()
    ensures Abs(DetUnderflowValue) > 10000 && Abs(DetOverflowValue) > 10000
    ensures ValueRangeOf(DetUnderflowValue) == Min && ValueRangeOf(DetOverflowValue) == Max
  {
    DetLimits();
  }

  /** A saturated golden-model determinant always lands in the "min" or "max" bin. */
  lemma SaturatedDeterminantBin(item: MatrixItem)
    ensures ExpectedItem(item).overflow ==>
      ValueRangeOf(ExpectedItem(item).determinant) in {Min, Max}
  {
  }

  /** The delay bin of a total pre-element delay. */
  function DelayRangeOf(delay: int): (r: DelayRange)
    ensures r == ShortDelay <==> delay <= 5
    ensures r == MediumDelay <==> 5 < delay <= 20
    ensures r == LongDelay <==> 20 < delay
  {
    if delay <= 5 then ShortDelay
    else if delay <= 20 then MediumDelay
    else LongDelay
  }

  function DelayRank(r: DelayRange): nat
  {
    match r
    case ShortDelay => 0
    case MediumDelay => 1
    case LongDelay => 2
  }

  /** A longer total delay never falls into a shorter bin. */
  lemma DelayRangeMonotone(d: int, e: int)
    requires d <= e
    ensures DelayRank(DelayRangeOf(d)) <= DelayRank(DelayRangeOf(e))
  {
  }

  // ----- matrix classification -----

  /** The matrix is the 3x3 identity. */
  predicate IsIdentity(m: Grid)
  {
    forall i, j | 0 <= i < MatMatrixSize && 0 <= j < MatMatrixSize ::
      m[i][j] == (if i == j then 1 else 0)
  }

  /** All off-diagonal entries are zero. */
  predicate IsDiagonal(m: Grid)
  {
    forall i, j | 0 <= i < MatMatrixSize && 0 <= j < MatMatrixSize && i != j :: m[i][j] == 0
  }

  /** The shape of a matrix, by the priority identity > diagonal > upper > lower > general. */
  function MatrixTypeOf(m: Grid): MatrixType
  {
    if IsIdentity(m) then Identity
    else if IsDiagonal(m) then Diagonal
    else if IsUpperTriangular(m) then TriangularUpper
    else if IsLowerTriangular(m) then TriangularLower
    else General
  }

  /** Each shape is characterised by its own property and the failure of the ones
      before it; the shapes nest, so each test only needs to exclude the one above. */
  lemma ClassifierCharacterisation(m: Grid)
    ensures IsIdentity(m) ==> IsDiagonal(m)
    ensures IsDiagonal(m) ==> IsUpperTriangular(m) && IsLowerTriangular(m)
    ensures MatrixTypeOf(m) == Identity <==> IsIdentity(m)
    ensures MatrixTypeOf(m) == Diagonal <==> !IsIdentity(m) && IsDiagonal(m)
    ensures MatrixTypeOf(m) == TriangularUpper <==> !IsDiagonal(m) && IsUpperTriangular(m)
    ensures MatrixTypeOf(m) == TriangularLower <==>
      !IsDiagonal(m) && !IsUpperTriangular(m) && IsLowerTriangular(m)
    ensures MatrixTypeOf(m) == General <==> !IsUpperTriangular(m) && !IsLowerTriangular(m)
  {
    if IsIdentity(m) {
      forall i, j | 0 <= i < MatMatrixSize && 0 <= j < MatMatrixSize && i != j
        ensures m[i][j] == 0
      {
      }
    }
    if IsDiagonal(m) {
      forall i, j | 0 <= i < MatMatrixSize && 0 <= j < i
        ensures m[i][j] == 0
      {
      }
      forall i, j | 0 <= i < MatMatrixSize && i < j < MatMatrixSize
        ensures m[i][j] == 0
      {
      }
    }
  }

  /** Every shape other than "general" is triangular, so its determinant is the
      product of the diagonal. */
  lemma ShapedDeterminant(m: Grid)
    requires MatrixTypeOf(m) != General
    ensures Determinant(m) == m[0][0] * m[1][1] * m[2][2]
  {
    ClassifierCharacterisation(m);
    TriangularDeterminant(m);
  }

  /** The fixed vectors of the simple sequence: the identity, and a symmetric matrix
      with nonzero entries on both sides of the diagonal. */
  lemma KnownShapes()
    ensures MatrixTypeOf(IdentityGrid()) == Identity
    ensures MatrixTypeOf([[2, 1, 0], [1, 2, 0], [0, 0, 1]]) == General
  {
    var g: Grid := [[2, 1, 0], [1, 2, 0], [0, 0, 1]];
    assert g[1][0] != 0 && g[0][1] != 0;
  }

  /** A diagonal matrix that is not the identity. */
  lemma DiagonalShape()
    ensures MatrixTypeOf([[200, 0, 0], [0, 200, 0], [0, 0, 1]]) == Diagonal
  {
    var d: Grid := [[200, 0, 0], [0, 200, 0], [0, 0, 1]];
    assert d[0][0] != 1;
  }

  /** Strictly triangular shapes go to the bin of their side. */
  lemma TriangularShapes()
    ensures MatrixTypeOf([[1, 2, 3], [0, 4, 5], [0, 0, 6]]) == TriangularUpper
    ensures MatrixTypeOf([[1, 0, 0], [2, 3, 0], [4, 5, 6]]) == TriangularLower
  {
    var u: Grid := [[1, 2, 3], [0, 4, 5], [0, 0, 6]];
    assert u[0][1] != 0;
    var l: Grid := [[1, 0, 0], [2, 3, 0], [4, 5, 6]];
    assert l[1][0] != 0;
  }

  /** The identity scan: compares every element with the identity, stopping at the
      first mismatch. */
  method ScanIdentity(m: Grid) returns (isIdentity: bool)
    ensures isIdentity <==> IsIdentity(m)
  {
    isIdentity := true;
    for i := 0 to MatMatrixSize
      invariant isIdentity
      invariant forall a, b | 0 <= a < i && 0 <= b < MatMatrixSize ::
        m[a][b] == (if a == b then 1 else 0)
    {
      for j := 0 to MatMatrixSize
        invariant isIdentity
        invariant forall b | 0 <= b < j :: m[i][b] == (if i == b then 1 else 0)
      {
        var expected := if i == j then 1 else 0;
        if m[i][j] != expected {
          isIdentity := false;
          break;
        }
      }
      if !isIdentity {
        break;
      }
    }
  }

  /** The diagonal scan: looks for a nonzero off-diagonal element. */
  method ScanDiagonal(m: Grid) returns (isDiagonal: bool)
    ensures isDiagonal <==> IsDiagonal(m)
  {
    isDiagonal := true;
    for i := 0 to MatMatrixSize
      invariant isDiagonal
      invariant forall a, b | 0 <= a < i && 0 <= b < MatMatrixSize && a != b :: m[a][b] == 0
    {
      for j := 0 to MatMatrixSize
        invariant isDiagonal
        invariant forall b | 0 <= b < j && i != b :: m[i][b] == 0
      {
        if i != j && m[i][j] != 0 {
          isDiagonal := false;
          break;
        }
      }
      if !isDiagonal {
        break;
      }
    }
  }

  /** The upper-triangular scan: looks for a nonzero element below the diagonal. */
  method ScanUpper(m: Grid) returns (isUpper: bool)
    ensures isUpper <==> IsUpperTriangular(m)
  {
    isUpper := true;
    for i := 0 to MatMatrixSize
      invariant isUpper
      invariant forall a, b | 0 <= a < i && 0 <= b < a :: m[a][b] == 0
    {
      for j := 0 to i
        invariant isUpper
        invariant forall b | 0 <= b < j :: m[i][b] == 0
      {
        if m[i][j] != 0 {
          isUpper := false;
          break;
        }
      }
      if !isUpper {
        break;
      }
    }
  }

  /** The lower-triangular scan: looks for a nonzero element above the diagonal. */
  method ScanLower(m: Grid) returns (isLower: bool)
    ensures isLower <==> IsLowerTriangular(m)
  {
    isLower := true;
    for i := 0 to MatMatrixSize
      invariant isLower
      invariant forall a, b | 0 <= a < i && a < b < MatMatrixSize :: m[a][b] == 0
    {
      for j := i + 1 to MatMatrixSize
        invariant isLower
        invariant forall b | i < b < j :: m[i][b] == 0
      {
        if m[i][j] != 0 {
          isLower := false;
          break;
        }
      }
      if !isLower {
        break;
      }
    }
  }

  /** The classifier of the collector: the four scans in priority order, returning at
      the first that succeeds. */
  method ClassifyMatrix(m: Grid) returns (t: MatrixType)
    ensures t == MatrixTypeOf(m)
  {
    var isIdentity := ScanIdentity(m);
    if isIdentity {
      return Identity;
    }
    var isDiagonal := ScanDiagonal(m);
    if isDiagonal {
      return Diagonal;
    }
    var isUpper := ScanUpper(m);
    if isUpper {
      return TriangularUpper;
    }
    var isLower := ScanLower(m);
    if isLower {
      return TriangularLower;
    }
    return General;
  }

  // ----- bin maps -----

  /** The count of a bin, zero for a key not yet created. */
  function Count<K>(m: map<K, nat>, k: K): nat
  {
    if k in m then m[k] else 0
  }

  /** A bin incremented by one, created at zero first if missing. */
  function Bump<K>(m: map<K, nat>, k: K): map<K, nat>
  {
    m[k := Count(m, k) + 1]
  }

  /** A bump adds the key and raises its count, and only its count, by one. */
  lemma BumpCount<K(!new)>(m: map<K, nat>, k: K)
    ensures Bump(m, k).Keys == m.Keys + {k}
    ensures forall k' :: Count(Bump(m, k), k') == Count(m, k') + (if k' == k then 1 else 0)
  {
  }

  /** The testbench's increment, creating the key at zero first if it is missing,
      is a bump. */
  lemma CreateThenIncrement<K>(m: map<K, nat>, k: K)
    ensures var c := if k in m then m else m[k := 0]; c[k := c[k] + 1] == Bump(m, k)
  {
    if k !in m {
      assert m[k := 0][k := 1] == m[k := 1];
    }
  }

  /** No key occurs twice in a list of keys. */
  predicate Distinct<K(==)>(keys: seq<K>)
  {
    forall a, b | 0 <= a < b < |keys| :: keys[a] != keys[b]
  }

  /** The key lists name each bin once. */
  lemma KeyListsDistinct()
    ensures Distinct(ValueRanges) && Distinct(DelayRanges) && Distinct(MatrixTypes)
  {
  }

  /** The sum of the counts of the listed keys. */
  function Total<K>(m: map<K, nat>, keys: seq<K>): nat
  {
    if keys == [] then 0 else Total(m, keys[..|keys| - 1]) + Count(m, keys[|keys| - 1])
  }

  /** A bump raises the total over any distinct list holding the key by exactly one. */
  lemma {:induction false} BumpTotal<K(!new)>(m: map<K, nat>, k: K, keys: seq<K>)
    requires Distinct(keys)
    ensures Total(Bump(m, k), keys) == Total(m, keys) + (if k in keys then 1 else 0)
    decreases |keys|
  {
    BumpCount(m, k);
    if keys != [] {
      var init := keys[..|keys| - 1];
      assert Distinct(init);
      BumpTotal(m, k, init);
      if k == keys[|keys| - 1] {
        assert k !in init by {
          forall a | 0 <= a < |init| ensures init[a] != k {
            assert keys[a] != keys[|keys| - 1];
          }
        }
      }
      assert k in keys <==> k in init || k == keys[|keys| - 1] by {
        assert keys == init + [keys[|keys| - 1]];
      }
    }
  }

  /** The value bins after binning each of the values in order. */
  function AddValues(m: map<ValueRange, nat>, values: seq<int>): map<ValueRange, nat>
  {
    if values == [] then m
    else Bump(AddValues(m, values[..|values| - 1]), ValueRangeOf(values[|values| - 1]))
  }

  /** Binning one more value bumps its bin. */
  lemma AddValuesSnoc(m: map<ValueRange, nat>, values: seq<int>, v: int)
    ensures AddValues(m, values + [v]) == Bump(AddValues(m, values), ValueRangeOf(v))
  {
    assert (values + [v])[..|values|] == values;
  }

  /** How many of the values fall into bin k. */
  function Occurrences(values: seq<int>, k: ValueRange): nat
  {
    if values == [] then 0
    else Occurrences(values[..|values| - 1], k) + (if ValueRangeOf(values[|values| - 1]) == k then 1 else 0)
  }

  /** Binning a sequence of values raises each bin by the number of values that fall
      into it, creates exactly the bins that were hit, and raises the total by the
      number of values. */
  lemma {:induction false} AddValuesCounts(m: map<ValueRange, nat>, values: seq<int>)
    ensures forall k :: Count(AddValues(m, values), k) == Count(m, k) + Occurrences(values, k)
    ensures forall k :: k in AddValues(m, values) <==> k in m || Occurrences(values, k) > 0
    ensures Total(AddValues(m, values), ValueRanges) == Total(m, ValueRanges) + |values|
    decreases |values|
  {
    if values != [] {
      var init := values[..|values| - 1];
      AddValuesCounts(m, init);
      BumpCount(AddValues(m, init), ValueRangeOf(values[|values| - 1]));
      KeyListsDistinct();
      BumpTotal(AddValues(m, init), ValueRangeOf(values[|values| - 1]), ValueRanges);
    }
  }

  /** The element-value part of the input coverage: the nine elements in row-major
      order, each bin created at zero when it is first hit. */
  method BinElementValues(valueBins: map<ValueRange, nat>, matrix: Grid)
    returns (bins: map<ValueRange, nat>)
    ensures bins == AddValues(valueBins, Cells(matrix))
  {
    bins := valueBins;
    for i := 0 to MatMatrixSize
      invariant bins == AddValues(valueBins, RowMajorPrefix(matrix, i, 0))
    {
      for j := 0 to MatMatrixSize
        invariant bins == AddValues(valueBins, RowMajorPrefix(matrix, i, j))
      {
        var value := matrix[i][j];
        var valueRange := ValueRangeOf(value);
        CreateThenIncrement(bins, valueRange);
        AddValuesSnoc(valueBins, RowMajorPrefix(matrix, i, j), value);
        if valueRange !in bins {
          bins := bins[valueRange := 0];
        }
        bins := bins[valueRange := bins[valueRange] + 1];
      }
    }
    RowMajorScanIsCells(matrix);
  }

  /** The five bin maps of the collector. */
  datatype Bins = Bins(
    matrixValue: map<ValueRange, nat>,
    determinantValue: map<ValueRange, nat>,
    overflow: map<bool, nat>,
    delay: map<DelayRange, nat>,
    matrixType: map<MatrixType, nat>)

  /** The bins as constructed: value bins empty, the other bins pre-created at zero. */
  function InitialBins(): Bins
  {
    Bins(map[], map[],
         map[true := 0, false := 0],
         map[ShortDelay := 0, MediumDelay := 0, LongDelay := 0],
         map[TriangularUpper := 0, TriangularLower := 0, Diagonal := 0, Identity := 0, General := 0])
  }

  /** The pre-created maps hold every key of their kind. */
  predicate KeysInitialised(b: Bins)
  {
    true in b.overflow && false in b.overflow &&
    ShortDelay in b.delay && MediumDelay in b.delay && LongDelay in b.delay &&
    TriangularUpper in b.matrixType && TriangularLower in b.matrixType &&
    Diagonal in b.matrixType && Identity in b.matrixType && General in b.matrixType
  }

  /** The bins after observing one input matrix item. */
  function AddInput(b: Bins, item: MatrixItem): Bins
  {
    b.(matrixValue := AddValues(b.matrixValue, Cells(item.matrix)),
       delay := Bump(b.delay, DelayRangeOf(GridSum(item.preElementDelay))),
       matrixType := Bump(b.matrixType, MatrixTypeOf(item.matrix)))
  }

  /** The bins after observing one output determinant item. */
  function AddOutput(b: Bins, item: DeterminantItem): Bins
  {
    b.(determinantValue := Bump(b.determinantValue, ValueRangeOf(item.determinant)),
       overflow := Bump(b.overflow, item.overflow))
  }

  function AddInputs(b: Bins, items: seq<MatrixItem>): Bins
  {
    if items == [] then b else AddInput(AddInputs(b, items[..|items| - 1]), items[|items| - 1])
  }

  function AddOutputs(b: Bins, items: seq<DeterminantItem>): Bins
  {
    if items == [] then b else AddOutput(AddOutputs(b, items[..|items| - 1]), items[|items| - 1])
  }

  /** Every bin of a freshly built collector is zero and the pre-created keys are there. */
  lemma InitialBinsZero()
    ensures KeysInitialised(InitialBins())
    ensures forall k :: Count(InitialBins().matrixValue, k) == 0
    ensures forall k :: Count(InitialBins().overflow, k) == 0
    ensures forall k :: Count(InitialBins().delay, k) == 0
    ensures forall k :: Count(InitialBins().matrixType, k) == 0
  {
  }

  /** One input item raises the element-value total by exactly nine, one delay bin and
      one shape bin by exactly one, leaves the output bins alone and keeps the
      pre-created keys. */
  lemma InputCoverageEffect(b: Bins, item: MatrixItem)
    ensures var r := AddInput(b, item);
      Total(r.matrixValue, ValueRanges) == Total(b.matrixValue, ValueRanges) + 9 &&
      (forall k :: Count(r.matrixValue, k) >= Count(b.matrixValue, k)) &&
      (forall d :: Count(r.delay, d) ==
         Count(b.delay, d) + (if d == DelayRangeOf(GridSum(item.preElementDelay)) then 1 else 0)) &&
      (forall t :: Count(r.matrixType, t) ==
         Count(b.matrixType, t) + (if t == MatrixTypeOf(item.matrix) then 1 else 0)) &&
      r.determinantValue == b.determinantValue && r.overflow == b.overflow
    ensures KeysInitialised(b) ==> KeysInitialised(AddInput(b, item))
  {
    AddValuesCounts(b.matrixValue, Cells(item.matrix));
    BumpCount(b.delay, DelayRangeOf(GridSum(item.preElementDelay)));
    BumpCount(b.matrixType, MatrixTypeOf(item.matrix));
  }

  /** One output item raises exactly one determinant bin and one overflow bin by one;
      the "true" bin moves exactly when the item reports overflow. */
  lemma OutputCoverageEffect(b: Bins, item: DeterminantItem)
    ensures var r := AddOutput(b, item);
      (forall k :: Count(r.determinantValue, k) ==
         Count(b.determinantValue, k) + (if k == ValueRangeOf(item.determinant) then 1 else 0)) &&
      Count(r.overflow, true) == Count(b.overflow, true) + (if item.overflow then 1 else 0) &&
      Count(r.overflow, false) == Count(b.overflow, false) + (if item.overflow then 0 else 1) &&
      r.matrixValue == b.matrixValue && r.delay == b.delay && r.matrixType == b.matrixType
    ensures KeysInitialised(b) ==> KeysInitialised(AddOutput(b, item))
  {
    BumpCount(b.determinantValue, ValueRangeOf(item.determinant));
    BumpCount(b.overflow, item.overflow);
  }

  /** The number of items that report overflow. */
  function OverflowCount(items: seq<DeterminantItem>): nat
  {
    if items == [] then 0
    else OverflowCount(items[..|items| - 1]) + (if items[|items| - 1].overflow then 1 else 0)
  }

  /** After a report, the shape bins have grown by the number of inputs, the "true"
      overflow bin by the number of overflowing outputs and the "false" bin by the rest;
      no count has decreased. */
  lemma {:induction false} ReportTotals(b: Bins, inputs: seq<MatrixItem>, outputs: seq<DeterminantItem>)
    ensures var r := AddOutputs(AddInputs(b, inputs), outputs);
      Total(r.matrixType, MatrixTypes) == Total(b.matrixType, MatrixTypes) + |inputs| &&
      Total(r.delay, DelayRanges) == Total(b.delay, DelayRanges) + |inputs| &&
      Total(r.matrixValue, ValueRanges) == Total(b.matrixValue, ValueRanges) + 9 * |inputs| &&
      Count(r.overflow, true) == Count(b.overflow, true) + OverflowCount(outputs) &&
      Count(r.overflow, false) == Count(b.overflow, false) + (|outputs| - OverflowCount(outputs))
    ensures Monotone(b, AddOutputs(AddInputs(b, inputs), outputs))
  {
    InputsTotals(b, inputs);
    OutputsTotals(AddInputs(b, inputs), outputs);
  }

  /** No bin has a smaller count in c than in b. */
  predicate Monotone(b: Bins, c: Bins)
  {
    (forall k :: Count(b.matrixValue, k) <= Count(c.matrixValue, k)) &&
    (forall k :: Count(b.determinantValue, k) <= Count(c.determinantValue, k)) &&
    (forall k :: Count(b.overflow, k) <= Count(c.overflow, k)) &&
    (forall k :: Count(b.delay, k) <= Count(c.delay, k)) &&
    (forall k :: Count(b.matrixType, k) <= Count(c.matrixType, k))
  }

  lemma {:induction false} InputsTotals(b: Bins, inputs: seq<MatrixItem>)
    ensures var r := AddInputs(b, inputs);
      Total(r.matrixType, MatrixTypes) == Total(b.matrixType, MatrixTypes) + |inputs| &&
      Total(r.delay, DelayRanges) == Total(b.delay, DelayRanges) + |inputs| &&
      Total(r.matrixValue, ValueRanges) == Total(b.matrixValue, ValueRanges) + 9 * |inputs| &&
      r.overflow == b.overflow && Monotone(b, r)
    decreases |inputs|
  {
    if inputs != [] {
      var init := inputs[..|inputs| - 1];
      var item := inputs[|inputs| - 1];
      var p := AddInputs(b, init);
      InputsTotals(b, init);
      InputCoverageEffect(p, item);
      KeyListsDistinct();
      BumpTotal(p.matrixType, MatrixTypeOf(item.matrix), MatrixTypes);
      BumpTotal(p.delay, DelayRangeOf(GridSum(item.preElementDelay)), DelayRanges);
    }
  }

  lemma {:induction false} OutputsTotals(b: Bins, outputs: seq<DeterminantItem>)
    ensures var r := AddOutputs(b, outputs);
      Count(r.overflow, true) == Count(b.overflow, true) + OverflowCount(outputs) &&
      Count(r.overflow, false) == Count(b.overflow, false) + (|outputs| - OverflowCount(outputs)) &&
      OverflowCount(outputs) <= |outputs| &&
      r.matrixType == b.matrixType && r.delay == b.delay && r.matrixValue == b.matrixValue &&
      Monotone(b, r)
    decreases |outputs|
  {
    if outputs != [] {
      var init := outputs[..|outputs| - 1];
      OutputsTotals(b, init);
      OutputCoverageEffect(AddOutputs(b, init), outputs[|outputs| - 1]);
    }
  }

  /** Observing inputs and outputs touch disjoint bins, so the bins do not depend on
      which of the two is drained first. */
  lemma {:induction false} DrainOrderIrrelevant(b: Bins, inputs: seq<MatrixItem>, outputs: seq<DeterminantItem>)
    ensures AddOutputs(AddInputs(b, inputs), outputs) == AddInputs(AddOutputs(b, outputs), inputs)
    decreases |inputs| + |outputs|
  {
    if outputs != [] {
      var init := outputs[..|outputs| - 1];
      DrainOrderIrrelevant(b, inputs, init);
      InputsCommute(AddOutputs(b, init), inputs, outputs[|outputs| - 1]);
    }
  }

  /** Observing one output item commutes with observing a sequence of inputs. */
  lemma {:induction false} InputsCommute(b: Bins, inputs: seq<MatrixItem>, out: DeterminantItem)
    ensures AddOutput(AddInputs(b, inputs), out) == AddInputs(AddOutput(b, out), inputs)
    decreases |inputs|
  {
    if inputs != [] {
      InputsCommute(b, inputs[..|inputs| - 1], out);
    }
  }

  /** The coverage collector with its five bin maps. */
  class CoverageCollector {
    var matrixValueBins: map<ValueRange, nat>
    var determinantValueBins: map<ValueRange, nat>
    var overflowBins: map<bool, nat>
    var delayBins: map<DelayRange, nat>
    var matrixTypeBins: map<MatrixType, nat>

    /** The bins as a value. */
    function Snapshot(): Bins
      reads this
    {
      Bins(matrixValueBins, determinantValueBins, overflowBins, delayBins, matrixTypeBins)
    }

    /** The pre-created bins are present, so incrementing them cannot miss a key. */
    predicate Valid()
      reads this
    {
      KeysInitialised(Snapshot())
    }

    constructor()
      ensures Valid()
      ensures Snapshot() == InitialBins()
    {
      matrixValueBins := map[];
      determinantValueBins := map[];
      overflowBins := map[true := 0, false := 0];
      delayBins := map[ShortDelay := 0, MediumDelay := 0, LongDelay := 0];
      matrixTypeBins := map[TriangularUpper := 0, TriangularLower := 0, Diagonal := 0,
                            Identity := 0, General := 0];
    }

    /** Bin the nine elements, the total delay and the shape of an input item. */
    method CollectInputCoverage(item: MatrixItem)
      requires Valid()
      modifies this
      ensures Valid()
      ensures Snapshot() == AddInput(old(Snapshot()), item)
    {
      ghost var before := Snapshot();
      matrixValueBins := BinElementValues(matrixValueBins, item.matrix);

      var totalDelay := GridSum(item.preElementDelay);
      var delayRange := DelayRangeOf(totalDelay);
      delayBins := delayBins[delayRange := delayBins[delayRange] + 1];

      var matrixType := ClassifyMatrix(item.matrix);
      matrixTypeBins := matrixTypeBins[matrixType := matrixTypeBins[matrixType] + 1];
      assert delayBins == Bump(before.delay, delayRange);
      assert matrixTypeBins == Bump(before.matrixType, matrixType);
      assert Snapshot() == AddInput(before, item);
    }

    /** Bin the value and the overflow flag of an output item. */
    method CollectOutputCoverage(item: DeterminantItem)
      requires Valid()
      modifies this
      ensures Valid()
      ensures Snapshot() == AddOutput(old(Snapshot()), item)
    {
      var detRange := ValueRangeOf(item.determinant);
      CreateThenIncrement(determinantValueBins, detRange);
      if detRange !in determinantValueBins {
        determinantValueBins := determinantValueBins[detRange := 0];
      }
      determinantValueBins := determinantValueBins[detRange := determinantValueBins[detRange] + 1];
      var overflowKey := item.overflow;
      overflowBins := overflowBins[overflowKey := overflowBins[overflowKey] + 1];
    }

    /** The end-of-test report: drain every queued input item, then every queued
        output item. */
    method ReportPhase(inputs: seq<MatrixItem>, outputs: seq<DeterminantItem>)
      requires Valid()
      modifies this
      ensures Valid()
      ensures Snapshot() == AddOutputs(AddInputs(old(Snapshot()), inputs), outputs)
    {
      DrainInputCoverage(inputs);
      DrainOutputCoverage(outputs);
    }

    /** Drain the input queue, one coverage collection per item. */
    method DrainInputCoverage(inputs: seq<MatrixItem>)
      requires Valid()
      modifies this
      ensures Valid()
      ensures Snapshot() == AddInputs(old(Snapshot()), inputs)
    {
      var i := 0;
      while i < |inputs|
        invariant 0 <= i <= |inputs|
        invariant Valid()
        invariant Snapshot() == AddInputs(old(Snapshot()), inputs[..i])
      {
        CollectInputCoverage(inputs[i]);
        assert inputs[..i + 1][..i] == inputs[..i];
        i := i + 1;
      }
      assert inputs[..i] == inputs;
    }

    /** Drain the output queue, one coverage collection per item. */
    method DrainOutputCoverage(outputs: seq<DeterminantItem>)
      requires Valid()
      modifies this
      ensures Valid()
      ensures Snapshot() == AddOutputs(old(Snapshot()), outputs)
    {
      var k := 0;
      while k < |outputs|
        invariant 0 <= k <= |outputs|
        invariant Valid()
        invariant Snapshot() == AddOutputs(old(Snapshot()), outputs[..k])
      {
        CollectOutputCoverage(outputs[k]);
        assert outputs[..k + 1][..k] == outputs[..k];
        k := k + 1;
      }
      assert outputs[..k] == outputs;
    }
  }
}
