/** The scoreboard: the golden model (saturated determinant, expected delay) and the
    strict first-in first-out matching of observed determinant items against the
    expected queue. The logger's errors and warnings are an event log. */
module Scoreboard {
  import opened MatrixDetTypes
  import opened MatrixDetItems

  /** What the scoreboard reports. Every event but DelayWarning is an error. */
  datatype Event =
    | Mismatch(expectedDet: int, actualDet: int)
    | OverflowMismatch(expectedFlag: bool, actualFlag: bool)
    | DelayWarning(expectedDelay: int, actualDelay: int)
    | Unexpected
    | Unprocessed(count: nat)

  predicate IsError(e: Event)
  {
    !e.DelayWarning?
  }

  predicate NoErrors(log: seq<Event>)
  {
    forall k :: 0 <= k < |log| ==> !IsError(log[k])
  }

  function Abs(x: int): int
  {
    if x < 0 then -x else x
  }

  function Min(a: int, b: int): int
  {
    if a < b then a else b
  }

  /** The expected output for an input matrix: the exact determinant saturated to the
      determinant bus, the overflow flag, and the delay heuristic (sum of the
      pre-element delays plus N^2 cycles). */
  function ExpectedItem(item: MatrixItem): (r: DeterminantItem)
    ensures var raw := Determinant(item.matrix);
      && DetUnderflowValue <= r.determinant <= DetOverflowValue
      && (raw < DetUnderflowValue ==> r.determinant == DetUnderflowValue)
      && (raw > DetOverflowValue ==> r.determinant == DetOverflowValue)
      && (DetUnderflowValue <= raw <= DetOverflowValue ==> r.determinant == raw)
      && (r.overflow <==> r.determinant != raw)
      && (r.overflow <==> raw < DetUnderflowValue || DetOverflowValue < raw)
    ensures r.preDetDelay == GridSum(item.preElementDelay) + MatMatrixSize * MatMatrixSize
  {
    var raw := Determinant(item.matrix);
    var delay := GridSum(item.preElementDelay) + MatMatrixSize * MatMatrixSize;
    if raw < DetUnderflowValue then DeterminantItem(DetUnderflowValue, true, delay)
    else if raw > DetOverflowValue then DeterminantItem(DetOverflowValue, true, delay)
    else DeterminantItem(raw, false, delay)
  }

  /** The expected items of a sequence of inputs, in order. */
  function ExpectedItems(inputs: seq<MatrixItem>): (r: seq<DeterminantItem>)
    ensures |r| == |inputs|
    ensures forall k :: 0 <= k < |inputs| ==> r[k] == ExpectedItem(inputs[k])
  {
    if inputs == [] then []
    else ExpectedItems(inputs[..|inputs| - 1]) + [ExpectedItem(inputs[|inputs| - 1])]
  }

  /** The events of comparing one expected item with one observed item. */
  function CompareEvents(expected: DeterminantItem, actual: DeterminantItem): seq<Event>
  {
    (if expected.determinant != actual.determinant
     then [Mismatch(expected.determinant, actual.determinant)] else [])
    + (if expected.overflow != actual.overflow
       then [OverflowMismatch(expected.overflow, actual.overflow)] else [])
    + (if Abs(expected.preDetDelay - actual.preDetDelay) > 2
       then [DelayWarning(expected.preDetDelay, actual.preDetDelay)] else [])
  }

  /** An observed item agrees with an expected one on value and overflow flag. */
  predicate Agree(expected: DeterminantItem, actual: DeterminantItem)
  {
    expected.determinant == actual.determinant && expected.overflow == actual.overflow
  }

  /** The comparison made for the k-th observed item: with the k-th queued item, or,
      beyond the end of the queue, an unexpected output. */
  function StepEvents(queue: seq<DeterminantItem>, outputs: seq<DeterminantItem>, k: nat): seq<Event>
    requires k < |outputs|
  {
    if k < |queue| then CompareEvents(queue[k], outputs[k]) else [Unexpected]
  }

  /** Concatenation of a sequence of event lists. */
  function Flatten(ss: seq<seq<Event>>): seq<Event>
  {
    if ss == [] then [] else Flatten(ss[..|ss| - 1]) + ss[|ss| - 1]
  }

  /** First in, first out: the log of matching observed items against a queue, the k-th
      observed item being compared with the k-th queued one. */
  function MatchLog(queue: seq<DeterminantItem>, outputs: seq<DeterminantItem>): seq<Event>
  {
    Flatten(seq(|outputs|, k requires 0 <= k < |outputs| => StepEvents(queue, outputs, k)))
  }

  /** The report closing the check phase: the number of expected items left over. */
  function Leftover(queue: seq<DeterminantItem>, outputs: seq<DeterminantItem>): seq<Event>
  {
    if |queue| > |outputs| then [Unprocessed(|queue| - |outputs|)] else []
  }

  class MatrixScoreboard {
    var expectedQueue: seq<DeterminantItem>
    var log: seq<Event>

    constructor ()
      ensures expectedQueue == [] && log == []
    {
      expectedQueue := [];
      log := [];
    }

    /** Computes the expected item of an input and appends it to the back of the queue. */
    method ProcessInputItem(item: MatrixItem)
      modifies this
      ensures expectedQueue == old(expectedQueue) + [ExpectedItem(item)]
      ensures log == old(log)
    {
      var expectedDet := Determinant(item.matrix);
      var expected := NewDeterminantItem();
      if expectedDet < DetUnderflowValue {
        expected := expected.(determinant := DetUnderflowValue, overflow := true);
      } else if expectedDet > DetOverflowValue {
        expected := expected.(determinant := DetOverflowValue, overflow := true);
      } else {
        expected := expected.(determinant := expectedDet, overflow := false);
      }
      var totalDelay := 0;
      for i := 0 to MatMatrixSize
        invariant unchanged(this)
        invariant totalDelay == Sum(RowMajorPrefix(item.preElementDelay, i, 0))
      {
        for j := 0 to MatMatrixSize
          invariant unchanged(this)
          invariant totalDelay == Sum(RowMajorPrefix(item.preElementDelay, i, j))
        {
          SumSnoc(RowMajorPrefix(item.preElementDelay, i, j), item.preElementDelay[i][j]);
          totalDelay := totalDelay + item.preElementDelay[i][j];
        }
      }
      RowMajorScanIsCells(item.preElementDelay);
      assert totalDelay == GridSum(item.preElementDelay);
      expected := expected.(preDetDelay := totalDelay + MatMatrixSize * MatMatrixSize);
      expectedQueue := expectedQueue + [expected];
    }

    /** Pops the front expected item and compares it with an observed one; with an empty
        queue, reports the observed item as unexpected and leaves the queue empty. */
    method CompareOutputItem(item: DeterminantItem)
      modifies this
      ensures old(expectedQueue) == [] ==> expectedQueue == [] && log == old(log) + [Unexpected]
      ensures old(expectedQueue) != [] ==>
        expectedQueue == old(expectedQueue)[1..] &&
        log == old(log) + CompareEvents(old(expectedQueue)[0], item)
    {
      if expectedQueue == [] {
        log := log + [Unexpected];
        return;
      }
      var expected := expectedQueue[0];
      expectedQueue := expectedQueue[1..];
      if expected.determinant != item.determinant {
        log := log + [Mismatch(expected.determinant, item.determinant)];
      }
      if expected.overflow != item.overflow {
        log := log + [OverflowMismatch(expected.overflow, item.overflow)];
      }
      var delayDiff := Abs(expected.preDetDelay - item.preDetDelay);
      if delayDiff > 2 {
        log := log + [DelayWarning(expected.preDetDelay, item.preDetDelay)];
      }
    }

    /** The first loop of the check phase: every input, in order, becomes an expected item. */
    method DrainInputs(inputs: seq<MatrixItem>)
      modifies this
      ensures expectedQueue == old(expectedQueue) + ExpectedItems(inputs)
      ensures log == old(log)
    {
      var n := 0;
      while n < |inputs|
        invariant 0 <= n <= |inputs|
        invariant expectedQueue == old(expectedQueue) + ExpectedItems(inputs[..n])
        invariant log == old(log)
      {
        assert inputs[..n + 1][..n] == inputs[..n];
        ProcessInputItem(inputs[n]);
        n := n + 1;
      }
      assert inputs[..n] == inputs;
    }

    /** The second loop of the check phase: every observed item, in order, is compared
        with the front of the queue. */
    method DrainOutputs(outputs: seq<DeterminantItem>)
      modifies this
      ensures var q := old(expectedQueue);
        expectedQueue == q[Min(|q|, |outputs|)..] && log == old(log) + MatchLog(q, outputs)
    {
      ghost var q := expectedQueue;
      var m := 0;
      while m < |outputs|
        invariant 0 <= m <= |outputs|
        invariant expectedQueue == q[Min(|q|, m)..]
        invariant log == old(log) + MatchLog(q, outputs[..m])
      {
        MatchLogStep(q, outputs, m);
        assert m < |q| ==> expectedQueue != [] && expectedQueue[0] == q[m] && expectedQueue[1..] == q[m + 1..];
        CompareOutputItem(outputs[m]);
        m := m + 1;
      }
      assert outputs[..m] == outputs;
    }

    /** End of test: all inputs are turned into expected items first, then all outputs
        are matched, then the leftover expected items are reported. */
    method CheckPhase(inputs: seq<MatrixItem>, outputs: seq<DeterminantItem>)
      modifies this
      ensures var q := old(expectedQueue) + ExpectedItems(inputs);
        && expectedQueue == q[Min(|q|, |outputs|)..]
        && log == old(log) + MatchLog(q, outputs) + Leftover(q, outputs)
    {
      DrainInputs(inputs);
      DrainOutputs(outputs);
      if expectedQueue != [] {
        log := log + [Unprocessed(|expectedQueue|)];
      }
    }
  }

  // ----- properties -----

  /** Matching one more observed item appends the events of its comparison. */
  lemma MatchLogStep(queue: seq<DeterminantItem>, outputs: seq<DeterminantItem>, m: nat)
    requires m < |outputs|
    ensures MatchLog(queue, outputs[..m + 1]) == MatchLog(queue, outputs[..m]) + StepEvents(queue, outputs, m)
  {
    var o := outputs[..m + 1];
    var ss := seq(|o|, k requires 0 <= k < |o| => StepEvents(queue, o, k));
    assert ss[..m] == seq(m, k requires 0 <= k < m => StepEvents(queue, outputs[..m], k));
    assert ss[m] == StepEvents(queue, outputs, m);
  }

  /** Comparing two items raises an error exactly when they disagree on value or flag,
      and a delay warning exactly when the delays differ by more than 2. */
  lemma CompareVerdict(expected: DeterminantItem, actual: DeterminantItem)
    ensures NoErrors(CompareEvents(expected, actual)) <==> Agree(expected, actual)
    ensures (exists k :: 0 <= k < |CompareEvents(expected, actual)| &&
               CompareEvents(expected, actual)[k].DelayWarning?)
            <==> Abs(expected.preDetDelay - actual.preDetDelay) > 2
  {
    var ev := CompareEvents(expected, actual);
    if Abs(expected.preDetDelay - actual.preDetDelay) > 2 {
      assert ev[|ev| - 1].DelayWarning?;
    }
    if !Agree(expected, actual) {
      assert IsError(ev[0]);
    }
  }

  /** An event list made by concatenation is error free iff both parts are. */
  lemma NoErrorsAppend(a: seq<Event>, b: seq<Event>)
    ensures NoErrors(a + b) <==> NoErrors(a) && NoErrors(b)
  {
    if NoErrors(a + b) {
      forall k | 0 <= k < |a| ensures !IsError(a[k]) {
        assert a[k] == (a + b)[k];
      }
      forall k | 0 <= k < |b| ensures !IsError(b[k]) {
        assert b[k] == (a + b)[|a| + k];
      }
    }
    if NoErrors(a) && NoErrors(b) {
      forall k | 0 <= k < |a + b| ensures !IsError((a + b)[k]) {
        if k < |a| {
          assert (a + b)[k] == a[k];
        } else {
          assert (a + b)[k] == b[k - |a|];
        }
      }
    }
  }

  /** Matching raises no error iff there are no more observed items than queued ones
      and each observed item agrees with the queued item of the same position. */
  lemma {:induction false} MatchVerdict(queue: seq<DeterminantItem>, outputs: seq<DeterminantItem>)
    ensures NoErrors(MatchLog(queue, outputs)) <==>
      |outputs| <= |queue| && forall k :: 0 <= k < |outputs| ==> Agree(queue[k], outputs[k])
    decreases |outputs|
  {
    if outputs == [] {
      assert MatchLog(queue, outputs) == [];
    } else {
      var n := |outputs| - 1;
      var init := outputs[..n];
      MatchLogStep(queue, outputs, n);
      assert outputs[..n + 1] == outputs;
      MatchVerdict(queue, init);
      NoErrorsAppend(MatchLog(queue, init), StepEvents(queue, outputs, n));
      if n < |queue| {
        CompareVerdict(queue[n], outputs[n]);
      } else {
        assert IsError(StepEvents(queue, outputs, n)[0]);
      }
      if |outputs| <= |queue| && forall k :: 0 <= k < |outputs| ==> Agree(queue[k], outputs[k]) {
        forall k | 0 <= k < |init| ensures Agree(queue[k], init[k]) {
          assert init[k] == outputs[k];
        }
      }
      if NoErrors(MatchLog(queue, outputs)) {
        forall k | 0 <= k < |outputs| ensures Agree(queue[k], outputs[k]) {
          if k < n {
            assert init[k] == outputs[k];
          }
        }
      }
    }
  }

  /** The verdict of a whole check phase started on an empty queue: the log is error
      free iff there are exactly as many outputs as inputs and the k-th output agrees
      with the expected item of the k-th input. */
  lemma CheckPhaseVerdict(inputs: seq<MatrixItem>, outputs: seq<DeterminantItem>)
    ensures var q := ExpectedItems(inputs);
      NoErrors(MatchLog(q, outputs) + Leftover(q, outputs)) <==>
        |outputs| == |inputs| &&
        forall k :: 0 <= k < |inputs| ==> Agree(ExpectedItem(inputs[k]), outputs[k])
  {
    var q := ExpectedItems(inputs);
    MatchVerdict(q, outputs);
    NoErrorsAppend(MatchLog(q, outputs), Leftover(q, outputs));
    if |q| > |outputs| {
      assert IsError(Leftover(q, outputs)[0]);
    }
  }

  /** Saturation gives the representable value nearest to the exact determinant. */
  lemma SaturationIsNearest(item: MatrixItem, v: int)
    requires DetUnderflowValue <= v <= DetOverflowValue
    ensures Abs(ExpectedItem(item).determinant - Determinant(item.matrix))
            <= Abs(v - Determinant(item.matrix))
  {
  }

  /** The identity with zero delays is expected to give 1, no overflow, after N^2 cycles. */
  lemma IdentityScenario()
    ensures ExpectedItem(MatrixItem(IdentityGrid(), ZeroGrid())) == DeterminantItem(1, false, 9)
  {
    FreshMatrixItem();
    KnownDeterminants();
  }

  /** A matrix whose exact determinant is 40000 saturates to 32767 with overflow set. */
  lemma SaturationScenario()
    ensures Determinant([[200, 0, 0], [0, 200, 0], [0, 0, 1]]) == 40000
    ensures var r := ExpectedItem(MatrixItem([[200, 0, 0], [0, 200, 0], [0, 0, 1]], ZeroGrid()));
      r.determinant == 32767 && r.overflow && r.preDetDelay == 9
  {
    DetLimits();
    FreshMatrixItem();
  }

  /** Against an empty queue every observed item is reported as unexpected, one event
      each, and the matching goes on to the next item. */
  lemma {:induction false} AllUnexpected(outputs: seq<DeterminantItem>)
    ensures MatchLog([], outputs) == seq(|outputs|, k => Unexpected)
    decreases |outputs|
  {
    if outputs != [] {
      var n := |outputs| - 1;
      MatchLogStep([], outputs, n);
      assert outputs[..n + 1] == outputs;
      AllUnexpected(outputs[..n]);
      assert seq(|outputs|, k => Unexpected) == seq(n, k => Unexpected) + [Unexpected];
    } else {
      assert MatchLog([], outputs) == [];
    }
  }
}
