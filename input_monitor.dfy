/** The monitor of the matrix input bus. It captures nine elements per item in row-major
    order: for each element it awaits a clock edge and then waits until `mat_request`
    and `mat_valid` are both sampled high, counting the extra edges as the element's
    pre-delay and reading `mat_in` as a signed 16-bit value. After the ninth element it
    publishes the item and waits for the next rising edge of `mat_request`.

    Timing is modelled on a finite trace of samples at successive rising clock edges:
    an `await RisingEdge(clk)` moves to the next sample, and the monitor stops when the
    trace has no sample left for an edge it awaits. */
module InputMonitor {
  import opened MatrixDetTypes
  import opened MatrixDetItems
  import opened Bus
  import opened AnalysisPort

  datatype Option<T> = None | Some(value: T)

  /** What the monitor reads at an edge. */
  datatype MonitorSample = MonitorSample(matRequest: bool, matValid: bool, matIn: Word)

  /** The handshake of an element: request and valid both high. */
  predicate Accepted(x: MonitorSample)
  {
    x.matRequest && x.matValid
  }

  /** Elements per item: MatMatrixSize squared. */
  const ElementsPerItem: nat := 9

  /** The first accepting sample at or after p, or |trace| if there is none. */
  function FirstAccepted(trace: seq<MonitorSample>, p: nat): (q: nat)
    requires p <= |trace|
    ensures p <= q <= |trace|
    decreases |trace| - p
  {
    if p == |trace| || Accepted(trace[p]) then p else FirstAccepted(trace, p + 1)
  }

  /** FirstAccepted finds the earliest accepting sample: the one it returns accepts, and
      none before it from p on does. */
  lemma {:induction false} FirstAcceptedIsFirst(trace: seq<MonitorSample>, p: nat)
    requires p <= |trace|
    ensures FirstAccepted(trace, p) < |trace| ==> Accepted(trace[FirstAccepted(trace, p)])
    ensures forall k | p <= k < FirstAccepted(trace, p) :: !Accepted(trace[k])
    decreases |trace| - p
  {
    if p < |trace| && !Accepted(trace[p]) {
      FirstAcceptedIsFirst(trace, p + 1);
    }
  }

  /** The collection loop's state: the item collected so far, the grid position (row,
      col) of the next element, and the trace position of the sample the next awaited
      edge will read. */
  datatype Capture = Capture(item: MatrixItem, row: nat, col: nat, next: nat)

  /** Element (row, col): the edge awaited reads sample `next`; the element is taken from
      the first accepting sample q at or after it, with pre-delay q - next. None: the trace
      ends first. */
  function CaptureElement(trace: seq<MonitorSample>, c: Capture): (r: Option<Capture>)
    requires InGrid(c.row, c.col) && c.next <= |trace|
    ensures r.Some? ==> c.next < r.value.next <= |trace|
  {
    var q := FirstAccepted(trace, c.next);
    if q == |trace| then None
    else
      Some(Capture(MatrixItem(SetCell(c.item.matrix, c.row, c.col, SignExtend16(trace[q].matIn)),
                              SetCell(c.item.preElementDelay, c.row, c.col, q - c.next)),
                   c.row, c.col + 1, q + 1))
  }

  /** The number of elements a row-major scan has collected on reaching (i, j). */
  function Done(i: nat, j: nat): nat
  {
    3 * i + j
  }

  /** The collection loop from state c on, in row-major order; column 3 of a row stands
      for the move to the next row and row 3 for the end of the scan. */
  function CaptureFrom(trace: seq<MonitorSample>, c: Capture): (r: Option<Capture>)
    requires ScanPosition(c.row, c.col) && c.next <= |trace|
    ensures r.Some? ==> c.next + (ElementsPerItem - Done(c.row, c.col)) <= r.value.next <= |trace|
    decreases MatMatrixSize - c.row, MatMatrixSize - c.col
  {
    if c.row == MatMatrixSize then Some(c)
    else if c.col == MatMatrixSize then CaptureFrom(trace, c.(row := c.row + 1, col := 0))
    else
      match CaptureElement(trace, c)
      case None => None
      case Some(c1) => CaptureFrom(trace, c1)
  }

  /** One item, collected on a fresh zero item from position p. */
  function ItemAt(trace: seq<MonitorSample>, p: nat): (r: Option<Capture>)
    requires p <= |trace|
    ensures r.Some? ==> p + ElementsPerItem <= r.value.next <= |trace|
  {
    CaptureFrom(trace, Capture(NewMatrixItem(), 0, 0, p))
  }

  /** `await RisingEdge(mat_request)` after the last element, whose sample preceded
      position t: the first s >= t at which `mat_request` is sampled high after being
      low at s - 1, or |trace|. */
  function NextRise(trace: seq<MonitorSample>, t: nat): (s: nat)
    requires 1 <= t <= |trace|
    ensures t <= s <= |trace|
    decreases |trace| - t
  {
    if t == |trace| || (!trace[t - 1].matRequest && trace[t].matRequest) then t else NextRise(trace, t + 1)
  }

  /** NextRise finds the earliest rising edge of `mat_request` from t on. */
  lemma {:induction false} NextRiseIsFirst(trace: seq<MonitorSample>, t: nat)
    requires 1 <= t <= |trace|
    ensures var s := NextRise(trace, t);
      && (s < |trace| ==> !trace[s - 1].matRequest && trace[s].matRequest)
      && (forall k | t <= k < s :: !(!trace[k - 1].matRequest && trace[k].matRequest))
    decreases |trace| - t
  {
    if t < |trace| && !(!trace[t - 1].matRequest && trace[t].matRequest) {
      NextRiseIsFirst(trace, t + 1);
    }
  }

  /** The items published from position p on, in order. */
  function Published(trace: seq<MonitorSample>, p: nat): seq<MatrixItem>
    requires p <= |trace|
    decreases |trace| - p
  {
    match ItemAt(trace, p)
    case None => []
    case Some(c) => [c.item] + Published(trace, NextRise(trace, c.next))
  }

  /** Published from a position where an item is captured: that item, then the items
      from the next rising edge of `mat_request`. */
  lemma PublishedStep(trace: seq<MonitorSample>, p: nat, c: Capture)
    requires p <= |trace| && ItemAt(trace, p) == Some(c)
    ensures 1 <= c.next <= |trace|
    ensures Published(trace, p) == [c.item] + Published(trace, NextRise(trace, c.next))
  {
  }

  // ----- an independent account of the capture -----

  /** The positions of the accepting samples at or after p, in increasing order. */
  function Handshakes(trace: seq<MonitorSample>, p: nat): (r: seq<nat>)
    requires p <= |trace|
    ensures forall n | 0 <= n < |r| :: p <= r[n] < |trace|
    decreases |trace| - p
  {
    if p == |trace| then []
    else if Accepted(trace[p]) then [p] + Handshakes(trace, p + 1)
    else Handshakes(trace, p + 1)
  }

  /** Handshakes lists exactly the accepting samples from p on, each once, in order. */
  lemma HandshakesExact(trace: seq<MonitorSample>, p: nat)
    requires p <= |trace|
    ensures var hs := Handshakes(trace, p);
      && (forall n | 0 <= n < |hs| :: Accepted(trace[hs[n]]))
      && (forall n, m | 0 <= n < m < |hs| :: hs[n] < hs[m])
      && (forall t | p <= t < |trace| && Accepted(trace[t]) :: t in hs)
  {
    HandshakesAccepted(trace, p);
    HandshakesIncreasing(trace, p);
    HandshakesComplete(trace, p);
  }

  lemma {:induction false} HandshakesAccepted(trace: seq<MonitorSample>, p: nat)
    requires p <= |trace|
    ensures forall n | 0 <= n < |Handshakes(trace, p)| :: Accepted(trace[Handshakes(trace, p)[n]])
    decreases |trace| - p
  {
    if p < |trace| {
      HandshakesAccepted(trace, p + 1);
      var rest := Handshakes(trace, p + 1);
      var hs := Handshakes(trace, p);
      if Accepted(trace[p]) {
        assert hs == [p] + rest;
        forall n | 0 <= n < |hs| ensures Accepted(trace[hs[n]]) {
          if n > 0 {
            assert hs[n] == rest[n - 1];
          }
        }
      } else {
        assert hs == rest;
      }
    }
  }

  lemma {:induction false} HandshakesIncreasing(trace: seq<MonitorSample>, p: nat)
    requires p <= |trace|
    ensures forall n, m | 0 <= n < m < |Handshakes(trace, p)| :: Handshakes(trace, p)[n] < Handshakes(trace, p)[m]
    decreases |trace| - p
  {
    if p < |trace| {
      HandshakesIncreasing(trace, p + 1);
      var rest := Handshakes(trace, p + 1);
      var hs := Handshakes(trace, p);
      if Accepted(trace[p]) {
        assert hs == [p] + rest;
        forall n, m | 0 <= n < m < |hs| ensures hs[n] < hs[m] {
          assert hs[m] == rest[m - 1] && p + 1 <= rest[m - 1];
          if n > 0 {
            assert hs[n] == rest[n - 1];
          }
        }
      } else {
        assert hs == rest;
      }
    }
  }

  lemma {:induction false} HandshakesComplete(trace: seq<MonitorSample>, p: nat)
    requires p <= |trace|
    ensures forall t | p <= t < |trace| && Accepted(trace[t]) :: t in Handshakes(trace, p)
    decreases |trace| - p
  {
    if p < |trace| {
      HandshakesComplete(trace, p + 1);
      var rest := Handshakes(trace, p + 1);
      var hs := Handshakes(trace, p);
      if Accepted(trace[p]) {
        assert hs == [p] + rest;
        forall t | p <= t < |trace| && Accepted(trace[t]) ensures t in hs {
          if t > p {
            assert t in rest;
          }
        }
      } else {
        assert hs == rest;
      }
    }
  }

  /** FirstAccepted is the head of Handshakes, and the handshakes after it are those
      from the next sample on. */
  lemma {:induction false} FirstHandshake(trace: seq<MonitorSample>, p: nat)
    requires p <= |trace|
    ensures var hs := Handshakes(trace, p);
      && (hs == [] <==> FirstAccepted(trace, p) == |trace|)
      && (hs != [] ==> hs[0] == FirstAccepted(trace, p) &&
                       hs[1..] == Handshakes(trace, FirstAccepted(trace, p) + 1))
    decreases |trace| - p
  {
    if p < |trace| && !Accepted(trace[p]) {
      FirstHandshake(trace, p + 1);
    }
  }

  /** Where the wait for the n-th handshake of a capture that starts at `from` begins:
      `from` itself for the first, one past the previous handshake for the others. */
  function WaitStart(hs: seq<nat>, from: nat, n: nat): nat
    requires n < |hs|
  {
    if n == 0 then from else hs[n - 1] + 1
  }

  /** Element (a, b) of item holds the signed value of sample q and the number of edges
      the monitor waited from position w to reach it. */
  predicate ElementIs(trace: seq<MonitorSample>, item: MatrixItem, a: nat, b: nat, q: nat, w: nat)
    requires InGrid(a, b) && q < |trace|
  {
    item.matrix[a][b] == SignExtend16(trace[q].matIn) && item.preElementDelay[a][b] == q - w
  }

  /** One element captured: it is found exactly when a handshake follows, and it then
      holds the first handshake's value and delay; the scan moves one column on and the
      other elements are untouched. */
  lemma CaptureElementFacts(trace: seq<MonitorSample>, c: Capture)
    requires InGrid(c.row, c.col) && c.next <= |trace|
    ensures var e := CaptureElement(trace, c); var hs := Handshakes(trace, c.next);
      && (e.Some? <==> hs != [])
      && (e.Some? ==> e.value.next == hs[0] + 1 && e.value.row == c.row && e.value.col == c.col + 1)
      && (e.Some? ==> ElementIs(trace, e.value.item, c.row, c.col, hs[0], c.next))
      && (e.Some? ==> Handshakes(trace, e.value.next) == hs[1..])
      && (e.Some? ==> forall a, b | InGrid(a, b) && (a, b) != (c.row, c.col) ::
                        e.value.item.matrix[a][b] == c.item.matrix[a][b] &&
                        e.value.item.preElementDelay[a][b] == c.item.preElementDelay[a][b])
  {
    FirstHandshake(trace, c.next);
    var q := FirstAccepted(trace, c.next);
    if q < |trace| {
      SetCellEffect(c.item.matrix, c.row, c.col, SignExtend16(trace[q].matIn));
      SetCellEffect(c.item.preElementDelay, c.row, c.col, q - c.next);
    }
  }

  /** A collection loop that has collected k elements into item, waits from position
      `from` and ends in r takes the handshakes hs in order: it succeeds exactly when
      enough of them follow; element (a, b) not yet collected then holds the handshake of
      its turn with the delay since the previous one, the next wait starts one past the
      last handshake taken, and the elements already collected are untouched. */
  ghost predicate Takes(trace: seq<MonitorSample>, item: MatrixItem, k: nat, from: nat, r: Option<Capture>, hs: seq<nat>)
    requires k <= ElementsPerItem
    requires forall n | 0 <= n < |hs| :: hs[n] < |trace|
  {
    && TakesEnough(k, r, hs)
    && TakesNext(k, from, r, hs)
    && TakesElements(trace, k, from, r, hs)
    && TakesNothingElse(item, k, r)
  }

  ghost predicate TakesEnough(k: nat, r: Option<Capture>, hs: seq<nat>)
    requires k <= ElementsPerItem
  {
    r.Some? <==> ElementsPerItem - k <= |hs|
  }

  ghost predicate TakesNext(k: nat, from: nat, r: Option<Capture>, hs: seq<nat>)
    requires k <= ElementsPerItem && TakesEnough(k, r, hs)
  {
    r.Some? ==> r.value.next == if k == ElementsPerItem then from else hs[ElementsPerItem - k - 1] + 1
  }

  ghost predicate TakesElements(trace: seq<MonitorSample>, k: nat, from: nat, r: Option<Capture>, hs: seq<nat>)
    requires k <= ElementsPerItem && TakesEnough(k, r, hs)
    requires forall n | 0 <= n < |hs| :: hs[n] < |trace|
  {
    r.Some? ==> forall a, b | InGrid(a, b) && k <= Done(a, b) ::
                  ElementIs(trace, r.value.item, a, b, hs[Done(a, b) - k], WaitStart(hs, from, Done(a, b) - k))
  }

  ghost predicate TakesNothingElse(item: MatrixItem, k: nat, r: Option<Capture>)
  {
    r.Some? ==> forall a, b | InGrid(a, b) && Done(a, b) < k ::
                  r.value.item.matrix[a][b] == item.matrix[a][b] &&
                  r.value.item.preElementDelay[a][b] == item.preElementDelay[a][b]
  }

  /** The collection loop from state c on takes the handshakes that follow it. */
  ghost predicate TakesHandshakes(trace: seq<MonitorSample>, c: Capture)
    requires ScanPosition(c.row, c.col) && c.next <= |trace|
  {
    Takes(trace, c.item, Done(c.row, c.col), c.next, CaptureFrom(trace, c), Handshakes(trace, c.next))
  }

  /** The move to the next row changes nothing. */
  lemma RowEndStep(trace: seq<MonitorSample>, c: Capture)
    requires c.row < MatMatrixSize && c.col == MatMatrixSize && c.next <= |trace|
    requires TakesHandshakes(trace, c.(row := c.row + 1, col := 0))
    ensures TakesHandshakes(trace, c)
  {
    assert Done(c.row, c.col) == Done(c.row + 1, 0);
    assert CaptureFrom(trace, c) == CaptureFrom(trace, c.(row := c.row + 1, col := 0));
  }

  /** If the loop that has collected one more element, hs[0] at (row, col), takes the
      handshakes after the first, the loop before it takes them all. */
  lemma TakesFirst(trace: seq<MonitorSample>, c: Capture, c1: Capture, r: Option<Capture>, hs: seq<nat>,
                   k1: nat, hs1: seq<nat>)
    requires InGrid(c.row, c.col)
    requires forall n | 0 <= n < |hs| :: hs[n] < |trace|
    requires hs != [] && c1.next == hs[0] + 1
    requires ElementIs(trace, c1.item, c.row, c.col, hs[0], c.next)
    requires forall a, b | InGrid(a, b) && (a, b) != (c.row, c.col) ::
               c1.item.matrix[a][b] == c.item.matrix[a][b] &&
               c1.item.preElementDelay[a][b] == c.item.preElementDelay[a][b]
    requires k1 == Done(c.row, c.col) + 1 && hs1 == hs[1..]
    requires Takes(trace, c1.item, k1, c1.next, r, hs1)
    ensures Takes(trace, c.item, Done(c.row, c.col), c.next, r, hs)
  {
    var k := Done(c.row, c.col);
    assert IsTail(hs, hs1);
    TakesFirstNext(k, c.next, c1.next, r, hs, hs1);
    TakesFirstElements(trace, c, c1, r, hs, hs1);
    TakesFirstNothingElse(c, c1, r);
  }

  /** hs1 is hs without its first element. */
  ghost predicate IsTail(hs: seq<nat>, hs1: seq<nat>)
  {
    |hs| == |hs1| + 1 && forall m | 0 <= m < |hs1| :: hs1[m] == hs[m + 1]
  }

  lemma TakesFirstNext(k: nat, from: nat, from1: nat, r: Option<Capture>, hs: seq<nat>, hs1: seq<nat>)
    requires k < ElementsPerItem && IsTail(hs, hs1) && from1 == hs[0] + 1
    requires TakesEnough(k + 1, r, hs1) && TakesNext(k + 1, from1, r, hs1)
    ensures TakesEnough(k, r, hs) && TakesNext(k, from, r, hs)
  {
  }

  lemma TakesFirstElements(trace: seq<MonitorSample>, c: Capture, c1: Capture, r: Option<Capture>,
                           hs: seq<nat>, hs1: seq<nat>)
    requires InGrid(c.row, c.col)
    requires forall n | 0 <= n < |hs| :: hs[n] < |trace|
    requires IsTail(hs, hs1) && c1.next == hs[0] + 1
    requires forall n | 0 <= n < |hs1| :: hs1[n] < |trace|
    requires ElementIs(trace, c1.item, c.row, c.col, hs[0], c.next)
    requires TakesEnough(Done(c.row, c.col) + 1, r, hs1)
    requires TakesEnough(Done(c.row, c.col), r, hs)
    requires TakesNothingElse(c1.item, Done(c.row, c.col) + 1, r)
    requires TakesElements(trace, Done(c.row, c.col) + 1, c1.next, r, hs1)
    ensures TakesElements(trace, Done(c.row, c.col), c.next, r, hs)
  {
    if r.Some? {
      var k := Done(c.row, c.col);
      forall a, b | InGrid(a, b) && k <= Done(a, b)
        ensures ElementIs(trace, r.value.item, a, b, hs[Done(a, b) - k], WaitStart(hs, c.next, Done(a, b) - k))
      {
        if Done(a, b) == k {
          FirstElement(trace, c, c1, r.value.item, hs, a, b);
        } else {
          ShiftedElement(trace, r.value.item, a, b, hs, hs1, c.next, c1.next, Done(a, b) - k);
        }
      }
    }
  }

  /** The element collected first holds the first handshake and is left alone after. */
  lemma FirstElement(trace: seq<MonitorSample>, c: Capture, c1: Capture, item: MatrixItem, hs: seq<nat>, a: nat, b: nat)
    requires InGrid(c.row, c.col) && InGrid(a, b) && Done(a, b) == Done(c.row, c.col)
    requires hs != [] && hs[0] < |trace|
    requires ElementIs(trace, c1.item, c.row, c.col, hs[0], c.next)
    requires item.matrix[c.row][c.col] == c1.item.matrix[c.row][c.col]
    requires item.preElementDelay[c.row][c.col] == c1.item.preElementDelay[c.row][c.col]
    ensures ElementIs(trace, item, a, b, hs[0], WaitStart(hs, c.next, 0))
  {
    assert a == c.row && b == c.col;
  }

  /** The n-th handshake from `from` is handshake n - 1 of those after the first. */
  lemma ShiftedElement(trace: seq<MonitorSample>, item: MatrixItem, a: nat, b: nat, hs: seq<nat>, hs1: seq<nat>,
                       from: nat, from1: nat, n: nat)
    requires InGrid(a, b) && 1 <= n < |hs| && IsTail(hs, hs1) && from1 == hs[0] + 1
    requires forall m | 0 <= m < |hs| :: hs[m] < |trace|
    requires hs1[n - 1] < |trace|
    requires ElementIs(trace, item, a, b, hs1[n - 1], WaitStart(hs1, from1, n - 1))
    ensures ElementIs(trace, item, a, b, hs[n], WaitStart(hs, from, n))
  {
    assert hs1[n - 1] == hs[n];
    if n > 1 {
      assert hs1[n - 2] == hs[n - 1];
    }
  }

  lemma TakesFirstNothingElse(c: Capture, c1: Capture, r: Option<Capture>)
    requires InGrid(c.row, c.col)
    requires forall a, b | InGrid(a, b) && (a, b) != (c.row, c.col) ::
               c1.item.matrix[a][b] == c.item.matrix[a][b] &&
               c1.item.preElementDelay[a][b] == c.item.preElementDelay[a][b]
    requires TakesNothingElse(c1.item, Done(c.row, c.col) + 1, r)
    ensures TakesNothingElse(c.item, Done(c.row, c.col), r)
  {
  }

  /** Collecting element (row, col) takes the first handshake; the rest of the loop takes
      the following ones. */
  lemma ElementStep(trace: seq<MonitorSample>, c: Capture, c1: Capture)
    requires InGrid(c.row, c.col) && c.next <= |trace|
    requires CaptureElement(trace, c) == Some(c1) && TakesHandshakes(trace, c1)
    ensures TakesHandshakes(trace, c)
  {
    CaptureElementFacts(trace, c);
    var hs := Handshakes(trace, c.next);
    var r := CaptureFrom(trace, c1);
    assert CaptureFrom(trace, c) == r;
    TakesFirst(trace, c, c1, r, hs, Done(c1.row, c1.col), Handshakes(trace, c1.next));
  }

  /** Every state of the collection loop takes the handshakes in order. */
  lemma {:induction false} CaptureFromFacts(trace: seq<MonitorSample>, c: Capture)
    requires ScanPosition(c.row, c.col) && c.next <= |trace|
    ensures TakesHandshakes(trace, c)
    decreases MatMatrixSize - c.row, MatMatrixSize - c.col
  {
    if c.row == MatMatrixSize {
    } else if c.col == MatMatrixSize {
      CaptureFromFacts(trace, c.(row := c.row + 1, col := 0));
      RowEndStep(trace, c);
    } else {
      var e := CaptureElement(trace, c);
      if e.Some? {
        CaptureFromFacts(trace, e.value);
        ElementStep(trace, c, e.value);
      } else {
        CaptureElementFacts(trace, c);
      }
    }
  }

  /** The capture of one item from p: it succeeds exactly when nine handshakes follow;
      element (a, b) then holds the sign-extended `mat_in` of handshake number 3a + b and,
      as pre-delay, the number of edges the monitor waited for it; the next wait starts
      one past the ninth handshake. */
  lemma ItemCaptured(trace: seq<MonitorSample>, p: nat)
    requires p <= |trace|
    ensures var r := ItemAt(trace, p); var hs := Handshakes(trace, p);
      && (r.Some? <==> ElementsPerItem <= |hs|)
      && (r.Some? ==> r.value.next == hs[ElementsPerItem - 1] + 1)
      && (r.Some? ==> forall a, b | InGrid(a, b) ::
                        ElementIs(trace, r.value.item, a, b, hs[Done(a, b)], WaitStart(hs, p, Done(a, b))))
  {
    CaptureFromFacts(trace, Capture(NewMatrixItem(), 0, 0, p));
  }

  /** No handshake happens while the monitor waits for one: every sample from the start of
      the n-th wait up to the n-th handshake lacks request or valid. */
  lemma WaitIsIdle(trace: seq<MonitorSample>, p: nat, n: nat)
    requires p <= |trace| && n < |Handshakes(trace, p)|
    ensures var hs := Handshakes(trace, p);
      forall t | WaitStart(hs, p, n) <= t < hs[n] :: !Accepted(trace[t])
  {
    var hs := Handshakes(trace, p);
    HandshakesExact(trace, p);
    forall t | WaitStart(hs, p, n) <= t < hs[n]
      ensures !Accepted(trace[t])
    {
      forall m | 0 <= m < |hs|
        ensures hs[m] != t
      {
        if m < n {
          assert hs[m] <= hs[n - 1];
        }
      }
    }
  }

  /** Every published item consumed at least nine samples. */
  lemma {:induction false} PublishedBound(trace: seq<MonitorSample>, p: nat)
    requires p <= |trace|
    ensures ElementsPerItem * |Published(trace, p)| <= |trace| - p
    decreases |trace| - p
  {
    match ItemAt(trace, p)
    case None =>
    case Some(c) =>
      PublishedBound(trace, NextRise(trace, c.next));
  }

  /** The monitor: whether the initial reset has been seen. */
  class MatrixMonitor {
    var hasInitReset: bool

    constructor ()
      ensures !hasInitReset
    {
      hasInitReset := false;
    }

    /** `reset_local_variables`: the initial reset has now been seen, whatever the flag
        was before; calling it again changes nothing. */
    method ResetLocalVariables()
      modifies this
      ensures hasInitReset
    {
      if !hasInitReset {
        hasInitReset := true;
      }
    }

    /** One element of the capture loop: await an edge, then wait for the handshake,
        counting the extra edges. */
    method CollectElement(trace: seq<MonitorSample>, collected: MatrixItem, i: nat, j: nat, next: nat)
      returns (found: bool, item: MatrixItem, after: nat)
      requires InGrid(i, j) && next <= |trace|
      ensures (if found then Some(Capture(item, i, j + 1, after)) else None)
              == CaptureElement(trace, Capture(collected, i, j, next))
    {
      found, item, after := false, collected, next;
      if next == |trace| {
        return;
      }
      var preDelay := 0;
      var q := next;
      while !(trace[q].matRequest && trace[q].matValid)
        invariant next <= q < |trace|
        invariant preDelay == q - next
        invariant FirstAccepted(trace, q) == FirstAccepted(trace, next)
        decreases |trace| - q
      {
        if q + 1 == |trace| {
          return;
        }
        q := q + 1;
        preDelay := preDelay + 1;
      }
      item := item.(preElementDelay := SetCell(item.preElementDelay, i, j, preDelay));
      var rawValue: int := trace[q].matIn;
      var signedValue := if rawValue > 32767 then rawValue - 65536 else rawValue;
      item := item.(matrix := SetCell(item.matrix, i, j, signedValue));
      found, after := true, q + 1;
    }

    /** The nine-element capture loop of `monitor_valid_item` from position p: found
        tells whether the trace held the whole item, next is where the following wait
        starts. */
    method CollectItem(trace: seq<MonitorSample>, p: nat) returns (found: bool, item: MatrixItem, next: nat)
      requires p <= |trace|
      ensures found <==> ItemAt(trace, p).Some?
      ensures found ==> item == ItemAt(trace, p).value.item && next == ItemAt(trace, p).value.next
    {
      item := NewMatrixItem();
      next := p;
      for i := 0 to MatMatrixSize
        invariant p <= next <= |trace|
        invariant CaptureFrom(trace, Capture(item, i, 0, next)) == ItemAt(trace, p)
      {
        for j := 0 to MatMatrixSize
          invariant p <= next <= |trace|
          invariant CaptureFrom(trace, Capture(item, i, j, next)) == ItemAt(trace, p)
        {
          found, item, next := CollectElement(trace, item, i, j, next);
          if !found {
            return;
          }
        }
      }
      found := true;
    }

    /** One round of `monitor_valid_item` from position p: collect an item and, when it
        is complete, wait for the next rising edge of `mat_request`. The items published
        from p are this one followed by those from the rising edge. */
    method MonitorRound(trace: seq<MonitorSample>, p: nat) returns (found: bool, item: MatrixItem, rise: nat)
      requires p <= |trace|
      ensures found ==> p < rise <= |trace|
      ensures !found ==> Published(trace, p) == []
      ensures found ==> Published(trace, p) == [item] + Published(trace, rise)
    {
      var next;
      found, item, next := CollectItem(trace, p);
      if !found {
        rise := p;
        return;
      }
      PublishedStep(trace, p, ItemAt(trace, p).value);
      rise := NextRise(trace, next);
    }

    /** `monitor_valid_item` from position p: collect an item, publish it, wait for the
        next rising edge of `mat_request`, and repeat until the trace runs out. */
    method MonitorValidItems(trace: seq<MonitorSample>, p: nat) returns (published: seq<MatrixItem>)
      requires p <= |trace|
      ensures published == Published(trace, p)
    {
      published := [];
      var start := p;
      while true
        invariant p <= start <= |trace|
        invariant published + Published(trace, start) == Published(trace, p)
        decreases |trace| - start
      {
        var found, item, rise := MonitorRound(trace, start);
        if !found {
          AppendNothing(published, Published(trace, start), Published(trace, p));
          return;
        }
        AppendNext(published, item, Published(trace, rise), Published(trace, start), Published(trace, p));
        published := published + [item];
        start := rise;
      }
    }
  }
}
