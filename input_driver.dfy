/** The driver of the matrix input bus. Each item is put on the bus element by element
    in row-major order: an optional run of idle cycles (the pre-element delay), one
    cycle with `mat_valid` high and the masked value on `mat_in`, then a wait for the
    DUT's `mat_request`. `rst_n` is sampled at four checkpoints and a low value aborts
    the drive.

    Timing is modelled on a finite trace of what the driver samples at successive
    rising clock edges: the k-th `await RisingEdge(clk)` of a drive records the bus
    state in force at edge k (the k-th entry of the edge record) and makes sample k
    the current one. A drive that would await past the end of the trace stops as
    Incomplete. */
module InputDriver {
  import opened MatrixDetTypes
  import opened MatrixDetItems
  import opened Bus

  /** The configured idle-data policy. Any configured name other than the two special
      ones drives zeros, which `Zero` stands for. */
  datatype IdleData = HighImpedance | Unknown | Zero

  /** What `mat_in` carries when no element is driven: the simulator offers no high
      impedance, so that policy drives 0 as well; only Unknown drives the pattern 0xAAAA. */
  function IdleValue(idle: IdleData): (r: Word)
    ensures r == 0xAAAA <==> idle == Unknown
    ensures r == 0 <==> idle != Unknown
  {
    match idle
    case HighImpedance => 0
    case Unknown => 0xAAAA
    case Zero => 0
  }

  /** The two signals the driver writes. */
  datatype BusState = BusState(matValid: bool, matIn: Word)

  /** The bus between elements: valid low, idle data. */
  function IdleBus(idle: IdleData): BusState
  {
    BusState(false, IdleValue(idle))
  }

  /** The bus during the data phase of value v. */
  function DataBus(v: int): BusState
  {
    BusState(true, Mask16(v))
  }

  /** What the driver reads from the DUT at an edge. */
  datatype DriverSample = DriverSample(rstN: bool, matRequest: bool)

  /** How a drive ends. NoDut: no DUT handle was bound. Incomplete: the trace ended
      while the drive was still waiting for an edge. */
  datatype DriveOutcome = Completed | Aborted | NoDut | Incomplete

  /** A drive in progress (with the edges recorded so far and the bus now driven) or a
      stopped one. */
  datatype DriveState =
    | Running(edges: seq<BusState>, bus: BusState)
    | Stopped(outcome: DriveOutcome, edges: seq<BusState>, bus: BusState)

  /** A running drive has awaited at least one edge and no edge beyond the trace. */
  predicate Consistent(s: DriveState, trace: seq<DriverSample>)
  {
    s.Running? ==> 1 <= |s.edges| <= |trace|
  }

  /** The sample of the last edge awaited. */
  function Current(s: DriveState, trace: seq<DriverSample>): DriverSample
    requires s.Running? && Consistent(s, trace)
  {
    trace[|s.edges| - 1]
  }

  /** `await RisingEdge(clk)`: the current bus is recorded for the next edge; if the
      trace has no sample for that edge, the drive stops as Incomplete. */
  function Await(s: DriveState, trace: seq<DriverSample>): DriveState
    requires s.Running?
  {
    if |s.edges| < |trace| then Running(s.edges + [s.bus], s.bus)
    else Stopped(Incomplete, s.edges + [s.bus], s.bus)
  }

  /** A reset checkpoint that found `rst_n` low. */
  function Abort(s: DriveState): DriveState
  {
    Stopped(Aborted, s.edges, s.bus)
  }

  /** The pre-element delay loop: c cycles, each checking reset, driving the idle data
      and awaiting an edge. */
  function DelayCycles(s: DriveState, trace: seq<DriverSample>, idle: IdleData, c: int): (r: DriveState)
    requires Consistent(s, trace)
    ensures Consistent(r, trace)
    decreases c
  {
    if s.Stopped? || c <= 0 then s
    else if !Current(s, trace).rstN then Abort(s)
    else DelayCycles(Await(Running(s.edges, s.bus.(matIn := IdleValue(idle))), trace), trace, idle, c - 1)
  }

  /** The handshake loop: until `mat_request` is sampled high, check reset, drive
      `mat_valid` low with idle data and await an edge. */
  function Handshake(s: DriveState, trace: seq<DriverSample>, idle: IdleData): (r: DriveState)
    requires Consistent(s, trace)
    ensures Consistent(r, trace)
    decreases if s.Running? then |trace| - |s.edges| + 1 else 0
  {
    if s.Stopped? || Current(s, trace).matRequest then s
    else if !Current(s, trace).rstN then Abort(s)
    else Handshake(Await(Running(s.edges, IdleBus(idle)), trace), trace, idle)
  }

  /** The delay of an element: for d > 0, valid low and then the delay loop. */
  function DelayPhase(s: DriveState, trace: seq<DriverSample>, idle: IdleData, d: int): (r: DriveState)
    requires s.Running? && Consistent(s, trace)
    ensures Consistent(r, trace)
  {
    if d > 0 then DelayCycles(Running(s.edges, s.bus.(matValid := false)), trace, idle, d) else s
  }

  /** The rest of an element after its delay: reset check, the data phase and the
      handshake. */
  function DataPhase(s: DriveState, trace: seq<DriverSample>, idle: IdleData, v: int): (r: DriveState)
    requires Consistent(s, trace)
    ensures Consistent(r, trace)
  {
    if s.Stopped? then s
    else if !Current(s, trace).rstN then Abort(s)
    else Handshake(Await(Running(s.edges, DataBus(v)), trace), trace, idle)
  }

  /** One element: reset check, the delay (valid low first) when d > 0, reset check,
      the data phase, the handshake. */
  function DriveElement(s: DriveState, trace: seq<DriverSample>, idle: IdleData, v: int, d: int): (r: DriveState)
    requires Consistent(s, trace)
    ensures Consistent(r, trace)
  {
    if s.Stopped? then s
    else if !Current(s, trace).rstN then Abort(s)
    else DataPhase(DelayPhase(s, trace, idle, d), trace, idle, v)
  }

  /** The elements vs with delays ds, in order. */
  function DriveCells(s: DriveState, trace: seq<DriverSample>, idle: IdleData, vs: seq<int>, ds: seq<int>): (r: DriveState)
    requires Consistent(s, trace) && |vs| == |ds|
    ensures Consistent(r, trace)
    decreases |vs|
  {
    if vs == [] then s
    else DriveCells(DriveElement(s, trace, idle, vs[0], ds[0]), trace, idle, vs[1..], ds[1..])
  }

  /** `drive_matrix`: nothing without a DUT; otherwise one edge, the nine elements in
      row-major order, and on completion valid low with idle data. The previous bus
      state bus0 is what the first edge records. */
  function DriveSpec(bus0: BusState, dutBound: bool, idle: IdleData, item: MatrixItem, trace: seq<DriverSample>): (r: DriveState)
    ensures r.Stopped?
  {
    if !dutBound then Stopped(NoDut, [], bus0)
    else
      var r := DriveCells(Await(Running([], bus0), trace), trace, idle,
                          Cells(item.matrix), Cells(item.preElementDelay));
      if r.Running? then Stopped(Completed, r.edges, IdleBus(idle)) else r
  }

  /** The driver: the two bus signals it writes, its configuration, and the bookkeeping
      of `main_drive_loop` (whether the current item is finished, and how many times
      `item_done` was signalled). */
  class MatrixDriver {
    var matValid: bool
    var matIn: Word
    var idleData: IdleData
    var dutBound: bool
    var finishedItem: bool
    var itemDoneCount: nat

    /** A new driver: no DUT bound yet, high-impedance idle policy, no item finished;
        the bus starts low, as the test initialises it. */
    constructor ()
      ensures Bus() == BusState(false, 0)
      ensures Control() == (HighImpedance, false, false, 0)
    {
      matValid := false;
      matIn := 0;
      idleData := HighImpedance;
      dutBound := false;
      finishedItem := false;
      itemDoneCount := 0;
    }

    /** The signals now driven. */
    function Bus(): BusState
      reads this
    {
      BusState(matValid, matIn)
    }

    /** Everything but the bus. */
    function Control(): (IdleData, bool, bool, nat)
      reads this
    {
      (idleData, dutBound, finishedItem, itemDoneCount)
    }

    /** The state of a phase that has run: stopped with an outcome, or running on. */
    function PhaseState(stopped: bool, outcome: DriveOutcome, edges: seq<BusState>): DriveState
      reads this
    {
      if stopped then Stopped(outcome, edges, Bus()) else Running(edges, Bus())
    }

    /** The test binds the DUT handle. */
    method BindDut()
      modifies this
      ensures dutBound
      ensures Bus() == old(Bus())
      ensures (idleData, finishedItem, itemDoneCount) == (old(idleData), old(finishedItem), old(itemDoneCount))
    {
      dutBound := true;
    }

    /** `_drive_idle_data`: put the idle value of the configured policy on `mat_in`. */
    method DriveIdleData()
      modifies this
      ensures Bus() == old(Bus()).(matIn := IdleValue(idleData))
      ensures Control() == old(Control())
    {
      if idleData == HighImpedance {
        matIn := 0;
      } else if idleData == Unknown {
        matIn := 0xAAAA;
      } else {
        matIn := 0;
      }
    }

    /** `reset_interface_signals`: with a DUT bound, valid low and idle data. */
    method ResetInterfaceSignals()
      modifies this
      ensures Bus() == if dutBound then IdleBus(idleData) else old(Bus())
      ensures Control() == old(Control())
    {
      if dutBound {
        matValid := false;
        DriveIdleData();
      }
    }

    /** The reset task's response to a falling edge of `rst_n`: the interface is reset and
        an unfinished item is marked finished. */
    method OnResetAsserted()
      modifies this
      ensures Bus() == if dutBound then IdleBus(idleData) else old(Bus())
      ensures finishedItem
      ensures (idleData, dutBound, itemDoneCount) == (old(idleData), old(dutBound), old(itemDoneCount))
    {
      ResetInterfaceSignals();
      if !finishedItem {
        finishedItem := true;
      }
    }

    /** The delay loop of one element (d > 0 cycles), on the record edges0 so far. */
    method WaitDelay(d: int, trace: seq<DriverSample>, edges0: seq<BusState>)
      returns (stopped: bool, outcome: DriveOutcome, edges: seq<BusState>)
      requires d > 0 && 1 <= |edges0| <= |trace|
      modifies this
      ensures PhaseState(stopped, outcome, edges) == DelayCycles(Running(edges0, old(Bus())), trace, idleData, d)
      ensures Control() == old(Control())
    {
      stopped, outcome, edges := false, Completed, edges0;
      for delayCycle := 0 to d
        invariant 1 <= |edges| <= |trace|
        invariant Control() == old(Control())
        invariant DelayCycles(Running(edges, Bus()), trace, idleData, d - delayCycle)
                  == DelayCycles(Running(edges0, old(Bus())), trace, idleData, d)
      {
        if !trace[|edges| - 1].rstN {
          stopped, outcome := true, Aborted;
          return;
        }
        DriveIdleData();
        edges := edges + [Bus()];
        if |edges| > |trace| {
          stopped, outcome := true, Incomplete;
          return;
        }
      }
    }

    /** The handshake loop of one element, on the record edges0 so far. */
    method WaitHandshake(trace: seq<DriverSample>, edges0: seq<BusState>)
      returns (stopped: bool, outcome: DriveOutcome, edges: seq<BusState>)
      requires 1 <= |edges0| <= |trace|
      modifies this
      ensures PhaseState(stopped, outcome, edges) == Handshake(Running(edges0, old(Bus())), trace, idleData)
      ensures Control() == old(Control())
    {
      stopped, outcome, edges := false, Completed, edges0;
      while !trace[|edges| - 1].matRequest
        invariant 1 <= |edges| <= |trace|
        invariant Control() == old(Control())
        invariant Handshake(Running(edges, Bus()), trace, idleData)
                  == Handshake(Running(edges0, old(Bus())), trace, idleData)
        decreases |trace| - |edges|
      {
        if !trace[|edges| - 1].rstN {
          stopped, outcome := true, Aborted;
          return;
        }
        matValid := false;
        DriveIdleData();
        edges := edges + [Bus()];
        if |edges| > |trace| {
          stopped, outcome := true, Incomplete;
          return;
        }
      }
    }

    /** One element of `drive_matrix`: value v after delay d. */
    method DriveOneElement(v: int, d: int, trace: seq<DriverSample>, edges0: seq<BusState>)
      returns (stopped: bool, outcome: DriveOutcome, edges: seq<BusState>)
      requires 1 <= |edges0| <= |trace|
      modifies this
      ensures PhaseState(stopped, outcome, edges) == DriveElement(Running(edges0, old(Bus())), trace, idleData, v, d)
      ensures Control() == old(Control())
    {
      stopped, outcome, edges := false, Completed, edges0;
      if !trace[|edges| - 1].rstN {
        stopped, outcome := true, Aborted;
        return;
      }
      if d > 0 {
        matValid := false;
        stopped, outcome, edges := WaitDelay(d, trace, edges);
        if stopped {
          return;
        }
      }
      if !trace[|edges| - 1].rstN {
        stopped, outcome := true, Aborted;
        return;
      }
      matValid := true;
      matIn := Mask16(v);
      edges := edges + [Bus()];
      if |edges| > |trace| {
        stopped, outcome := true, Incomplete;
        return;
      }
      stopped, outcome, edges := WaitHandshake(trace, edges);
    }

    /** The nested loops of `drive_matrix` over the elements in row-major order, on the
        record edges0 so far. */
    method DriveElements(item: MatrixItem, trace: seq<DriverSample>, edges0: seq<BusState>)
      returns (stopped: bool, outcome: DriveOutcome, edges: seq<BusState>)
      requires 1 <= |edges0| <= |trace|
      modifies this
      ensures PhaseState(stopped, outcome, edges)
              == DriveCells(Running(edges0, old(Bus())), trace, idleData, Cells(item.matrix), Cells(item.preElementDelay))
      ensures Control() == old(Control())
    {
      ghost var vs, ds := Cells(item.matrix), Cells(item.preElementDelay);
      ghost var final := DriveCells(Running(edges0, Bus()), trace, idleData, vs, ds);
      stopped, outcome, edges := false, Completed, edges0;
      for i := 0 to MatMatrixSize
        invariant 1 <= |edges| <= |trace|
        invariant Control() == old(Control())
        invariant DriveCells(Running(edges, Bus()), trace, idleData, vs[3 * i..], ds[3 * i..]) == final
      {
        for j := 0 to MatMatrixSize
          invariant 1 <= |edges| <= |trace|
          invariant Control() == old(Control())
          invariant DriveCells(Running(edges, Bus()), trace, idleData, vs[3 * i + j..], ds[3 * i + j..]) == final
        {
          CellAt(item.matrix, i, j);
          CellAt(item.preElementDelay, i, j);
          CellsStep(Running(edges, Bus()), trace, idleData, vs, ds, 3 * i + j);
          stopped, outcome, edges := DriveOneElement(item.matrix[i][j], item.preElementDelay[i][j], trace, edges);
          if stopped {
            StoppedCells(PhaseState(stopped, outcome, edges), trace, idleData, vs[3 * i + j + 1..], ds[3 * i + j + 1..]);
            return;
          }
        }
      }
      assert vs[9..] == [];
    }

    /** `drive_matrix`: the drive of one item against the trace, returning how it ended
        and the bus state recorded at each edge awaited. */
    method DriveMatrix(item: MatrixItem, trace: seq<DriverSample>) returns (outcome: DriveOutcome, edges: seq<BusState>)
      modifies this
      ensures Stopped(outcome, edges, Bus()) == DriveSpec(old(Bus()), dutBound, idleData, item, trace)
      ensures Control() == old(Control())
    {
      if !dutBound {
        outcome, edges := NoDut, [];
        return;
      }
      edges := [Bus()];
      if |trace| == 0 {
        outcome := Incomplete;
        assert Await(Running([], Bus()), trace) == Stopped(outcome, edges, Bus());
        StoppedCells(Stopped(outcome, edges, Bus()), trace, idleData, Cells(item.matrix), Cells(item.preElementDelay));
        return;
      }
      assert Await(Running([], Bus()), trace) == Running(edges, Bus());
      var stopped;
      stopped, outcome, edges := DriveElements(item, trace, edges);
      if stopped {
        return;
      }
      matValid := false;
      DriveIdleData();
      outcome := Completed;
    }

    /** One pass of `main_drive_loop`: the item is marked unfinished, driven, and then
        a completed drive is marked finished and acknowledged with `item_done`, while a
        drive ended by reset is marked finished without `item_done`. A drive still
        waiting at the end of the trace stays unfinished. */
    method DriveItem(item: MatrixItem, trace: seq<DriverSample>) returns (outcome: DriveOutcome, edges: seq<BusState>)
      modifies this
      ensures Stopped(outcome, edges, Bus()) == DriveSpec(old(Bus()), dutBound, idleData, item, trace)
      ensures finishedItem <==> outcome != Incomplete
      ensures itemDoneCount == old(itemDoneCount) + if outcome in {Completed, NoDut} then 1 else 0
      ensures (idleData, dutBound) == (old(idleData), old(dutBound))
    {
      finishedItem := false;
      outcome, edges := DriveMatrix(item, trace);
      if outcome == Completed || outcome == NoDut {
        finishedItem := true;
        itemDoneCount := itemDoneCount + 1;
      } else if outcome == Aborted {
        if !finishedItem {
          finishedItem := true;
        }
      }
    }
  }

  // ----- waveforms -----

  /** n copies of one bus state. */
  function Repeat(b: BusState, n: nat): (r: seq<BusState>)
    ensures |r| == n
  {
    if n == 0 then [] else [b] + Repeat(b, n - 1)
  }

  /** The edges of one delivered element: the delay cycles, the data phase, and w
      cycles of handshake wait. */
  function Segment(idle: IdleData, v: int, d: int, w: nat): seq<BusState>
  {
    Repeat(IdleBus(idle), if d > 0 then d else 0) + [DataBus(v)] + Repeat(IdleBus(idle), w)
  }

  /** The edges of a run of delivered elements, with handshake waits ws. */
  function Waveform(idle: IdleData, vs: seq<int>, ds: seq<int>, ws: seq<nat>): seq<BusState>
    requires |vs| == |ds| == |ws|
    decreases |vs|
  {
    if vs == [] then [] else Segment(idle, vs[0], ds[0], ws[0]) + Waveform(idle, vs[1..], ds[1..], ws[1..])
  }

  /** The values carried by the edges with `mat_valid` high, in order. */
  function DataWords(edges: seq<BusState>): seq<Word>
  {
    if edges == [] then [] else (if edges[0].matValid then [edges[0].matIn] else []) + DataWords(edges[1..])
  }

  /** The masked values of a sequence. */
  function MaskAll(vs: seq<int>): (r: seq<Word>)
    ensures |r| == |vs|
  {
    if vs == [] then [] else [Mask16(vs[0])] + MaskAll(vs[1..])
  }

  /** The edges of a drive along which nothing goes wrong: the delay cycles plus one data
      phase per element. */
  function QuietLength(ds: seq<int>): nat
  {
    if ds == [] then 0 else (if ds[0] > 0 then ds[0] else 0) + 1 + QuietLength(ds[1..])
  }

  /** All waits zero. */
  function NoWaits(n: nat): (r: seq<nat>)
    ensures |r| == n
  {
    if n == 0 then [] else [0] + NoWaits(n - 1)
  }

  /** How a stopped drive ended: an abort reads `rst_n` low on the last edge it awaited;
      an incomplete one awaited the edge after the last sample. */
  predicate StopFacts(r: DriveState, trace: seq<DriverSample>)
  {
    r.Stopped? ==>
      (r.outcome == Aborted && 1 <= |r.edges| <= |trace| && !trace[|r.edges| - 1].rstN) ||
      (r.outcome == Incomplete && |r.edges| == |trace| + 1)
  }

  /** A trace along which the DUT is never in reset and always requests data. */
  predicate Quiet(trace: seq<DriverSample>)
  {
    forall k | 0 <= k < |trace| :: trace[k].rstN && trace[k].matRequest
  }

  // ----- waveform algebra -----

  /** Filtering the data phases distributes over concatenation. */
  lemma {:induction false} DataWordsAppend(a: seq<BusState>, b: seq<BusState>)
    ensures DataWords(a + b) == DataWords(a) + DataWords(b)
    decreases |a|
  {
    if a == [] {
      assert a + b == b;
    } else {
      assert (a + b)[1..] == a[1..] + b;
      DataWordsAppend(a[1..], b);
    }
  }

  /** Idle cycles carry no data. */
  lemma {:induction false} DataWordsIdle(idle: IdleData, n: nat)
    ensures DataWords(Repeat(IdleBus(idle), n)) == []
  {
    if n > 0 {
      DataWordsIdle(idle, n - 1);
    }
  }

  /** One delivered element carries exactly its masked value. */
  lemma DataWordsSegment(idle: IdleData, v: int, d: int, w: nat)
    ensures DataWords(Segment(idle, v, d, w)) == [Mask16(v)]
  {
    var delay := Repeat(IdleBus(idle), if d > 0 then d else 0);
    DataWordsAppend(delay + [DataBus(v)], Repeat(IdleBus(idle), w));
    DataWordsAppend(delay, [DataBus(v)]);
    DataWordsIdle(idle, if d > 0 then d else 0);
    DataWordsIdle(idle, w);
  }

  /** A run of delivered elements carries their masked values in order. */
  lemma {:induction false} DataWordsWaveform(idle: IdleData, vs: seq<int>, ds: seq<int>, ws: seq<nat>)
    requires |vs| == |ds| == |ws|
    ensures DataWords(Waveform(idle, vs, ds, ws)) == MaskAll(vs)
    decreases |vs|
  {
    if vs != [] {
      DataWordsAppend(Segment(idle, vs[0], ds[0], ws[0]), Waveform(idle, vs[1..], ds[1..], ws[1..]));
      DataWordsSegment(idle, vs[0], ds[0], ws[0]);
      DataWordsWaveform(idle, vs[1..], ds[1..], ws[1..]);
    }
  }

  /** Appending one more copy to a run of copies. */
  lemma RepeatSnoc(edges: seq<BusState>, b: BusState, n: nat)
    ensures edges + [b] + Repeat(b, n) == edges + Repeat(b, n + 1)
  {
    assert Repeat(b, n + 1) == [b] + Repeat(b, n);
  }

  // ----- the phases of one element -----

  /** The delay loop records only idle edges, at most c of them, and exactly c unless
      it stops; it stops only on a reset or at the end of the trace. */
  lemma {:induction false} DelayRun(s: DriveState, trace: seq<DriverSample>, idle: IdleData, c: int)
    requires s.Running? && Consistent(s, trace) && !s.bus.matValid
    ensures var r := DelayCycles(s, trace, idle, c);
      && |s.edges| <= |r.edges| <= |s.edges| + (if c > 0 then c else 0)
      && r.edges == s.edges + Repeat(IdleBus(idle), |r.edges| - |s.edges|)
      && StopFacts(r, trace)
      && (r.Running? ==> |r.edges| == |s.edges| + (if c > 0 then c else 0) && !r.bus.matValid)
      && (r.Running? && c > 0 ==> r.bus == IdleBus(idle))
    decreases c
  {
    if c > 0 && Current(s, trace).rstN {
      var s1 := Await(Running(s.edges, s.bus.(matIn := IdleValue(idle))), trace);
      assert s.bus.(matIn := IdleValue(idle)) == IdleBus(idle);
      if s1.Running? {
        DelayRun(s1, trace, idle, c - 1);
        var r := DelayCycles(s1, trace, idle, c - 1);
        RepeatSnoc(s.edges, IdleBus(idle), |r.edges| - |s1.edges|);
      } else {
        assert s1.edges == s.edges + Repeat(IdleBus(idle), 1);
      }
    } else {
      assert s.edges + Repeat(IdleBus(idle), 0) == s.edges;
    }
  }

  /** The handshake loop records only idle edges; it stops only on a reset or at the
      end of the trace, and otherwise ends on a sample with `mat_request` high. */
  lemma {:induction false} HandshakeRun(s: DriveState, trace: seq<DriverSample>, idle: IdleData)
    requires s.Running? && Consistent(s, trace)
    ensures var r := Handshake(s, trace, idle);
      && |s.edges| <= |r.edges|
      && r.edges == s.edges + Repeat(IdleBus(idle), |r.edges| - |s.edges|)
      && StopFacts(r, trace)
      && (r.Running? ==> Current(r, trace).matRequest)
      && (Current(s, trace).matRequest ==> r == s)
    decreases |trace| - |s.edges|
  {
    if !Current(s, trace).matRequest && Current(s, trace).rstN {
      var s1 := Await(Running(s.edges, IdleBus(idle)), trace);
      if s1.Running? {
        HandshakeRun(s1, trace, idle);
        var r := Handshake(s1, trace, idle);
        RepeatSnoc(s.edges, IdleBus(idle), |r.edges| - |s1.edges|);
      } else {
        assert s1.edges == s.edges + Repeat(IdleBus(idle), 1);
      }
    } else {
      assert s.edges + Repeat(IdleBus(idle), 0) == s.edges;
    }
  }

  /** The data phase and the handshake after it: the data edge is always recorded,
      followed by idle edges only. */
  lemma DataPhaseRun(s: DriveState, trace: seq<DriverSample>, idle: IdleData, v: int)
    requires s.Running? && Consistent(s, trace)
    ensures var r := Handshake(Await(Running(s.edges, DataBus(v)), trace), trace, idle);
      && |s.edges| < |r.edges|
      && r.edges == s.edges + [DataBus(v)] + Repeat(IdleBus(idle), |r.edges| - |s.edges| - 1)
      && StopFacts(r, trace)
  {
    var s2 := Await(Running(s.edges, DataBus(v)), trace);
    if s2.Running? {
      HandshakeRun(s2, trace, idle);
    } else {
      assert s2.edges == s.edges + [DataBus(v)] + Repeat(IdleBus(idle), 0);
    }
  }

  /** The edges an element records after the delay loop's k idle edges, as a segment. */
  lemma SegmentOf(prefix: seq<BusState>, idle: IdleData, v: int, d: int, w: nat)
    ensures prefix + Repeat(IdleBus(idle), if d > 0 then d else 0) + [DataBus(v)] + Repeat(IdleBus(idle), w)
            == prefix + Segment(idle, v, d, w)
    ensures DataWords(Segment(idle, v, d, w)) == [Mask16(v)]
  {
    DataWordsSegment(idle, v, d, w);
  }

  /** The delay of an element records only idle edges, exactly max(d, 0) of them unless
      it stops. */
  lemma DelayPhaseRun(s: DriveState, trace: seq<DriverSample>, idle: IdleData, d: int)
    requires s.Running? && Consistent(s, trace)
    ensures var r := DelayPhase(s, trace, idle, d);
      && |s.edges| <= |r.edges| <= |s.edges| + (if d > 0 then d else 0)
      && r.edges == s.edges + Repeat(IdleBus(idle), |r.edges| - |s.edges|)
      && StopFacts(r, trace)
      && (r.Running? ==> |r.edges| == |s.edges| + (if d > 0 then d else 0))
  {
    if d > 0 {
      DelayRun(Running(s.edges, s.bus.(matValid := false)), trace, idle, d);
    } else {
      assert s.edges == s.edges + Repeat(IdleBus(idle), 0);
    }
  }

  /** After k idle edges of delay on top of the record e0, the rest of the element either
      completes the segment, with a handshake wait of w edges, or stops having driven at
      most the element's value. */
  lemma DataPhaseAfterDelay(e0: seq<BusState>, s: DriveState, trace: seq<DriverSample>, idle: IdleData, v: int, d: int)
    returns (w: nat)
    requires Consistent(s, trace) && StopFacts(s, trace)
    requires |e0| <= |s.edges| && s.edges == e0 + Repeat(IdleBus(idle), |s.edges| - |e0|)
    requires s.Running? ==> |s.edges| == |e0| + (if d > 0 then d else 0)
    ensures var r := DataPhase(s, trace, idle, v);
      && e0 <= r.edges
      && StopFacts(r, trace)
      && (r.Stopped? ==> DataWords(r.edges[|e0|..]) <= [Mask16(v)])
      && (r.Running? ==> r.edges == e0 + Segment(idle, v, d, w))
  {
    if s.Running? && Current(s, trace).rstN {
      w := DataPhaseDelivered(e0, s, trace, idle, v, d);
      var r := DataPhase(s, trace, idle, v);
      assert r.edges[|e0|..] == Segment(idle, v, d, w);
      DataWordsSegment(idle, v, d, w);
    } else {
      w := 0;
      DataPhaseSkipped(e0, s, trace, idle, v);
    }
  }

  /** The data phase proper: whatever happens next, the record grows by a whole segment
      whose handshake wait is w edges. */
  lemma DataPhaseDelivered(e0: seq<BusState>, s: DriveState, trace: seq<DriverSample>, idle: IdleData, v: int, d: int)
    returns (w: nat)
    requires s.Running? && Consistent(s, trace) && Current(s, trace).rstN
    requires s.edges == e0 + Repeat(IdleBus(idle), if d > 0 then d else 0)
    ensures var r := DataPhase(s, trace, idle, v);
      r.edges == e0 + Segment(idle, v, d, w) && StopFacts(r, trace)
  {
    DataPhaseRun(s, trace, idle, v);
    var r := DataPhase(s, trace, idle, v);
    w := |r.edges| - |s.edges| - 1;
    SegmentOf(e0, idle, v, d, w);
  }

  /** A delay that stopped, or a reset seen after it: no data phase is driven. */
  lemma DataPhaseSkipped(e0: seq<BusState>, s: DriveState, trace: seq<DriverSample>, idle: IdleData, v: int)
    requires Consistent(s, trace) && StopFacts(s, trace)
    requires s.Stopped? || !Current(s, trace).rstN
    requires |e0| <= |s.edges| && s.edges == e0 + Repeat(IdleBus(idle), |s.edges| - |e0|)
    ensures var r := DataPhase(s, trace, idle, v);
      && e0 <= r.edges && r.Stopped? && StopFacts(r, trace)
      && DataWords(r.edges[|e0|..]) == []
  {
    var k := |s.edges| - |e0|;
    DataWordsIdle(idle, k);
    assert s.edges[|e0|..] == Repeat(IdleBus(idle), k);
  }

  /** One element either is delivered as a segment (delay, data phase, handshake wait
      of w edges) or stops, having driven at most its own value. */
  lemma ElementRun(s: DriveState, trace: seq<DriverSample>, idle: IdleData, v: int, d: int) returns (w: nat)
    requires s.Running? && Consistent(s, trace)
    ensures var r := DriveElement(s, trace, idle, v, d);
      && s.edges <= r.edges
      && StopFacts(r, trace)
      && (r.Stopped? ==> DataWords(r.edges[|s.edges|..]) <= [Mask16(v)])
      && (r.Running? ==> r.edges == s.edges + Segment(idle, v, d, w))
  {
    w := 0;
    if Current(s, trace).rstN {
      DelayPhaseRun(s, trace, idle, d);
      w := DataPhaseAfterDelay(s.edges, DelayPhase(s, trace, idle, d), trace, idle, v, d);
    } else {
      assert s.edges[|s.edges|..] == [];
    }
  }

  /** Once stopped, a drive stays stopped. */
  lemma {:induction false} StoppedCells(s: DriveState, trace: seq<DriverSample>, idle: IdleData, vs: seq<int>, ds: seq<int>)
    requires s.Stopped? && |vs| == |ds|
    ensures DriveCells(s, trace, idle, vs, ds) == s
    decreases |vs|
  {
    if vs != [] {
      StoppedCells(s, trace, idle, vs[1..], ds[1..]);
    }
  }

  /** Driving the elements from index k on is driving element k, then the rest. */
  lemma CellsStep(s: DriveState, trace: seq<DriverSample>, idle: IdleData, vs: seq<int>, ds: seq<int>, k: nat)
    requires Consistent(s, trace) && |vs| == |ds| && k < |vs|
    ensures DriveCells(s, trace, idle, vs[k..], ds[k..])
            == DriveCells(DriveElement(s, trace, idle, vs[k], ds[k]), trace, idle, vs[k + 1..], ds[k + 1..])
  {
    assert vs[k..][1..] == vs[k + 1..] && ds[k..][1..] == ds[k + 1..];
  }

  /** A run of elements stops only on a reset or at the end of the trace, having driven
      a prefix of its masked values. */
  lemma {:induction false} CellsRun(s: DriveState, trace: seq<DriverSample>, idle: IdleData, vs: seq<int>, ds: seq<int>)
    requires s.Running? && Consistent(s, trace) && |vs| == |ds|
    ensures var r := DriveCells(s, trace, idle, vs, ds);
      && s.edges <= r.edges
      && StopFacts(r, trace)
      && DataWords(r.edges[|s.edges|..]) <= MaskAll(vs)
    decreases |vs|
  {
    var r := DriveCells(s, trace, idle, vs, ds);
    if vs == [] {
      assert r.edges[|s.edges|..] == [];
    } else {
      var s1 := DriveElement(s, trace, idle, vs[0], ds[0]);
      var w := ElementRun(s, trace, idle, vs[0], ds[0]);
      if s1.Stopped? {
        StoppedCells(s1, trace, idle, vs[1..], ds[1..]);
        PrefixCons(Mask16(vs[0]), [], MaskAll(vs[1..]));
      } else {
        CellsRun(s1, trace, idle, vs[1..], ds[1..]);
        var rest := r.edges[|s1.edges|..];
        assert r.edges[|s.edges|..] == Segment(idle, vs[0], ds[0], w) + rest;
        DataWordsAppend(Segment(idle, vs[0], ds[0], w), rest);
        DataWordsSegment(idle, vs[0], ds[0], w);
        PrefixCons(Mask16(vs[0]), DataWords(rest), MaskAll(vs[1..]));
      }
    }
  }

  /** Prefixes are kept by putting the same element in front. */
  lemma PrefixCons(x: Word, a: seq<Word>, b: seq<Word>)
    requires a <= b
    ensures [x] + a <= [x] + b
  {
  }

  /** A run of elements that does not stop is delivered as a waveform with handshake
      waits ws. */
  lemma {:induction false} CellsWaveform(s: DriveState, trace: seq<DriverSample>, idle: IdleData, vs: seq<int>, ds: seq<int>)
    returns (ws: seq<nat>)
    requires s.Running? && Consistent(s, trace) && |vs| == |ds|
    requires DriveCells(s, trace, idle, vs, ds).Running?
    ensures |ws| == |vs| && DriveCells(s, trace, idle, vs, ds).edges == s.edges + Waveform(idle, vs, ds, ws)
    decreases |vs|
  {
    var r := DriveCells(s, trace, idle, vs, ds);
    if vs == [] {
      ws := [];
      assert r.edges == s.edges + Waveform(idle, vs, ds, []);
    } else {
      var s1 := DriveElement(s, trace, idle, vs[0], ds[0]);
      var w := ElementRun(s, trace, idle, vs[0], ds[0]);
      if s1.Stopped? {
        StoppedCells(s1, trace, idle, vs[1..], ds[1..]);
        assert false;
      } else {
        var rest := CellsWaveform(s1, trace, idle, vs[1..], ds[1..]);
        WaveformCons(s.edges, s1.edges, r.edges, idle, vs, ds, w, rest);
        ws := [w] + rest;
      }
    }
  }

  /** A segment followed by a waveform is the longer waveform. */
  lemma WaveformCons(e0: seq<BusState>, e1: seq<BusState>, e2: seq<BusState>,
                     idle: IdleData, vs: seq<int>, ds: seq<int>, w: nat, ws: seq<nat>)
    requires |vs| == |ds| == |ws| + 1
    requires e1 == e0 + Segment(idle, vs[0], ds[0], w)
    requires e2 == e1 + Waveform(idle, vs[1..], ds[1..], ws)
    ensures e2 == e0 + Waveform(idle, vs, ds, [w] + ws)
  {
    assert ([w] + ws)[1..] == ws;
  }

  // ----- the reset checks -----

  /** Every sample the drive has moved past read `rst_n` high: a reset check precedes
      each await after the first, so only the sample of the last edge can be unchecked. */
  predicate ChecksPassed(s: DriveState, trace: seq<DriverSample>)
  {
    |s.edges| <= |trace| + 1 && forall k | 0 <= k < |s.edges| - 1 :: trace[k].rstN
  }

  /** An await after a passed reset check keeps every earlier sample checked. */
  lemma AwaitChecked(s: DriveState, trace: seq<DriverSample>, b: BusState)
    requires s.Running? && Consistent(s, trace) && ChecksPassed(s, trace) && Current(s, trace).rstN
    ensures ChecksPassed(Await(Running(s.edges, b), trace), trace)
  {
    var r := Await(Running(s.edges, b), trace);
    forall k | 0 <= k < |r.edges| - 1
      ensures trace[k].rstN
    {
      if k == |s.edges| - 1 {
        assert trace[k] == Current(s, trace);
      }
    }
  }

  /** The delay loop checks reset before each of its awaits. */
  lemma {:induction false} DelayChecked(s: DriveState, trace: seq<DriverSample>, idle: IdleData, c: int)
    requires Consistent(s, trace) && ChecksPassed(s, trace)
    ensures ChecksPassed(DelayCycles(s, trace, idle, c), trace)
    decreases c
  {
    if s.Running? && c > 0 && Current(s, trace).rstN {
      AwaitChecked(s, trace, s.bus.(matIn := IdleValue(idle)));
      DelayChecked(Await(Running(s.edges, s.bus.(matIn := IdleValue(idle))), trace), trace, idle, c - 1);
    }
  }

  /** The handshake loop checks reset before each of its awaits. */
  lemma {:induction false} HandshakeChecked(s: DriveState, trace: seq<DriverSample>, idle: IdleData)
    requires Consistent(s, trace) && ChecksPassed(s, trace)
    ensures ChecksPassed(Handshake(s, trace, idle), trace)
    decreases if s.Running? then |trace| - |s.edges| + 1 else 0
  {
    if s.Running? && !Current(s, trace).matRequest && Current(s, trace).rstN {
      AwaitChecked(s, trace, IdleBus(idle));
      HandshakeChecked(Await(Running(s.edges, IdleBus(idle)), trace), trace, idle);
    }
  }

  /** One element checks reset before its delay, before its data phase and in its
      handshake wait. */
  lemma ElementChecked(s: DriveState, trace: seq<DriverSample>, idle: IdleData, v: int, d: int)
    requires Consistent(s, trace) && ChecksPassed(s, trace)
    ensures ChecksPassed(DriveElement(s, trace, idle, v, d), trace)
  {
    if s.Running? && Current(s, trace).rstN {
      if d > 0 {
        DelayChecked(Running(s.edges, s.bus.(matValid := false)), trace, idle, d);
      }
      var s1 := DelayPhase(s, trace, idle, d);
      if s1.Running? && Current(s1, trace).rstN {
        AwaitChecked(s1, trace, DataBus(v));
        HandshakeChecked(Await(Running(s1.edges, DataBus(v)), trace), trace, idle);
      }
    }
  }

  /** A run of elements keeps every sample it moves past checked. */
  lemma {:induction false} CellsChecked(s: DriveState, trace: seq<DriverSample>, idle: IdleData, vs: seq<int>, ds: seq<int>)
    requires Consistent(s, trace) && ChecksPassed(s, trace) && |vs| == |ds|
    ensures ChecksPassed(DriveCells(s, trace, idle, vs, ds), trace)
    decreases |vs|
  {
    if vs != [] {
      ElementChecked(s, trace, idle, vs[0], ds[0]);
      CellsChecked(DriveElement(s, trace, idle, vs[0], ds[0]), trace, idle, vs[1..], ds[1..]);
    }
  }

  // ----- properties of a drive -----

  /** The outcomes: NoDut exactly when no DUT is bound; an abort reads `rst_n` low on the
      last edge it awaited; an incomplete drive ran off the end of the trace; a completed
      one stayed within it. */
  lemma DriveOutcomes(bus0: BusState, dutBound: bool, idle: IdleData, item: MatrixItem, trace: seq<DriverSample>)
    ensures var r := DriveSpec(bus0, dutBound, idle, item, trace);
      && (r.outcome == NoDut <==> !dutBound)
      && (r.outcome == Aborted ==> 1 <= |r.edges| <= |trace| && !trace[|r.edges| - 1].rstN)
      && (r.outcome == Incomplete ==> |r.edges| == |trace| + 1)
      && (r.outcome == Completed ==> 1 <= |r.edges| <= |trace|)
  {
    if dutBound {
      var s := Await(Running([], bus0), trace);
      if s.Running? {
        CellsRun(s, trace, idle, Cells(item.matrix), Cells(item.preElementDelay));
      } else {
        StoppedCells(s, trace, idle, Cells(item.matrix), Cells(item.preElementDelay));
      }
    }
  }

  /** Without a reset sample anywhere in the trace, a drive never aborts. */
  lemma NoResetNoAbort(bus0: BusState, dutBound: bool, idle: IdleData, item: MatrixItem, trace: seq<DriverSample>)
    requires forall k | 0 <= k < |trace| :: trace[k].rstN
    ensures DriveSpec(bus0, dutBound, idle, item, trace).outcome != Aborted
  {
    DriveOutcomes(bus0, dutBound, idle, item, trace);
  }

  /** Every sample before the last edge of a drive read `rst_n` high: a drive never moves
      past a reset check that failed. With the abort conjunct of DriveOutcomes, an abort
      happens at the first low `rst_n` the drive samples. */
  lemma ResetChecksPassed(bus0: BusState, dutBound: bool, idle: IdleData, item: MatrixItem, trace: seq<DriverSample>)
    ensures var r := DriveSpec(bus0, dutBound, idle, item, trace);
      |r.edges| <= |trace| + 1 && forall k | 0 <= k < |r.edges| - 1 :: trace[k].rstN
  {
    if dutBound {
      var s := Await(Running([], bus0), trace);
      CellsChecked(s, trace, idle, Cells(item.matrix), Cells(item.preElementDelay));
    }
  }

  /** A sample with `rst_n` low at edge t ends the drive by that edge: it is not
      Incomplete, it awaits at most t + 1 edges, and an abort reads the first low
      sample of the trace. */
  lemma ResetStopsDrive(bus0: BusState, dutBound: bool, idle: IdleData, item: MatrixItem,
                        trace: seq<DriverSample>, t: nat)
    requires t < |trace| && !trace[t].rstN
    ensures var r := DriveSpec(bus0, dutBound, idle, item, trace);
      && |r.edges| <= t + 1
      && r.outcome != Incomplete
      && (r.outcome == Aborted ==>
            1 <= |r.edges| && !trace[|r.edges| - 1].rstN &&
            forall k | 0 <= k < |r.edges| - 1 :: trace[k].rstN)
  {
    ResetChecksPassed(bus0, dutBound, idle, item, trace);
    DriveOutcomes(bus0, dutBound, idle, item, trace);
  }

  /** A reset sampled while element [1][1] is pending: with no delays and `mat_request`
      always high, elements [0][0] to [1][0] are driven and the drive aborts at the
      fifth edge. */
  lemma ResetAtCenterElement()
    ensures var trace := [DriverSample(true, true), DriverSample(true, true), DriverSample(true, true),
                          DriverSample(true, true), DriverSample(false, true)];
      var r := DriveSpec(BusState(false, 0), true, Zero,
                         MatrixItem([[1, 2, 3], [4, 5, 6], [7, 8, 9]], ZeroGrid()), trace);
      r.outcome == Aborted &&
      r.edges == [BusState(false, 0), DataBus(1), DataBus(2), DataBus(3), DataBus(4)]
  {
  }

  /** Whatever the outcome, the data phases driven after the first edge are a prefix of
      the masked elements in row-major order: no element is skipped, repeated or driven
      after an abort. */
  lemma DrivenPrefix(bus0: BusState, dutBound: bool, idle: IdleData, item: MatrixItem, trace: seq<DriverSample>)
    ensures var r := DriveSpec(bus0, dutBound, idle, item, trace);
      r.outcome != NoDut ==>
        1 <= |r.edges| && r.edges[0] == bus0 && DataWords(r.edges[1..]) <= MaskAll(Cells(item.matrix))
  {
    if dutBound {
      var s := Await(Running([], bus0), trace);
      if s.Running? {
        CellsRun(s, trace, idle, Cells(item.matrix), Cells(item.preElementDelay));
      } else {
        StoppedCells(s, trace, idle, Cells(item.matrix), Cells(item.preElementDelay));
        assert s.edges[1..] == [];
      }
    }
  }

  /** A completed drive presents all nine elements in row-major order, each after exactly
      its pre-element delay of idle edges (none for a delay of 0) and followed by its
      handshake wait, and leaves the bus idle. */
  lemma DriveCompleted(bus0: BusState, idle: IdleData, item: MatrixItem, trace: seq<DriverSample>)
    ensures var r := DriveSpec(bus0, true, idle, item, trace);
      r.outcome == Completed ==>
        && r.bus == IdleBus(idle)
        && (exists ws: seq<nat> :: |ws| == |Cells(item.matrix)| &&
              r.edges == [bus0] + Waveform(idle, Cells(item.matrix), Cells(item.preElementDelay), ws))
        && DataWords(r.edges[1..]) == MaskAll(Cells(item.matrix))
  {
    var s := Await(Running([], bus0), trace);
    var vs, ds := Cells(item.matrix), Cells(item.preElementDelay);
    var r := DriveCells(s, trace, idle, vs, ds);
    if s.Running? {
      CellsRun(s, trace, idle, vs, ds);
      if r.Running? {
        var ws := CellsWaveform(s, trace, idle, vs, ds);
        assert r.edges[1..] == Waveform(idle, vs, ds, ws);
        DataWordsWaveform(idle, vs, ds, ws);
      }
    } else {
      StoppedCells(s, trace, idle, vs, ds);
    }
  }

  // ----- a quiet DUT -----

  /** Against a quiet DUT an element is delivered with no handshake wait exactly when the
      trace has room for its delay and data phase. */
  lemma QuietElement(s: DriveState, trace: seq<DriverSample>, idle: IdleData, v: int, d: int)
    requires s.Running? && Consistent(s, trace) && Quiet(trace)
    ensures var r := DriveElement(s, trace, idle, v, d);
      && (r.Running? <==> |s.edges| + (if d > 0 then d else 0) + 1 <= |trace|)
      && (r.Running? ==> r.edges == s.edges + Segment(idle, v, d, 0))
      && (r.Stopped? ==> r.outcome == Incomplete)
  {
    var s1 := DelayPhase(s, trace, idle, d);
    if d > 0 {
      DelayRun(Running(s.edges, s.bus.(matValid := false)), trace, idle, d);
    }
    if s1.Running? {
      var s2 := Await(Running(s1.edges, DataBus(v)), trace);
      if s2.Running? {
        HandshakeRun(s2, trace, idle);
        assert s1.edges == s.edges + Repeat(IdleBus(idle), if d > 0 then d else 0);
        assert s2.edges == s.edges + Segment(idle, v, d, 0);
      }
    }
  }

  /** Against a quiet DUT a run of elements is delivered with no handshake waits exactly
      when the trace has room for it, and otherwise runs off the end of the trace. */
  lemma {:induction false} QuietCells(s: DriveState, trace: seq<DriverSample>, idle: IdleData, vs: seq<int>, ds: seq<int>)
    requires s.Running? && Consistent(s, trace) && Quiet(trace) && |vs| == |ds|
    ensures var r := DriveCells(s, trace, idle, vs, ds);
      && (r.Running? <==> |s.edges| + QuietLength(ds) <= |trace|)
      && (r.Running? ==> r.edges == s.edges + Waveform(idle, vs, ds, NoWaits(|vs|)))
      && (r.Stopped? ==> r.outcome == Incomplete)
    decreases |vs|
  {
    if vs == [] {
      assert s.edges + Waveform(idle, vs, ds, NoWaits(0)) == s.edges;
    } else {
      var s1 := DriveElement(s, trace, idle, vs[0], ds[0]);
      QuietElement(s, trace, idle, vs[0], ds[0]);
      if s1.Stopped? {
        StoppedCells(s1, trace, idle, vs[1..], ds[1..]);
      } else {
        QuietCells(s1, trace, idle, vs[1..], ds[1..]);
        var r := DriveCells(s1, trace, idle, vs[1..], ds[1..]);
        if r.Running? {
          WaveformCons(s.edges, s1.edges, r.edges, idle, vs, ds, 0, NoWaits(|vs| - 1));
        }
      }
    }
  }

  /** Against a quiet DUT a drive completes exactly when the trace holds the first edge,
      every delay cycle and the nine data phases; otherwise it is still incomplete at the
      end of the trace. The waveform then has no handshake waits. */
  lemma QuietDrive(bus0: BusState, idle: IdleData, item: MatrixItem, trace: seq<DriverSample>)
    requires Quiet(trace)
    ensures var r := DriveSpec(bus0, true, idle, item, trace);
      && (r.outcome == Completed <==> 1 + QuietLength(Cells(item.preElementDelay)) <= |trace|)
      && (r.outcome != Completed ==> r.outcome == Incomplete)
      && (r.outcome == Completed ==>
            r.edges == [bus0] + Waveform(idle, Cells(item.matrix), Cells(item.preElementDelay), NoWaits(9)))
  {
    var s := Await(Running([], bus0), trace);
    var vs, ds := Cells(item.matrix), Cells(item.preElementDelay);
    if s.Running? {
      QuietCells(s, trace, idle, vs, ds);
    } else {
      StoppedCells(s, trace, idle, vs, ds);
    }
  }

  /** With non-negative delays the quiet drive length is the nine data phases plus the
      sum of the delays. */
  lemma {:induction false} QuietLengthSum(ds: seq<int>)
    requires forall k | 0 <= k < |ds| :: ds[k] >= 0
    ensures QuietLength(ds) == |ds| + Sum(ds)
    decreases |ds|
  {
    if ds != [] {
      QuietLengthSum(ds[1..]);
      assert ds == [ds[0]] + ds[1..];
      SumAppend([ds[0]], ds[1..]);
      assert [ds[0]][..0] == [];
    }
  }
}
