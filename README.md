# Matrix determinant testbench: a verified model of its checking logic

The testbench verifies a hardware block that reads a 3x3 matrix of signed 16-bit
elements over a valid/request handshake and outputs its determinant, saturated to 16
bits with an overflow flag. This project models the parts of the testbench that hold
logic:

- the constants and the two transaction items, with the golden determinant;
- the scoreboard, which predicts the expected result of each input, keeps a FIFO of
  expectations and compares the observed outputs against it;
- the coverage collector, with its value, delay and matrix-shape bins;
- the input agent's driver (`drive_matrix`, the idle-data policy, the reset clean-up
  and the completion bookkeeping of `main_drive_loop`) and its monitor (the
  element-capture loop);
- the output agent's determinant monitor (the capture loop and the wait for
  `det_valid` to fall).

Modules follow the source files: `MatrixDetTypes` and `MatrixDetItems` (types and
items), `Bus` (the 16-bit mask and sign conversion shared by the agents),
`Scoreboard`, `Coverage`, `InputDriver`, `InputMonitor` and `OutputMonitor`.

Conventions:

- Items are values (datatypes). Nothing changes an item after it is handed on.
  `NewMatrixItem` and `NewDeterminantItem` are the freshly constructed items.
- The scoreboard, the coverage collector, the driver and both monitors are classes.
  Their fields are the state the source updates. Their methods are proved against
  specification functions: `ExpectedItem`, `MatchLog`, `AddInput`, `DriveSpec`,
  `Published`.
- The scoreboard's errors and warnings are events: `Mismatch`, `OverflowMismatch`,
  `DelayWarning`, `Unexpected` and `Unprocessed(n)`. The analysis FIFOs become
  sequences handed to the drain methods.
- Signal timing is a finite trace of the values sampled at successive rising clock
  edges. An `await RisingEdge(clk)` moves to the next sample. A drive that awaits past
  the end of the trace ends as `Incomplete`. A monitor publishes what the trace
  contains and stops there.
- The monitors start at a trace position `p`: the first clock edge after the reset
  waits at the head of `monitor_valid_item`.

## Model

| member | source | states |
|---|---|---|
| MatrixDetTypes.MatLimits | matrix_det_types.py:14-15 | matrix bus limits are -32768 and 32767, span 2^16, and straddle 0 |
| MatrixDetTypes.DetLimits | matrix_det_types.py:16-17 | determinant bus limits are -32768 and 32767, span 2^16, and straddle 0 |
| MatrixDetTypes.MatrixSize | matrix_det_types.py:10 | N is 3 and N squared is 9 |
| MatrixDetItems.Determinant | matrix_det_items.py:29-38 | the six-term rule at full integer precision, without truncation; its properties are the lemmas below |
| MatrixDetItems.NewMatrixItem | matrix_det_items.py:12-17 | a fresh matrix item: both grids zero (stated by FreshMatrixItem) |
| MatrixDetItems.NewDeterminantItem | matrix_det_items.py:53-57 | a fresh determinant item: 0, no overflow, delay 0 (stated by FreshDeterminantItem) |
| MatrixDetItems.CofactorExpansion | matrix_det_items.py:29-38 | the six-term rule equals the Laplace expansion along the first row |
| MatrixDetItems.DeterminantOfTranspose | matrix_det_items.py:32-37 | the determinant of the transpose equals the determinant |
| MatrixDetItems.TriangularDeterminant | matrix_det_items.py:32-37 | for an upper or lower triangular matrix the determinant is the product of the diagonal |
| MatrixDetItems.FreshMatrixItem | matrix_det_items.py:12-17 | a fresh matrix item has all-zero values and delays, determinant 0 and delay sum 0 |
| MatrixDetItems.FreshDeterminantItem | matrix_det_items.py:53-57 | a fresh determinant item holds 0, no overflow and delay 0 |
| MatrixDetItems.KnownDeterminants | matrix_det_items.py:32-37 | the identity has determinant 1 and [[2,1,0],[1,2,0],[0,0,1]] has determinant 3 |
| MatrixDetItems.GridSumElements | scoreboard.py:84-87 | the row-major sum of a grid is the sum of its nine entries |
| MatrixDetItems.SumAppend | scoreboard.py:84-87 | the sum of a concatenation is the sum of the parts |
| MatrixDetItems.RowMajorScanIsCells | input_agent.py:256-257 | the nested row/column scan visits the cells in row-major order |
| Bus.Mask16 | input_agent.py:137 | the masked word is a 16-bit value congruent to the input modulo 2^16 |
| Bus.SignExtend16 | output_agent.py:67-71 | the signed value lies in [-32768, 32767] and is the raw word or the raw word minus 65536 |
| Bus.MaskThenSignExtend | input_agent.py:271-275 | the monitor's sign conversion undoes the driver's mask for every in-range element |
| Bus.SignExtendThenMask | output_agent.py:67-71 | masking the signed value gives back the raw word |
| Bus.SignExtendHalves | output_agent.py:67-71 | raw words up to 32767 are kept; larger ones become raw - 65536, which is negative |
| Scoreboard.ExpectedItem | scoreboard.py:62-88 | the expected determinant is the raw one clamped to the bus limits; overflow holds iff raw is out of range, iff the clamp changed it; delay is the delay sum plus 9 |
| Scoreboard.ExpectedItems | scoreboard.py:46-49 | draining inputs predicts one expectation per input, in order |
| Scoreboard.CompareEvents | scoreboard.py:104-125 | the events of one comparison: a mismatch, an overflow mismatch and a delay warning, each when its test fails (characterised by CompareVerdict) |
| Scoreboard.MatchLog | scoreboard.py:51-54 | the events of comparing the outputs in order against the queue, Unexpected once the queue is used up (characterised by MatchVerdict and AllUnexpected) |
| Scoreboard.SaturationIsNearest | scoreboard.py:73-81 | the saturated value is the in-range value nearest to the raw determinant |
| Scoreboard.IdentityScenario | scoreboard.py:62-88 | the identity with zero delays is expected to give 1, no overflow, delay 9 |
| Scoreboard.SaturationScenario | scoreboard.py:73-78 | a raw determinant of 40000 is expected as 32767 with overflow |
| Scoreboard.MatrixScoreboard.constructor | scoreboard.py:12-14 | the queue and the log start empty |
| Scoreboard.MatrixScoreboard.ProcessInputItem | scoreboard.py:62-91 | appends the expected item at the back of the queue and leaves earlier entries and the error log unchanged |
| Scoreboard.MatrixScoreboard.CompareOutputItem | scoreboard.py:94-125 | on an empty queue logs Unexpected and keeps the queue; otherwise pops exactly the front and logs the comparison events for it |
| Scoreboard.MatrixScoreboard.DrainInputs | scoreboard.py:46-49 | the queue grows by the expectations of all inputs, in order |
| Scoreboard.MatrixScoreboard.DrainOutputs | scoreboard.py:51-54 | the queue loses its first min(queue, outputs) entries and the log grows by the matching log |
| Scoreboard.MatrixScoreboard.CheckPhase | scoreboard.py:42-60 | drains inputs, then outputs, then logs the leftover count; the new queue and log are stated exactly |
| Scoreboard.CompareVerdict | scoreboard.py:104-125 | a comparison logs no error iff determinant and overflow agree; it warns iff the delays differ by more than 2 |
| Scoreboard.MatchVerdict | scoreboard.py:94-116 | matching outputs against a queue logs no error iff there are no more outputs than expectations and the k-th output agrees with the k-th expectation |
| Scoreboard.CheckPhaseVerdict | scoreboard.py:42-60 | the check phase logs no error iff there are as many outputs as inputs and the k-th output agrees with the expectation of the k-th input |
| Scoreboard.AllUnexpected | scoreboard.py:98-100 | against an empty queue every output logs exactly one Unexpected |
| Coverage.ValueRangeOf | coverage_collector.py:142-153 | each of the five labels holds iff its condition holds: min and max for the sentinels, small, medium and large by magnitude otherwise |
| Coverage.ValueRangeMonotone | coverage_collector.py:148-153 | among non-sentinels, a larger magnitude never gets a smaller label |
| Coverage.SentinelPrecedence | coverage_collector.py:144-147 | the sentinels have magnitude above 10000 and still get min and max |
| Coverage.SaturatedDeterminantBin | coverage_collector.py:142-147 | a saturated expected determinant always falls in the min or max bin |
| Coverage.DelayRangeOf | coverage_collector.py:155-162 | short iff at most 5, medium iff 6 to 20, long iff above 20 |
| Coverage.DelayRangeMonotone | coverage_collector.py:155-162 | a longer delay never gets a shorter label |
| Coverage.MatrixTypeOf | coverage_collector.py:164-215 | the priority classifier identity, diagonal, upper, lower, general (characterised by ClassifierCharacterisation) |
| Coverage.ClassifierCharacterisation | coverage_collector.py:164-215 | each class holds iff its shape holds and no higher-priority shape does (identity, diagonal, upper, lower, general) |
| Coverage.ShapedDeterminant | coverage_collector.py:164-215 | every matrix not classed general has determinant equal to the product of its diagonal |
| Coverage.KnownShapes | coverage_collector.py:166-177 | the identity is classed identity; [[2,1,0],[1,2,0],[0,0,1]] is classed general |
| Coverage.DiagonalShape | coverage_collector.py:179-189 | diag(200, 200, 1) is classed diagonal |
| Coverage.TriangularShapes | coverage_collector.py:191-213 | an upper and a lower triangular example get their classes |
| Coverage.ScanIdentity | coverage_collector.py:166-177 | the early-exit loop answers true iff the matrix is the identity |
| Coverage.ScanDiagonal | coverage_collector.py:179-189 | the early-exit loop answers true iff every off-diagonal entry is 0 |
| Coverage.ScanUpper | coverage_collector.py:191-201 | the early-exit loop answers true iff every entry below the diagonal is 0 |
| Coverage.ScanLower | coverage_collector.py:203-213 | the early-exit loop answers true iff every entry above the diagonal is 0 |
| Coverage.ClassifyMatrix | coverage_collector.py:164-215 | the sequence of scans returns the class of the priority definition |
| Coverage.BumpCount | coverage_collector.py:111-113 | bumping adds the key and raises its count by one and no other count |
| Coverage.CreateThenIncrement | coverage_collector.py:111-113 | create-at-0-then-increment is one bump |
| Coverage.KeyListsDistinct | coverage_collector.py:16-26 | the label lists hold no duplicates |
| Coverage.BumpTotal | coverage_collector.py:111-113 | a bump raises a bin map's total by one when the key is listed |
| Coverage.AddValuesSnoc | coverage_collector.py:107-113 | binning one more value is one more bump |
| Coverage.AddValuesCounts | coverage_collector.py:107-113 | each label's count grows by its number of values; lazily created keys are exactly those hit; the total grows by the number of values |
| Coverage.BinElementValues | coverage_collector.py:107-113 | the nested loop bins the nine elements in row-major order |
| Coverage.InitialBinsZero | coverage_collector.py:16-26 | the pre-initialised maps hold every key at 0 |
| Coverage.AddInput | coverage_collector.py:102-122 | the bins after one input (effect stated by InputCoverageEffect) |
| Coverage.AddOutput | coverage_collector.py:126-138 | the bins after one output (effect stated by OutputCoverageEffect) |
| Coverage.InputCoverageEffect | coverage_collector.py:102-122 | one input raises the value total by 9 and one delay bin and one type bin by one; counts never decrease and output bins do not change |
| Coverage.OutputCoverageEffect | coverage_collector.py:126-138 | one output raises its determinant bin and its overflow bin by one; input bins do not change |
| Coverage.ReportTotals | coverage_collector.py:63-75 | after the report phase the type and delay totals grow by the inputs, the value total by 9 per input, and the overflow bins by the overflowing and non-overflowing outputs |
| Coverage.InputsTotals | coverage_collector.py:67-70 | draining inputs raises the totals by the inputs and never lowers a count |
| Coverage.OutputsTotals | coverage_collector.py:72-75 | draining outputs raises the overflow bins by the counts of each flag and never lowers a count |
| Coverage.DrainOrderIrrelevant | coverage_collector.py:63-75 | draining outputs before inputs gives the same bins |
| Coverage.InputsCommute | coverage_collector.py:63-75 | one output commutes with a run of inputs |
| Coverage.CoverageCollector.constructor | coverage_collector.py:12-26 | the bins start as the pre-initialised maps |
| Coverage.CoverageCollector.CollectInputCoverage | coverage_collector.py:102-122 | the bins become those of one more input |
| Coverage.CoverageCollector.CollectOutputCoverage | coverage_collector.py:126-138 | the bins become those of one more output |
| Coverage.CoverageCollector.DrainInputCoverage | coverage_collector.py:67-70 | the bins become those of all the inputs, in order |
| Coverage.CoverageCollector.DrainOutputCoverage | coverage_collector.py:72-75 | the bins become those of all the outputs, in order |
| Coverage.CoverageCollector.ReportPhase | coverage_collector.py:63-75 | the bins become those of all inputs, then all outputs |
| InputDriver.IdleValue | input_agent.py:155-164 | idle data is 0xAAAA iff the policy is Unknown, and 0 otherwise |
| InputDriver.DriveSpec | input_agent.py:99-153 | the drive as a function of the trace; it always stops, with one of the four outcomes |
| InputDriver.MatrixDriver.constructor | input_agent.py:14-21 | valid low, bus 0, idle policy high impedance, no item finished |
| InputDriver.MatrixDriver.BindDut | test_matrix_det.py:33 | the test sets the DUT handle; nothing else changes |
| InputDriver.MatrixDriver.DriveIdleData | input_agent.py:155-164 | only `mat_in` changes, to the idle value |
| InputDriver.MatrixDriver.ResetInterfaceSignals | input_agent.py:192-197 | with a DUT bound the bus becomes valid low with idle data; without one nothing changes |
| InputDriver.MatrixDriver.OnResetAsserted | input_agent.py:180-186 | the bus is reset and the current item is marked finished; `item_done` is not signalled |
| InputDriver.MatrixDriver.WaitDelay | input_agent.py:116-128 | the delay loop equals the delay-phase function |
| InputDriver.MatrixDriver.WaitHandshake | input_agent.py:140-149 | the handshake loop equals the handshake function |
| InputDriver.MatrixDriver.DriveOneElement | input_agent.py:110-149 | the reset checks, delay, data cycle and handshake of one element equal the element function |
| InputDriver.MatrixDriver.DriveElements | input_agent.py:107-149 | the nested loops equal the cell-by-cell function over the row-major cells |
| InputDriver.MatrixDriver.DriveMatrix | input_agent.py:99-153 | the drive equals `DriveSpec` on the trace |
| InputDriver.MatrixDriver.DriveItem | input_agent.py:64-90 | the drive equals `DriveSpec`; the item ends finished unless the trace ran out; `item_done` is signalled once when the drive returns and never on an abort |
| InputDriver.DelayRun | input_agent.py:116-128 | the delay loop records idle states only, exactly d of them unless it stops |
| InputDriver.HandshakeRun | input_agent.py:140-149 | the handshake wait records idle states only and ends with `mat_request` high unless it stops |
| InputDriver.DataPhaseRun | input_agent.py:130-149 | the data cycle records one valid edge with the masked value, then idle edges |
| InputDriver.ElementRun | input_agent.py:110-149 | an element adds one delay-data-wait segment, or stops having shown at most its own value |
| InputDriver.CellsRun | input_agent.py:107-149 | the data words on the bus are a prefix of the masked elements in row-major order |
| InputDriver.CellsWaveform | input_agent.py:107-149 | a drive that keeps running records exactly the concatenated segments of the nine elements |
| InputDriver.DataWordsWaveform | input_agent.py:136-137 | the data words of a waveform are the masked elements |
| InputDriver.DriveOutcomes | input_agent.py:99-153 | NoDut iff no DUT is bound; an abort stops at an edge where `rst_n` was low; an incomplete drive used the whole trace |
| InputDriver.NoResetNoAbort | input_agent.py:110-145 | with `rst_n` high throughout, the drive never aborts |
| InputDriver.ResetChecksPassed | input_agent.py:110-145 | every sample before the drive's last edge read `rst_n` high: the drive never moves past a reset check that failed |
| InputDriver.ResetStopsDrive | input_agent.py:110-145 | a low `rst_n` at edge t ends the drive by edge t + 1, never as Incomplete, and an abort reads the first low `rst_n` sampled |
| InputDriver.ResetAtCenterElement | input_agent.py:108-145 | a reset sampled while element [1][1] is pending aborts with only elements [0][0] to [1][0] driven |
| InputDriver.DrivenPrefix | input_agent.py:105-149 | any drive shows a prefix of the masked row-major elements, and only those |
| InputDriver.DriveCompleted | input_agent.py:99-153 | a completed drive shows all nine masked elements in order, each after its delay, and ends valid low with idle data |
| InputDriver.QuietDrive | input_agent.py:99-153 | with reset high and `mat_request` always high, the drive completes iff the trace has 1 + 9 + delay-sum edges, with no handshake waits |
| InputDriver.QuietLengthSum | input_agent.py:116-138 | the quiet drive's length is the number of elements plus the delay sum |
| InputMonitor.FirstAcceptedIsFirst | input_agent.py:262-265 | the wait stops at the first edge with request and valid high, and none before it qualifies |
| InputMonitor.NextRiseIsFirst | input_agent.py:286-287 | the end-of-item wait stops at the first rising edge of `mat_request` |
| InputMonitor.ItemAt | input_agent.py:253-277 | the capture of one item from a trace position, ending after its ninth handshake (characterised by ItemCaptured) |
| InputMonitor.Published | input_agent.py:250-287 | the items the monitor publishes from a trace position: one capture, then the next rising edge of `mat_request`, repeated |
| InputMonitor.HandshakesExact | input_agent.py:262-265 | the handshake list holds exactly the accepting edges, in increasing order |
| InputMonitor.FirstHandshake | input_agent.py:260-265 | the first handshake is the first accepting edge; the rest are the handshakes after it |
| InputMonitor.CaptureElementFacts | input_agent.py:258-277 | one element is captured iff a handshake remains; it takes that handshake's sign-extended value and the count of edges waited, and changes no other element |
| InputMonitor.CaptureFromFacts | input_agent.py:256-277 | the element loop takes the next handshakes one per element in row-major order |
| InputMonitor.ItemCaptured | input_agent.py:253-284 | an item is published iff nine handshakes remain; element (i,j) holds the sign-extended value of handshake 3i+j and its delay counts the edges waited for it |
| InputMonitor.WaitIsIdle | input_agent.py:262-265 | no edge counted as delay is an accepting one |
| InputMonitor.PublishedStep | input_agent.py:281-287 | after a published item the monitor resumes at the next rising edge of `mat_request` |
| InputMonitor.PublishedBound | input_agent.py:250-287 | every published item takes at least nine edges of the trace |
| InputMonitor.MatrixMonitor.constructor | input_agent.py:202-207 | the monitor starts before its initial reset |
| InputMonitor.MatrixMonitor.ResetLocalVariables | input_agent.py:308-311 | afterwards the initial reset is recorded, whatever its value before |
| InputMonitor.MatrixMonitor.CollectElement | input_agent.py:258-277 | the delay-count loop and sign conversion equal the one-element capture |
| InputMonitor.MatrixMonitor.CollectItem | input_agent.py:253-277 | the nested loops capture an item iff the item capture finds one, with the same item and end position |
| InputMonitor.MatrixMonitor.MonitorRound | input_agent.py:253-287 | one round publishes the first item of the published sequence and resumes after it |
| InputMonitor.MatrixMonitor.MonitorValidItems | input_agent.py:250-291 | the items written to the analysis port are the published sequence of the trace |
| OutputMonitor.FirstValidIsFirst | output_agent.py:58-61 | the delay loop stops at the first edge with `det_valid` high |
| OutputMonitor.FirstLowIsFirst | output_agent.py:82-84 | the wait-for-low loop stops at the first edge with `det_valid` low |
| OutputMonitor.ItemAt | output_agent.py:52-74 | the item read at a valid edge: sign-extended `det`, the `overflow` flag, and the edges waited as delay |
| OutputMonitor.Published | output_agent.py:50-88 | the items the monitor publishes from a trace position: one per `det_valid`-high window (characterised by PublishedRuns) |
| OutputMonitor.RunStartsStep | output_agent.py:50-84 | the first window starts at the first valid edge; the next windows start after `det_valid` was seen low |
| OutputMonitor.PublishedRuns | output_agent.py:50-84 | one item per `det_valid`-high window: its determinant is the sign-extended `det`, its overflow the sampled flag, its delay the edges waited since the window opened |
| OutputMonitor.PublishedInRange | output_agent.py:64-73 | published determinants lie in [-32768, 32767] and delays are non-negative |
| OutputMonitor.PublishedBound | output_agent.py:80-84 | each published item but the last takes at least two edges |
| OutputMonitor.DeterminantMonitor.constructor | output_agent.py:14-19 | the monitor starts before its initial reset |
| OutputMonitor.DeterminantMonitor.ResetLocalVariables | output_agent.py:105-108 | afterwards the initial reset is recorded, whatever its value before |
| OutputMonitor.DeterminantMonitor.CollectItem | output_agent.py:52-74 | an item is found iff a valid edge remains; it is read at the first one with the waited edges as delay |
| OutputMonitor.DeterminantMonitor.AwaitLow | output_agent.py:82-84 | the loop resumes where the published sequence resumes |
| OutputMonitor.DeterminantMonitor.MonitorValidItems | output_agent.py:50-88 | the items written to the analysis port are the published sequence of the trace |

## Left out

- `MatrixItem.randomize`: randomness; items are parameters.
- Task concurrency: `cocotb.start_soon`, `kill`, `First` and the `run_phase` retry
  loops. Reset reaches the driver only as the sampled `rst_n` of its trace. The
  reset-driver task appears as `OnResetAsserted`, a separate method.
- The driver's `main_drive_loop` waits: the initial wait on `rst_n` falling, the
  wait while `rst_n` is low, and the waits for `rst_n` and `clk` rising before each
  item. `DriveItem` models one pass of the loop from `get_next_item` on. The source
  waits for a rising edge of `rst_n` before every item, not only after a reset; this
  timing lies outside the modelled drive.
- The monitors' heads: the initial falling and rising edges of `rst_n` in
  `monitor_valid_item` are replaced by the start position `p`.
- The monitors' `reset_monitor` tasks: `valid_process` is never assigned, so they
  cancel nothing and only call `reset_local_variables`, which is modelled.
- `Timer` back-offs, exception handlers and their log messages. The generic exception
  path of `main_drive_loop` is not modelled. `DriveItem` signals `item_done` once for
  a drive that returns, including the early return of `drive_matrix` without a DUT.
  In the source that return is not reachable from `main_drive_loop`: the loop reads
  `self.dut.rst_n` (input_agent.py:51, 57, 61) before it takes an item, so a missing
  DUT fails there first. The NoDut outcome models `drive_matrix` called on its own.
- The scoreboard's and the coverage collector's `logger.info` messages, and the
  coverage report text: informational, with no effect on state.
- Logger text and `convert2string` / `__str__` formatting: outcomes are events.
- UVM analysis ports, TLM FIFOs and get ports: plain sequences and the `AnalysisPort`
  append lemmas.
- The enums `ResetStages`, `TriangularType` and `PermutationType`: nothing uses them.
- Bin keys are datatypes, not strings.
- Idle-data policy names other than the two special ones are the single value `Zero`.
- Item construction: items are datatype values built by `NewMatrixItem` and
  `NewDeterminantItem`, not objects constructed in place.
- Liveness: the handshake and wait loops have no timeout. Over a finite trace, a drive
  that runs out of samples is `Incomplete` and a monitor stops publishing.
- `await RisingEdge(self.dut.mat_request)`: taken as the first sampled clock edge at
  which `mat_request` is high after being low at the previous edge.
- The test runner, the sequences and the environment wiring: `test_matrix_det.py`,
  `matrix_sequence.py` and `matrix_det_env.py` are not part of this model. Their fixed
  vectors appear as concrete inputs in the scenario lemmas.
