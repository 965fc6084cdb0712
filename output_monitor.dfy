/** The monitor of the determinant output bus. For each item it awaits a clock edge and
    then waits until `det_valid` is sampled high, counting the extra edges as the item's
    pre-delay and reading `det` as a signed 16-bit value and `overflow` as a flag. After
    publishing the item it waits for `det_valid` to be sampled low again.

    Timing is modelled as for the input monitor: a finite trace of samples at successive
    rising clock edges, where `await RisingEdge(clk)` moves to the next sample and the
    monitor stops when the trace has no sample left for an edge it awaits. */
module OutputMonitor {
  import opened MatrixDetItems
  import opened Bus
  import opened AnalysisPort

  /** What the monitor reads at an edge. */
  datatype OutSample = OutSample(detValid: bool, det: Word, overflow: bool)

  /** The first sample at or after p with `det_valid` high, or |trace|. */
  function FirstValid(trace: seq<OutSample>, p: nat): (q: nat)
    requires p <= |trace|
    ensures p <= q <= |trace|
    decreases |trace| - p
  {
    if p == |trace| || trace[p].detValid then p else FirstValid(trace, p + 1)
  }

  /** The first sample at or after q with `det_valid` low, or |trace|. */
  function FirstLow(trace: seq<OutSample>, q: nat): (u: nat)
    requires q <= |trace|
    ensures q <= u <= |trace|
    decreases |trace| - q
  {
    if q == |trace| || !trace[q].detValid then q else FirstLow(trace, q + 1)
  }

  /** FirstValid finds the earliest valid sample from p on. */
  lemma {:induction false} FirstValidIsFirst(trace: seq<OutSample>, p: nat)
    requires p <= |trace|
    ensures FirstValid(trace, p) < |trace| ==> trace[FirstValid(trace, p)].detValid
    ensures forall t | p <= t < FirstValid(trace, p) :: !trace[t].detValid
    decreases |trace| - p
  {
    if p < |trace| && !trace[p].detValid {
      FirstValidIsFirst(trace, p + 1);
    }
  }

  /** FirstLow finds the end of the run of valid samples from q on. */
  lemma {:induction false} FirstLowIsFirst(trace: seq<OutSample>, q: nat)
    requires q <= |trace|
    ensures FirstLow(trace, q) < |trace| ==> !trace[FirstLow(trace, q)].detValid
    ensures forall t | q <= t < FirstLow(trace, q) :: trace[t].detValid
    decreases |trace| - q
  {
    if q < |trace| && trace[q].detValid {
      FirstLowIsFirst(trace, q + 1);
    }
  }

  /** The item read at valid sample q after waiting from p. */
  function ItemAt(trace: seq<OutSample>, p: nat, q: nat): DeterminantItem
    requires p <= q < |trace|
  {
    DeterminantItem(SignExtend16(trace[q].det), trace[q].overflow, q - p)
  }

  /** Where the wait for the next item starts after the item read at valid sample q:
      one edge past the first low sample, or the end of the trace if `det_valid` stays
      high to the end. */
  function Resume(trace: seq<OutSample>, q: nat): (s: nat)
    requires q < |trace| && trace[q].detValid
    ensures q < s <= |trace|
  {
    var u := FirstLow(trace, q);
    if u == |trace| then |trace| else u + 1
  }

  /** The items published by `monitor_valid_item` when the first edge it awaits reads
      sample p. */
  function Published(trace: seq<OutSample>, p: nat): seq<DeterminantItem>
    requires p <= |trace|
    decreases |trace| - p
  {
    var q := FirstValid(trace, p);
    if q == |trace| then []
    else
      FirstValidIsFirst(trace, p);
      [ItemAt(trace, p, q)] + Published(trace, Resume(trace, q))
  }

  // ----- an independent account: one item per run of valid samples -----

  /** Sample t starts a run of `det_valid` high, counted from position p: it is valid
      and either it is the first sample watched or its predecessor is low. */
  predicate RunStart(trace: seq<OutSample>, p: nat, t: nat)
    requires p <= t < |trace|
  {
    trace[t].detValid && (t == p || !trace[t - 1].detValid)
  }

  /** The starts of the runs watched from p, at or after t, in increasing order. */
  function RunStarts(trace: seq<OutSample>, p: nat, t: nat): (r: seq<nat>)
    requires p <= t <= |trace|
    ensures forall n | 0 <= n < |r| :: t <= r[n] < |trace|
    decreases |trace| - t
  {
    if t == |trace| then []
    else if RunStart(trace, p, t) then [t] + RunStarts(trace, p, t + 1)
    else RunStarts(trace, p, t + 1)
  }

  /** The pre-delay the monitor reports for the n-th run: the edges it waited from the
      start p, or from one past the low sample that ended the previous run. */
  function RunDelay(trace: seq<OutSample>, p: nat, rs: seq<nat>, n: nat): int
    requires n < |rs| && forall m | 0 <= m < |rs| :: p <= rs[m] < |trace|
  {
    if n == 0 then rs[0] - p else rs[n] - (FirstLow(trace, rs[n - 1]) + 1)
  }

  /** Stretches without a run start leave the list unchanged. */
  lemma {:induction false} RunStartsSkip(trace: seq<OutSample>, p: nat, t: nat, e: nat)
    requires p <= t <= e <= |trace|
    requires forall x | t <= x < e :: !RunStart(trace, p, x)
    ensures RunStarts(trace, p, t) == RunStarts(trace, p, e)
    decreases e - t
  {
    if t < e {
      RunStartsSkip(trace, p, t + 1, e);
    }
  }

  /** Two watch positions that agree on which samples from t on start a run list the
      same run starts from t on. */
  lemma {:induction false} RunStartsAgree(trace: seq<OutSample>, p: nat, p2: nat, t: nat)
    requires p <= t && p2 <= t && t <= |trace|
    requires forall x | t <= x < |trace| :: RunStart(trace, p, x) == RunStart(trace, p2, x)
    ensures RunStarts(trace, p, t) == RunStarts(trace, p2, t)
    decreases |trace| - t
  {
    if t < |trace| {
      RunStartsAgree(trace, p, p2, t + 1);
    }
  }

  /** The run starts from p: the first valid sample, then those from the resume point. */
  lemma RunStartsStep(trace: seq<OutSample>, p: nat)
    requires p <= |trace|
    ensures var q := FirstValid(trace, p);
      && (q == |trace| ==> RunStarts(trace, p, p) == [])
      && (q < |trace| ==> trace[q].detValid &&
                          RunStarts(trace, p, p) == [q] + RunStarts(trace, Resume(trace, q), Resume(trace, q)))
  {
    var q := FirstValid(trace, p);
    FirstValidIsFirst(trace, p);
    RunStartsSkip(trace, p, p, q);
    if q < |trace| {
      assert RunStart(trace, p, q);
      var u := FirstLow(trace, q);
      FirstLowIsFirst(trace, q);
      RunStartsSkip(trace, p, q + 1, u);
      if u < |trace| {
        assert !RunStart(trace, p, u);
        RunStartsAgree(trace, p, u + 1, u + 1);
      }
    }
  }

  /** Items o are those of the runs starting at rs, watched from p: one item per run,
      item n holding the signed `det` and the `overflow` of the run's first sample and,
      as pre-delay, the edges waited since the monitor resumed. */
  ghost predicate MatchRuns(trace: seq<OutSample>, p: nat, o: seq<DeterminantItem>, rs: seq<nat>)
    requires forall m | 0 <= m < |rs| :: p <= rs[m] < |trace|
  {
    && |o| == |rs|
    && forall n | 0 <= n < |o| ::
         && o[n].determinant == SignExtend16(trace[rs[n]].det)
         && o[n].overflow == trace[rs[n]].overflow
         && o[n].preDetDelay == RunDelay(trace, p, rs, n)
  }

  /** The delays of the runs after the first, seen from the point where the monitor
      resumed after the first. */
  lemma RunDelayShift(trace: seq<OutSample>, p: nat, q: nat, rs: seq<nat>, rest: seq<nat>, n: nat)
    requires p <= q < |trace| && trace[q].detValid
    requires forall m | 0 <= m < |rest| :: Resume(trace, q) <= rest[m] < |trace|
    requires rs == [q] + rest && forall m | 0 <= m < |rs| :: p <= rs[m] < |trace|
    requires 1 <= n <= |rest|
    ensures RunDelay(trace, p, rs, n) == RunDelay(trace, Resume(trace, q), rest, n - 1)
  {
    assert rs[n] == rest[n - 1];
    if n > 1 {
      assert rs[n - 1] == rest[n - 2];
    }
  }

  /** Prepending the item of the first run keeps items and runs matched. */
  lemma MatchRunsCons(trace: seq<OutSample>, p: nat, q: nat, o: seq<DeterminantItem>, rest: seq<nat>)
    requires p <= q < |trace| && trace[q].detValid
    requires forall m | 0 <= m < |rest| :: Resume(trace, q) <= rest[m] < |trace|
    requires MatchRuns(trace, Resume(trace, q), o, rest)
    ensures MatchRuns(trace, p, [ItemAt(trace, p, q)] + o, [q] + rest)
  {
    var o1 := [ItemAt(trace, p, q)] + o;
    var rs := [q] + rest;
    forall n | 1 <= n < |o1|
      ensures o1[n].preDetDelay == RunDelay(trace, p, rs, n)
    {
      RunDelayShift(trace, p, q, rs, rest, n);
    }
  }

  /** The monitor publishes exactly one item per run of `det_valid` high. */
  lemma {:induction false} PublishedRuns(trace: seq<OutSample>, p: nat)
    requires p <= |trace|
    ensures MatchRuns(trace, p, Published(trace, p), RunStarts(trace, p, p))
    decreases |trace| - p
  {
    var q := FirstValid(trace, p);
    RunStartsStep(trace, p);
    if q < |trace| {
      var s := Resume(trace, q);
      PublishedRuns(trace, s);
      MatchRunsCons(trace, p, q, Published(trace, s), RunStarts(trace, s, s));
    }
  }

  /** Every published item lies within the signed 16-bit range and reports a
      non-negative delay. */
  lemma {:induction false} PublishedInRange(trace: seq<OutSample>, p: nat)
    requires p <= |trace|
    ensures forall n | 0 <= n < |Published(trace, p)| ::
      -32768 <= Published(trace, p)[n].determinant <= 32767 && Published(trace, p)[n].preDetDelay >= 0
    decreases |trace| - p
  {
    var q := FirstValid(trace, p);
    FirstValidIsFirst(trace, p);
    if q < |trace| {
      PublishedInRange(trace, Resume(trace, q));
    }
  }

  /** At most one item per two samples: each run after the first is preceded by a low
      sample, so a trace of length L yields at most (L - p + 1) / 2 items. */
  lemma {:induction false} PublishedBound(trace: seq<OutSample>, p: nat)
    requires p <= |trace|
    ensures 2 * |Published(trace, p)| <= |trace| - p + 1
    decreases |trace| - p
  {
    var q := FirstValid(trace, p);
    FirstValidIsFirst(trace, p);
    if q < |trace| {
      PublishedBound(trace, Resume(trace, q));
    }
  }

  /** The monitor: whether the initial reset has been seen. */
  class DeterminantMonitor {
    var hasInitReset: bool

    constructor ()
      ensures !hasInitReset
    {
      hasInitReset := false;
    }

    /** `reset_local_variables`: the initial reset has now been seen. */
    method ResetLocalVariables()
      modifies this
      ensures hasInitReset
    {
      if !hasInitReset {
        hasInitReset := true;
      }
    }

    /** Await an edge, then wait for `det_valid`, counting the extra edges: found tells
        whether the trace held a valid sample, q is that sample and item what the
        monitor reads there. */
    method CollectItem(trace: seq<OutSample>, p: nat) returns (found: bool, item: DeterminantItem, q: nat)
      requires p <= |trace|
      ensures found <==> FirstValid(trace, p) < |trace|
      ensures found ==> q == FirstValid(trace, p) && p <= q < |trace| && trace[q].detValid
      ensures found ==> item == ItemAt(trace, p, q)
    {
      found, item, q := false, NewDeterminantItem(), p;
      if p == |trace| {
        return;
      }
      var preDelay := 0;
      while trace[q].detValid != true
        invariant p <= q < |trace|
        invariant preDelay == q - p
        invariant FirstValid(trace, q) == FirstValid(trace, p)
        decreases |trace| - q
      {
        if q + 1 == |trace| {
          return;
        }
        q := q + 1;
        preDelay := preDelay + 1;
      }
      var rawValue: int := trace[q].det;
      var signedValue := if rawValue > 32767 then rawValue - 65536 else rawValue;
      item := DeterminantItem(signedValue, trace[q].overflow, preDelay);
      found := true;
    }

    /** Wait for `det_valid` to go low after the valid sample q; the result is where
        the wait for the next item starts. */
    method AwaitLow(trace: seq<OutSample>, q: nat) returns (s: nat)
      requires q < |trace| && trace[q].detValid
      ensures s == Resume(trace, q)
    {
      var u := q;
      while trace[u].detValid
        invariant q <= u < |trace|
        invariant FirstLow(trace, u) == FirstLow(trace, q)
        decreases |trace| - u
      {
        if u + 1 == |trace| {
          return |trace|;
        }
        u := u + 1;
      }
      s := u + 1;
    }

    /** `monitor_valid_item` from the edge that reads sample p: collect an item,
        publish it, wait for `det_valid` low, and repeat until the trace runs out. */
    method MonitorValidItems(trace: seq<OutSample>, p: nat) returns (published: seq<DeterminantItem>)
      requires p <= |trace|
      ensures published == Published(trace, p)
    {
      published := [];
      var start := p;
      while true
        invariant p <= start <= |trace|
        invariant published + Published(trace, start) == Published(trace, p)
        decreases |trace| - start
      {
        var found, item, q := CollectItem(trace, start);
        if !found {
          AppendNothing(published, Published(trace, start), Published(trace, p));
          return;
        }
        var s := AwaitLow(trace, q);
        AppendNext(published, item, Published(trace, s), Published(trace, start), Published(trace, p));
        published := published + [item];
        start := s;
      }
    }
  }
}
