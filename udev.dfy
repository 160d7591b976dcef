/**
 * The hardware (udev) backend's two pieces of logic: the choice of the
 * primary GPU from udev hot-plug events, and the `while running` loop
 * that dispatches the event loop and does the per-iteration housekeeping.
 */
module Udev {
  import opened Options

  type Path = string
  type DeviceId = nat

  /** A udev hot-plug event. `isDrmNode` is whether the device id names a DRM node. */
  datatype UdevEvent =
    | Added(device: DeviceId, isDrmNode: bool, path: Path)
    | Changed(device: DeviceId)
    | Removed(device: DeviceId)

  /** What the start-up probe for the seat's primary GPU returned. */
  datatype Detection = Detected(gpu: Option<Path>) | DetectionFailed

  /** The primary GPU after one udev event, as a function of the one before. */
  function NextPrimaryGpu(current: Option<Path>, ev: UdevEvent): (next: Option<Path>)
    ensures current.Some? ==> next == current
    ensures current.None? && ev.Added? && ev.isDrmNode ==> next == Some(ev.path)
    ensures !(ev.Added? && ev.isDrmNode) ==> next == current
  {
    match ev
    case Added(_, isDrmNode, path) =>
      if isDrmNode && (current == Some(path) || current.None?) then Some(path) else current
    case Changed(_) => current
    case Removed(_) => current
  }

  /** The primary GPU after a sequence of udev events. */
  function PrimaryGpuAfter(start: Option<Path>, evs: seq<UdevEvent>): Option<Path>
    decreases |evs|
  {
    if evs == [] then start else PrimaryGpuAfter(NextPrimaryGpu(start, evs[0]), evs[1..])
  }

  /** Reference definition: the path of the first DRM node added, if any. */
  function FirstDrmPath(evs: seq<UdevEvent>): Option<Path>
    decreases |evs|
  {
    if evs == [] then None
    else if evs[0].Added? && evs[0].isDrmNode then Some(evs[0].path)
    else FirstDrmPath(evs[1..])
  }

  /**
   * A primary GPU, once known, is never replaced or cleared; without one,
   * the first DRM node added becomes the primary GPU.
   */
  lemma {:induction false} PrimaryGpuIsFirstDrm(start: Option<Path>, evs: seq<UdevEvent>)
    ensures start.Some? ==> PrimaryGpuAfter(start, evs) == start
    ensures start.None? ==> PrimaryGpuAfter(start, evs) == FirstDrmPath(evs)
    decreases |evs|
  {
    if evs != [] {
      PrimaryGpuIsFirstDrm(NextPrimaryGpu(start, evs[0]), evs[1..]);
    }
  }

  /** The state captured by the udev event callback. */
  class UdevHandler {
    var primaryGpuId: Option<Path>

    /** A failed probe counts as no primary GPU. */
    constructor (detection: Detection)
      ensures detection.Detected? ==> primaryGpuId == detection.gpu
      ensures detection.DetectionFailed? ==> primaryGpuId == None
    {
      primaryGpuId := if detection.Detected? then detection.gpu else None;
    }

    /** Handles one udev event. */
    method Handle(ev: UdevEvent)
      modifies this
      ensures primaryGpuId == NextPrimaryGpu(old(primaryGpuId), ev)
    {
      match ev {
        case Added(_, isDrmNode, path) =>
          if isDrmNode {
            if primaryGpuId == Some(path) || primaryGpuId.None? {
              primaryGpuId := Some(path);
            }
          }
        case Changed(_) =>
        case Removed(_) =>
      }
    }
  }

  /**
   * The outcome of one `dispatch` of the event loop: whether it returned
   * without error, and whether a handler it ran asked the loop to stop.
   * `stopSignalled` is the input model's `stopRequested` being set during
   * that dispatch by `Input.HandleKey`, on a key event for which
   * `Input.IsQuitCombo` holds (where the source calls `loop_signal.stop()`).
   */
  datatype Dispatch = Dispatch(ok: bool, stopSignalled: bool)

  /** One observable step of the backend loop. */
  datatype Step = Dispatched(ok: bool) | SpaceRefresh | PopupsCleanup | FlushClients

  /** The housekeeping after a successful dispatch, in order. */
  const Housekeeping: seq<Step> := [SpaceRefresh, PopupsCleanup, FlushClients]

  /** The steps of one iteration: the dispatch, then housekeeping unless it failed. */
  function Iteration(d: Dispatch): seq<Step>
  {
    if d.ok then [Dispatched(true)] + Housekeeping else [Dispatched(false)]
  }

  /** The steps of the first `n` iterations, one after the other. */
  function TraceUpTo(ds: seq<Dispatch>, n: nat): seq<Step>
    requires n <= |ds|
  {
    if n == 0 then [] else TraceUpTo(ds, n - 1) + Iteration(ds[n - 1])
  }

  lemma AppendAssoc(a: seq<Step>, b: seq<Step>, c: seq<Step>)
    ensures a + (b + c) == a + b + c
  {
  }

  lemma AppendEmpty(a: seq<Step>)
    ensures a + [] == a
  {
  }

  /** The steps the loop takes from dispatch `i` on, as written: only a failure ends it. */
  function TraceFrom(ds: seq<Dispatch>, i: nat): seq<Step>
    decreases |ds| - i
  {
    if i >= |ds| then []
    else if ds[i].ok then Iteration(ds[i]) + TraceFrom(ds, i + 1)
    else Iteration(ds[i])
  }

  function LoopTrace(ds: seq<Dispatch>): seq<Step>
  {
    TraceFrom(ds, 0)
  }

  /** The first `n` dispatches all succeeded. */
  predicate OkBefore(ds: seq<Dispatch>, n: nat)
    requires n <= |ds|
  {
    n == 0 || (OkBefore(ds, n - 1) && ds[n - 1].ok)
  }

  lemma {:induction false} OkBeforeMeansAllOk(ds: seq<Dispatch>, n: nat)
    requires n <= |ds|
    ensures OkBefore(ds, n) <==> forall k :: 0 <= k < n ==> ds[k].ok
    decreases n
  {
    if n > 0 {
      OkBeforeMeansAllOk(ds, n - 1);
    }
  }

  /**
   * The backend loop over a finite run of dispatch outcomes: a failed
   * dispatch clears `running` and skips housekeeping; a successful one is
   * followed by refresh, popup cleanup and client flush.
   */
  method RunUdev(ds: seq<Dispatch>) returns (trace: seq<Step>, running: bool)
    ensures trace == LoopTrace(ds)
    ensures running <==> forall k :: 0 <= k < |ds| ==> ds[k].ok
  {
    running := true;
    trace := [];
    var i := 0;
    while running && i < |ds|
      invariant 0 <= i <= |ds|
      invariant trace == TraceUpTo(ds, i)
      invariant running ==> OkBefore(ds, i)
      invariant !running ==> 0 < i && OkBefore(ds, i - 1) && !ds[i - 1].ok
      decreases |ds| - i
    {
      var result := ds[i];
      if !result.ok {
        running := false;
        trace := trace + [Dispatched(false)];
      } else {
        trace := trace + ([Dispatched(true)] + Housekeeping);
      }
      i := i + 1;
    }
    if running {
      TraceWhenExhausted(ds);
      OkBeforeMeansAllOk(ds, |ds|);
    } else {
      TraceWhenEnded(ds, i);
    }
  }

  /**
   * After `n` successful dispatches, the loop's trace is theirs followed by
   * the trace from dispatch `n` on.
   */
  lemma {:induction false} SplitTrace(ds: seq<Dispatch>, n: nat)
    requires n <= |ds| && OkBefore(ds, n)
    ensures LoopTrace(ds) == TraceUpTo(ds, n) + TraceFrom(ds, n)
    decreases n
  {
    if n > 0 {
      var m := n - 1;
      assert OkBefore(ds, m) && ds[m].ok;
      SplitTrace(ds, m);
      var prefix, it, rest := TraceUpTo(ds, m), Iteration(ds[m]), TraceFrom(ds, n);
      assert TraceFrom(ds, m) == it + rest;
      assert TraceUpTo(ds, n) == prefix + it;
      AppendAssoc(prefix, it, rest);
    }
  }

  /** When every dispatch went through, the trace is that of all the iterations. */
  lemma TraceWhenExhausted(ds: seq<Dispatch>)
    requires OkBefore(ds, |ds|)
    ensures LoopTrace(ds) == TraceUpTo(ds, |ds|)
  {
    SplitTrace(ds, |ds|);
    AppendEmpty(TraceUpTo(ds, |ds|));
  }

  /** When iteration `i` ended the loop, the trace is that of the first `i` iterations. */
  lemma TraceWhenEnded(ds: seq<Dispatch>, i: nat)
    requires 0 < i <= |ds| && OkBefore(ds, i - 1) && !ds[i - 1].ok
    ensures LoopTrace(ds) == TraceUpTo(ds, i)
  {
    SplitTrace(ds, i - 1);
  }

  /** The trace from a successful dispatch: its four steps, then the trace from the next one. */
  lemma TraceAfterSuccess(ds: seq<Dispatch>, i: nat)
    requires i < |ds| && ds[i].ok
    ensures TraceFrom(ds, i) == [Dispatched(true), SpaceRefresh, PopupsCleanup, FlushClients] + TraceFrom(ds, i + 1)
  {
  }

  /** Every successful dispatch is followed at once by refresh, popup cleanup and client flush. */
  lemma {:induction false} HousekeepingFollowsSuccess(ds: seq<Dispatch>, i: nat, k: nat)
    requires k < |TraceFrom(ds, i)| && TraceFrom(ds, i)[k] == Dispatched(true)
    ensures k + 3 < |TraceFrom(ds, i)|
    ensures TraceFrom(ds, i)[k + 1] == SpaceRefresh
    ensures TraceFrom(ds, i)[k + 2] == PopupsCleanup
    ensures TraceFrom(ds, i)[k + 3] == FlushClients
    decreases |ds| - i
  {
    assert i < |ds| && ds[i].ok;
    TraceAfterSuccess(ds, i);
    if k >= 4 {
      HousekeepingFollowsSuccess(ds, i + 1, k - 4);
    }
  }

  /** A failed dispatch is the loop's last step. */
  lemma {:induction false} FailureEndsLoop(ds: seq<Dispatch>, i: nat, k: nat)
    requires k < |TraceFrom(ds, i)| && TraceFrom(ds, i)[k] == Dispatched(false)
    ensures k == |TraceFrom(ds, i)| - 1
    decreases |ds| - i
  {
    assert i < |ds|;
    if ds[i].ok {
      TraceAfterSuccess(ds, i);
      assert k >= 4;
      assert TraceFrom(ds, i + 1)[k - 4] == Dispatched(false);
      FailureEndsLoop(ds, i + 1, k - 4);
    }
  }

  /**
   * While every dispatch succeeds, dispatch number `i + j` is step `4 * j`
   * of the trace from `i`, whatever the handlers signalled.
   */
  lemma {:induction false} DispatchAt(ds: seq<Dispatch>, i: nat, j: nat)
    requires i + j < |ds| && forall k :: i <= k <= i + j ==> ds[k].ok
    ensures 4 * j < |TraceFrom(ds, i)| && TraceFrom(ds, i)[4 * j] == Dispatched(true)
    decreases j
  {
    TraceAfterSuccess(ds, i);
    if j > 0 {
      DispatchAt(ds, i + 1, j - 1);
    }
  }

  /**
   * A stop requested by a handler (the quit key combinations) does not end
   * the loop: the next dispatch still happens.
   */
  lemma StopSignalIgnored(ds: seq<Dispatch>, k: nat)
    requires k + 1 < |ds| && (forall j :: 0 <= j <= k + 1 ==> ds[j].ok) && ds[k].stopSignalled
    ensures 4 * (k + 1) < |LoopTrace(ds)| && LoopTrace(ds)[4 * (k + 1)] == Dispatched(true)
  {
    DispatchAt(ds, 0, k + 1);
  }

  /** Continues(d): the dispatch succeeded and no handler asked to stop. */
  predicate Continues(d: Dispatch)
  {
    d.ok && !d.stopSignalled
  }

  /** The steps from dispatch `i` on with the stop request honoured. */
  function StoppingTraceFrom(ds: seq<Dispatch>, i: nat): seq<Step>
    decreases |ds| - i
  {
    if i >= |ds| then []
    else if Continues(ds[i]) then Iteration(ds[i]) + StoppingTraceFrom(ds, i + 1)
    else Iteration(ds[i])
  }

  function StoppingLoopTrace(ds: seq<Dispatch>): seq<Step>
  {
    StoppingTraceFrom(ds, 0)
  }

  /** The first `n` dispatches all succeeded and none asked to stop. */
  predicate ContinuesBefore(ds: seq<Dispatch>, n: nat)
    requires n <= |ds|
  {
    n == 0 || (ContinuesBefore(ds, n - 1) && Continues(ds[n - 1]))
  }

  lemma {:induction false} ContinuesBeforeMeansAllContinue(ds: seq<Dispatch>, n: nat)
    requires n <= |ds|
    ensures ContinuesBefore(ds, n) <==> forall k :: 0 <= k < n ==> Continues(ds[k])
    decreases n
  {
    if n > 0 {
      ContinuesBeforeMeansAllContinue(ds, n - 1);
    }
  }

  /** The corrected loop: `running` is also cleared once a handler has asked to stop. */
  method RunUdevHonouringStop(ds: seq<Dispatch>) returns (trace: seq<Step>, running: bool)
    ensures trace == StoppingLoopTrace(ds)
    ensures running <==> forall k :: 0 <= k < |ds| ==> Continues(ds[k])
  {
    running := true;
    trace := [];
    var i := 0;
    while running && i < |ds|
      invariant 0 <= i <= |ds|
      invariant trace == TraceUpTo(ds, i)
      invariant running ==> ContinuesBefore(ds, i)
      invariant !running ==> 0 < i && ContinuesBefore(ds, i - 1) && !Continues(ds[i - 1])
      decreases |ds| - i
    {
      var result := ds[i];
      if !result.ok {
        running := false;
        trace := trace + [Dispatched(false)];
      } else {
        trace := trace + ([Dispatched(true)] + Housekeeping);
        running := !result.stopSignalled;
      }
      assert running == Continues(result);
      i := i + 1;
    }
    if running {
      StoppingTraceWhenExhausted(ds);
      ContinuesBeforeMeansAllContinue(ds, |ds|);
    } else {
      StoppingTraceWhenEnded(ds, i);
    }
  }

  /**
   * After `n` dispatches that neither failed nor asked to stop, the corrected
   * loop's trace is theirs followed by its trace from dispatch `n` on.
   */
  lemma {:induction false} SplitStoppingTrace(ds: seq<Dispatch>, n: nat)
    requires n <= |ds| && ContinuesBefore(ds, n)
    ensures StoppingLoopTrace(ds) == TraceUpTo(ds, n) + StoppingTraceFrom(ds, n)
    decreases n
  {
    if n > 0 {
      var m := n - 1;
      assert ContinuesBefore(ds, m) && Continues(ds[m]);
      SplitStoppingTrace(ds, m);
      var prefix, it, rest := TraceUpTo(ds, m), Iteration(ds[m]), StoppingTraceFrom(ds, n);
      assert StoppingTraceFrom(ds, m) == it + rest;
      assert TraceUpTo(ds, n) == prefix + it;
      AppendAssoc(prefix, it, rest);
    }
  }

  /** When every dispatch went through, the trace is that of all the iterations. */
  lemma StoppingTraceWhenExhausted(ds: seq<Dispatch>)
    requires ContinuesBefore(ds, |ds|)
    ensures StoppingLoopTrace(ds) == TraceUpTo(ds, |ds|)
  {
    SplitStoppingTrace(ds, |ds|);
    AppendEmpty(TraceUpTo(ds, |ds|));
  }

  /** When iteration `i` ended the loop, the trace is that of the first `i` iterations. */
  lemma StoppingTraceWhenEnded(ds: seq<Dispatch>, i: nat)
    requires 0 < i <= |ds| && ContinuesBefore(ds, i - 1) && !Continues(ds[i - 1])
    ensures StoppingLoopTrace(ds) == TraceUpTo(ds, i)
  {
    SplitStoppingTrace(ds, i - 1);
  }

  /**
   * With the stop honoured, a stop requested during dispatch `i + j`, after
   * clean dispatches from `i`, ends the loop after that iteration's housekeeping.
   */
  lemma {:induction false} StopEndsLoop(ds: seq<Dispatch>, i: nat, j: nat)
    requires i + j < |ds| && (forall k :: i <= k < i + j ==> Continues(ds[k]))
    requires ds[i + j].ok && ds[i + j].stopSignalled
    ensures |StoppingTraceFrom(ds, i)| == 4 * (j + 1)
    ensures StoppingTraceFrom(ds, i)[4 * j] == Dispatched(true)
    decreases j
  {
    if j == 0 {
      assert StoppingTraceFrom(ds, i) == [Dispatched(true)] + Housekeeping + [];
    } else {
      var rest := StoppingTraceFrom(ds, i + 1);
      assert StoppingTraceFrom(ds, i) == [Dispatched(true)] + Housekeeping + rest;
      StopEndsLoop(ds, i + 1, j - 1);
      assert StoppingTraceFrom(ds, i)[4 * j] == rest[4 * (j - 1)];
    }
  }

  /** The correction only ends the loop earlier: its steps are a prefix of the original's. */
  lemma {:induction false} StoppingLoopIsPrefix(ds: seq<Dispatch>, i: nat)
    ensures StoppingTraceFrom(ds, i) <= TraceFrom(ds, i)
    ensures (forall k :: i <= k < |ds| ==> Continues(ds[k])) ==> StoppingTraceFrom(ds, i) == TraceFrom(ds, i)
    decreases |ds| - i
  {
    if i < |ds| && ds[i].ok {
      StoppingLoopIsPrefix(ds, i + 1);
      var h := Iteration(ds[i]);
      if ds[i].stopSignalled {
        assert StoppingTraceFrom(ds, i) == h + [];
        assert TraceFrom(ds, i) == h + TraceFrom(ds, i + 1);
      }
    }
  }
}
