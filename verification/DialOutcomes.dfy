/**
 Dial admission told by the steps of a run: which dials count towards an
 outbound's health is decided by what the dials returned, and who may dial by how
 many others are inside.
 */
module DialOutcomes {
  import opened Options
  import opened DialAdmission

  ghost predicate Aligned(run: seq<State>, steps: seq<Step>) {
    |run| == |steps| + 1
  }

  /** What the dial of a call returned, among the first `k` steps. */
  function Returned(steps: seq<Step>, k: nat, t: Thread): Option<DialResult>
    requires k <= |steps|
  {
    if k == 0 then None
    else if steps[k - 1].DialReturns? && steps[k - 1].t == t then Some(steps[k - 1].result)
    else Returned(steps, k - 1, t)
  }

  /** The calls of an outbound whose outcome has been counted, in the order in which their updates began. */
  ghost function CountedOrder(run: seq<State>, steps: seq<Step>, tag: Tag, k: nat): seq<Thread>
    requires Aligned(run, steps) && k <= |steps|
  {
    if k == 0 then []
    else if BeginsUpdate(run[k - 1], steps[k - 1], tag) then CountedOrder(run, steps, tag, k - 1) + [steps[k - 1].t]
    else CountedOrder(run, steps, tag, k - 1)
  }

  /** What the dials of these calls returned. */
  function ResultsOf(steps: seq<Step>, k: nat, calls: seq<Thread>): seq<Option<DialResult>>
    requires k <= |steps|
  {
    if calls == [] then [] else ResultsOf(steps, k, calls[..|calls| - 1]) + [Returned(steps, k, calls[|calls| - 1])]
  }

  function Wrapped(outcomes: seq<DialResult>): seq<Option<DialResult>> {
    if outcomes == [] then [] else Wrapped(outcomes[..|outcomes| - 1]) + [Some(outcomes[|outcomes| - 1])]
  }

  // ---- the moves of one call ----

  predicate Counts(result: Option<DialResult>) {
    result == Some(Succeeded) || result == Some(Failed)
  }

  /** The moves a call can make, step by step and without regard to the rest of the state. */
  predicate Moves(c: Call, step: Step, c': Call) {
    && c'.outbound == c.outbound
    && if step.DialReturns? then c.pc.Dialing? && c'.pc == ReleaseGlobal(step.result)
       else
         && step.Advance?
         && match c.pc
            case CountSlot => c'.pc.LoadDegraded? || c'.pc.AcquireGlobal?
            case LoadDegraded => c'.pc.UncountSlot? || c'.pc.AcquireGlobal?
            case UncountSlot => c'.pc.Finished?
            case AcquireGlobal => c'.pc.Dialing? || (if c.outbound.Some? then c'.pc.ReturnSlot? else c'.pc.Finished?)
            case ReturnSlot => c'.pc.Finished?
            case Dialing => false
            case ReleaseGlobal(r) => if c.outbound.Some? then c'.pc == ReleaseSlot(r) else c'.pc.Finished?
            case ReleaseSlot(r) =>
              if r.Succeeded? then c'.pc.ResetFails? else if r.Failed? then c'.pc.AddFail? else c'.pc.Finished?
            case ResetFails => c'.pc.SwapDegraded?
            case SwapDegraded => c'.pc.Finished?
            case AddFail => c'.pc.ClaimDegraded? || c'.pc.Finished?
            case ClaimDegraded => c'.pc.Finished?
            case Finished => false
  }

  /** Where a call stands, by what its dial returned and whether that has been counted. */
  predicate StandsBy(c: Call, result: Option<DialResult>, counted: bool) {
    && (c.outbound.None? ==> !counted)
    && match c.pc
       case ReleaseGlobal(r) => result == Some(r) && !counted
       case ReleaseSlot(r) => result == Some(r) && !counted && c.outbound.Some?
       case ResetFails => result == Some(Succeeded) && !counted && c.outbound.Some?
       case AddFail => result == Some(Failed) && !counted && c.outbound.Some?
       case SwapDegraded => result == Some(Succeeded) && counted && c.outbound.Some?
       case ClaimDegraded => result == Some(Failed) && counted && c.outbound.Some?
       case Finished => counted <==> Counts(result) && c.outbound.Some?
       case _ => result == None && !counted
  }

  predicate Opens(step: Step, c: Call) {
    step.Begin? && c.outbound == step.outbound && (c.pc.CountSlot? || c.pc.AcquireGlobal?)
  }

  /** A call is changed by its own steps only, and appears with its Begin. */
  ghost predicate Local(s: State, step: Step, s': State, t: Thread) {
    if step.t != t then (t in s'.calls <==> t in s.calls) && (t in s.calls ==> s'.calls[t] == s.calls[t])
    else t in s'.calls && if t in s.calls then Moves(s.calls[t], step, s'.calls[t]) else Opens(step, s'.calls[t])
  }

  lemma AdvanceMoves(s: State, t: Thread)
    requires Enabled(s, Advance(t))
    ensures t in Apply(s, Advance(t)).calls && Moves(s.calls[t], Advance(t), Apply(s, Advance(t)).calls[t])
  {
  }

  lemma StepIsLocal(s: State, step: Step, t: Thread)
    requires Enabled(s, step)
    ensures Local(s, step, Apply(s, step), t)
  {
    OnlyOneCallMoves(s, step);
    if step.Advance? { AdvanceMoves(s, step.t); }
  }

  /** What a step does to the counted outcomes of an outbound. */
  ghost predicate Logs(s: State, step: Step, s': State, tag: Tag) {
    if BeginsUpdate(s, step, tag) then
      s'.Of(tag).outcomes == s.Of(tag).outcomes + [if s.calls[step.t].pc.ResetFails? then Succeeded else Failed]
    else s'.Of(tag).outcomes == s.Of(tag).outcomes
  }

  lemma StepLogs(s: State, step: Step, tag: Tag)
    requires Enabled(s, step)
    ensures Logs(s, step, Apply(s, step), tag)
  {
    if BeginsUpdate(s, step, tag) { UpdateBeginsWith(s, step, tag); }
    else if step.t in s.calls && MidUpdate(s.calls[step.t], tag) { UpdateEnds(s, step, tag); }
    else { OtherStepsLeaveHealth(s, step, tag); }
  }

  // ---- along a run ----

  ghost predicate LocalAt(run: seq<State>, steps: seq<Step>, i: nat, t: Thread) {
    i + 1 < |run| && i < |steps| && Local(run[i], steps[i], run[i + 1], t)
  }

  ghost predicate LogsAt(run: seq<State>, steps: seq<Step>, i: nat, tag: Tag) {
    i + 1 < |run| && i < |steps| && Logs(run[i], steps[i], run[i + 1], tag)
  }

  ghost predicate Steady(run: seq<State>, steps: seq<Step>) {
    && Aligned(run, steps) && run[0].calls == map[] && run[0].health == map[]
    && (forall i: nat, t: Thread :: i < |steps| ==> LocalAt(run, steps, i, t))
    && (forall i: nat, tag: Tag :: i < |steps| ==> LogsAt(run, steps, i, tag))
  }

  lemma RunIsSteady(run: seq<State>, steps: seq<Step>)
    requires IsRun(run, steps)
    ensures Steady(run, steps)
  {
    forall i: nat, t: Thread | i < |steps| ensures LocalAt(run, steps, i, t) { StepIsLocal(run[i], steps[i], t); }
    forall i: nat, tag: Tag | i < |steps| ensures LogsAt(run, steps, i, tag) { StepLogs(run[i], steps[i], tag); }
  }

  lemma {:induction false} UnknownHasNoResult(run: seq<State>, steps: seq<Step>, k: nat, t: Thread)
    requires Steady(run, steps) && k <= |steps| && t !in run[k].calls
    ensures Returned(steps, k, t) == None
    ensures forall tag :: t !in CountedOrder(run, steps, tag, k)
  {
    if k > 0 {
      assert LocalAt(run, steps, k - 1, t);
      UnknownHasNoResult(run, steps, k - 1, t);
    }
  }

  lemma OwnMove(c: Call, step: Step, c': Call, result: Option<DialResult>, counted: bool, tag: Tag)
    requires StandsBy(c, result, counted) && Moves(c, step, c') && c.outbound == Some(tag)
    ensures var begins := step.Advance? && (c.pc.ResetFails? || c.pc.AddFail?);
            StandsBy(c', if step.DialReturns? then Some(step.result) else result, counted || begins)
    ensures step.Advance? && (c.pc.ResetFails? || c.pc.AddFail?) ==> !counted
  {
  }

  /** Each call of the outbound is counted at most once, and stands where its dial's result and the counting say. */
  lemma {:induction false} CallStands(run: seq<State>, steps: seq<Step>, k: nat, t: Thread, tag: Tag)
    requires Steady(run, steps) && k <= |steps| && t in run[k].calls && run[k].calls[t].outbound == Some(tag)
    ensures StandsBy(run[k].calls[t], Returned(steps, k, t), t in CountedOrder(run, steps, tag, k))
  {
    assert k > 0;
    var s, step := run[k - 1], steps[k - 1];
    assert LocalAt(run, steps, k - 1, t);
    if t !in s.calls {
      UnknownHasNoResult(run, steps, k - 1, t);
    } else {
      CallStands(run, steps, k - 1, t, tag);
      if step.t == t {
        OwnMove(s.calls[t], step, run[k].calls[t], Returned(steps, k - 1, t),
                t in CountedOrder(run, steps, tag, k - 1), tag);
      }
    }
  }

  /** A result once given stays. */
  lemma {:induction false} ResultsStay(steps: seq<Step>, k: nat, calls: seq<Thread>)
    requires k < |steps| && (steps[k].DialReturns? ==> steps[k].t !in calls)
    ensures ResultsOf(steps, k + 1, calls) == ResultsOf(steps, k, calls)
  {
    if calls != [] {
      assert calls[|calls| - 1] in calls;
      ResultsStay(steps, k, calls[..|calls| - 1]);
    }
  }

  lemma {:induction false} CountedHaveOutbound(run: seq<State>, steps: seq<Step>, tag: Tag, k: nat, t: Thread)
    requires Steady(run, steps) && k <= |steps| && t in CountedOrder(run, steps, tag, k)
    ensures t in run[k].calls && run[k].calls[t].outbound == Some(tag) && !run[k].calls[t].pc.Dialing?
  {
    assert LocalAt(run, steps, k - 1, t);
    if t in CountedOrder(run, steps, tag, k - 1) {
      CountedHaveOutbound(run, steps, tag, k - 1, t);
      CallStands(run, steps, k - 1, t, tag);
    }
    CallStands(run, steps, k, t, tag);
  }

  lemma CountedKeepResults(run: seq<State>, steps: seq<Step>, tag: Tag, k: nat)
    requires Steady(run, steps) && k < |steps|
    ensures ResultsOf(steps, k + 1, CountedOrder(run, steps, tag, k)) ==
              ResultsOf(steps, k, CountedOrder(run, steps, tag, k))
  {
    assert LocalAt(run, steps, k, steps[k].t);
    if steps[k].DialReturns? && steps[k].t in CountedOrder(run, steps, tag, k) {
      CountedHaveOutbound(run, steps, tag, k, steps[k].t);
    }
    ResultsStay(steps, k, CountedOrder(run, steps, tag, k));
  }

  lemma {:induction false} LogIsResults(run: seq<State>, steps: seq<Step>, tag: Tag, k: nat)
    requires Steady(run, steps) && k <= |steps|
    ensures Wrapped(run[k].Of(tag).outcomes) == ResultsOf(steps, k, CountedOrder(run, steps, tag, k))
  {
    if k > 0 {
      var s, step := run[k - 1], steps[k - 1];
      LogIsResults(run, steps, tag, k - 1);
      CountedKeepResults(run, steps, tag, k - 1);
      assert LogsAt(run, steps, k - 1, tag);
      if BeginsUpdate(s, step, tag) {
        CallStands(run, steps, k - 1, step.t, tag);
        var before, outcomes := CountedOrder(run, steps, tag, k - 1), run[k].Of(tag).outcomes;
        assert (before + [step.t])[..|before + [step.t]| - 1] == before;
        assert outcomes[..|outcomes| - 1] == s.Of(tag).outcomes;
      }
    }
  }

  ghost predicate Unique(calls: seq<Thread>) {
    forall i, j :: 0 <= i < j < |calls| ==> calls[i] != calls[j]
  }

  lemma UniqueSnoc(calls: seq<Thread>, t: Thread)
    requires Unique(calls) && t !in calls
    ensures Unique(calls + [t])
  {
  }

  lemma {:induction false} EachCountedOnce(run: seq<State>, steps: seq<Step>, tag: Tag, k: nat)
    requires Steady(run, steps) && k <= |steps|
    ensures Unique(CountedOrder(run, steps, tag, k))
  {
    if k > 0 {
      EachCountedOnce(run, steps, tag, k - 1);
      if BeginsUpdate(run[k - 1], steps[k - 1], tag) {
        CallStands(run, steps, k - 1, steps[k - 1].t, tag);
        UniqueSnoc(CountedOrder(run, steps, tag, k - 1), steps[k - 1].t);
      }
    }
  }

  // ---- the laws ----

  /**
   The outcomes an outbound counts are exactly what the dials of its calls
   returned, in the order in which the updates began, each call once and
   cancelled dials left out: a call whose dial was cancelled is never counted,
   and one that has finished is counted exactly when its dial succeeded or failed.
   */
  lemma OutcomesAreDialResults(run: seq<State>, steps: seq<Step>, tag: Tag, k: nat)
    requires IsRun(run, steps) && k < |run|
    ensures Wrapped(run[k].Of(tag).outcomes) == ResultsOf(steps, k, CountedOrder(run, steps, tag, k))
    ensures var calls := CountedOrder(run, steps, tag, k);
            && Unique(calls)
            && (forall t :: t in calls ==>
                  t in run[k].calls && run[k].calls[t].outbound == Some(tag) && Counts(Returned(steps, k, t)))
            && (forall t :: t in run[k].calls && run[k].calls[t] == Call(Some(tag), Finished) ==>
                  (t in calls <==> Counts(Returned(steps, k, t))))
  {
    RunIsSteady(run, steps);
    LogIsResults(run, steps, tag, k);
    EachCountedOnce(run, steps, tag, k);
    var calls := CountedOrder(run, steps, tag, k);
    forall t | t in calls
      ensures t in run[k].calls && run[k].calls[t].outbound == Some(tag) && Counts(Returned(steps, k, t))
    {
      CountedHaveOutbound(run, steps, tag, k, t);
      CallStands(run, steps, k, t, tag);
    }
    forall t | t in run[k].calls && run[k].calls[t] == Call(Some(tag), Finished)
      ensures t in calls <==> Counts(Returned(steps, k, t))
    {
      CallStands(run, steps, k, t, tag);
    }
  }

  predicate SameVerdict(h: Health, h': Health) {
    h'.consecFails == h.consecFails && h'.degraded == h.degraded && h'.reports == h.reports && h'.outcomes == h.outcomes
  }

  lemma CancelledStep(s: State, step: Step, tag: Tag)
    requires Enabled(s, step) && step.t in s.calls
    requires || step == DialReturns(step.t, Canceled)
             || s.calls[step.t].pc == ReleaseGlobal(Canceled) || s.calls[step.t].pc == ReleaseSlot(Canceled)
    ensures SameVerdict(s.Of(tag), Apply(s, step).Of(tag))
  {
  }

  /** From the moment its dial is cancelled no step of a call touches the health of any outbound but its slot. */
  lemma CancelledDialsAreIgnored(run: seq<State>, steps: seq<Step>, k: nat, t: Thread, tag: Tag)
    requires IsRun(run, steps) && k < |steps| && steps[k].t == t && t in run[k].calls && run[k].calls[t].outbound.Some?
    requires Returned(steps, k + 1, t) == Some(Canceled)
    ensures SameVerdict(run[k].Of(tag), run[k + 1].Of(tag))
  {
    assert Enabled(run[k], steps[k]) && run[k + 1] == Apply(run[k], steps[k]);
    RunIsSteady(run, steps);
    CallStands(run, steps, k, t, run[k].calls[t].outbound.value);
    CancelledStep(run[k], steps[k], tag);
  }

  /** Failures since the last success among the results of dials. */
  function FailsAmong(results: seq<Option<DialResult>>): nat {
    if results == [] then 0
    else match results[|results| - 1]
      case Some(Succeeded) => 0
      case Some(Failed) => FailsAmong(results[..|results| - 1]) + 1
      case _ => FailsAmong(results[..|results| - 1])
  }

  lemma {:induction false} FailsWrapped(outcomes: seq<DialResult>)
    ensures FailsAmong(Wrapped(outcomes)) == FailsSinceSuccess(outcomes)
  {
    if outcomes != [] {
      var front := outcomes[..|outcomes| - 1];
      FailsWrapped(front);
      assert Wrapped(outcomes)[..|Wrapped(outcomes)| - 1] == Wrapped(front);
    }
  }

  /**
   The law of the flag over what the dials returned: with no update under way an
   outbound is degraded iff 8 of its counted dials failed since the last that
   succeeded, exactly when the last flag write fitted; and always when its updates
   run one after another.
   */
  lemma FlagOverDials(run: seq<State>, steps: seq<Step>, tag: Tag, k: nat)
    requires IsRun(run, steps) && k < |run| && !UpdateUnderWay(run[k], tag)
    ensures var fails := FailsAmong(ResultsOf(steps, k, CountedOrder(run, steps, tag, k)));
            && ((run[k].Of(tag).degraded <==> fails >= FAIL_THRESHOLD) <==> LastWriteFitted(run, steps, tag, k))
            && (SerialUpdates(run, steps, tag) ==> (run[k].Of(tag).degraded <==> fails >= FAIL_THRESHOLD))
  {
    OutcomesAreDialResults(run, steps, tag, k);
    FailsWrapped(run[k].Of(tag).outcomes);
    FlagExactIffLastWriteFitted(run, steps, tag, k);
    if SerialUpdates(run, steps, tag) { SerialFlag(run, steps, tag, k); }
  }

  // ---- who may dial ----

  lemma AcquireStep(s: State, t: Thread)
    requires t in s.calls && s.calls[t].pc.AcquireGlobal?
    ensures Enabled(s, Advance(t)) && t in Apply(s, Advance(t)).calls
    ensures Apply(s, Advance(t)).calls[t].pc.Dialing? <==> s.occupied < MAX_CONCURRENT_DIALS
  {
  }

  /** A call that reaches the semaphore dials exactly when fewer than 256 calls are between acquire and release. */
  lemma AdmittedIff(run: seq<State>, steps: seq<Step>, k: nat, t: Thread)
    requires IsRun(run, steps) && k < |steps| && steps[k] == Advance(t) && t in run[k].calls
             && run[k].calls[t].pc.AcquireGlobal?
    ensures t in run[k + 1].calls && (run[k + 1].calls[t].pc.Dialing? <==> |Dials(run[k])| < MAX_CONCURRENT_DIALS)
  {
    assert run[k + 1] == Apply(run[k], steps[k]);
    SlotsNeverLeak(run, steps, k);
    AcquireStep(run[k], t);
  }

  lemma CountStep(s: State, t: Thread, tag: Tag)
    requires t in s.calls && (s.calls[t] == Call(Some(tag), CountSlot) || s.calls[t] == Call(Some(tag), LoadDegraded))
    ensures Enabled(s, Advance(t)) && t in Apply(s, Advance(t)).calls
    ensures s.calls[t].pc.CountSlot? ==>
              (Apply(s, Advance(t)).calls[t].pc.LoadDegraded? <==> s.Of(tag).inFlight >= DEGRADED_DIAL_BUDGET)
    ensures s.calls[t].pc.LoadDegraded? ==> (Apply(s, Advance(t)).calls[t].pc.UncountSlot? <==> s.Of(tag).degraded)
  {
  }

  /**
   A call is shed exactly when at its count 32 others of its outbound were counted
   and at its look at the flag the last report was a degradation.
   */
  lemma ShedIff(run: seq<State>, steps: seq<Step>, k: nat, t: Thread, tag: Tag)
    requires IsRun(run, steps) && k < |steps| && steps[k] == Advance(t) && t in run[k].calls
             && run[k].calls[t].outbound == Some(tag)
    ensures t in run[k + 1].calls
    ensures run[k].calls[t].pc.CountSlot? ==>
              (run[k + 1].calls[t].pc.LoadDegraded? <==> |CountedCalls(run[k], tag)| >= DEGRADED_DIAL_BUDGET)
    ensures run[k].calls[t].pc.LoadDegraded? ==>
              (run[k + 1].calls[t].pc.UncountSlot? <==> |run[k].Of(tag).reports| % 2 == 1)
  {
    assert Enabled(run[k], steps[k]) && run[k + 1] == Apply(run[k], steps[k]);
    SlotsNeverLeak(run, steps, k);
    ReportsAlternate(run, steps, tag, k);
    OnlyOneCallMoves(run[k], steps[k]);
    if run[k].calls[t].pc.CountSlot? || run[k].calls[t].pc.LoadDegraded? { CountStep(run[k], t, tag); }
  }
}
