/**
 Dial admission and degradation: every NewConnection call takes a slot of its
 outbound's budget, then a slot of the global semaphore, dials, gives both
 back and reports the outcome to the outbound's health. Each atomic operation
 is one step; any number of calls interleave.
 */
module DialAdmission {
  import opened Options
  import opened Counting

  type Tag = string
  type Thread = nat

  const MAX_CONCURRENT_DIALS := 256
  const FAIL_THRESHOLD := 8
  const DEGRADED_DIAL_BUDGET := 32

  datatype DialResult = Succeeded | Canceled | Failed

  /** Where a call stands; each name says what its next atomic operation is. */
  datatype Pc =
    | CountSlot                           // inFlight.Add(1)
    | LoadDegraded                        // counted above the budget: degraded.Load()
    | UncountSlot                         // to be shed: inFlight.Add(-1)
    | AcquireGlobal                       // tryAcquireDial
    | ReturnSlot                          // no global slot: releaseSlot
    | Dialing
    | ReleaseGlobal(result: DialResult)   // releaseDial
    | ReleaseSlot(result: DialResult)     // releaseSlot
    | ResetFails                          // dial succeeded: consecFails.Store(0)
    | SwapDegraded                        // degraded.Swap(false)
    | AddFail                             // dial failed: consecFails.Add(1)
    | ClaimDegraded                       // degraded.CompareAndSwap(false, true)
    | Finished

  datatype Report = Degraded | Recovered

  /** Per-outbound health, with the log of transitions it reported and of outcomes it counted. */
  datatype Health = Health(consecFails: int, degraded: bool, inFlight: int,
                           reports: seq<Report>, outcomes: seq<DialResult>)

  /** One NewConnection call; a dialer that is no outbound has no health. */
  datatype Call = Call(outbound: Option<Tag>, pc: Pc)

  datatype State = State(health: map<Tag, Health>, occupied: int, calls: map<Thread, Call>) {
    function Of(tag: Tag): Health {
      if tag in health then health[tag] else Health(0, false, 0, [], [])
    }

    function At(t: Thread, pc: Pc): State
      requires t in calls
    {
      this.(calls := calls[t := calls[t].(pc := pc)])
    }

    function With(tag: Tag, h: Health): State {
      this.(health := health[tag := h])
    }
  }

  datatype Step =
    | Begin(t: Thread, outbound: Option<Tag>)
    | DialReturns(t: Thread, result: DialResult)
    | Advance(t: Thread)

  ghost predicate Init(s: State) {
    s.health == map[] && s.occupied == 0 && s.calls == map[]
  }

  predicate Enabled(s: State, step: Step) {
    match step
    case Begin(t, _) => t !in s.calls
    case DialReturns(t, _) => t in s.calls && s.calls[t].pc.Dialing?
    case Advance(t) =>
      && t in s.calls && !s.calls[t].pc.Dialing? && !s.calls[t].pc.Finished?
      && (s.calls[t].outbound.Some? || s.calls[t].pc.AcquireGlobal? || s.calls[t].pc.ReleaseGlobal?)
  }

  function Apply(s: State, step: Step): State
    requires Enabled(s, step)
  {
    match step
    case Begin(t, outbound) =>
      s.(calls := s.calls[t := Call(outbound, if outbound.Some? then CountSlot else AcquireGlobal)])
    case DialReturns(t, result) => s.At(t, ReleaseGlobal(result))
    case Advance(t) =>
      if s.calls[t].outbound.Some? then AdvanceOutbound(s, t, s.calls[t].outbound.value) else AdvancePlain(s, t)
  }

  /** A dialer without health only meets the global semaphore. */
  function AdvancePlain(s: State, t: Thread): State
    requires t in s.calls
  {
    if s.calls[t].pc.AcquireGlobal? then
      if s.occupied < MAX_CONCURRENT_DIALS then s.At(t, Dialing).(occupied := s.occupied + 1) else s.At(t, Finished)
    else s.At(t, Finished).(occupied := s.occupied - 1)
  }

  function AdvanceOutbound(s: State, t: Thread, tag: Tag): State
    requires t in s.calls && !s.calls[t].pc.Dialing? && !s.calls[t].pc.Finished?
  {
    var h := s.Of(tag);
    match s.calls[t].pc
    case CountSlot =>
      var n := h.inFlight + 1;
      s.With(tag, h.(inFlight := n)).At(t, if n > DEGRADED_DIAL_BUDGET then LoadDegraded else AcquireGlobal)
    case LoadDegraded => s.At(t, if h.degraded then UncountSlot else AcquireGlobal)
    case UncountSlot => s.With(tag, h.(inFlight := h.inFlight - 1)).At(t, Finished)
    case AcquireGlobal =>
      if s.occupied < MAX_CONCURRENT_DIALS then s.At(t, Dialing).(occupied := s.occupied + 1)
      else s.At(t, ReturnSlot)
    case ReturnSlot => s.With(tag, h.(inFlight := h.inFlight - 1)).At(t, Finished)
    case ReleaseGlobal(result) => s.At(t, ReleaseSlot(result)).(occupied := s.occupied - 1)
    case ReleaseSlot(result) =>
      s.With(tag, h.(inFlight := h.inFlight - 1))
       .At(t, match result case Succeeded => ResetFails case Canceled => Finished case Failed => AddFail)
    case ResetFails =>
      s.With(tag, h.(consecFails := 0, outcomes := h.outcomes + [Succeeded])).At(t, SwapDegraded)
    case SwapDegraded =>
      s.With(tag, h.(degraded := false, reports := if h.degraded then h.reports + [Recovered] else h.reports))
       .At(t, Finished)
    case AddFail =>
      var fails := h.consecFails + 1;
      s.With(tag, h.(consecFails := fails, outcomes := h.outcomes + [Failed]))
       .At(t, if fails >= FAIL_THRESHOLD then ClaimDegraded else Finished)
    case ClaimDegraded =>
      s.With(tag, h.(degraded := true, reports := if h.degraded then h.reports else h.reports + [Degraded]))
       .At(t, Finished)
  }

  ghost predicate IsRun(run: seq<State>, steps: seq<Step>) {
    && |run| == |steps| + 1
    && Init(run[0])
    && forall k :: 0 <= k < |steps| ==> Enabled(run[k], steps[k]) && run[k + 1] == Apply(run[k], steps[k])
  }

  // ---- who holds what ----

  /** Between the increment and the decrement of inFlight. */
  predicate Counted(c: Call, tag: Tag) {
    c.outbound == Some(tag) && (c.pc.LoadDegraded? || c.pc.UncountSlot? || Holding(c, tag))
  }

  /** tryAcquireSlot returned true and releaseSlot has not run. */
  predicate Holding(c: Call, tag: Tag) {
    c.outbound == Some(tag)
    && (c.pc.AcquireGlobal? || c.pc.ReturnSlot? || c.pc.Dialing? || c.pc.ReleaseGlobal? || c.pc.ReleaseSlot?)
  }

  /** Between tryAcquireDial returning true and releaseDial. */
  predicate InDial(c: Call) {
    c.pc.Dialing? || c.pc.ReleaseGlobal?
  }

  ghost function CountedCalls(s: State, tag: Tag): set<Thread> {
    set t | t in s.calls && Counted(s.calls[t], tag)
  }

  ghost function Holders(s: State, tag: Tag): set<Thread> {
    set t | t in s.calls && Holding(s.calls[t], tag)
  }

  ghost function Dials(s: State): set<Thread> {
    set t | t in s.calls && InDial(s.calls[t])
  }

  // ---- the invariant ----

  ghost predicate Alternating(reports: seq<Report>) {
    forall i :: 0 <= i < |reports| ==> (reports[i].Degraded? <==> i % 2 == 0)
  }

  ghost predicate SlotsBalanced(s: State) {
    && (forall tag :: s.Of(tag).inFlight == |CountedCalls(s, tag)|)
    && s.occupied == |Dials(s)| <= MAX_CONCURRENT_DIALS
  }

  ghost predicate ReportsBalanced(s: State) {
    forall tag :: FlagMatches(s.Of(tag))
  }

  ghost predicate PlainCalls(s: State) {
    forall t :: t in s.calls && s.calls[t].outbound.None? ==>
      s.calls[t].pc.AcquireGlobal? || s.calls[t].pc.Dialing? || s.calls[t].pc.ReleaseGlobal? || s.calls[t].pc.Finished?
  }

  ghost predicate Inv(s: State) {
    SlotsBalanced(s) && ReportsBalanced(s) && PlainCalls(s)
  }

  lemma OnlyOneCallMoves(s: State, step: Step)
    requires Enabled(s, step)
    ensures step.t in Apply(s, step).calls
    ensures Apply(s, step).calls == s.calls[step.t := Apply(s, step).calls[step.t]]
  {
  }

  /** A step touches one call, so each of the sets gains or loses at most that call. */
  lemma StepMovesOne(s: State, step: Step, tag: Tag)
    requires Enabled(s, step)
    ensures var s' := Apply(s, step);
            && step.t in s'.calls
            && CountedCalls(s', tag) == Moved(CountedCalls(s, tag), step.t, Counted(s'.calls[step.t], tag))
            && Holders(s', tag) == Moved(Holders(s, tag), step.t, Holding(s'.calls[step.t], tag))
            && Dials(s') == Moved(Dials(s), step.t, InDial(s'.calls[step.t]))
  {
    OnlyOneCallMoves(s, step);
  }

  function One(b: bool): int { if b then 1 else 0 }

  /** A step changes each counter by exactly what it changes the standing of its call. */
  lemma InFlightDelta(s: State, step: Step, tag: Tag)
    requires Enabled(s, step)
    ensures var s' := Apply(s, step);
            s'.Of(tag).inFlight - s.Of(tag).inFlight
            == One(Counted(s'.calls[step.t], tag)) - One(step.t in s.calls && Counted(s.calls[step.t], tag))
  {
  }

  lemma OccupiedDelta(s: State, step: Step)
    requires Enabled(s, step)
    ensures var s' := Apply(s, step);
            && s'.occupied - s.occupied
               == One(InDial(s'.calls[step.t])) - One(step.t in s.calls && InDial(s.calls[step.t]))
            && (s'.occupied <= s.occupied || s'.occupied <= MAX_CONCURRENT_DIALS)
  {
  }

  lemma StepKeepsSlots(s: State, step: Step)
    requires Enabled(s, step) && SlotsBalanced(s)
    ensures SlotsBalanced(Apply(s, step))
  {
    var s' := Apply(s, step);
    forall tag ensures s'.Of(tag).inFlight == |CountedCalls(s', tag)| {
      CountKept(s, step, tag);
    }
    StepMovesOne(s, step, "");
    OccupiedDelta(s, step);
    MovedCard(Dials(s), step.t, InDial(s'.calls[step.t]));
  }

  lemma CountKept(s: State, step: Step, tag: Tag)
    requires Enabled(s, step) && s.Of(tag).inFlight == |CountedCalls(s, tag)|
    ensures Apply(s, step).Of(tag).inFlight == |CountedCalls(Apply(s, step), tag)|
  {
    StepMovesOne(s, step, tag);
    InFlightDelta(s, step, tag);
    MovedCard(CountedCalls(s, tag), step.t, Counted(Apply(s, step).calls[step.t], tag));
  }

  ghost predicate FlagMatches(h: Health) {
    Alternating(h.reports) && (h.degraded <==> |h.reports| % 2 == 1)
  }

  /** The flag and the reports change together or not at all. */
  lemma StepReports(s: State, step: Step, tag: Tag)
    requires Enabled(s, step)
    ensures var h, h' := s.Of(tag), Apply(s, step).Of(tag);
            || (h'.degraded == h.degraded && h'.reports == h.reports)
            || (h'.degraded && !h.degraded && h'.reports == h.reports + [Degraded])
            || (!h'.degraded && h.degraded && h'.reports == h.reports + [Recovered])
  {
  }

  lemma StepKeepsReports(s: State, step: Step)
    requires Enabled(s, step) && ReportsBalanced(s)
    ensures ReportsBalanced(Apply(s, step))
  {
    forall tag ensures FlagMatches(Apply(s, step).Of(tag)) {
      StepReports(s, step, tag);
      AlternationGrows(s.Of(tag), Apply(s, step).Of(tag));
    }
  }

  lemma AlternationGrows(h: Health, h': Health)
    requires FlagMatches(h)
    requires || (h'.degraded == h.degraded && h'.reports == h.reports)
             || (h'.degraded && !h.degraded && h'.reports == h.reports + [Degraded])
             || (!h'.degraded && h.degraded && h'.reports == h.reports + [Recovered])
    ensures FlagMatches(h')
  {
  }

  lemma StepKeepsPlainCalls(s: State, step: Step)
    requires Enabled(s, step) && PlainCalls(s)
    ensures PlainCalls(Apply(s, step))
  {
    OnlyOneCallMoves(s, step);
  }

  lemma {:induction false} RunKeepsInv(run: seq<State>, steps: seq<Step>, k: nat)
    requires IsRun(run, steps) && k < |run|
    ensures Inv(run[k])
  {
    if k == 0 {
      var s := run[0];
      assert forall tag :: CountedCalls(s, tag) == {};
      assert Dials(s) == {};
    } else {
      RunKeepsInv(run, steps, k - 1);
      assert Enabled(run[k - 1], steps[k - 1]) && run[k] == Apply(run[k - 1], steps[k - 1]);
      StepKeepsSlots(run[k - 1], steps[k - 1]);
      StepKeepsReports(run[k - 1], steps[k - 1]);
      StepKeepsPlainCalls(run[k - 1], steps[k - 1]);
    }
  }

  // ---- slots ----

  /**
   In every reachable state the counters are the numbers of calls inside their
   regions, the semaphore never exceeds its capacity, and nothing is left
   counted once every call is finished.
   */
  lemma SlotsNeverLeak(run: seq<State>, steps: seq<Step>, k: nat)
    requires IsRun(run, steps) && k < |run|
    ensures forall tag :: run[k].Of(tag).inFlight == |CountedCalls(run[k], tag)|
    ensures run[k].occupied == |Dials(run[k])| <= MAX_CONCURRENT_DIALS
    ensures (forall t :: t in run[k].calls ==> run[k].calls[t].pc.Finished?) ==>
              run[k].occupied == 0 && forall tag :: run[k].Of(tag).inFlight == 0
  {
    RunKeepsInv(run, steps, k);
    if forall t :: t in run[k].calls ==> run[k].calls[t].pc.Finished? {
      assert Dials(run[k]) == {};
      assert forall tag :: CountedCalls(run[k], tag) == {};
    }
  }

  // ---- the degraded budget ----

  /** While degraded, a call becomes a holder only by being counted within the budget. */
  lemma NewHolderWithinBudget(s: State, step: Step, tag: Tag)
    requires Enabled(s, step) && s.Of(tag).degraded
    ensures var s' := Apply(s, step);
            Holding(s'.calls[step.t], tag) ==>
              (step.t in s.calls && Holding(s.calls[step.t], tag)) || s'.Of(tag).inFlight <= DEGRADED_DIAL_BUDGET
  {
  }

  lemma DegradedStep(s: State, step: Step, tag: Tag)
    requires Enabled(s, step) && SlotsBalanced(s) && PlainCalls(s) && s.Of(tag).degraded
    ensures |Holders(Apply(s, step), tag)| <= Max(DEGRADED_DIAL_BUDGET, |Holders(s, tag)|)
  {
    var s' := Apply(s, step);
    StepMovesOne(s, step, tag);
    MovedCard(Holders(s, tag), step.t, Holding(s'.calls[step.t], tag));
    NewHolderWithinBudget(s, step, tag);
    CountKept(s, step, tag);
    SubsetCard(Holders(s', tag), CountedCalls(s', tag));
  }

  /**
   While an outbound stays degraded the dials holding a slot never exceed the
   budget, or the number already holding one when the period began.
   */
  lemma {:induction false} DegradedBudget(run: seq<State>, steps: seq<Step>, tag: Tag, i: nat, j: nat)
    requires IsRun(run, steps) && i <= j < |run|
    requires forall k :: i <= k <= j ==> run[k].Of(tag).degraded
    ensures |Holders(run[j], tag)| <= Max(DEGRADED_DIAL_BUDGET, |Holders(run[i], tag)|)
    decreases j
  {
    if i < j {
      DegradedBudget(run, steps, tag, i, j - 1);
      RunKeepsInv(run, steps, j - 1);
      assert Enabled(run[j - 1], steps[j - 1]) && run[j] == Apply(run[j - 1], steps[j - 1]);
      DegradedStep(run[j - 1], steps[j - 1], tag);
    }
  }

  /** "No more than the budget hang on a degraded outbound" holds of a whole period iff it holds when it begins. */
  lemma BudgetHoldsIffAtEntry(run: seq<State>, steps: seq<Step>, tag: Tag, i: nat, j: nat)
    requires IsRun(run, steps) && i <= j < |run|
    requires forall k :: i <= k <= j ==> run[k].Of(tag).degraded
    ensures (forall k :: i <= k <= j ==> |Holders(run[k], tag)| <= DEGRADED_DIAL_BUDGET)
       <==> |Holders(run[i], tag)| <= DEGRADED_DIAL_BUDGET
  {
    forall k | i <= k <= j ensures |Holders(run[k], tag)| <= Max(DEGRADED_DIAL_BUDGET, |Holders(run[i], tag)|) {
      DegradedBudget(run, steps, tag, i, k);
    }
  }

  // ---- the budget alone is no bound ----

  /**
   Of outbound "a", the calls below `failed` have failed one after another, fewer
   than the threshold, and `parked` others have a slot of its budget and are
   about to try for a global one.
   */
  ghost predicate Busy(s: State, failed: nat, parked: nat) {
    && s.Of("a").consecFails == failed && !s.Of("a").degraded && s.occupied == 0
    && (forall t: nat :: t in s.calls <==> t < failed || Within(FAIL_THRESHOLD, t, FAIL_THRESHOLD + parked))
    && (forall t: nat :: t in s.calls ==> s.calls[t] == Call(Some("a"), if t < failed then Finished else AcquireGlobal))
  }

  ghost predicate Reaches(s: State) {
    exists run, steps :: IsRun(run, steps) && run[|run| - 1] == s
  }

  lemma Then(s: State, step: Step) returns (s': State)
    requires Reaches(s) && Enabled(s, step)
    ensures Reaches(s') && s' == Apply(s, step)
  {
    var run, steps :| IsRun(run, steps) && run[|run| - 1] == s;
    s' := Apply(s, step);
    assert IsRun(run + [s'], steps + [step]);
    assert (run + [s'])[|run|] == s';
  }

  /** A call of a healthy outbound gets a slot, however many are taken. */
  lemma Parks(s0: State, t: Thread) returns (s: State)
    requires Reaches(s0) && t !in s0.calls && !s0.Of("a").degraded
    ensures Reaches(s) && s.calls == s0.calls[t := Call(Some("a"), AcquireGlobal)]
    ensures s.occupied == s0.occupied && s.Of("a") == s0.Of("a").(inFlight := s0.Of("a").inFlight + 1)
  {
    s := Then(s0, Begin(t, Some("a")));
    s := Then(s, Advance(t));
    if s.calls[t].pc.LoadDegraded? { s := Then(s, Advance(t)); }
  }

  /** It goes on to dial. */
  lemma StartsDialing(s0: State, t: Thread) returns (s: State)
    requires Reaches(s0) && t !in s0.calls && !s0.Of("a").degraded && s0.occupied < MAX_CONCURRENT_DIALS
    ensures Reaches(s) && s.calls == s0.calls[t := Call(Some("a"), Dialing)]
    ensures s.occupied == s0.occupied + 1 && s.Of("a") == s0.Of("a").(inFlight := s0.Of("a").inFlight + 1)
  {
    s := Parks(s0, t);
    s := Then(s, Advance(t));
  }

  /** The dial ends and both slots are given back. */
  lemma DialEnds(s0: State, t: Thread, result: DialResult) returns (s: State)
    requires Reaches(s0) && t !in s0.calls && !s0.Of("a").degraded && s0.occupied < MAX_CONCURRENT_DIALS
             && !result.Canceled?
    ensures Reaches(s) && s.occupied == s0.occupied && s.Of("a") == s0.Of("a")
    ensures s.calls == s0.calls[t := Call(Some("a"), if result.Succeeded? then ResetFails else AddFail)]
  {
    s := StartsDialing(s0, t);
    s := Then(s, DialReturns(t, result));
    s := Then(s, Advance(t));
    s := Then(s, Advance(t));
  }

  /** A failure that does not reach the threshold. */
  lemma FailsOnce(s0: State, t: Thread) returns (s: State)
    requires Reaches(s0) && t !in s0.calls && !s0.Of("a").degraded && s0.occupied == 0
    requires s0.Of("a").consecFails + 1 < FAIL_THRESHOLD
    ensures Reaches(s) && s.calls == s0.calls[t := Call(Some("a"), Finished)] && s.occupied == 0
    ensures !s.Of("a").degraded && s.Of("a").consecFails == s0.Of("a").consecFails + 1
  {
    s := DialEnds(s0, t, Failed);
    s := Then(s, Advance(t));
  }

  lemma {:induction false} FailsInTurn(failed: nat) returns (s: State)
    requires failed < FAIL_THRESHOLD
    ensures Reaches(s) && Busy(s, failed, 0)
  {
    if failed == 0 {
      s := State(map[], 0, map[]);
      assert IsRun([s], []);
      assert [s][|[s]| - 1] == s;
    } else {
      s := FailsInTurn(failed - 1);
      s := FailsOnce(s, failed - 1);
    }
  }

  lemma {:induction false} ManyPark(parked: nat) returns (s: State)
    ensures Reaches(s) && Busy(s, FAIL_THRESHOLD - 1, parked)
  {
    if parked == 0 {
      s := FailsInTurn(FAIL_THRESHOLD - 1);
    } else {
      s := ManyPark(parked - 1);
      s := Parks(s, FAIL_THRESHOLD + parked - 1);
      assert Within(FAIL_THRESHOLD, FAIL_THRESHOLD + parked - 1, FAIL_THRESHOLD + parked);
      forall t: nat
        ensures t in s.calls <==> t < FAIL_THRESHOLD - 1 || Within(FAIL_THRESHOLD, t, FAIL_THRESHOLD + parked)
      {
        assert Within(FAIL_THRESHOLD, t, FAIL_THRESHOLD + parked)
          <==> Within(FAIL_THRESHOLD, t, FAIL_THRESHOLD + (parked - 1)) || t == FAIL_THRESHOLD + parked - 1;
      }
    }
  }

  /** No number bounds the calls that hold a slot when the outbound turns degraded. */
  lemma DegradedOverBudget(n: nat) returns (s: State)
    ensures Reaches(s) && s.Of("a").degraded && |Holders(s, "a")| == n
  {
    var last := FAIL_THRESHOLD - 1;
    s := ManyPark(n);
    s := DialEnds(s, last, Failed);
    s := Then(s, Advance(last));
    s := Then(s, Advance(last));
    assert Holders(s, "a") == Range(FAIL_THRESHOLD, FAIL_THRESHOLD + n);
    RangeCard(FAIL_THRESHOLD, FAIL_THRESHOLD + n);
  }

  // ---- reports and the flag ----

  /** Counted failures since the last counted success. */
  function FailsSinceSuccess(outcomes: seq<DialResult>): nat {
    if outcomes == [] then 0
    else match outcomes[|outcomes| - 1]
      case Succeeded => 0
      case Canceled => FailsSinceSuccess(outcomes[..|outcomes| - 1])
      case Failed => FailsSinceSuccess(outcomes[..|outcomes| - 1]) + 1
  }

  /** The first atomic operation of a health update is done, the last is not. */
  predicate MidUpdate(c: Call, tag: Tag) {
    c.outbound == Some(tag) && (c.pc.SwapDegraded? || c.pc.ClaimDegraded?)
  }

  /** Health updates of the outbound run one after another: none begins while another is under way. */
  ghost predicate SerialUpdates(run: seq<State>, steps: seq<Step>, tag: Tag)
    requires IsRun(run, steps)
  {
    forall k :: 0 <= k < |steps| && BeginsUpdate(run[k], steps[k], tag) ==>
      forall t :: t in run[k].calls ==> !MidUpdate(run[k].calls[t], tag)
  }

  predicate BeginsUpdate(s: State, step: Step, tag: Tag) {
    step.Advance? && step.t in s.calls && s.calls[step.t].outbound == Some(tag)
    && (s.calls[step.t].pc.ResetFails? || s.calls[step.t].pc.AddFail?)
  }

  ghost predicate SerialInv(s: State, tag: Tag) {
    var h := s.Of(tag);
    && h.consecFails == FailsSinceSuccess(h.outcomes)
    && (forall t, u :: t in s.calls && u in s.calls && MidUpdate(s.calls[t], tag) && MidUpdate(s.calls[u], tag) ==>
          t == u)
    && (forall t :: t in s.calls && s.calls[t].outbound == Some(tag) && s.calls[t].pc.SwapDegraded? ==>
          h.consecFails == 0)
    && (forall t :: t in s.calls && s.calls[t].outbound == Some(tag) && s.calls[t].pc.ClaimDegraded? ==>
          h.consecFails >= FAIL_THRESHOLD)
    && ((forall t :: t in s.calls ==> !MidUpdate(s.calls[t], tag)) ==>
          (h.degraded <==> h.consecFails >= FAIL_THRESHOLD))
  }

  /** Only a health update of this outbound touches its failure counter and flag. */
  lemma OtherStepsLeaveHealth(s: State, step: Step, tag: Tag)
    requires Enabled(s, step) && !BeginsUpdate(s, step, tag)
    requires !(step.t in s.calls && MidUpdate(s.calls[step.t], tag))
    ensures var s' := Apply(s, step);
            && s'.Of(tag).consecFails == s.Of(tag).consecFails
            && s'.Of(tag).degraded == s.Of(tag).degraded
            && s'.Of(tag).outcomes == s.Of(tag).outcomes
            && !MidUpdate(s'.calls[step.t], tag)
  {
  }

  lemma FailsSnoc(outcomes: seq<DialResult>, x: DialResult)
    ensures FailsSinceSuccess(outcomes + [x]) ==
            match x
            case Succeeded => 0
            case Canceled => FailsSinceSuccess(outcomes)
            case Failed => FailsSinceSuccess(outcomes) + 1
  {
    assert (outcomes + [x])[..|outcomes + [x]| - 1] == outcomes;
  }

  /** The first operation of an update, on the health record. */
  lemma UpdateBeginsWith(s: State, step: Step, tag: Tag)
    requires Enabled(s, step) && BeginsUpdate(s, step, tag)
    ensures var h, h', pc := s.Of(tag), Apply(s, step).Of(tag), s.calls[step.t].pc;
            && h'.degraded == h.degraded
            && h'.consecFails == (if pc.ResetFails? then 0 else h.consecFails + 1)
            && h'.outcomes == h.outcomes + [if pc.ResetFails? then Succeeded else Failed]
            && Apply(s, step).calls[step.t].pc ==
               (if pc.ResetFails? then SwapDegraded
                else if h'.consecFails >= FAIL_THRESHOLD then ClaimDegraded else Finished)
  {
  }

  lemma UpdateBegins(s: State, step: Step, tag: Tag)
    requires Enabled(s, step) && BeginsUpdate(s, step, tag)
    requires s.Of(tag).consecFails == FailsSinceSuccess(s.Of(tag).outcomes)
    ensures var h := Apply(s, step).Of(tag);
            && h.consecFails == FailsSinceSuccess(h.outcomes)
            && h.degraded == s.Of(tag).degraded
            && match Apply(s, step).calls[step.t].pc
               case SwapDegraded => h.consecFails == 0
               case ClaimDegraded => h.consecFails >= FAIL_THRESHOLD
               case _ => h.consecFails == s.Of(tag).consecFails + 1 < FAIL_THRESHOLD
  {
    UpdateBeginsWith(s, step, tag);
    FailsSnoc(s.Of(tag).outcomes, if s.calls[step.t].pc.ResetFails? then Succeeded else Failed);
  }

  lemma UpdateEnds(s: State, step: Step, tag: Tag)
    requires Enabled(s, step) && step.t in s.calls && MidUpdate(s.calls[step.t], tag)
    ensures var h, h' := s.Of(tag), Apply(s, step).Of(tag);
            && h'.consecFails == h.consecFails && h'.outcomes == h.outcomes
            && (h'.degraded <==> s.calls[step.t].pc.ClaimDegraded?)
            && Apply(s, step).calls[step.t].pc.Finished?
  {
  }

  lemma SerialBegins(s: State, step: Step, tag: Tag)
    requires Enabled(s, step) && SerialInv(s, tag) && BeginsUpdate(s, step, tag)
    requires forall t :: t in s.calls ==> !MidUpdate(s.calls[t], tag)
    ensures SerialInv(Apply(s, step), tag)
  {
    OnlyOneCallMoves(s, step);
    UpdateBegins(s, step, tag);
    var s' := Apply(s, step);
    assert forall t :: t in s'.calls && MidUpdate(s'.calls[t], tag) ==> t == step.t;
    if (forall t :: t in s'.calls ==> !MidUpdate(s'.calls[t], tag)) { assert !MidUpdate(s'.calls[step.t], tag); }
  }

  lemma SerialEnds(s: State, step: Step, tag: Tag)
    requires Enabled(s, step) && SerialInv(s, tag) && step.t in s.calls && MidUpdate(s.calls[step.t], tag)
    ensures SerialInv(Apply(s, step), tag)
  {
    OnlyOneCallMoves(s, step);
    UpdateEnds(s, step, tag);
    var s' := Apply(s, step);
    assert forall t :: t in s'.calls ==> !MidUpdate(s'.calls[t], tag);
  }

  lemma SerialPasses(s: State, step: Step, tag: Tag)
    requires Enabled(s, step) && SerialInv(s, tag) && !BeginsUpdate(s, step, tag)
    requires !(step.t in s.calls && MidUpdate(s.calls[step.t], tag))
    ensures SerialInv(Apply(s, step), tag)
  {
    OnlyOneCallMoves(s, step);
    OtherStepsLeaveHealth(s, step, tag);
    var s' := Apply(s, step);
    assert forall t :: t in s'.calls && MidUpdate(s'.calls[t], tag) ==> t in s.calls && s'.calls[t] == s.calls[t];
    assert forall t :: t in s.calls && MidUpdate(s.calls[t], tag) ==> MidUpdate(s'.calls[t], tag);
  }

  lemma SerialStep(s: State, step: Step, tag: Tag)
    requires Enabled(s, step) && SerialInv(s, tag)
    requires BeginsUpdate(s, step, tag) ==> forall t :: t in s.calls ==> !MidUpdate(s.calls[t], tag)
    ensures SerialInv(Apply(s, step), tag)
  {
    if BeginsUpdate(s, step, tag) { SerialBegins(s, step, tag); }
    else if step.t in s.calls && MidUpdate(s.calls[step.t], tag) { SerialEnds(s, step, tag); }
    else { SerialPasses(s, step, tag); }
  }

  /**
   With serial updates, between updates the flag is exactly "at least the
   threshold of failures since the last success".
   */
  lemma {:induction false} SerialFlag(run: seq<State>, steps: seq<Step>, tag: Tag, k: nat)
    requires IsRun(run, steps) && k < |run| && SerialUpdates(run, steps, tag)
    ensures SerialInv(run[k], tag)
    ensures (forall t :: t in run[k].calls ==> !MidUpdate(run[k].calls[t], tag)) ==>
              (run[k].Of(tag).degraded <==> FailsSinceSuccess(run[k].Of(tag).outcomes) >= FAIL_THRESHOLD)
  {
    if k > 0 {
      SerialFlag(run, steps, tag, k - 1);
      assert Enabled(run[k - 1], steps[k - 1]) && run[k] == Apply(run[k - 1], steps[k - 1]);
      SerialStep(run[k - 1], steps[k - 1], tag);
    }
  }

  // ---- overlapping updates ----

  /** The step is the second operation of a health update: it writes the flag. */
  predicate WritesFlag(s: State, step: Step, tag: Tag) {
    step.t in s.calls && MidUpdate(s.calls[step.t], tag)
  }

  /** The counter's side of the threshold. */
  predicate TooMany(s: State, tag: Tag) {
    s.Of(tag).consecFails >= FAIL_THRESHOLD
  }

  /**
   The last flag write among the first `k` steps fitted the counter it found: it
   set the flag iff the threshold was reached.
   */
  ghost predicate LastWriteFitted(run: seq<State>, steps: seq<Step>, tag: Tag, k: nat)
    requires IsRun(run, steps) && k <= |steps|
  {
    k > 0 ==>
      if WritesFlag(run[k - 1], steps[k - 1], tag)
      then run[k - 1].calls[steps[k - 1].t].pc.ClaimDegraded? <==> TooMany(run[k - 1], tag)
      else LastWriteFitted(run, steps, tag, k - 1)
  }

  /** The counter's side at the last flag write among the first `k` steps. */
  ghost predicate SideAtLastWrite(run: seq<State>, steps: seq<Step>, tag: Tag, k: nat)
    requires IsRun(run, steps) && k <= |steps|
  {
    k > 0 &&
    if WritesFlag(run[k - 1], steps[k - 1], tag) then TooMany(run[k - 1], tag)
    else SideAtLastWrite(run, steps, tag, k - 1)
  }

  ghost predicate UpdateUnderWay(s: State, tag: Tag) {
    exists t :: t in s.calls && MidUpdate(s.calls[t], tag)
  }

  lemma UpdateStaysUnderWay(s: State, step: Step, tag: Tag)
    requires Enabled(s, step) && UpdateUnderWay(s, tag) && !WritesFlag(s, step, tag)
    ensures UpdateUnderWay(Apply(s, step), tag)
  {
    var t :| t in s.calls && MidUpdate(s.calls[t], tag);
    OnlyOneCallMoves(s, step);
    assert MidUpdate(Apply(s, step).calls[t], tag);
  }

  /**
   One step: the counter stays the failures since the last success, and its side
   changes only with an update left under way.
   */
  lemma SideStep(s: State, step: Step, tag: Tag)
    requires Enabled(s, step) && s.Of(tag).consecFails == FailsSinceSuccess(s.Of(tag).outcomes)
    ensures var s' := Apply(s, step);
            && s'.Of(tag).consecFails == FailsSinceSuccess(s'.Of(tag).outcomes)
            && (TooMany(s', tag) == TooMany(s, tag) || UpdateUnderWay(s', tag))
            && (if WritesFlag(s, step, tag)
                then TooMany(s', tag) == TooMany(s, tag) && (s'.Of(tag).degraded <==> s.calls[step.t].pc.ClaimDegraded?)
                else s'.Of(tag).degraded == s.Of(tag).degraded)
  {
    if BeginsUpdate(s, step, tag) {
      UpdateBegins(s, step, tag);
      if TooMany(Apply(s, step), tag) != TooMany(s, tag) { assert MidUpdate(Apply(s, step).calls[step.t], tag); }
    } else if WritesFlag(s, step, tag) {
      UpdateEnds(s, step, tag);
    } else {
      OtherStepsLeaveHealth(s, step, tag);
    }
  }

  lemma {:induction false} FlagAndSide(run: seq<State>, steps: seq<Step>, tag: Tag, k: nat)
    requires IsRun(run, steps) && k < |run|
    ensures run[k].Of(tag).consecFails == FailsSinceSuccess(run[k].Of(tag).outcomes)
    ensures TooMany(run[k], tag) == SideAtLastWrite(run, steps, tag, k) || UpdateUnderWay(run[k], tag)
    ensures LastWriteFitted(run, steps, tag, k) <==> (run[k].Of(tag).degraded <==> SideAtLastWrite(run, steps, tag, k))
  {
    if k > 0 {
      FlagAndSide(run, steps, tag, k - 1);
      var s, step := run[k - 1], steps[k - 1];
      assert Enabled(s, step) && run[k] == Apply(s, step);
      SideStep(s, step, tag);
      if UpdateUnderWay(s, tag) && !WritesFlag(s, step, tag) { UpdateStaysUnderWay(s, step, tag); }
    }
  }

  /**
   In every run and whatever overlaps: with no update under way, the flag is "at
   least the threshold of failures since the last success" exactly when the last
   flag write fitted the counter it found.
   */
  lemma FlagExactIffLastWriteFitted(run: seq<State>, steps: seq<Step>, tag: Tag, k: nat)
    requires IsRun(run, steps) && k < |run| && !UpdateUnderWay(run[k], tag)
    ensures (run[k].Of(tag).degraded <==> FailsSinceSuccess(run[k].Of(tag).outcomes) >= FAIL_THRESHOLD)
       <==> LastWriteFitted(run, steps, tag, k)
  {
    FlagAndSide(run, steps, tag, k);
  }

  /** From seven failures, an eighth and a success end their dials together. */
  lemma OverlapBegins() returns (s: State)
    ensures Reaches(s) && 7 in s.calls && 8 in s.calls
    ensures s.calls[7] == Call(Some("a"), AddFail) && s.calls[8] == Call(Some("a"), ResetFails)
    ensures s.Of("a").consecFails == 7
    ensures forall t :: t in s.calls && t != 7 && t != 8 ==> s.calls[t].pc.Finished?
  {
    s := FailsInTurn(7);
    s := DialEnds(s, 7, Failed);
    s := DialEnds(s, 8, Succeeded);
  }

  /**
   An overlapping success can leave the outbound degraded with no failure since
   that success and no update under way.
   */
  lemma OverlapLeavesFlagSet() returns (s: State)
    ensures Reaches(s) && s.Of("a").degraded && FailsSinceSuccess(s.Of("a").outcomes) == 0
    ensures forall t :: t in s.calls ==> s.calls[t].pc.Finished?
  {
    s := OverlapBegins();
    s := Then(s, Advance(7));
    FailsSnoc(s.Of("a").outcomes, Succeeded);
    s := Then(s, Advance(8));
    s := Then(s, Advance(8));
    s := Then(s, Advance(7));
  }

  /** Transition reports strictly alternate, starting with a degradation, and the flag is their parity. */
  lemma ReportsAlternate(run: seq<State>, steps: seq<Step>, tag: Tag, k: nat)
    requires IsRun(run, steps) && k < |run|
    ensures Alternating(run[k].Of(tag).reports)
    ensures run[k].Of(tag).degraded <==> |run[k].Of(tag).reports| % 2 == 1
  {
    RunKeepsInv(run, steps, k);
    assert FlagMatches(run[k].Of(tag));
  }

  // ---- the object itself ----

  /** How many operations are left of the source method the call is inside, counted from the last. */
  function Left(pc: Pc): nat {
    match pc
    case CountSlot => 3
    case LoadDegraded => 2
    case UncountSlot => 1
    case ResetFails => 2
    case SwapDegraded => 1
    case AddFail => 2
    case ClaimDegraded => 1
    case _ => 0
  }

  /** The call runs alone to the end of that method. */
  function Alone(s: State, t: Thread): State
    requires t in s.calls && s.calls[t].outbound.Some?
    decreases Left(s.calls[t].pc)
  {
    if Left(s.calls[t].pc) == 0 then s else Alone(Apply(s, Advance(t)), t)
  }

  predicate Stands(s: State, t: Thread, tag: Tag, pc: Pc) {
    t in s.calls && s.calls[t] == Call(Some(tag), pc)
  }

  /** The call is about to give its slot back, before or after dialing. */
  predicate GivesBack(s: State, t: Thread, tag: Tag) {
    t in s.calls && s.calls[t].outbound == Some(tag) && (s.calls[t].pc.ReturnSlot? || s.calls[t].pc.ReleaseSlot?)
  }

  lemma AcquiresAlone(s: State, t: Thread, tag: Tag)
    requires Stands(s, t, tag, CountSlot)
    ensures var h, s' := s.Of(tag), Alone(s, t);
            var ok := h.inFlight < DEGRADED_DIAL_BUDGET || !h.degraded;
            && s'.Of(tag) == h.(inFlight := h.inFlight + One(ok))
            && Stands(s', t, tag, if ok then AcquireGlobal else Finished)
  {
    var s1 := Apply(s, Advance(t));
    if s1.calls[t].pc.LoadDegraded? {
      var s2 := Apply(s1, Advance(t));
      assert Alone(s, t) == Alone(s2, t);
      if s2.calls[t].pc.UncountSlot? { assert Alone(s2, t) == Apply(s2, Advance(t)); }
    }
  }

  /** Where a health update begins. */
  function FirstOf(result: DialResult): Pc {
    if result.Succeeded? then ResetFails else AddFail
  }

  lemma UpdatesAlone(s: State, t: Thread, tag: Tag, result: DialResult)
    requires !result.Canceled? && Stands(s, t, tag, FirstOf(result))
    ensures var h, s' := s.Of(tag), Alone(s, t);
            && Stands(s', t, tag, Finished)
            && s'.Of(tag).outcomes == h.outcomes + [result] && s'.Of(tag).inFlight == h.inFlight
            && s'.Of(tag).consecFails == (if result.Succeeded? then 0 else h.consecFails + 1)
            && s'.Of(tag).degraded == (result.Failed? && (h.degraded || h.consecFails + 1 >= FAIL_THRESHOLD))
            && s'.Of(tag).reports == (if s'.Of(tag).degraded == h.degraded then h.reports
                                      else h.reports + [if h.degraded then Recovered else Degraded])
  {
    var s1 := Apply(s, Advance(t));
    assert Alone(s, t) == Alone(s1, t);
    if Left(s1.calls[t].pc) > 0 { assert Alone(s1, t) == Alone(Apply(s1, Advance(t)), t) == Apply(s1, Advance(t)); }
  }

  /** The health after the update of one call running alone. */
  lemma EveryCallUpdatesAlone(h: Health, result: DialResult, h': Health)
    requires !result.Canceled? && h'.inFlight == h.inFlight && h'.outcomes == h.outcomes + [result]
    requires h'.consecFails == if result.Succeeded? then 0 else h.consecFails + 1
    requires h'.degraded == (result.Failed? && (h.degraded || h.consecFails + 1 >= FAIL_THRESHOLD))
    requires h'.reports == if h'.degraded == h.degraded then h.reports
                           else h.reports + [if h.degraded then Recovered else Degraded]
    ensures forall s, t, tag :: Stands(s, t, tag, FirstOf(result)) && s.Of(tag) == h ==> Alone(s, t).Of(tag) == h'
  {
    forall s, t, tag | Stands(s, t, tag, FirstOf(result)) && s.Of(tag) == h ensures Alone(s, t).Of(tag) == h' {
      UpdatesAlone(s, t, tag, result);
    }
  }

  /**
   The object, as one caller after another uses it. Each method does what the
   steps of one call do when no other call interleaves.
   */
  class OutboundHealth {
    var consecFails: int
    var degraded: bool
    var inFlight: int
    ghost var reports: seq<Report>
    ghost var outcomes: seq<DialResult>

    ghost function Value(): Health
      reads this
    {
      Health(consecFails, degraded, inFlight, reports, outcomes)
    }

    ghost predicate Valid()
      reads this
    {
      && consecFails == FailsSinceSuccess(outcomes)
      && (degraded <==> FailsSinceSuccess(outcomes) >= FAIL_THRESHOLD)
    }

    constructor ()
      ensures Valid() && Value() == Health(0, false, 0, [], [])
    {
      consecFails, degraded, inFlight, reports, outcomes := 0, false, 0, [], [];
    }

    method TryAcquireSlot() returns (ok: bool)
      modifies this`inFlight
      ensures ok <==> old(inFlight) < DEGRADED_DIAL_BUDGET || !degraded
      ensures inFlight == old(inFlight) + One(ok)
      ensures forall s, t, tag :: Stands(s, t, tag, CountSlot) && s.Of(tag) == old(Value()) ==>
                Alone(s, t).Of(tag) == Value() && Stands(Alone(s, t), t, tag, if ok then AcquireGlobal else Finished)
    {
      inFlight := inFlight + 1;
      ok := true;
      if inFlight > DEGRADED_DIAL_BUDGET && degraded {
        inFlight := inFlight - 1;
        ok := false;
      }
      forall s, t, tag | Stands(s, t, tag, CountSlot) && s.Of(tag) == old(Value())
        ensures Alone(s, t).Of(tag) == Value() && Stands(Alone(s, t), t, tag, if ok then AcquireGlobal else Finished)
      {
        AcquiresAlone(s, t, tag);
      }
    }

    /** Both places that give a slot back: afterwards the call is no longer counted. */
    method ReleaseSlot()
      modifies this`inFlight
      ensures inFlight == old(inFlight) - 1
      ensures forall s, t, tag :: GivesBack(s, t, tag) && s.Of(tag) == old(Value()) ==>
                Apply(s, Advance(t)).Of(tag) == Value() && !Counted(Apply(s, Advance(t)).calls[t], tag)
    {
      inFlight := inFlight - 1;
    }

    method UpdateAfterDial(result: DialResult) returns (report: Option<Report>)
      requires Valid()
      modifies this`consecFails, this`degraded, this`reports, this`outcomes
      ensures Valid() && outcomes == old(outcomes) + if result.Canceled? then [] else [result]
      ensures result.Canceled? ==> Value() == old(Value()) && report.None?
      // a report is made exactly when the flag changes, and names the change
      ensures report == if degraded == old(degraded) then None else Some(if degraded then Degraded else Recovered)
      ensures reports == old(reports) + if report.Some? then [report.value] else []
      ensures !result.Canceled? ==>
                forall s, t, tag :: Stands(s, t, tag, FirstOf(result)) && s.Of(tag) == old(Value()) ==>
                  Alone(s, t).Of(tag) == Value()
    {
      report := None;
      if result.Canceled? { return; }
      FailsSnoc(outcomes, result);
      outcomes := outcomes + [result];
      match result {
        case Succeeded =>
          consecFails := 0;
          if degraded { report := Some(Recovered); }
          degraded := false;
        case Failed =>
          consecFails := consecFails + 1;
          if consecFails >= FAIL_THRESHOLD && !degraded {
            degraded := true;
            report := Some(Degraded);
          }
      }
      if report.Some? { reports := reports + [report.value]; }
      EveryCallUpdatesAlone(old(Value()), result, Value());
    }
  }
}
