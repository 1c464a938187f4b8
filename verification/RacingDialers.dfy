/**
 The racing dialers: a coordinator loop and one racer per interface (or per
 address family) around an unbuffered results channel, a fallback timer and a
 `returned` channel closed when the coordinator returns. One machine covers
 dialParallelInterface, its fast-fallback form (no timer, everything launched
 at once) and DialParallelNetwork (one primary, one fallback).
 */
module RacingDialers {
  import opened Options
  import opened Counting

  type Id = nat

  datatype Racer =
    | NotLaunched
    | Dialing
    | Connected       // dialed, offering its connection
    | Broken          // failed, offering its error
    | Handed          // its connection was received by the coordinator
    | Failed          // its error was received by the coordinator
    | Closed          // saw `returned` and closed its connection
    | Discarded       // saw `returned` and dropped its error

  /**
   The fallback timer: still running, for its delay or reset to expire at once,
   expired with its value unread, or with its value received.
   */
  datatype Timer = NoTimer | Ticking(hurried: bool) | Fired | Drained

  /**
   Whether Stop reports that it stopped the timer. An expired timer whose value
   is unread counts as stopped, and the value is taken back, where timer channels
   are synchronous (`recalls`); where they are buffered it counts as expired.
   */
  predicate Stops(timer: Timer, recalls: bool) {
    timer.Ticking? || (timer.Fired? && recalls)
  }

  /** A failed primary stops the timer and, if that worked, resets it to expire at once. */
  function StopAndReset(timer: Timer, recalls: bool): Timer {
    if Stops(timer, recalls) then Ticking(true) else timer
  }

  /** The value that launches the fallbacks has not been received. */
  predicate Pending(timer: Timer) {
    timer.Ticking? || timer.Fired?
  }

  datatype Loop = Running | Won(racer: Id) | Lost

  datatype State = State(primaries: nat, recalls: bool, racers: map<Id, Racer>, timer: Timer, loop: Loop,
                         errors: seq<Id>, returned: bool) {
    predicate At(i: Id, r: Racer) {
      i in racers && racers[i] == r
    }

    predicate Ready(i: Id) {
      At(i, Connected) || At(i, Broken)
    }
  }

  datatype Step =
    | DialDone(i: Id, ok: bool)
    | Expire
    | Launch
    | Receive(i: Id)
    | CloseReturned
    | SeeReturned(i: Id)

  /** `eager` is the fast-fallback form. With no racer at all the dialer reports failure without starting anything. */
  ghost predicate Init(s: State, eager: bool) {
    && (forall i: Id :: i in s.racers ==> i < |s.racers|)
    && s.primaries <= |s.racers|
    && (forall i: Id :: i in s.racers ==> s.racers[i] == if i < s.primaries || eager then Dialing else NotLaunched)
    && s.timer == (if s.primaries < |s.racers| && !eager then Ticking(false) else NoTimer)
    && s.loop == (if s.racers == map[] then Lost else Running)
    && s.errors == [] && s.returned == (s.racers == map[])
  }

  predicate Enabled(s: State, step: Step) {
    match step
    case DialDone(i, _) => s.At(i, Dialing)
    case Expire => s.loop.Running? && s.timer.Ticking?
    case Launch => s.loop.Running? && s.timer.Fired?
    case Receive(i) => s.loop.Running? && s.Ready(i)
    case CloseReturned => !s.loop.Running? && !s.returned
    case SeeReturned(i) => s.returned && s.Ready(i)
  }

  function Apply(s: State, step: Step): State
    requires Enabled(s, step)
  {
    match step
    case DialDone(i, ok) => s.(racers := s.racers[i := if ok then Connected else Broken])
    case Expire => s.(timer := Fired)
    case Launch =>
      s.(timer := Drained,
         racers := map i | i in s.racers :: if s.racers[i] == NotLaunched then Dialing else s.racers[i])
    case Receive(i) =>
      if s.racers[i] == Connected then s.(racers := s.racers[i := Handed], loop := Won(i))
      else
        var errors := s.errors + [i];
        s.(racers := s.racers[i := Failed], errors := errors,
           loop := if |errors| == |s.racers| then Lost else Running,
           timer := if i < s.primaries then StopAndReset(s.timer, s.recalls) else s.timer)
    case CloseReturned => s.(returned := true)
    case SeeReturned(i) => s.(racers := s.racers[i := if s.racers[i] == Connected then Closed else Discarded])
  }

  ghost predicate IsRun(run: seq<State>, steps: seq<Step>, eager: bool) {
    && |run| == |steps| + 1
    && Init(run[0], eager)
    && forall k :: 0 <= k < |steps| ==> Enabled(run[k], steps[k]) && run[k + 1] == Apply(run[k], steps[k])
  }

  // ---- accounting ----

  ghost function Waiting(s: State): set<Id> {
    set i | i in s.racers && s.racers[i] == NotLaunched
  }

  ghost function InDial(s: State): set<Id> {
    set i | i in s.racers && s.racers[i] == Dialing
  }

  ghost function Offering(s: State): set<Id> {
    set i | i in s.racers && s.Ready(i)
  }

  ghost function Outstanding(s: State): set<Id> {
    InDial(s) + Offering(s)
  }

  /** What holds of each racer. */
  ghost predicate RacerOk(s: State, i: Id)
    requires i in s.racers
  {
    && (s.racers[i] == NotLaunched <==> i >= s.primaries && Pending(s.timer))
    && (s.racers[i] == Failed <==> i in s.errors)
    && (s.racers[i] == Handed <==> s.loop == Won(i))
    && (s.racers[i] == Closed || s.racers[i] == Discarded ==> s.returned)
  }

  ghost predicate Inv(s: State) {
    && (forall i :: i in s.racers ==> RacerOk(s, i))
    && (forall i :: i in s.errors ==> i in s.racers)
    && Distinct(s.errors)
    && (s.loop.Won? ==> s.loop.racer in s.racers)
    && (s.loop.Running? ==> !s.returned && |s.errors| < |s.racers|)
    && (s.loop.Lost? ==> |s.errors| == |s.racers|)
  }

  ghost predicate Distinct(xs: seq<Id>) {
    forall a, b :: 0 <= a < b < |xs| ==> xs[a] != xs[b]
  }

  ghost function Elems(xs: seq<Id>): set<Id> {
    set x | x in xs
  }

  lemma {:induction false} DistinctElems(xs: seq<Id>)
    requires Distinct(xs)
    ensures |Elems(xs)| == |xs| && multiset(xs) == multiset(Elems(xs))
  {
    if xs != [] {
      var front, x := xs[..|xs| - 1], xs[|xs| - 1];
      assert Distinct(front);
      DistinctElems(front);
      assert xs == front + [x];
      assert x !in front;
      assert Elems(xs) == Elems(front) + {x};
    }
  }

  lemma ReceiveKeepsInv(s: State, i: Id)
    requires Enabled(s, Receive(i)) && Inv(s)
    ensures Inv(Apply(s, Receive(i)))
  {
    var s' := Apply(s, Receive(i));
    assert RacerOk(s, i);
    assert s'.racers.Keys == s.racers.Keys;
    assert |s'.racers| == |s.racers|;
    forall j | j in s'.racers ensures RacerOk(s', j) { assert RacerOk(s, j); }
  }

  lemma StepKeepsInv(s: State, step: Step)
    requires Enabled(s, step) && Inv(s)
    ensures Inv(Apply(s, step))
  {
    if step.Receive? {
      ReceiveKeepsInv(s, step.i);
    } else {
      var s' := Apply(s, step);
      assert s'.racers.Keys == s.racers.Keys;
      assert |s'.racers| == |s.racers|;
      forall j | j in s'.racers ensures RacerOk(s', j) { assert RacerOk(s, j); }
    }
  }

  lemma {:induction false} RunKeepsInv(run: seq<State>, steps: seq<Step>, eager: bool, k: nat)
    requires IsRun(run, steps, eager) && k < |run|
    ensures Inv(run[k])
  {
    if k > 0 {
      RunKeepsInv(run, steps, eager, k - 1);
      assert Enabled(run[k - 1], steps[k - 1]) && run[k] == Apply(run[k - 1], steps[k - 1]);
      StepKeepsInv(run[k - 1], steps[k - 1]);
    }
  }

  /** While the loop runs, a racer has failed, is outstanding or is not launched, and one of these only. */
  lemma RacerAccounted(s: State, i: Id)
    requires s.loop.Running? && !s.returned && i in s.racers && RacerOk(s, i)
    ensures i in Waiting(s) ==> Pending(s.timer) && i !in s.errors && i !in Outstanding(s)
    ensures i in Outstanding(s) ==> i !in s.errors
    ensures i in s.errors || i in Outstanding(s) || i in Waiting(s)
  {
  }

  lemma EveryRacerAccounted(s: State)
    requires Inv(s) && s.loop.Running?
    ensures s.racers.Keys == Elems(s.errors) + (Outstanding(s) + Waiting(s))
    ensures Elems(s.errors) !! (Outstanding(s) + Waiting(s)) && Outstanding(s) !! Waiting(s)
    ensures Pending(s.timer) || Waiting(s) == {}
  {
    var errors, outstanding, waiting := Elems(s.errors), Outstanding(s), Waiting(s);
    forall i | i in s.racers
      ensures i in errors || i in outstanding || i in waiting
      ensures i in waiting ==> Pending(s.timer) && i !in errors && i !in outstanding
      ensures i in outstanding ==> i !in errors
    {
      assert RacerOk(s, i);
      RacerAccounted(s, i);
    }
    assert errors <= s.racers.Keys && outstanding <= s.racers.Keys && waiting <= s.racers.Keys;
  }

  lemma SumOfThree(all: set<Id>, a: set<Id>, b: set<Id>, c: set<Id>)
    requires all == a + (b + c) && a !! (b + c) && b !! c
    ensures |all| == |a| + |b| + |c|
  {
    assert |b + c| == |b| + |c|;
  }

  lemma PartsAdd(keys: set<Id>, errors: seq<Id>, outstanding: set<Id>, waiting: set<Id>)
    requires keys == Elems(errors) + (outstanding + waiting)
    requires Elems(errors) !! (outstanding + waiting) && outstanding !! waiting
    requires Distinct(errors) && |errors| < |keys|
    ensures |errors| + |outstanding| + |waiting| == |keys|
    ensures outstanding != {} || waiting != {}
  {
    DistinctElems(errors);
    SumOfThree(keys, Elems(errors), outstanding, waiting);
  }

  lemma SomethingPending(s: State)
    requires Inv(s) && s.loop.Running?
    ensures |s.errors| + |Outstanding(s)| + |Waiting(s)| == |s.racers|
    ensures Outstanding(s) != {} || Pending(s.timer)
  {
    EveryRacerAccounted(s);
    assert |s.racers| == |s.racers.Keys|;
    PartsAdd(s.racers.Keys, s.errors, Outstanding(s), Waiting(s));
  }

  /**
   While the loop runs, errors received, racers outstanding and fallbacks not
   yet launched add up to all racers, and something is always pending.
   */
  lemma Accounting(run: seq<State>, steps: seq<Step>, eager: bool, k: nat)
    requires IsRun(run, steps, eager) && k < |run| && run[k].loop.Running?
    ensures |run[k].errors| + |Outstanding(run[k])| + |Waiting(run[k])| == |run[k].racers|
    ensures Outstanding(run[k]) != {} || Pending(run[k].timer)
  {
    RunKeepsInv(run, steps, eager, k);
    SomethingPending(run[k]);
  }

  /**
   Failure is reported exactly when every racer has failed, each error once;
   success exactly when a connection was received.
   */
  lemma Verdict(run: seq<State>, steps: seq<Step>, eager: bool, k: nat)
    requires IsRun(run, steps, eager) && k < |run|
    ensures run[k].loop.Lost? <==> forall i :: i in run[k].racers ==> run[k].racers[i] == Failed
    ensures run[k].loop.Lost? ==> multiset(run[k].errors) == multiset(run[k].racers.Keys)
    ensures forall i: Id :: run[k].loop == Won(i) <==> run[k].At(i, Handed)
  {
    var s := run[k];
    RunKeepsInv(run, steps, eager, k);
    DistinctElems(s.errors);
    assert Elems(s.errors) <= s.racers.Keys;
    SubsetCard(Elems(s.errors), s.racers.Keys);
    assert |s.racers| == |s.racers.Keys|;
    forall i | i in s.racers ensures s.racers[i] == Failed <==> i in Elems(s.errors) { assert RacerOk(s, i); }
    if s.loop.Won? { assert RacerOk(s, s.loop.racer); }
    if forall i :: i in s.racers ==> s.racers[i] == Failed {
      assert s.racers.Keys <= Elems(s.errors);
      assert Elems(s.errors) == s.racers.Keys;
    }
    forall i: Id ensures s.loop == Won(i) <==> s.At(i, Handed) {
      if i in s.racers { assert RacerOk(s, i); }
    }
  }

  /** Fallback racers are launched at most once. */
  lemma {:induction false} LaunchedOnce(run: seq<State>, steps: seq<Step>, eager: bool, j: nat, k: nat)
    requires IsRun(run, steps, eager) && j < k < |steps| && steps[j].Launch?
    ensures run[k].timer.Drained? && !steps[k].Launch?
    decreases k
  {
    assert Enabled(run[k - 1], steps[k - 1]) && run[k] == Apply(run[k - 1], steps[k - 1]);
    assert Enabled(run[k], steps[k]);
    if j < k - 1 { LaunchedOnce(run, steps, eager, j, k - 1); }
  }

  // ---- termination and cleanup ----

  ghost function Measure(s: State): nat {
    3 * |Waiting(s)| + 3 * |InDial(s)| + 2 * |Offering(s)|
    + (if s.timer.Ticking? then 2 else if s.timer.Fired? then 1 else 0)
    + (if s.loop.Running? then 1 else 0) + (if s.returned then 0 else 1)
  }

  lemma StepDecreases(s: State, step: Step)
    requires Enabled(s, step)
    ensures Measure(Apply(s, step)) < Measure(s)
  {
    if step.DialDone? { DialDecreases(s, step.i, step.ok); }
    else if step.Launch? { LaunchDecreases(s); }
    else if step.CloseReturned? || step.Expire? { SameRacers(s, Apply(s, step)); }
    else { OfferTaken(s, Apply(s, step), step.i); }
  }

  lemma DialDecreases(s: State, i: Id, ok: bool)
    requires s.At(i, Dialing)
    ensures Measure(Apply(s, DialDone(i, ok))) < Measure(s)
  {
    var s' := Apply(s, DialDone(i, ok));
    assert InDial(s') == Moved(InDial(s), i, false);
    assert Offering(s') == Moved(Offering(s), i, true);
    assert Waiting(s') == Waiting(s);
    MovedCard(InDial(s), i, false);
    MovedCard(Offering(s), i, true);
  }

  lemma DisjointSum(a: set<Id>, b: set<Id>)
    requires a !! b
    ensures |a + b| == |a| + |b|
  {
  }

  lemma LaunchMoves(s: State)
    requires Enabled(s, Launch)
    ensures var s' := Apply(s, Launch);
            && InDial(s') == InDial(s) + Waiting(s) && InDial(s) !! Waiting(s)
            && Offering(s') == Offering(s) && Waiting(s') == {}
  {
  }

  lemma LaunchDecreases(s: State)
    requires Enabled(s, Launch)
    ensures Measure(Apply(s, Launch)) < Measure(s)
  {
    var s' := Apply(s, Launch);
    LaunchMoves(s);
    DisjointSum(InDial(s), Waiting(s));
  }

  lemma SameRacers(s: State, s': State)
    requires s'.racers == s.racers
    ensures Waiting(s') == Waiting(s) && InDial(s') == InDial(s) && Offering(s') == Offering(s)
  {
    assert Offering(s') == Offering(s);
  }

  /** An offer leaves the channel, received or given up. */
  lemma OfferTaken(s: State, s': State, i: Id)
    requires s.Ready(i) && i in s'.racers && s'.racers == s.racers[i := s'.racers[i]]
    requires s'.racers[i] != NotLaunched && s'.racers[i] != Dialing && !s'.Ready(i)
    requires s'.timer == s.timer || (Pending(s.timer) && s'.timer.Ticking?)
    requires s'.loop.Running? ==> s.loop.Running?
    requires s'.returned == s.returned
    ensures Measure(s') < Measure(s)
  {
    assert Offering(s') == Moved(Offering(s), i, false);
    assert InDial(s') == InDial(s);
    assert Waiting(s') == Waiting(s);
    MovedCard(Offering(s), i, false);
  }

  /** Every run ends: with n racers it has at most 3n + 4 steps. */
  lemma {:induction false} RunsAreBounded(run: seq<State>, steps: seq<Step>, eager: bool, k: nat)
    requires IsRun(run, steps, eager) && k < |run|
    ensures k + Measure(run[k]) <= 3 * |run[0].racers| + 4
  {
    if k == 0 {
      var s := run[0];
      assert Waiting(s) + InDial(s) == s.racers.Keys && Waiting(s) !! InDial(s);
      assert Offering(s) == {};
      assert |s.racers| == |s.racers.Keys|;
    } else {
      RunsAreBounded(run, steps, eager, k - 1);
      assert Enabled(run[k - 1], steps[k - 1]) && run[k] == Apply(run[k - 1], steps[k - 1]);
      StepDecreases(run[k - 1], steps[k - 1]);
    }
  }

  /** Racers whose connection is still open: offered, or handed to the caller. */
  ghost predicate Open(s: State, i: Id) {
    s.At(i, Connected) || s.At(i, Handed)
  }

  ghost predicate Quiescent(s: State) {
    forall step :: !Enabled(s, step)
  }

  /** The loop cannot be stuck: while it runs, some step is possible. */
  lemma RunningIsNotQuiescent(s: State)
    requires Inv(s) && s.loop.Running?
    ensures exists step :: Enabled(s, step)
  {
    SomethingPending(s);
    if Pending(s.timer) {
      assert Enabled(s, if s.timer.Ticking? then Expire else Launch);
    } else {
      var i :| i in Outstanding(s);
      if s.racers[i] == Dialing { assert Enabled(s, DialDone(i, true)); } else { assert Enabled(s, Receive(i)); }
    }
  }

  lemma QuiescentRacer(s: State, i: Id)
    requires Quiescent(s) && s.returned
    ensures !s.At(i, Dialing) && !s.At(i, Connected) && !s.At(i, Broken)
  {
    assert !Enabled(s, DialDone(i, true)) && !Enabled(s, SeeReturned(i));
  }

  /**
   When no step is left the coordinator has returned, and the only open
   connection is the one it returned.
   */
  lemma NothingLeaks(run: seq<State>, steps: seq<Step>, eager: bool, k: nat)
    requires IsRun(run, steps, eager) && k < |run| && Quiescent(run[k])
    ensures !run[k].loop.Running? && run[k].returned
    ensures forall i: Id :: Open(run[k], i) <==> run[k].loop == Won(i)
    ensures forall i: Id :: !run[k].At(i, Dialing) && !run[k].At(i, Broken)
  {
    var s := run[k];
    RunKeepsInv(run, steps, eager, k);
    if s.loop.Running? { RunningIsNotQuiescent(s); }
    assert !Enabled(s, CloseReturned);
    Verdict(run, steps, eager, k);
    forall i: Id ensures Open(s, i) <==> s.loop == Won(i)
      ensures !s.At(i, Dialing) && !s.At(i, Broken)
    {
      QuiescentRacer(s, i);
    }
  }

  /** A connection a racer closes was never the one returned, and it is closed only after the coordinator returned. */
  lemma ClosedOnlyAfterReturn(run: seq<State>, steps: seq<Step>, eager: bool, k: nat, i: Id)
    requires IsRun(run, steps, eager) && k < |run| && run[k].At(i, Closed)
    ensures run[k].returned && !run[k].loop.Running? && run[k].loop != Won(i)
  {
    RunKeepsInv(run, steps, eager, k);
    assert RacerOk(run[k], i);
  }
}
