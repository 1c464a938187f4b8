/**
 The racing dialers told by the steps of a run: what becomes of a racer is decided
 by what its dial returned and by who took its offer.
 */
module RaceHistory {
  import opened Options
  import opened RacingDialers

  ghost predicate Did(steps: seq<Step>, k: nat, step: Step) {
    exists j :: 0 <= j < k && j < |steps| && steps[j] == step
  }

  /** Where a racer stands, by the steps taken with it. */
  predicate StandsBy(r: Racer, succeeded: bool, broke: bool, received: bool, gaveUp: bool) {
    match r
    case NotLaunched => !succeeded && !broke && !received && !gaveUp
    case Dialing => !succeeded && !broke && !received && !gaveUp
    case Connected => succeeded && !broke && !received && !gaveUp
    case Broken => !succeeded && broke && !received && !gaveUp
    case Handed => succeeded && !broke && received && !gaveUp
    case Failed => !succeeded && broke && received && !gaveUp
    case Closed => succeeded && !broke && !received && gaveUp
    case Discarded => !succeeded && broke && !received && gaveUp
  }

  ghost predicate TellsOf(r: Racer, steps: seq<Step>, k: nat, i: Id) {
    StandsBy(r, Did(steps, k, DialDone(i, true)), Did(steps, k, DialDone(i, false)),
             Did(steps, k, Receive(i)), Did(steps, k, SeeReturned(i)))
  }

  lemma DidGrows(steps: seq<Step>, k: nat, step: Step)
    requires k < |steps|
    ensures Did(steps, k + 1, step) <==> Did(steps, k, step) || steps[k] == step
  {
  }

  lemma DidOwn(steps: seq<Step>, k: nat, i: Id)
    requires k < |steps|
    ensures Did(steps, k + 1, DialDone(i, true)) <==> Did(steps, k, DialDone(i, true)) || steps[k] == DialDone(i, true)
    ensures Did(steps, k + 1, DialDone(i, false)) <==>
              Did(steps, k, DialDone(i, false)) || steps[k] == DialDone(i, false)
    ensures Did(steps, k + 1, Receive(i)) <==> Did(steps, k, Receive(i)) || steps[k] == Receive(i)
    ensures Did(steps, k + 1, SeeReturned(i)) <==> Did(steps, k, SeeReturned(i)) || steps[k] == SeeReturned(i)
  {
    DidGrows(steps, k, DialDone(i, true));
    DidGrows(steps, k, DialDone(i, false));
    DidGrows(steps, k, Receive(i));
    DidGrows(steps, k, SeeReturned(i));
  }

  /** The moves a racer can make, without regard to the rest of the state. */
  predicate RacerMoves(i: Id, r: Racer, step: Step, r': Racer) {
    if step == DialDone(i, true) then r.Dialing? && r'.Connected?
    else if step == DialDone(i, false) then r.Dialing? && r'.Broken?
    else if step == Receive(i) then (r.Connected? && r'.Handed?) || (r.Broken? && r'.Failed?)
    else if step == SeeReturned(i) then (r.Connected? && r'.Closed?) || (r.Broken? && r'.Discarded?)
    else r' == r || (step.Launch? && r.NotLaunched? && r'.Dialing?)
  }

  /** A racer stays in the race and is moved by its own steps and the launch only. */
  ghost predicate Local(s: State, step: Step, s': State, i: Id) {
    (i in s'.racers <==> i in s.racers) && (i in s.racers ==> RacerMoves(i, s.racers[i], step, s'.racers[i]))
  }

  lemma StepIsLocal(s: State, step: Step, i: Id)
    requires Enabled(s, step)
    ensures Local(s, step, Apply(s, step), i)
  {
  }

  lemma SameRacers(s: State, step: Step)
    requires Enabled(s, step)
    ensures Apply(s, step).racers.Keys == s.racers.Keys
  {
  }

  lemma {:induction false} RacersStay(run: seq<State>, steps: seq<Step>, eager: bool, k: nat)
    requires IsRun(run, steps, eager) && k < |run|
    ensures run[k].racers.Keys == run[0].racers.Keys
  {
    if k > 0 {
      RacersStay(run, steps, eager, k - 1);
      SameRacers(run[k - 1], steps[k - 1]);
    }
  }

  lemma RacerNext(r: Racer, steps: seq<Step>, k: nat, r': Racer, i: Id)
    requires k < |steps| && RacerMoves(i, r, steps[k], r') && TellsOf(r, steps, k, i)
    ensures TellsOf(r', steps, k + 1, i)
  {
    DidOwn(steps, k, i);
  }

  lemma {:induction false} RacerChain(run: seq<State>, steps: seq<Step>, k: nat, i: Id)
    requires |run| == |steps| + 1 && k < |run| && i in run[k].racers
    requires i in run[0].racers ==> run[0].racers[i].NotLaunched? || run[0].racers[i].Dialing?
    requires forall j :: 0 <= j < |steps| ==> Local(run[j], steps[j], run[j + 1], i)
    ensures TellsOf(run[k].racers[i], steps, k, i)
  {
    if k > 0 {
      assert Local(run[k - 1], steps[k - 1], run[k - 1 + 1], i);
      RacerChain(run, steps, k - 1, i);
      RacerNext(run[k - 1].racers[i], steps, k - 1, run[k].racers[i], i);
    }
  }

  lemma RacerTold(run: seq<State>, steps: seq<Step>, eager: bool, k: nat, i: Id)
    requires IsRun(run, steps, eager) && k < |run| && i in run[k].racers
    ensures TellsOf(run[k].racers[i], steps, k, i)
  {
    forall j | 0 <= j < |steps| ensures Local(run[j], steps[j], run[j + 1], i) { StepIsLocal(run[j], steps[j], i); }
    RacerChain(run, steps, k, i);
  }

  /**
   A racer has a connection, offered, handed over or closed, exactly when its dial
   succeeded, and an error, offered, received or dropped, exactly when its dial
   failed; which of the three by whether the coordinator took the offer or the
   racer saw it gone.
   */
  lemma RacersByTheirDials(run: seq<State>, steps: seq<Step>, eager: bool, k: nat, i: Id)
    requires IsRun(run, steps, eager) && k < |run| && i in run[k].racers
    ensures var r := run[k].racers[i];
            && (r.Connected? || r.Handed? || r.Closed? <==> Did(steps, k, DialDone(i, true)))
            && (r.Broken? || r.Failed? || r.Discarded? <==> Did(steps, k, DialDone(i, false)))
            && (r.Handed? || r.Failed? <==> Did(steps, k, Receive(i)))
            && (r.Closed? || r.Discarded? <==> Did(steps, k, SeeReturned(i)))
  {
    RacerTold(run, steps, eager, k, i);
  }

  /**
   The coordinator reports failure exactly when every racer's dial failed and its
   error was received, so never when some dial succeeded; it returns a racer's
   connection exactly when it received from that racer and its dial succeeded.
   */
  lemma VerdictByTheDials(run: seq<State>, steps: seq<Step>, eager: bool, k: nat)
    requires IsRun(run, steps, eager) && k < |run|
    ensures run[k].loop.Lost? <==>
              forall i :: i in run[k].racers ==> Did(steps, k, DialDone(i, false)) && Did(steps, k, Receive(i))
    ensures run[k].loop.Lost? ==> forall i :: i in run[k].racers ==> !Did(steps, k, DialDone(i, true))
    ensures forall i: Id :: run[k].loop == Won(i) <==>
              i in run[k].racers && Did(steps, k, DialDone(i, true)) && Did(steps, k, Receive(i))
  {
    Verdict(run, steps, eager, k);
    forall i | i in run[k].racers
      ensures TellsOf(run[k].racers[i], steps, k, i)
      ensures run[k].racers[i] == Failed <==> Did(steps, k, DialDone(i, false)) && Did(steps, k, Receive(i))
      ensures run[k].racers[i] == Failed ==> !Did(steps, k, DialDone(i, true))
      ensures run[k].racers[i] == Handed <==> Did(steps, k, DialDone(i, true)) && Did(steps, k, Receive(i))
    {
      RacerTold(run, steps, eager, k, i);
    }
    forall i: Id
      ensures run[k].loop == Won(i) <==>
                i in run[k].racers && Did(steps, k, DialDone(i, true)) && Did(steps, k, Receive(i))
    {
      assert run[k].loop == Won(i) <==> run[k].At(i, Handed);
    }
  }

  /** At quiescence every racer whose dial succeeded has handed its connection to the caller or closed it. */
  lemma NoConnectionLeaks(run: seq<State>, steps: seq<Step>, eager: bool, k: nat, i: Id)
    requires IsRun(run, steps, eager) && k < |run| && Quiescent(run[k]) && Did(steps, k, DialDone(i, true))
    ensures run[k].loop == Won(i) || Did(steps, k, SeeReturned(i))
    ensures !(run[k].loop == Won(i) && Did(steps, k, SeeReturned(i)))
  {
    DialsAreRacers(run, steps, eager, k, i);
    RacerTold(run, steps, eager, k, i);
    NothingLeaks(run, steps, eager, k);
    Verdict(run, steps, eager, k);
    assert run[k].loop == Won(i) <==> run[k].At(i, Handed);
    assert Open(run[k], i) <==> run[k].loop == Won(i);
  }

  lemma DialsAreRacers(run: seq<State>, steps: seq<Step>, eager: bool, k: nat, i: Id)
    requires IsRun(run, steps, eager) && k < |run| && Did(steps, k, DialDone(i, true))
    ensures i in run[k].racers
  {
    var j :| 0 <= j < k && j < |steps| && steps[j] == DialDone(i, true);
    assert Enabled(run[j], steps[j]);
    RacersStay(run, steps, eager, j);
    RacersStay(run, steps, eager, k);
  }

  // ---- what is launched, and a race ----

  /**
   Until the timer's value is received exactly the fallbacks have not been
   launched; afterwards, or without a timer, all have.
   */
  lemma FallbacksWaitForTheTimer(run: seq<State>, steps: seq<Step>, eager: bool, k: nat, i: Id)
    requires IsRun(run, steps, eager) && k < |run| && i in run[k].racers
    ensures run[k].racers[i].NotLaunched? <==> run[k].primaries <= i && !eager && !Did(steps, k, Launch)
  {
    RunKeepsInv(run, steps, eager, k);
    assert RacerOk(run[k], i);
    RacersStay(run, steps, eager, k);
    TimerTold(run, steps, eager, k);
    PrimariesStay(run, steps, eager, k);
  }

  lemma TimerStep(s: State, step: Step)
    requires Enabled(s, step)
    ensures Pending(Apply(s, step).timer) <==> Pending(s.timer) && !step.Launch?
    ensures Apply(s, step).primaries == s.primaries
  {
  }

  lemma {:induction false} PrimariesStay(run: seq<State>, steps: seq<Step>, eager: bool, k: nat)
    requires IsRun(run, steps, eager) && k < |run|
    ensures run[k].primaries == run[0].primaries
  {
    if k > 0 {
      PrimariesStay(run, steps, eager, k - 1);
      TimerStep(run[k - 1], steps[k - 1]);
    }
  }

  lemma {:induction false} TimerTold(run: seq<State>, steps: seq<Step>, eager: bool, k: nat)
    requires IsRun(run, steps, eager) && k < |run|
    ensures Pending(run[k].timer) <==> run[0].primaries < |run[0].racers| && !eager && !Did(steps, k, Launch)
  {
    if k > 0 {
      TimerTold(run, steps, eager, k - 1);
      TimerStep(run[k - 1], steps[k - 1]);
      DidGrows(steps, k - 1, Launch);
    }
  }

  // ---- the timer ----

  /** The step receives the error of a primary, whose dial failed before. */
  ghost predicate Hastens(primaries: nat, steps: seq<Step>, j: nat) {
    j < |steps| && steps[j].Receive? && steps[j].i < primaries && Did(steps, j, DialDone(steps[j].i, false))
  }

  ghost predicate Hastened(primaries: nat, steps: seq<Step>, from: nat, k: nat) {
    exists j: nat :: from <= j < k && Hastens(primaries, steps, j)
  }

  /** The timer expired and, where Stop takes an unread value back, no primary's error was received since. */
  ghost predicate Expired(primaries: nat, recalls: bool, steps: seq<Step>, k: nat) {
    exists e: nat :: e < k && e < |steps| && steps[e] == Expire && !(recalls && Hastened(primaries, steps, e, k))
  }

  lemma HastenedGrows(primaries: nat, steps: seq<Step>, from: nat, k: nat)
    requires from <= k
    ensures Hastened(primaries, steps, from, k + 1) <==>
              Hastened(primaries, steps, from, k) || Hastens(primaries, steps, k)
  {
  }

  lemma ExpiredGrows(primaries: nat, recalls: bool, steps: seq<Step>, k: nat)
    requires k < |steps|
    ensures Expired(primaries, recalls, steps, k + 1) <==>
              if steps[k] == Expire then true
              else Expired(primaries, recalls, steps, k) && !(recalls && Hastens(primaries, steps, k))
  {
    forall e: nat | e <= k ensures Hastened(primaries, steps, e, k + 1) <==>
                                     Hastened(primaries, steps, e, k) || Hastens(primaries, steps, k)
    {
      HastenedGrows(primaries, steps, e, k);
    }
    if steps[k] == Expire { assert !Hastened(primaries, steps, k, k); }
  }

  predicate TimerMoves(timer: Timer, step: Step, timer': Timer, hastens: bool, recalls: bool) {
    if step.Launch? then timer.Fired? && timer'.Drained?
    else if step.Expire? then timer.Ticking? && timer'.Fired?
    else if hastens && (timer.Ticking? || (timer.Fired? && recalls)) then timer' == Ticking(true)
    else timer' == timer
  }

  lemma TimerStepMoves(s: State, step: Step)
    requires Enabled(s, step)
    ensures TimerMoves(s.timer, step, Apply(s, step).timer,
                       step.Receive? && step.i < s.primaries && s.At(step.i, Broken), s.recalls)
    ensures Apply(s, step).recalls == s.recalls
  {
  }

  ghost predicate TimerSays(timer: Timer, launched: bool, expired: bool, hastened: bool) {
    && (timer.Drained? <==> launched)
    && (timer.Fired? <==> !launched && expired)
    && (timer.Ticking? <==> !launched && !expired)
    && (timer.Ticking? ==> (timer.hurried <==> hastened))
  }

  /** Receiving from a racer that is broken is receiving the error of its failed dial. */
  lemma HastensIffBroken(run: seq<State>, steps: seq<Step>, eager: bool, k: nat)
    requires IsRun(run, steps, eager) && k < |steps|
    ensures Hastens(run[k].primaries, steps, k) <==>
              steps[k].Receive? && steps[k].i < run[k].primaries && run[k].At(steps[k].i, Broken)
  {
    assert Enabled(run[k], steps[k]);
    if steps[k].Receive? { RacerTold(run, steps, eager, k, steps[k].i); }
  }

  /**
   What the timer does, by the steps of the run: it is drained once the fallbacks
   are launched; before that it has fired once it expired, unless the error of a
   primary was received since and took the value back; else it runs, and is
   hurried exactly when the error of a primary was received.
   */
  lemma {:induction false} TimerByItsSteps(run: seq<State>, steps: seq<Step>, eager: bool, k: nat)
    requires IsRun(run, steps, eager) && k < |run| && run[0].primaries < |run[0].racers| && !eager
    ensures run[k].recalls == run[0].recalls
    ensures TimerSays(run[k].timer, Did(steps, k, Launch), Expired(run[0].primaries, run[0].recalls, steps, k),
                      Hastened(run[0].primaries, steps, 0, k))
  {
    if k > 0 {
      TimerByItsSteps(run, steps, eager, k - 1);
      assert Enabled(run[k - 1], steps[k - 1]) && run[k] == Apply(run[k - 1], steps[k - 1]);
      PrimariesStay(run, steps, eager, k - 1);
      TimerStepMoves(run[k - 1], steps[k - 1]);
      HastensIffBroken(run, steps, eager, k - 1);
      ExpiredGrows(run[0].primaries, run[0].recalls, steps, k - 1);
      HastenedGrows(run[0].primaries, steps, 0, k - 1);
      DidGrows(steps, k - 1, Launch);
    }
  }

  ghost predicate Reaches(s: State) {
    exists run, steps :: IsRun(run, steps, false) && run[|run| - 1] == s
  }

  lemma Then(s: State, step: Step) returns (s': State)
    requires Reaches(s) && Enabled(s, step)
    ensures Reaches(s') && s' == Apply(s, step)
  {
    var run, steps :| IsRun(run, steps, false) && run[|run| - 1] == s;
    s' := Apply(s, step);
    assert IsRun(run + [s'], steps + [step], false);
    assert (run + [s'])[|run|] == s';
  }

  /** A race of a primary and a fallback that goes on: how the two stand, the timer and the errors received. */
  predicate Race(s: State, recalls: bool, primary: Racer, fallback: Racer, timer: Timer, errors: seq<Id>) {
    && s.primaries == 1 && s.recalls == recalls && s.loop.Running? && !s.returned
    && s.racers.Keys == {0, 1} && s.racers[0] == primary && s.racers[1] == fallback
    && s.timer == timer && s.errors == errors
  }

  lemma RaceBegins(recalls: bool) returns (s: State)
    ensures Reaches(s) && Race(s, recalls, Dialing, NotLaunched, Ticking(false), [])
  {
    s := State(1, recalls, map[0 := Dialing, 1 := NotLaunched], Ticking(false), Running, [], false);
    assert |s.racers.Keys| == 2 by { assert s.racers.Keys == {0, 1}; }
    assert IsRun([s], [], false);
    assert [s][|[s]| - 1] == s;
  }

  lemma PrimaryFails(recalls: bool) returns (s: State)
    ensures Reaches(s) && Race(s, recalls, Failed, NotLaunched, Ticking(true), [0])
  {
    s := RaceBegins(recalls);
    s := Then(s, DialDone(0, false));
    assert Race(s, recalls, Broken, NotLaunched, Ticking(false), []);
    assert |s.racers| == |s.racers.Keys| == 2;
    s := Then(s, Receive(0));
  }

  lemma FallbackLaunched(recalls: bool) returns (s: State)
    ensures Reaches(s) && Race(s, recalls, Failed, Dialing, Drained, [0])
  {
    s := PrimaryFails(recalls);
    s := Then(s, Expire);
    s := Then(s, Launch);
  }

  /**
   A primary and a fallback: the primary fails, which brings the fallback on, and
   the fallback's connection is returned.
   */
  lemma FallbackWins(recalls: bool) returns (s: State)
    ensures Reaches(s) && s.loop == Won(1) && s.returned
    ensures s.racers.Keys == {0, 1} && s.racers[0] == Failed && s.racers[1] == Handed
  {
    s := FallbackLaunched(recalls);
    s := Then(s, DialDone(1, true));
    s := Then(s, Receive(1));
    s := Then(s, CloseReturned);
  }
}
