/**
 What each operation of the daemon does from its check to its end, in every run,
 whatever else runs beside it.
 */
module ServiceOperations {
  import opened Options
  import opened ServiceStatus

  /** A step of another operation while `t` holds the lock. */
  predicate LeavesHolder(s: State, s': State, t: Thread) {
    && t in s.ops && t in s'.ops && s'.ops[t] == s.ops[t]
    && s'.status == s.status && s'.instance == s.instance && s.closed <= s'.closed
  }

  lemma OthersLeaveHolder(s: State, step: Step, t: Thread)
    requires Enabled(s, step) && LockInv(s) && s.lock == Some(t) && step.t != t
    ensures LeavesHolder(s, Apply(s, step), t)
  {
    if step.t in s.ops { assert OpOk(s, step.t); }
  }

  // ---- CloseService ----

  predicate Closeable(status: Status) {
    status.Starting? || status.Started?
  }

  /** Inside the critical section of CloseService, after its check. */
  predicate InClose(pc: Pc) {
    pc.CloseStop? || pc.CloseTake? || pc.CloseInstance? || pc.CloseIdle? || pc.FailFatal? || pc.FinalUnlock?
  }

  /** Closing the instance was tried and failed in one of the steps from `j` to `k`. */
  ghost predicate CloseFailed(run: seq<State>, steps: seq<Step>, j: nat, k: nat, t: Thread) {
    exists i :: j <= i < k && i < |steps| && i < |run| && ClosesInVain(run[i], steps[i], t)
  }

  predicate ClosesInVain(s: State, step: Step, t: Thread) {
    step == Advance(t, false) && t in s.ops && s.ops[t].pc.CloseInstance? && s.ops[t].pc.taken.Some?
  }

  /** How far a CloseService that found `found` and `status` has come. */
  ghost predicate CloseProgress(s: State, t: Thread, status: Status, found: Option<Instance>, failed: bool)
    requires t in s.ops
  {
    var pc := s.ops[t].pc;
    && InClose(pc)
    && (pc.CloseStop? ==> Closeable(status) && s.status == status && s.instance == found && !failed)
    && (pc.CloseTake? ==> Closeable(status) && s.status == Stopping && s.instance == found && !failed)
    && (pc.CloseInstance? ==>
          Closeable(status) && s.status == Stopping && s.instance == None && pc.taken == found && !failed)
    && (pc.CloseIdle? ==> Closeable(status) && s.instance == None && Gone(s, found) && !failed)
    && (pc.FailFatal? ==> Closeable(status) && s.instance == None && Gone(s, found) && failed)
    && (pc.FinalUnlock? ==> CloseResult(s, status, found, failed))
  }

  ghost predicate Gone(s: State, found: Option<Instance>) {
    found.Some? ==> found.value in s.closed
  }

  /** What CloseService leaves behind. */
  ghost predicate CloseResult(s: State, status: Status, found: Option<Instance>, failed: bool) {
    if Closeable(status) then s.instance == None && Gone(s, found) && s.status == (if failed then Fatal else Idle)
    else s.instance == found && s.status == status && !failed
  }

  lemma CloseStepProgress(s: State, step: Step, t: Thread, status: Status, found: Option<Instance>, failed: bool)
    requires Enabled(s, step) && step.t == t && t in s.ops && CloseProgress(s, t, status, found, failed)
    requires !s.ops[t].pc.FinalUnlock?
    ensures t in Apply(s, step).ops
    ensures CloseProgress(Apply(s, step), t, status, found, failed || ClosesInVain(s, step, t))
  {
  }

  lemma CloseCheckProgress(s: State, step: Step, t: Thread)
    requires Enabled(s, step) && step.t == t && t in s.ops && s.ops[t].pc.CloseCheck?
    ensures t in Apply(s, step).ops && CloseProgress(Apply(s, step), t, s.status, s.instance, false)
    ensures Apply(s, step).closed == s.closed && Apply(s, step).status == s.status
              && Apply(s, step).instance == s.instance
  {
  }

  lemma CloseFailedGrows(run: seq<State>, steps: seq<Step>, j: nat, k: nat, t: Thread)
    requires j <= k < |steps| && |steps| < |run|
    ensures CloseFailed(run, steps, j, k + 1, t) <==>
              CloseFailed(run, steps, j, k, t) || ClosesInVain(run[k], steps[k], t)
  {
  }

  lemma CloseNext(s: State, step: Step, t: Thread, status: Status, found: Option<Instance>, failed: bool)
    requires Enabled(s, step) && LockInv(s) && s.lock == Some(t) && t in s.ops
    requires CloseProgress(s, t, status, found, failed) && t in Apply(s, step).ops
             && !Apply(s, step).ops[t].pc.Finished?
    ensures CloseProgress(Apply(s, step), t, status, found, failed || ClosesInVain(s, step, t))
  {
    if step.t != t {
      OthersLeaveHolder(s, step, t);
    } else {
      CloseOwnStep(s, step, t);
      CloseStepProgress(s, step, t, status, found, failed);
    }
  }

  /** The operation holds the lock from its check to its end. */
  lemma HoldsThroughout(run: seq<State>, steps: seq<Step>, k: nat, t: Thread)
    requires IsRun(run, steps) && k < |run| && t in run[k].ops
    ensures run[k].lock == Some(t) <==> Holds(run[k].ops[t].pc)
    ensures LockInv(run[k])
  {
    RunKeepsInv(run, steps, k);
    assert OpOk(run[k], t);
  }

  lemma CloseAt(run: seq<State>, steps: seq<Step>, j: nat, i: nat, t: Thread)
    requires IsRun(run, steps) && j < i < |steps| && t in run[i].ops && t in run[i + 1].ops
             && !run[i + 1].ops[t].pc.Finished?
    requires CloseProgress(run[i], t, run[j].status, run[j].instance, CloseFailed(run, steps, j, i, t))
    ensures CloseProgress(run[i + 1], t, run[j].status, run[j].instance, CloseFailed(run, steps, j, i + 1, t))
  {
    HoldsThroughout(run, steps, i, t);
    CloseFailedGrows(run, steps, j, i, t);
    CloseNext(run[i], steps[i], t, run[j].status, run[j].instance, CloseFailed(run, steps, j, i, t));
  }

  lemma CloseFirst(run: seq<State>, steps: seq<Step>, j: nat, t: Thread)
    requires IsRun(run, steps) && j < |steps| && t in run[j].ops && run[j].ops[t].pc.CloseCheck? && steps[j].t == t
    ensures t in run[j + 1].ops
    ensures CloseProgress(run[j + 1], t, run[j].status, run[j].instance, CloseFailed(run, steps, j, j + 1, t))
    ensures run[j + 1].closed == run[j].closed
  {
    assert Enabled(run[j], steps[j]) && run[j + 1] == Apply(run[j], steps[j]);
    CloseCheckProgress(run[j], steps[j], t);
    CloseFailedGrows(run, steps, j, j, t);
  }

  /** `t` is running at each of run[j..k]. */
  ghost predicate RunsThrough(run: seq<State>, j: nat, k: nat, t: Thread) {
    forall i {:trigger run[i]} :: j < i <= k && i < |run| ==> t in run[i].ops && !run[i].ops[t].pc.Finished?
  }

  ghost predicate CloseHolds(run: seq<State>, steps: seq<Step>, j: nat, i: nat, t: Thread) {
    && j < i < |run| && t in run[i].ops
    && CloseProgress(run[i], t, run[j].status, run[j].instance, CloseFailed(run, steps, j, i, t))
  }

  lemma {:induction false} CloseChain(run: seq<State>, steps: seq<Step>, j: nat, k: nat, t: Thread)
    requires j < k && CloseHolds(run, steps, j, j + 1, t)
    requires forall i :: j < i < k && CloseHolds(run, steps, j, i, t) ==> CloseHolds(run, steps, j, i + 1, t)
    ensures CloseHolds(run, steps, j, k, t)
    decreases k
  {
    if k > j + 1 {
      CloseChain(run, steps, j, k - 1, t);
      assert CloseHolds(run, steps, j, k - 1 + 1, t);
    }
  }

  lemma CloseAdvances(run: seq<State>, steps: seq<Step>, j: nat, k: nat, t: Thread)
    requires IsRun(run, steps) && j < k < |run| && t in run[j].ops && run[j].ops[t].pc.CloseCheck? && steps[j].t == t
    requires RunsThrough(run, j, k, t)
    ensures CloseHolds(run, steps, j, k, t)
  {
    CloseFirst(run, steps, j, t);
    forall i | j < i < k && CloseHolds(run, steps, j, i, t) ensures CloseHolds(run, steps, j, i + 1, t) {
      CloseStays(run, steps, j, i, k, t);
    }
    CloseChain(run, steps, j, k, t);
  }

  lemma CloseStays(run: seq<State>, steps: seq<Step>, j: nat, i: nat, k: nat, t: Thread)
    requires IsRun(run, steps) && j < i < k < |run| && RunsThrough(run, j, k, t) && CloseHolds(run, steps, j, i, t)
    ensures CloseHolds(run, steps, j, i + 1, t)
  {
    assert t in run[i + 1].ops && !run[i + 1].ops[t].pc.Finished?;
    CloseAt(run, steps, j, i, t);
  }

  /** The last step of an operation finishes it. */
  lemma CloseOwnStep(s: State, step: Step, t: Thread)
    requires Enabled(s, step) && step.t == t && t in s.ops && InClose(s.ops[t].pc) && t in Apply(s, step).ops
    ensures s.ops[t].pc.FinalUnlock? ==> Apply(s, step).ops[t].pc.Finished?
  {
  }

  /**
   A CloseService that finds STARTING or STARTED ends with no instance, with the
   instance it found closed, and IDLE, or FATAL exactly when closing failed. One
   that finds any other status changes neither status, instance nor the closed
   instances.
   */
  lemma CloseServiceCloses(run: seq<State>, steps: seq<Step>, j: nat, k: nat, t: Thread)
    requires IsRun(run, steps) && j < k < |run| && t in run[j].ops && run[j].ops[t].pc.CloseCheck? && steps[j].t == t
    requires RunsThrough(run, j, k, t) && t in run[k].ops && run[k].ops[t].pc.FinalUnlock?
    ensures run[k].lock == Some(t)
    ensures if Closeable(run[j].status) then
              && run[k].instance == None
              && (run[j].instance.Some? ==> run[j].instance.value in run[k].closed)
              && run[k].status == (if CloseFailed(run, steps, j, k, t) then Fatal else Idle)
            else
              && run[k].status == run[j].status && run[k].instance == run[j].instance
              && run[j + 1].closed == run[j].closed && t in run[j + 1].ops && run[j + 1].ops[t].pc.FinalUnlock?
  {
    CloseAdvances(run, steps, j, k, t);
    CloseFirst(run, steps, j, t);
    HoldsThroughout(run, steps, k, t);
  }

  // ---- reload: from the creation of the new instance to the release of the lock ----

  /** How far a reload that was about to create an instance, with `found` current, has come. */
  ghost predicate CreateProgress(s: State, t: Thread, found: Option<Instance>, created: Instance, ok: bool)
    requires t in s.ops
  {
    var pc := s.ops[t].pc;
    if ok then
      || (pc == ReloadInstall(created) && s.status == Starting && s.instance == found && s.next > created)
      || (pc == ReloadRelease(created) && s.status == Starting && s.instance == Some(created) && s.next > created)
    else
      || (pc.FailFatal? && s.status == Starting && s.instance == found)
      || (pc.FinalUnlock? && s.status == Fatal && s.instance == found)
  }

  lemma CreateBegins(s: State, t: Thread, ok: bool)
    requires Enabled(s, Advance(t, ok)) && s.ops[t].pc.ReloadCreate? && s.status == Starting
    ensures CreateProgress(Apply(s, Advance(t, ok)), t, s.instance, s.next, ok)
    ensures Apply(s, Advance(t, ok)).closed == s.closed
  {
  }

  lemma CreateStep(s: State, step: Step, t: Thread, found: Option<Instance>, created: Instance, ok: bool)
    requires Enabled(s, step) && step.t == t && t in s.ops && CreateProgress(s, t, found, created, ok)
    ensures t in Apply(s, step).ops
    ensures s.ops[t].pc.ReloadInstall? || s.ops[t].pc.FailFatal? ==>
              CreateProgress(Apply(s, step), t, found, created, ok)
    ensures s.ops[t].pc.ReloadRelease? ==> Apply(s, step).ops[t].pc.ReloadStart?
    ensures s.ops[t].pc.FinalUnlock? ==> Apply(s, step).ops[t].pc.Finished?
  {
  }

  lemma CreateNext(s: State, step: Step, t: Thread, found: Option<Instance>, created: Instance, ok: bool)
    requires Enabled(s, step) && LockInv(s) && s.lock == Some(t) && t in s.ops
             && CreateProgress(s, t, found, created, ok)
    requires t in Apply(s, step).ops && !Apply(s, step).ops[t].pc.Finished? && !Apply(s, step).ops[t].pc.ReloadStart?
    ensures CreateProgress(Apply(s, step), t, found, created, ok)
  {
    if step.t == t {
      CreateStep(s, step, t, found, created, ok);
    } else {
      OthersLeaveHolder(s, step, t);
      NextGrows(s, step);
    }
  }

  lemma CreateAt(run: seq<State>, steps: seq<Step>, i: nat, t: Thread, found: Option<Instance>, created: Instance,
                 ok: bool)
    requires IsRun(run, steps) && i < |steps| && t in run[i].ops && CreateProgress(run[i], t, found, created, ok)
    requires t in run[i + 1].ops && !run[i + 1].ops[t].pc.Finished? && !run[i + 1].ops[t].pc.ReloadStart?
    ensures CreateProgress(run[i + 1], t, found, created, ok)
  {
    HoldsThroughout(run, steps, i, t);
    CreateNext(run[i], steps[i], t, found, created, ok);
  }

  lemma CreateFirst(run: seq<State>, steps: seq<Step>, j: nat, t: Thread)
    requires IsRun(run, steps) && j < |steps| && t in run[j].ops && run[j].ops[t].pc.ReloadCreate? && steps[j].t == t
    ensures steps[j].Advance? && t in run[j + 1].ops
              && CreateProgress(run[j + 1], t, run[j].instance, run[j].next, steps[j].ok)
  {
    assert Enabled(run[j], steps[j]) && run[j + 1] == Apply(run[j], steps[j]);
    RunKeepsInv(run, steps, j);
    assert OpOk(run[j], t);
    CreateBegins(run[j], t, steps[j].ok);
  }

  ghost predicate Creates(run: seq<State>, j: nat, k: nat, t: Thread) {
    forall i {:trigger run[i]} :: j < i <= k && i < |run| ==>
      t in run[i].ops && !run[i].ops[t].pc.Finished? && !run[i].ops[t].pc.ReloadStart?
  }

  lemma {:induction false} CreateAdvances(run: seq<State>, steps: seq<Step>, j: nat, k: nat, t: Thread)
    requires IsRun(run, steps) && j < k < |run| && t in run[j].ops && run[j].ops[t].pc.ReloadCreate? && steps[j].t == t
    requires Creates(run, j, k, t)
    ensures steps[j].Advance? && t in run[k].ops
    ensures CreateProgress(run[k], t, run[j].instance, run[j].next, steps[j].ok)
    decreases k
  {
    CreateFirst(run, steps, j, t);
    if k > j + 1 {
      CreateAdvances(run, steps, j, k - 1, t);
      CreateAt(run, steps, k - 1, t, run[j].instance, run[j].next, steps[j].ok);
    }
  }

  lemma NextGrows(s: State, step: Step)
    requires Enabled(s, step)
    ensures s.next <= Apply(s, step).next
  {
  }

  /**
   A reload whose new instance could be created makes it current and lets go of
   the lock with STARTING; one whose could not leaves the current instance and
   ends FATAL.
   */
  lemma ReloadInstallsOrFails(run: seq<State>, steps: seq<Step>, j: nat, k: nat, t: Thread)
    requires IsRun(run, steps) && j < k < |run| && t in run[j].ops && run[j].ops[t].pc.ReloadCreate? && steps[j].t == t
    requires Creates(run, j, k, t) && t in run[k].ops
             && (run[k].ops[t].pc.ReloadRelease? || run[k].ops[t].pc.FinalUnlock?)
    ensures steps[j].Advance?
    ensures if steps[j].ok then
              run[k].ops[t].pc == ReloadRelease(run[j].next) && run[k].status == Starting
                  && run[k].instance == Some(run[j].next)
            else
              run[k].ops[t].pc.FinalUnlock? && run[k].status == Fatal && run[k].instance == run[j].instance
  {
    CreateAdvances(run, steps, j, k, t);
  }

  // ---- a service closed ----

  /** A started service is closed: IDLE, no instance, the instance closed and nobody left running. */
  lemma ClosedRun() returns (s: State)
    ensures Reaches(s) && s.status == Idle && s.instance == None && s.closed == {0} && s.lock.None?
    ensures forall t :: t in s.ops ==> s.ops[t].pc.Finished?
  {
    s := FirstInstance();
    s := Confirms(s, 0);
    s := TakesLock(s, 1, CloseService);
    s := Shuts(s, 1);
  }

  lemma Shuts(s0: State, t: Thread) returns (s: State)
    requires Reaches(s0) && t in s0.ops && s0.ops[t].pc.CloseCheck? && s0.lock == Some(t) && s0.status == Started
    requires s0.instance.Some?
    ensures Reaches(s) && s.status == Idle && s.instance == None && s.closed == s0.closed + {s0.instance.value}
              && s.lock.None?
    ensures t in s.ops && s.ops == s0.ops[t := s.ops[t]] && s.ops[t].pc.Finished?
  {
    s := Then(s0, Advance(t, true));
    s := Then(s, Advance(t, true));
    s := Then(s, Advance(t, true));
    s := ShutsRest(s, t);
  }

  lemma ShutsRest(s0: State, t: Thread) returns (s: State)
    requires Reaches(s0) && t in s0.ops && s0.ops[t].pc.CloseInstance? && s0.ops[t].pc.taken.Some?
    ensures Reaches(s) && s.status == Idle && s.instance == s0.instance
              && s.closed == s0.closed + {s0.ops[t].pc.taken.value}
    ensures t in s.ops && s.ops == s0.ops[t := s.ops[t]] && s.ops[t].pc.Finished? && s.lock.None?
  {
    s := Then(s0, Advance(t, true));
    s := Then(s, Advance(t, true));
    s := Then(s, Advance(t, true));
  }
}
