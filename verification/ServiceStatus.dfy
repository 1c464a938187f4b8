/**
 The daemon's service status machine: startOrReloadServiceImp, CloseService and
 SetError run concurrently under one write lock, which a reload drops while it
 closes the old instance and while it starts the new one. Every lock operation
 and every write under the lock is one step.
 */
module ServiceStatus {
  import opened Options

  type Thread = nat
  type Instance = nat

  datatype Status = Idle | Starting | Started | Stopping | Fatal

  /** What an operation does next. */
  datatype Pc =
    | ReloadLock
    | ReloadCheck
    | ReloadStop(outgoing: Instance)         // status := STOPPING
    | ReloadYield(outgoing: Instance)        // Unlock
    | ReloadCloseOld(outgoing: Instance)     // oldInstance.Close(), lock not held
    | ReloadRelock(outgoing: Instance)
    | ReloadBegin                        // status := STARTING
    | ReloadCreate                       // newInstance
    | ReloadInstall(incoming: Instance)    // s.instance = instance
    | ReloadRelease(mine: Instance)      // Unlock
    | ReloadStart(mine: Instance)        // instance.Start(), lock not held
    | ReloadConfirmLock(mine: Instance, ok: bool)
    | ReloadConfirm(mine: Instance, ok: bool)
    | ReloadStarted(mine: Instance)      // status := STARTED
    | CloseLock
    | CloseCheck
    | CloseStop                          // status := STOPPING
    | CloseTake                          // s.instance = nil
    | CloseInstance(taken: Option<Instance>)
    | CloseIdle                          // status := IDLE
    | SetErrorLock
    | SetErrorFatal                      // status := FATAL, from SetError
    | FailFatal                          // status := FATAL, from a failed start or close
    | FinalUnlock
    | Finished

  datatype Op = Op(pc: Pc, acquired: nat, released: nat)

  /** `succeeded` and `failed`: instances whose Start has returned, without and with an error. */
  datatype State = State(lock: Option<Thread>, status: Status, instance: Option<Instance>, next: Instance,
                         closed: set<Instance>, succeeded: set<Instance>, failed: set<Instance>, ops: map<Thread, Op>) {
    function Goto(t: Thread, pc: Pc): State
      requires t in ops
    {
      this.(ops := ops[t := ops[t].(pc := pc)])
    }

    function Acquire(t: Thread, pc: Pc): State
      requires t in ops
    {
      this.(lock := Some(t), ops := ops[t := Op(pc, ops[t].acquired + 1, ops[t].released)])
    }

    function Release(t: Thread, pc: Pc): State
      requires t in ops
    {
      this.(lock := None, ops := ops[t := Op(pc, ops[t].acquired, ops[t].released + 1)])
    }
  }

  datatype Kind = Reload | CloseService | SetError

  function FirstPc(kind: Kind): Pc {
    match kind
    case Reload => ReloadLock
    case CloseService => CloseLock
    case SetError => SetErrorLock
  }

  datatype Step = Begin(t: Thread, kind: Kind) | Advance(t: Thread, ok: bool)

  predicate NeedsLock(pc: Pc) {
    pc.ReloadLock? || pc.ReloadRelock? || pc.ReloadConfirmLock? || pc.CloseLock? || pc.SetErrorLock?
  }

  predicate Holds(pc: Pc) {
    !NeedsLock(pc) && !pc.ReloadCloseOld? && !pc.ReloadStart? && !pc.Finished?
  }

  ghost predicate Init(s: State) {
    s.lock == None && s.status == Idle && s.instance == None && s.next == 0 && s.ops == map[]
    && s.closed == s.succeeded == s.failed == {}
  }

  predicate Enabled(s: State, step: Step) {
    match step
    case Begin(t, _) => t !in s.ops
    case Advance(t, _) => t in s.ops && !s.ops[t].pc.Finished? && (NeedsLock(s.ops[t].pc) ==> s.lock.None?)
  }

  /** `ok` is the outcome of the create, start or close the step performs, if any. */
  function Apply(s: State, step: Step): State
    requires Enabled(s, step)
  {
    match step
    case Begin(t, kind) =>
      s.(ops := s.ops[t := Op(FirstPc(kind), 0, 0)])
    case Advance(t, ok) =>
      match s.ops[t].pc
      case ReloadLock => s.Acquire(t, ReloadCheck)
      case ReloadCheck =>
        if s.status.Stopping? then s.Goto(t, FinalUnlock)
        else if s.instance.Some? then s.Goto(t, ReloadStop(s.instance.value))
        else s.Goto(t, ReloadBegin)
      case ReloadStop(o) => s.(status := Stopping).Goto(t, ReloadYield(o))
      case ReloadYield(o) => s.Release(t, ReloadCloseOld(o))
      case ReloadCloseOld(o) => s.(closed := s.closed + {o}).Goto(t, ReloadRelock(o))
      case ReloadRelock(_) => s.Acquire(t, ReloadBegin)
      case ReloadBegin => s.(status := Starting).Goto(t, ReloadCreate)
      case ReloadCreate =>
        if ok then s.(next := s.next + 1).Goto(t, ReloadInstall(s.next)) else s.Goto(t, FailFatal)
      case ReloadInstall(n) => s.(instance := Some(n)).Goto(t, ReloadRelease(n))
      case ReloadRelease(n) => s.Release(t, ReloadStart(n))
      case ReloadStart(n) =>
        (if ok then s.(succeeded := s.succeeded + {n}) else s.(failed := s.failed + {n}))
        .Goto(t, ReloadConfirmLock(n, ok))
      case ReloadConfirmLock(n, started) => s.Acquire(t, ReloadConfirm(n, started))
      case ReloadConfirm(n, started) =>
        if !s.status.Starting? then s.Goto(t, FinalUnlock)
        else if !started then s.Goto(t, FailFatal)
        else s.Goto(t, ReloadStarted(n))
      case ReloadStarted(_) => s.(status := Started).Goto(t, FinalUnlock)
      case CloseLock => s.Acquire(t, CloseCheck)
      case CloseCheck => s.Goto(t, if s.status.Starting? || s.status.Started? then CloseStop else FinalUnlock)
      case CloseStop => s.(status := Stopping).Goto(t, CloseTake)
      case CloseTake => s.(instance := None).Goto(t, CloseInstance(s.instance))
      case CloseInstance(taken) =>
        if taken.None? then s.Goto(t, CloseIdle)
        else s.(closed := s.closed + {taken.value}).Goto(t, if ok then CloseIdle else FailFatal)
      case CloseIdle => s.(status := Idle).Goto(t, FinalUnlock)
      case SetErrorLock => s.Acquire(t, SetErrorFatal)
      case SetErrorFatal => s.(status := Fatal).Goto(t, FinalUnlock)
      case FailFatal => s.(status := Fatal).Goto(t, FinalUnlock)
      case FinalUnlock => s.Release(t, Finished)
  }

  ghost predicate IsRun(run: seq<State>, steps: seq<Step>) {
    && |run| == |steps| + 1
    && Init(run[0])
    && forall k :: 0 <= k < |steps| ==> Enabled(run[k], steps[k]) && run[k + 1] == Apply(run[k], steps[k])
  }

  // ---- the lock ----

  ghost predicate OpOk(s: State, t: Thread)
    requires t in s.ops
  {
    && (s.lock == Some(t) <==> Holds(s.ops[t].pc))
    && s.ops[t].acquired == s.ops[t].released + if Holds(s.ops[t].pc) then 1 else 0
  }

  ghost predicate LockInv(s: State) {
    && (forall t :: t in s.ops ==> OpOk(s, t))
    && (s.lock.Some? ==> s.lock.value in s.ops)
  }

  /** A reload that has announced STOPPING and is closing the old instance without the lock. */
  predicate Closing(pc: Pc) {
    pc.ReloadCloseOld? || pc.ReloadRelock?
  }

  // ---- status and instance ----

  /** What a caller may rely on whenever the lock is free. */
  ghost predicate Consistent(s: State) {
    && (s.status.Starting? || s.status.Started? ==> s.instance.Some?)
    && (s.status.Idle? ==> s.instance.None?)
    && (s.status.Stopping? ==> s.instance.Some? && exists t :: t in s.ops && Closing(s.ops[t].pc))
  }

  /** What the holder of the lock knows at each point of its critical section. */
  ghost predicate HolderOk(s: State, pc: Pc) {
    match pc
    case ReloadStop(o) => s.instance == Some(o)
    case ReloadYield(o) => s.status == Stopping && s.instance == Some(o)
    case ReloadBegin => true
    case ReloadCreate => s.status == Starting
    case ReloadInstall(_) => s.status == Starting
    case ReloadRelease(n) => s.status == Starting && s.instance == Some(n)
    case ReloadStarted(_) => s.status == Starting && s.instance.Some?
    case CloseStop => true
    case CloseTake => s.status == Stopping
    case CloseInstance(_) => s.status == Stopping && s.instance == None
    case CloseIdle => s.status == Stopping && s.instance == None
    case FailFatal => true
    case _ => Consistent(s)
  }

  ghost predicate StatusInv(s: State) {
    if s.lock.None? then Consistent(s)
    else s.lock.value in s.ops && HolderOk(s, s.ops[s.lock.value].pc)
  }

  lemma LockStep(s: State, step: Step)
    requires Enabled(s, step) && LockInv(s)
    ensures LockInv(Apply(s, step))
  {
    var s' := Apply(s, step);
    if step.t in s.ops { assert OpOk(s, step.t); }
    LockHolder(s, step);
    forall u | u in s'.ops ensures OpOk(s', u) {
      if u in s.ops { assert OpOk(s, u); }
    }
  }

  /** The moving operation takes the lock when it is free, keeps it, or releases its own. */
  lemma LockHolder(s: State, step: Step)
    requires Enabled(s, step) && (step.t in s.ops ==> OpOk(s, step.t)) && (s.lock.Some? ==> s.lock.value in s.ops)
    ensures var s' := Apply(s, step);
            && step.t in s'.ops && s'.ops == s.ops[step.t := s'.ops[step.t]] && OpOk(s', step.t)
            && (s'.lock == s.lock || (s.lock.None? && s'.lock == Some(step.t))
                  || (s.lock == Some(step.t) && s'.lock.None?))
  {
  }

  lemma OnlyOneMoves(s: State, step: Step)
    requires Enabled(s, step)
    ensures step.t in Apply(s, step).ops && Apply(s, step).ops == s.ops[step.t := Apply(s, step).ops[step.t]]
  {
  }

  /** A step that neither closes a window nor writes status or instance keeps consistency. */
  lemma ConsistentKept(s: State, s': State, t: Thread)
    requires Consistent(s) && s'.status == s.status && s'.instance == s.instance
    requires t in s'.ops && s'.ops == s.ops[t := s'.ops[t]]
    requires t in s.ops && Closing(s.ops[t].pc) ==> Closing(s'.ops[t].pc)
    ensures Consistent(s')
  {
    if s.status.Stopping? {
      var u :| u in s.ops && Closing(s.ops[u].pc);
      assert Closing(s'.ops[u].pc);
    }
  }

  /** The holder moves. */
  lemma HolderStep(s: State, step: Step)
    requires Enabled(s, step) && step.Advance? && s.lock == Some(step.t)
    requires OpOk(s, step.t) && HolderOk(s, s.ops[step.t].pc)
    ensures StatusInv(Apply(s, step))
  {
    var s' := Apply(s, step);
    var pc := s.ops[step.t].pc;
    OnlyOneMoves(s, step);
    if HolderSeesConsistent(pc) && s'.status == s.status && s'.instance == s.instance { ConsistentKept(s, s', step.t); }
    if pc.ReloadYield? { assert Closing(s'.ops[step.t].pc); }
  }

  /**
   An operation outside its critical section begins, closes its old instance,
   starts its new one or takes the lock.
   */
  lemma OutsiderStep(s: State, step: Step)
    requires Enabled(s, step) && s.lock != Some(step.t) && StatusInv(s)
    requires step.t in s.ops ==> OpOk(s, step.t)
    requires s.lock.Some? ==> OpOk(s, s.lock.value)
    ensures StatusInv(Apply(s, step))
  {
    var s' := Apply(s, step);
    OnlyOneMoves(s, step);
    var relock := step.t in s.ops && s.ops[step.t].pc.ReloadRelock?;
    if !relock && (s.lock.None? || HolderSeesConsistent(s.ops[s.lock.value].pc)) { ConsistentKept(s, s', step.t); }
  }

  lemma StatusStep(s: State, step: Step)
    requires Enabled(s, step) && LockInv(s) && StatusInv(s)
    ensures StatusInv(Apply(s, step))
  {
    if step.t in s.ops { assert OpOk(s, step.t); }
    if s.lock.Some? { assert OpOk(s, s.lock.value); }
    if s.lock == Some(step.t) { HolderStep(s, step); } else { OutsiderStep(s, step); }
  }

  predicate HolderSeesConsistent(pc: Pc) {
    pc.ReloadCheck? || pc.ReloadConfirm? || pc.CloseCheck? || pc.SetErrorFatal? || pc.FinalUnlock?
  }

  lemma {:induction false} RunKeepsInv(run: seq<State>, steps: seq<Step>, k: nat)
    requires IsRun(run, steps) && k < |run|
    ensures LockInv(run[k]) && StatusInv(run[k])
  {
    if k > 0 {
      RunKeepsInv(run, steps, k - 1);
      assert Enabled(run[k - 1], steps[k - 1]) && run[k] == Apply(run[k - 1], steps[k - 1]);
      LockStep(run[k - 1], steps[k - 1]);
      StatusStep(run[k - 1], steps[k - 1]);
    }
  }

  /**
   Whenever the lock is free: STARTING and STARTED have an instance, IDLE has
   none, and STOPPING has one that some reload is still busy closing, so the
   service cannot be left refusing every command.
   */
  lemma StatusMatchesInstance(run: seq<State>, steps: seq<Step>, k: nat)
    requires IsRun(run, steps) && k < |run| && run[k].lock == None
    ensures Consistent(run[k])
  {
    RunKeepsInv(run, steps, k);
  }

  /**
   The lock is held by exactly the operation inside its critical section, and
   every finished one released it as often as it took it.
   */
  lemma LockIsBalanced(run: seq<State>, steps: seq<Step>, k: nat, t: Thread)
    requires IsRun(run, steps) && k < |run| && t in run[k].ops
    ensures run[k].lock == Some(t) <==> Holds(run[k].ops[t].pc)
    ensures run[k].ops[t].pc.Finished? ==> run[k].ops[t].acquired == run[k].ops[t].released && run[k].lock != Some(t)
  {
    RunKeepsInv(run, steps, k);
    assert OpOk(run[k], t);
  }

  // ---- instances ----

  /** Some operation holds the instance in order to install or close it. */
  ghost predicate InHand(s: State, i: Instance) {
    exists t :: t in s.ops && Carries(s.ops[t].pc, i)
  }

  predicate Carries(pc: Pc, i: Instance) {
    || pc == ReloadInstall(i) || pc == CloseInstance(Some(i))
    || pc == ReloadStop(i) || pc == ReloadYield(i) || pc == ReloadCloseOld(i)
  }

  /** Created, not closed, not current and in nobody's hands. */
  ghost predicate Leaked(s: State, i: Instance) {
    i < s.next && i !in s.closed && s.instance != Some(i) && !InHand(s, i)
  }

  ghost predicate Quiet(s: State) {
    forall t :: t in s.ops ==> !Closing(s.ops[t].pc)
  }

  /** The holder is past its status check: no other operation may be inside a closing window. */
  predicate Committed(pc: Pc) {
    Holds(pc) && !HolderSeesConsistent(pc)
  }

  ghost predicate InstanceGone(s: State) {
    s.instance.None? || s.instance.value in s.closed
  }

  ghost predicate WindowOk(s: State, t: Thread)
    requires t in s.ops
  {
    Closing(s.ops[t].pc) ==>
      && s.status == Stopping && s.instance == Some(s.ops[t].pc.outgoing)
      && (s.ops[t].pc.ReloadRelock? ==> s.ops[t].pc.outgoing in s.closed)
      && forall u :: u in s.ops && Closing(s.ops[u].pc) ==> u == t
  }

  predicate Installing(pc: Pc) {
    pc.ReloadBegin? || pc.ReloadCreate? || pc.ReloadInstall?
  }

  ghost predicate HolderAlone(s: State) {
    s.lock.Some? && s.lock.value in s.ops ==>
      && (Committed(s.ops[s.lock.value].pc) ==> Quiet(s))
      && (Installing(s.ops[s.lock.value].pc) ==> InstanceGone(s))
  }

  ghost predicate NoLeakInv(s: State) {
    && (forall t :: t in s.ops ==> WindowOk(s, t))
    && HolderAlone(s)
    && (forall i :: !Leaked(s, i))
  }

  /** SetError overwrites a STOPPING that a reload announced. */
  predicate ErrorDuringStop(s: State, step: Step) {
    step.Advance? && step.t in s.ops && s.ops[step.t].pc.SetErrorFatal? && s.status.Stopping?
  }

  /** No window is open and a committed holder moves: the only window that can open is its own. */
  lemma CommittedStep(s: State, step: Step)
    requires Enabled(s, step) && step.t in s.ops && Committed(s.ops[step.t].pc) && Quiet(s)
    requires s.lock == Some(step.t) && HolderOk(s, s.ops[step.t].pc)
    requires Installing(s.ops[step.t].pc) ==> InstanceGone(s)
    ensures var s' := Apply(s, step);
            && (forall t :: t in s'.ops ==> WindowOk(s', t))
            && HolderAlone(s')
  {
    OnlyOneMoves(s, step);
  }

  /** Any other step leaves status and instance alone, opens no window and enters no commitment while one is open. */
  lemma UncommittedStep(s: State, step: Step)
    requires Enabled(s, step) && !ErrorDuringStop(s, step)
    requires step.t in s.ops ==> OpOk(s, step.t) && WindowOk(s, step.t) && !Committed(s.ops[step.t].pc)
    requires s.lock.Some? ==> s.lock.value in s.ops && OpOk(s, s.lock.value)
    requires StatusInv(s) && (forall t :: t in s.ops ==> WindowOk(s, t)) && HolderAlone(s)
    ensures var s' := Apply(s, step);
            && (forall t :: t in s'.ops ==> WindowOk(s', t))
            && HolderAlone(s')
  {
    UncommittedEffect(s, step);
    UncommittedHolder(s, step, Apply(s, step));
    forall t | t in Apply(s, step).ops ensures WindowOk(Apply(s, step), t) {
      if t in s.ops { assert WindowOk(s, t); }
    }
  }

  lemma UncommittedEffect(s: State, step: Step)
    requires Enabled(s, step) && !ErrorDuringStop(s, step)
    requires step.t in s.ops ==> OpOk(s, step.t) && !Committed(s.ops[step.t].pc)
    ensures var s' := Apply(s, step);
            && step.t in s'.ops && s'.ops == s.ops[step.t := s'.ops[step.t]]
            && (s'.status == s.status || !s.status.Stopping?) && s'.instance == s.instance && s.closed <= s'.closed
            && (Closing(s'.ops[step.t].pc) ==>
                  && step.t in s.ops && s.ops[step.t].pc.ReloadCloseOld?
                  && s'.ops[step.t].pc == ReloadRelock(s.ops[step.t].pc.outgoing)
                  && s.ops[step.t].pc.outgoing in s'.closed)
            && (Committed(s'.ops[step.t].pc) ==>
                  && step.t in s.ops && s'.lock == Some(step.t)
                  && ((s.ops[step.t].pc.ReloadRelock? && s'.ops[step.t].pc.ReloadBegin?)
                      || (!s.status.Stopping? && (s'.ops[step.t].pc.ReloadBegin? ==> s.instance.None?)
                          && !s'.ops[step.t].pc.ReloadCreate? && !s'.ops[step.t].pc.ReloadInstall?)))
            && (s'.lock == s.lock || (s'.lock == Some(step.t) && s.lock.None?) || s'.lock.None?)
  {
  }

  lemma UncommittedHolder(s: State, step: Step, s': State)
    requires step.t in s'.ops && s'.ops == s.ops[step.t := s'.ops[step.t]]
    requires s'.instance == s.instance && s.closed <= s'.closed
    requires forall t :: t in s.ops ==> WindowOk(s, t)
    requires s.lock.Some? ==> s.lock.value in s.ops
    requires Closing(s'.ops[step.t].pc) ==> step.t in s.ops && Closing(s.ops[step.t].pc)
    requires Committed(s'.ops[step.t].pc) ==>
               && step.t in s.ops
               && ((s.ops[step.t].pc.ReloadRelock? && s'.ops[step.t].pc.ReloadBegin?)
                   || (!s.status.Stopping? && (s'.ops[step.t].pc.ReloadBegin? ==> s.instance.None?)
                       && !s'.ops[step.t].pc.ReloadCreate? && !s'.ops[step.t].pc.ReloadInstall?))
    requires s'.lock == s.lock || s'.lock == Some(step.t) || s'.lock.None?
    requires HolderAlone(s)
    ensures HolderAlone(s')
  {
    if step.t in s.ops { assert WindowOk(s, step.t); }
  }

  /** An instance changes hands only through the moving operation. */
  lemma HandsStep(s: State, step: Step, i: Instance)
    requires Enabled(s, step)
    requires !(step.t in s.ops && Carries(s.ops[step.t].pc, i))
    ensures InHand(s, i) ==> InHand(Apply(s, step), i)
    ensures InHand(Apply(s, step), i) ==> InHand(s, i) || Carries(Apply(s, step).ops[step.t].pc, i)
  {
    OnlyOneMoves(s, step);
    var s' := Apply(s, step);
    if InHand(s, i) {
      var t :| t in s.ops && Carries(s.ops[t].pc, i);
      assert t in s'.ops && s'.ops[t] == s.ops[t];
    }
  }

  /** The exact step at which an instance is lost: a reload installs over one that is neither closed nor in hand. */
  lemma LeakHappensExactlyAtInstall(s: State, step: Step, i: Instance)
    requires Enabled(s, step) && !Leaked(s, i)
    ensures Leaked(Apply(s, step), i) <==>
              && step.t in s.ops && s.ops[step.t].pc.ReloadInstall?
              && s.instance == Some(i) && i < s.next && i !in s.closed && !InHand(s, i)
  {
    var s' := Apply(s, step);
    OnlyOneMoves(s, step);
    if !(step.t in s.ops && Carries(s.ops[step.t].pc, i)) { HandsStep(s, step, i); }
    assert Carries(s'.ops[step.t].pc, i) ==> InHand(s', i);
    assert step.t in s.ops && Carries(s.ops[step.t].pc, i) ==> InHand(s, i);
  }

  /** What is lost stays lost: nobody can ever close it. */
  lemma LeakIsForever(s: State, step: Step, i: Instance)
    requires Enabled(s, step) && Leaked(s, i)
    ensures Leaked(Apply(s, step), i)
  {
    assert step.t in s.ops ==> !Carries(s.ops[step.t].pc, i);
    HandsStep(s, step, i);
    assert !Carries(Apply(s, step).ops[step.t].pc, i);
  }

  lemma {:induction false} LeakedForever(run: seq<State>, steps: seq<Step>, j: nat, k: nat, i: Instance)
    requires IsRun(run, steps) && j <= k < |run| && Leaked(run[j], i)
    ensures Leaked(run[k], i) && i !in run[k].closed
    decreases k
  {
    if j < k {
      LeakedForever(run, steps, j, k - 1, i);
      assert Enabled(run[k - 1], steps[k - 1]) && run[k] == Apply(run[k - 1], steps[k - 1]);
      LeakIsForever(run[k - 1], steps[k - 1], i);
    }
  }

  lemma NoLeakStep(s: State, step: Step)
    requires Enabled(s, step) && LockInv(s) && StatusInv(s) && NoLeakInv(s) && !ErrorDuringStop(s, step)
    ensures NoLeakInv(Apply(s, step))
  {
    if step.t in s.ops { assert OpOk(s, step.t) && WindowOk(s, step.t); }
    if s.lock.Some? { assert OpOk(s, s.lock.value); }
    forall i ensures !Leaked(Apply(s, step), i) { LeakHappensExactlyAtInstall(s, step, i); }
    if step.t in s.ops && Committed(s.ops[step.t].pc) { CommittedStep(s, step); } else { UncommittedStep(s, step); }
  }

  ghost predicate NoErrorDuringStop(run: seq<State>, steps: seq<Step>)
    requires IsRun(run, steps)
  {
    forall k :: 0 <= k < |steps| ==> !ErrorDuringStop(run[k], steps[k])
  }

  /**
   Unless SetError interrupts a reload that is closing its old instance, every
   instance ever created is closed, current, or in hand.
   */
  lemma {:induction false} InstancesNeverLeak(run: seq<State>, steps: seq<Step>, k: nat)
    requires IsRun(run, steps) && k < |run| && NoErrorDuringStop(run, steps)
    ensures NoLeakInv(run[k]) && forall i :: !Leaked(run[k], i)
  {
    if k > 0 {
      InstancesNeverLeak(run, steps, k - 1);
      RunKeepsInv(run, steps, k - 1);
      assert Enabled(run[k - 1], steps[k - 1]) && run[k] == Apply(run[k - 1], steps[k - 1]);
      NoLeakStep(run[k - 1], steps[k - 1]);
    }
  }

  // ---- a run that loses an instance ----

  ghost predicate Reaches(s: State) {
    exists run, steps :: IsRun(run, steps) && run[|run| - 1] == s
  }

  lemma Then(s: State, step: Step) returns (s': State)
    requires Reaches(s) && Enabled(s, step)
    ensures Reaches(s') && s' == Apply(s, step)
  {
    var run, steps :| IsRun(run, steps) && run[|run| - 1] == s;
    s' := Apply(s, step);
    assert IsRun(run + [s'], steps + [step]);
    assert (run + [s'])[|run|] == s';
  }

  /** A reload with the lock in hand and the way clear creates and installs the next instance. */
  lemma Installs(s0: State, t: Thread) returns (s: State)
    requires Reaches(s0) && t in s0.ops && s0.ops[t].pc.ReloadBegin? && s0.lock == Some(t)
    ensures Reaches(s) && t in s.ops && s.ops == s0.ops[t := s.ops[t]]
    ensures s.lock.None? && s.status == Starting && s.instance == Some(s0.next) && s.next == s0.next + 1
    ensures s.closed == s0.closed && s.failed == s0.failed && s.ops[t].pc == ReloadStart(s0.next)
  {
    s := Then(s0, Advance(t, true));
    s := Then(s, Advance(t, true));
    s := Then(s, Advance(t, true));
    s := Then(s, Advance(t, true));
  }

  /** Everything but the lock and the operation `t` is as before. */
  ghost predicate Beside(s0: State, s: State, t: Thread) {
    t in s.ops && s.ops == s0.ops[t := s.ops[t]]
    && s.instance == s0.instance && s.next == s0.next && s.closed == s0.closed
  }

  lemma TakesLock(s0: State, t: Thread, kind: Kind) returns (s: State)
    requires Reaches(s0) && t !in s0.ops && s0.lock.None?
    ensures Reaches(s) && Beside(s0, s, t) && s.status == s0.status && s.lock == Some(t)
    ensures s.ops[t].pc == (match kind
                            case Reload => ReloadCheck
                            case CloseService => CloseCheck
                            case SetError => SetErrorFatal)
  {
    s := Then(s0, Begin(t, kind));
    s := Then(s, Advance(t, true));
  }

  /** A reload announces STOPPING and lets go of the lock to close the current instance. */
  lemma OpensWindow(s0: State, t: Thread) returns (s: State)
    requires Reaches(s0) && t !in s0.ops && s0.lock.None? && !s0.status.Stopping? && s0.instance.Some?
    ensures Reaches(s) && Beside(s0, s, t) && s.lock.None?
    ensures s.ops[t].pc == ReloadCloseOld(s0.instance.value)
  {
    s := TakesLock(s0, t, Reload);
    s := Then(s, Advance(t, true));
    s := Then(s, Advance(t, true));
    s := Then(s, Advance(t, true));
  }

  lemma FirstReload() returns (s: State)
    ensures Reaches(s) && s.lock == Some(0) && s.next == 0 && s.instance.None? && s.closed == {}
    ensures s.ops.Keys == {0} && s.ops[0].pc.ReloadBegin?
  {
    s := State(None, Idle, None, 0, {}, {}, {}, map[]);
    assert IsRun([s], []);
    assert [s][|[s]| - 1] == s;
    s := TakesLock(s, 0, Reload);
    s := Then(s, Advance(0, true));
  }

  lemma FirstInstance() returns (s: State)
    ensures Reaches(s) && s.lock.None? && s.status == Starting && s.next == 1 && s.instance == Some(0) && s.closed == {}
    ensures s.ops.Keys == {0} && s.ops[0].pc == ReloadStart(0)
  {
    s := FirstReload();
    s := Installs(s, 0);
  }

  lemma SetsError(s0: State, t: Thread) returns (s: State)
    requires Reaches(s0) && t !in s0.ops && s0.lock.None?
    ensures Reaches(s) && Beside(s0, s, t) && s.lock.None? && s.status == Fatal && s.ops[t].pc.Finished?
  {
    s := TakesLock(s0, t, SetError);
    s := Then(s, Advance(t, true));
    s := Then(s, Advance(t, true));
  }

  /** Two reloads inside their closing windows at once, which only a SetError between them makes possible. */
  lemma TwoWindows() returns (s: State)
    ensures Reaches(s) && s.lock.None? && s.next == 1 && s.instance == Some(0) && s.closed == {}
    ensures s.ops.Keys == {0, 1, 2, 3} && s.ops[0].pc.ReloadStart? && s.ops[2].pc.Finished?
    ensures s.ops[1].pc == s.ops[3].pc == ReloadCloseOld(0)
  {
    s := FirstInstance();
    s := OpensWindow(s, 1);
    s := SetsError(s, 2);
    s := OpensWindow(s, 3);
  }

  /** A reload inside its closing window closes the old instance and installs a new one. */
  lemma WindowInstalls(s0: State, t: Thread) returns (s: State)
    requires Reaches(s0) && t in s0.ops && s0.ops[t].pc.ReloadCloseOld? && s0.lock.None?
    ensures Reaches(s) && t in s.ops && s.ops == s0.ops[t := s.ops[t]] && s.lock.None? && s.status == Starting
    ensures s.failed == s0.failed && s.instance == Some(s0.next) && s.next == s0.next + 1
    ensures s.closed == s0.closed + {s0.ops[t].pc.outgoing}
    ensures s.ops[t].pc == ReloadStart(s0.next)
  {
    s := Then(s0, Advance(t, true));
    s := Then(s, Advance(t, true));
    s := Installs(s, t);
  }

  lemma FirstWindowInstalls() returns (s: State)
    ensures Reaches(s) && s.lock.None? && s.next == 2 && s.instance == Some(1) && s.closed == {0}
    ensures s.ops.Keys == {0, 1, 2, 3} && s.ops[0].pc.ReloadStart? && s.ops[1].pc.ReloadStart?
    ensures s.ops[2].pc.Finished? && s.ops[3].pc == ReloadCloseOld(0)
  {
    s := TwoWindows();
    s := WindowInstalls(s, 1);
  }

  lemma ErrorDuringStopCanLeak() returns (s: State)
    ensures Reaches(s) && Leaked(s, 1)
  {
    s := FirstWindowInstalls();
    s := WindowInstalls(s, 3);
  }

  // ---- whose start STARTED announces ----

  /** The instance a reload is putting in place, from its creation to its announcement. */
  function Mine(pc: Pc): Option<Instance> {
    match pc
    case ReloadInstall(n) => Some(n)
    case ReloadRelease(n) => Some(n)
    case ReloadStart(n) => Some(n)
    case ReloadConfirmLock(n, _) => Some(n)
    case ReloadConfirm(n, _) => Some(n)
    case ReloadStarted(n) => Some(n)
    case _ => None
  }

  /** Between its install and the end of its confirmation. */
  predicate Standing(pc: Pc) {
    Mine(pc).Some? && !pc.ReloadInstall?
  }

  /** The instance's Start has not returned and the reload that calls it is at the call or just before it. */
  predicate YetToReturn(pc: Pc, i: Instance) {
    pc == ReloadInstall(i) || pc == ReloadRelease(i) || pc == ReloadStart(i)
  }

  /** Its instance is its own, and whether its Start has returned is as recorded. */
  ghost predicate OwnerOk(s: State, t: Thread)
    requires t in s.ops
  {
    var pc := s.ops[t].pc;
    Mine(pc).Some? ==>
      var i := Mine(pc).value;
      && i < s.next
      && (forall u :: u in s.ops && Mine(s.ops[u].pc) == Some(i) ==> u == t)
      && (if YetToReturn(pc, i) then i !in s.succeeded && i !in s.failed
          else if (pc.ReloadConfirmLock? || pc.ReloadConfirm?) && !pc.ok then i in s.failed
          else i in s.succeeded)
  }

  ghost predicate StandsFor(s: State, i: Instance) {
    exists t :: t in s.ops && Standing(s.ops[t].pc) && Mine(s.ops[t].pc) == Some(i)
  }

  ghost predicate StillStarting(s: State, i: Instance) {
    exists t :: t in s.ops && YetToReturn(s.ops[t].pc, i)
  }

  /** The holder has written STARTING and not yet installed, or is about to write FATAL over it. */
  predicate Unsettled(s: State) {
    s.lock.Some? && s.lock.value in s.ops
    && var pc := s.ops[s.lock.value].pc; pc.ReloadCreate? || pc.ReloadInstall? || pc.FailFatal?
  }

  ghost predicate StartInv(s: State) {
    && (forall t :: t in s.ops ==> OwnerOk(s, t))
    && (forall i :: i in s.succeeded || i in s.failed ==> i < s.next)
    && s.succeeded !! s.failed
    && (s.status.Starting? && !Unsettled(s) ==> s.instance.Some? && StandsFor(s, s.instance.value))
    && (s.instance.Some? ==> Accounted(s, s.instance.value))
  }

  /** An instance's Start has returned or is still to return. */
  ghost predicate Accounted(s: State, i: Instance) {
    i in s.succeeded || i in s.failed || StillStarting(s, i)
  }

  /** What a step does to the instance its operation carries and to the record of returned Starts. */
  lemma MineStep(s: State, step: Step)
    requires Enabled(s, step)
    ensures var s' := Apply(s, step);
            var before := if step.t in s.ops then Mine(s.ops[step.t].pc) else None;
            && step.t in s'.ops && s'.ops == s.ops[step.t := s'.ops[step.t]]
            && (Mine(s'.ops[step.t].pc) == before || Mine(s'.ops[step.t].pc).None?
                || (before.None? && Mine(s'.ops[step.t].pc) == Some(s.next) && s'.next == s.next + 1
                      && s'.ops[step.t].pc.ReloadInstall?))
            && s.next <= s'.next
            && (if step.t in s.ops && s.ops[step.t].pc.ReloadStart?
                then && s'.succeeded == s.succeeded + (if step.ok then {before.value} else {})
                     && s'.failed == s.failed + (if step.ok then {} else {before.value})
                     && s'.ops[step.t].pc == ReloadConfirmLock(before.value, step.ok)
                else s'.succeeded == s.succeeded && s'.failed == s.failed)
  {
  }

  lemma OwnerStep(s: State, step: Step, u: Thread)
    requires Enabled(s, step) && u in Apply(s, step).ops
    requires u in s.ops ==> OwnerOk(s, u)
    requires step.t in s.ops ==> OwnerOk(s, step.t)
    requires forall i :: i in s.succeeded || i in s.failed ==> i < s.next
    requires forall t :: t in s.ops && Mine(s.ops[t].pc).Some? ==> Mine(s.ops[t].pc).value < s.next
    ensures OwnerOk(Apply(s, step), u)
  {
    MineStep(s, step);
  }

  lemma StandingStep(s: State, step: Step, i: Instance)
    requires Enabled(s, step) && StandsFor(s, i)
    requires step.t in s.ops && Standing(s.ops[step.t].pc) ==> Standing(Apply(s, step).ops[step.t].pc)
    ensures StandsFor(Apply(s, step), i)
  {
    var t :| t in s.ops && Standing(s.ops[t].pc) && Mine(s.ops[t].pc) == Some(i);
    MineStep(s, step);
    assert Standing(Apply(s, step).ops[t].pc);
  }

  lemma AccountedStep(s: State, step: Step, i: Instance)
    requires Enabled(s, step) && Accounted(s, i)
    ensures Accounted(Apply(s, step), i)
  {
    MineStep(s, step);
    if StillStarting(s, i) {
      var t :| t in s.ops && YetToReturn(s.ops[t].pc, i);
      var s' := Apply(s, step);
      assert YetToReturn(s'.ops[t].pc, i) || i in s'.succeeded || i in s'.failed;
    }
  }

  predicate InstallsNow(s: State, step: Step) {
    step.t in s.ops && s.ops[step.t].pc.ReloadInstall?
  }

  /**
   A step that leaves a settled STARTING found one with the same instance and its
   reloads still standing, or installed the instance.
   */
  lemma CurrentStep(s: State, step: Step)
    requires Enabled(s, step) && StatusInv(s)
    requires step.t in s.ops ==> OpOk(s, step.t)
    requires s.lock.Some? ==> s.lock.value in s.ops && OpOk(s, s.lock.value)
    ensures var s' := Apply(s, step);
            && (s'.instance == s.instance || s'.instance.None? || InstallsNow(s, step))
            && (s'.status.Starting? && !Unsettled(s') && !InstallsNow(s, step) ==>
                  && s.status.Starting? && !Unsettled(s) && s'.instance == s.instance
                  && (step.t in s.ops && Standing(s.ops[step.t].pc) ==> Standing(s'.ops[step.t].pc)))
            && (InstallsNow(s, step) ==>
                  s'.ops[step.t].pc == ReloadRelease(s.ops[step.t].pc.incoming)
                      && s'.instance == Some(s.ops[step.t].pc.incoming))
            && (s'.status.Started? ==>
                  (s.status.Started? && s'.instance == s.instance)
                      || (step.t in s.ops && s.ops[step.t].pc.ReloadStarted?))
  {
  }

  lemma StartStep(s: State, step: Step)
    requires Enabled(s, step) && LockInv(s) && StatusInv(s) && StartInv(s)
    ensures StartInv(Apply(s, step))
  {
    var s' := Apply(s, step);
    if step.t in s.ops { assert OpOk(s, step.t) && OwnerOk(s, step.t); }
    if s.lock.Some? { assert OpOk(s, s.lock.value); }
    MineStep(s, step);
    CurrentStep(s, step);
    forall u | u in s'.ops ensures OwnerOk(s', u) {
      if u in s.ops { assert OwnerOk(s, u); }
      forall t | t in s.ops && Mine(s.ops[t].pc).Some?
        ensures Mine(s.ops[t].pc).value < s.next
      {
        assert OwnerOk(s, t);
      }
      OwnerStep(s, step, u);
    }
    if InstallsNow(s, step) {
      assert Standing(s'.ops[step.t].pc) && YetToReturn(s'.ops[step.t].pc, s'.instance.value);
    } else {
      if s'.instance == s.instance && s.instance.Some? { AccountedStep(s, step, s.instance.value); }
      if s'.status.Starting? && !Unsettled(s') { StandingStep(s, step, s.instance.value); }
    }
  }

  lemma {:induction false} RunKeepsStartInv(run: seq<State>, steps: seq<Step>, k: nat)
    requires IsRun(run, steps) && k < |run|
    ensures StartInv(run[k])
  {
    if k > 0 {
      RunKeepsStartInv(run, steps, k - 1);
      RunKeepsInv(run, steps, k - 1);
      assert Enabled(run[k - 1], steps[k - 1]) && run[k] == Apply(run[k - 1], steps[k - 1]);
      StartStep(run[k - 1], steps[k - 1]);
    }
  }

  /** Another operation is still inside the Start of the instance, or waiting to confirm it. */
  ghost predicate AnotherStarts(s: State, t: Thread, i: Instance) {
    exists u :: u in s.ops && u != t
        && (s.ops[u].pc == ReloadStart(i) || (s.ops[u].pc.ReloadConfirmLock? && s.ops[u].pc.mine == i))
  }

  /**
   A reload about to announce STARTED announces the instance it started itself
   exactly when no other reload is inside the current instance's Start or
   waiting to confirm it.
   */
  lemma AnnouncesOwnIff(run: seq<State>, steps: seq<Step>, k: nat, t: Thread)
    requires IsRun(run, steps) && k < |run| && t in run[k].ops && run[k].ops[t].pc.ReloadStarted?
    ensures run[k].instance.Some?
    ensures run[k].ops[t].pc.mine == run[k].instance.value <==> !AnotherStarts(run[k], t, run[k].instance.value)
  {
    var s := run[k];
    RunKeepsInv(run, steps, k);
    RunKeepsStartInv(run, steps, k);
    assert OpOk(s, t) && OwnerOk(s, t);
    var i := s.instance.value;
    assert StandsFor(s, i);
    var u :| u in s.ops && Standing(s.ops[u].pc) && Mine(s.ops[u].pc) == Some(i);
    assert OpOk(s, u) && OwnerOk(s, u);
  }

  /** Some operation is inside the instance's Start, or has seen it fail and waits to confirm. */
  ghost predicate StartingOrFailed(s: State, i: Instance) {
    exists u :: u in s.ops && (s.ops[u].pc == ReloadStart(i) || s.ops[u].pc == ReloadConfirmLock(i, false))
  }

  /**
   The announcement is true, that is, the current instance's Start has returned
   without error, exactly when nobody is still inside that Start or waiting to
   report its failure.
   */
  lemma AnnouncementTrueIff(run: seq<State>, steps: seq<Step>, k: nat, t: Thread)
    requires IsRun(run, steps) && k < |run| && t in run[k].ops && run[k].ops[t].pc.ReloadStarted?
    ensures run[k].instance.Some?
    ensures run[k].instance.value in run[k].succeeded <==> !StartingOrFailed(run[k], run[k].instance.value)
  {
    var s := run[k];
    RunKeepsInv(run, steps, k);
    RunKeepsStartInv(run, steps, k);
    assert OpOk(s, t);
    var i := s.instance.value;
    assert StandsFor(s, i);
    var u :| u in s.ops && Standing(s.ops[u].pc) && Mine(s.ops[u].pc) == Some(i);
    assert OpOk(s, u) && OwnerOk(s, u);
    forall v | v in s.ops && (s.ops[v].pc == ReloadStart(i) || s.ops[v].pc == ReloadConfirmLock(i, false))
      ensures u == v
    {
      assert OwnerOk(s, v);
    }
  }

  /**
   With the lock free, STARTED means one of three things of the current instance:
   its Start succeeded, failed, or is still running.
   */
  lemma StartedMeans(run: seq<State>, steps: seq<Step>, k: nat)
    requires IsRun(run, steps) && k < |run| && run[k].lock.None? && run[k].status.Started?
    ensures run[k].instance.Some?
    ensures var s := run[k];
            var i := s.instance.value;
            var running := exists t :: t in s.ops && s.ops[t].pc == ReloadStart(i);
            && (i in s.succeeded || i in s.failed || running)
            && !(i in s.succeeded && i in s.failed) && (running ==> i !in s.succeeded && i !in s.failed)
  {
    var s := run[k];
    RunKeepsInv(run, steps, k);
    RunKeepsStartInv(run, steps, k);
    var i := s.instance.value;
    if StillStarting(s, i) {
      var t :| t in s.ops && YetToReturn(s.ops[t].pc, i);
      assert OpOk(s, t);
    }
    forall t | t in s.ops && s.ops[t].pc == ReloadStart(i)
      ensures i !in s.succeeded && i !in s.failed
    {
      assert OwnerOk(s, t);
    }
  }

  // ---- reloads that do not overtake one another ----

  /** No reload installs while another stands between its install and its confirmation. */
  ghost predicate NoOvertaking(run: seq<State>, steps: seq<Step>)
    requires IsRun(run, steps)
  {
    forall k :: 0 <= k < |steps| && InstallsNow(run[k], steps[k]) ==>
      forall u :: u in run[k].ops ==> !Standing(run[k].ops[u].pc)
  }

  ghost predicate SoloInv(s: State) {
    && (forall t, u :: t in s.ops && u in s.ops && Standing(s.ops[t].pc) && Standing(s.ops[u].pc) ==> t == u)
    && (s.status.Started? ==> s.instance.Some? && s.instance.value in s.succeeded)
  }

  lemma SoloStep(s: State, step: Step)
    requires Enabled(s, step) && LockInv(s) && StatusInv(s) && StartInv(s) && SoloInv(s)
    requires InstallsNow(s, step) ==> forall u :: u in s.ops ==> !Standing(s.ops[u].pc)
    ensures SoloInv(Apply(s, step))
  {
    if step.t in s.ops { assert OpOk(s, step.t) && OwnerOk(s, step.t); }
    if s.lock.Some? { assert OpOk(s, s.lock.value); }
    MineStep(s, step);
    CurrentStep(s, step);
    StandingBegins(s, step);
    if step.t in s.ops && s.ops[step.t].pc.ReloadStarted? {
      assert StandsFor(s, s.instance.value);
      assert Apply(s, step).instance == s.instance;
    }
  }

  lemma StandingBegins(s: State, step: Step)
    requires Enabled(s, step)
    ensures Standing(Apply(s, step).ops[step.t].pc) ==>
              step.t in s.ops && (Standing(s.ops[step.t].pc) || InstallsNow(s, step))
  {
  }

  /** Then STARTED with the lock free means that the current instance's Start returned without error. */
  lemma {:induction false} StartedMeansStarted(run: seq<State>, steps: seq<Step>, k: nat)
    requires IsRun(run, steps) && k < |run| && NoOvertaking(run, steps)
    ensures SoloInv(run[k])
    ensures run[k].status.Started? ==> run[k].instance.Some? && run[k].instance.value in run[k].succeeded
  {
    if k > 0 {
      StartedMeansStarted(run, steps, k - 1);
      RunKeepsInv(run, steps, k - 1);
      RunKeepsStartInv(run, steps, k - 1);
      assert Enabled(run[k - 1], steps[k - 1]) && run[k] == Apply(run[k - 1], steps[k - 1]);
      SoloStep(run[k - 1], steps[k - 1]);
    }
  }

  // ---- runs in which a reload is overtaken ----

  lemma Confirms(s0: State, t: Thread) returns (s: State)
    requires Reaches(s0) && t in s0.ops && s0.ops[t].pc.ReloadStart? && s0.lock.None? && s0.status == Starting
    ensures Reaches(s) && Beside(s0, s, t) && s.lock.None? && s.status == Started && s.failed == s0.failed
              && s.ops[t].pc.Finished?
  {
    s := Then(s0, Advance(t, true));
    s := Then(s, Advance(t, true));
    s := Then(s, Advance(t, true));
    s := Then(s, Advance(t, true));
    s := Then(s, Advance(t, true));
  }

  /** An overtaken reload announces STARTED while its successor's Start is still running. */
  lemma StartedBeforeItsInstance() returns (s: State)
    ensures Reaches(s) && s.lock.None? && s.status == Started && s.instance == Some(1) && s.ops.Keys == {0, 1}
    ensures s.ops[0].pc.Finished? && s.ops[1].pc == ReloadStart(1)
  {
    s := FirstInstance();
    s := OpensWindow(s, 1);
    s := WindowInstalls(s, 1);
    s := Confirms(s, 0);
  }

  /**
   When that Start then fails, its error is dropped: nothing is left to change
   the STARTED that stands for an instance whose Start failed.
   */
  lemma StartErrorIsSwallowed() returns (s: State)
    ensures Reaches(s) && s.lock.None? && s.status == Started && s.instance == Some(1) && 1 in s.failed
    ensures forall t :: t in s.ops ==> s.ops[t].pc.Finished?
  {
    s := StartedBeforeItsInstance();
    s := FailsUnheard(s, 1);
  }

  lemma FailsUnheard(s0: State, t: Thread) returns (s: State)
    requires Reaches(s0) && t in s0.ops && s0.ops[t].pc.ReloadStart? && s0.lock.None? && s0.status == Started
    ensures Reaches(s) && Beside(s0, s, t) && s.lock.None? && s.status == Started
    ensures s0.ops[t].pc.mine in s.failed && s.ops[t].pc.Finished?
  {
    s := Then(s0, Advance(t, false));
    s := Then(s, Advance(t, true));
    s := Then(s, Advance(t, true));
    s := Then(s, Advance(t, true));
  }

  /**
   A failed Start is reported as FATAL exactly when its reload finds STARTING;
   the report then is about another reload's instance exactly when that one is
   still being started.
   */
  lemma StartErrorReportedIff(run: seq<State>, steps: seq<Step>, k: nat)
    requires IsRun(run, steps) && k < |steps| && steps[k].Advance? && run[k].ops[steps[k].t].pc.ReloadConfirm?
    requires !run[k].ops[steps[k].t].pc.ok
    ensures var s, s', t := run[k], run[k + 1], steps[k].t;
            && s.ops[t].pc.mine in s.failed
            && (s'.ops[t].pc.FailFatal? <==> s.status.Starting?)
            && (!s.status.Starting? ==> s'.ops[t].pc.FinalUnlock? && s'.status == s.status && s'.instance == s.instance)
            && (s.status.Starting? ==>
                  && s.instance.Some?
                  && (s.instance.value == s.ops[t].pc.mine <==> !AnotherStarts(s, t, s.instance.value)))
  {
    var s, t := run[k], steps[k].t;
    RunKeepsInv(run, steps, k);
    RunKeepsStartInv(run, steps, k);
    assert Enabled(s, steps[k]) && run[k + 1] == Apply(s, steps[k]);
    assert OpOk(s, t) && OwnerOk(s, t);
    if s.status.Starting? {
      var i := s.instance.value;
      assert StandsFor(s, i);
      var u :| u in s.ops && Standing(s.ops[u].pc) && Mine(s.ops[u].pc) == Some(i);
      assert OpOk(s, u) && OwnerOk(s, u);
    }
  }
}
