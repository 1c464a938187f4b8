/**
 The single flight told by the steps of a run alone: when a cache load hits, when
 a recorded failure still counts and what a call goes through, without reference
 to the state the steps keep.
 */
module FlightHistory {
  import opened Options
  import opened SingleFlight

  // ---- what the steps of a run decide ----

  ghost predicate Did(steps: seq<Step>, k: nat, step: Step) {
    exists j :: 0 <= j < k && j < |steps| && steps[j] == step
  }

  ghost predicate Aligned(run: seq<State>, steps: seq<Step>) {
    |run| == |steps| + 1
  }

  /** What a step does to the clock and the settings. */
  predicate Onward(s: State, s': State) {
    && s.now <= s'.now && s'.responses.independent == s.responses.independent
    && s'.responses.disableExpire == s.responses.disableExpire
  }

  lemma {:induction false} OnwardChain(run: seq<State>, j: nat, k: nat)
    requires j <= k < |run| && forall i :: 0 <= i < |run| - 1 ==> Onward(run[i], run[i + 1])
    ensures Onward(run[j], run[k])
    decreases k
  {
    if j < k {
      OnwardChain(run, j, k - 1);
      assert Onward(run[k - 1], run[k - 1 + 1]);
    }
  }

  lemma ClockAdvances(run: seq<State>, steps: seq<Step>)
    requires IsRun(run, steps)
    ensures forall i :: 0 <= i < |run| - 1 ==> Onward(run[i], run[i + 1])
  {
    forall i | 0 <= i < |run| - 1 ensures Onward(run[i], run[i + 1]) {
      SettingsKept(run[i], steps[i]);
    }
  }

  predicate SameSettings(s: State, s': State) {
    s'.responses.independent == s.responses.independent && s'.responses.disableExpire == s.responses.disableExpire
  }

  lemma CallKeepsSettings(s: State, step: Step)
    requires Enabled(s, step)
    requires !step.Tick? && !step.Begin? && !step.Lock? && !step.Load? && !step.Store? && !step.Drop?
    ensures SameSettings(s, Apply(s, step)) && Apply(s, step).now == s.now
  {
  }

  lemma SettingsKept(s: State, step: Step)
    requires Enabled(s, step)
    ensures SameSettings(s, Apply(s, step))
    ensures Apply(s, step).now == s.now + if step.Tick? then step.elapsed else 0
  {
    if !step.Tick? && !step.Begin? && !step.Lock? && !step.Load? && !step.Store? && !step.Drop? {
      CallKeepsSettings(s, step);
    }
  }

  // ---- recorded failures ----

  /** The step records a network failure of the key. */
  predicate Records(s: State, step: Step, key: Key) {
    step.RecordFailure? && step.t in s.calls && s.calls[step.t].key == key
  }

  /** Some failure of the key was recorded less than the TTL ago. */
  ghost predicate RecordedRecently(run: seq<State>, steps: seq<Step>, k: nat, key: Key)
    requires Aligned(run, steps) && k < |run|
  {
    exists j :: 0 <= j < k && Records(run[j], steps[j], key) && run[k].now < run[j].now + NEG_FAIL_TTL
  }

  /** What a step does to the remembered failure of a key. */
  ghost predicate Remembers(s: State, step: Step, s': State, key: Key) {
    if Records(s, step, key) then key in s'.negFail && s'.negFail[key] == s.now + NEG_FAIL_TTL
    else (key in s'.negFail <==> key in s.negFail) && (key in s.negFail ==> s'.negFail[key] == s.negFail[key])
  }

  lemma RecordEffect(s: State, step: Step, key: Key)
    requires Enabled(s, step)
    ensures Remembers(s, step, Apply(s, step), key)
  {
  }

  /** The cache of failures holds the last failure recorded. */
  lemma {:induction false} NegFailIsLastRecord(run: seq<State>, steps: seq<Step>, k: nat, key: Key)
    requires Aligned(run, steps) && k < |run| && run[0].negFail == map[]
    requires forall i :: 0 <= i < |run| - 1 ==> Onward(run[i], run[i + 1])
    requires forall i :: 0 <= i < |steps| ==> Remembers(run[i], steps[i], run[i + 1], key)
    ensures key in run[k].negFail ==>
              exists j :: 0 <= j < k && Records(run[j], steps[j], key)
                  && run[k].negFail[key] == run[j].now + NEG_FAIL_TTL
    ensures forall j :: 0 <= j < k && Records(run[j], steps[j], key) ==>
              key in run[k].negFail && run[k].negFail[key] >= run[j].now + NEG_FAIL_TTL
  {
    if k > 0 {
      NegFailIsLastRecord(run, steps, k - 1, key);
      assert Remembers(run[k - 1], steps[k - 1], run[k - 1 + 1], key);
      forall j | 0 <= j < k && Records(run[j], steps[j], key)
        ensures key in run[k].negFail && run[k].negFail[key] >= run[j].now + NEG_FAIL_TTL
      {
        OnwardChain(run, j, k - 1);
      }
    }
  }

  lemma NegFailStep(s: State, t: Thread)
    requires Enabled(s, NegFail(t))
    ensures AtPc(Apply(s, NegFail(t)), t, CheckCircuit) <==>
              !(s.calls[t].key in s.negFail && s.now < s.negFail[s.calls[t].key])
    ensures !AtPc(Apply(s, NegFail(t)), t, CheckCircuit) ==> AtPc(Apply(s, NegFail(t)), t, Ending(s.calls[t]).pc)
  {
  }

  /** A call passes the check of recent failures exactly when none of its key was recorded less than the TTL ago. */
  lemma PassesIffNoneRecent(run: seq<State>, steps: seq<Step>, k: nat, t: Thread)
    requires IsRun(run, steps) && k < |steps| && steps[k] == NegFail(t)
    ensures AtPc(run[k + 1], t, CheckCircuit) <==> !RecordedRecently(run, steps, k, run[k].calls[t].key)
  {
    assert Enabled(run[k], steps[k]) && run[k + 1] == Apply(run[k], steps[k]);
    var key := run[k].calls[t].key;
    NegFailStep(run[k], t);
    ClockAdvances(run, steps);
    forall i | 0 <= i < |steps| ensures Remembers(run[i], steps[i], run[i + 1], key) {
      RecordEffect(run[i], steps[i], key);
    }
    NegFailIsLastRecord(run, steps, k, key);
  }

  // ---- stored responses ----

  /** Two keys share an entry of the response cache. */
  predicate SameEntry(c: Responses, a: Key, b: Key) {
    a.question == b.question && (c.independent ==> a.transport == b.transport)
  }

  /** The step stores a response under the entry of the key. */
  predicate Stores(s: State, step: Step, key: Key) {
    && step.Store? && step.lifetime > 0 && step.t in s.calls && s.calls[step.t].cached
    && SameEntry(s.responses, s.calls[step.t].key, key)
  }

  predicate Drops(s: State, step: Step, key: Key) {
    step.Drop? && s.responses.KeyOf(key) in step.keys
  }

  /** The j-th step was the last before `k` to store under the entry of the key, and nothing dropped it since. */
  ghost predicate LastStore(run: seq<State>, steps: seq<Step>, k: nat, j: nat, key: Key)
    requires Aligned(run, steps) && k < |run|
  {
    && j < k && Stores(run[j], steps[j], key)
    && forall i :: j < i < k ==> !Stores(run[i], steps[i], key) && !Drops(run[i], steps[i], key)
  }

  /** A response stored under the entry of the key is still to be had. */
  ghost predicate StillStored(run: seq<State>, steps: seq<Step>, k: nat, key: Key)
    requires Aligned(run, steps) && k < |run|
  {
    exists j: nat :: LastStore(run, steps, k, j, key)
                && (run[k].responses.disableExpire || run[k].now <= run[j].now + steps[j].lifetime)
  }

  lemma KeyOfSeparates(c: Responses, a: Key, b: Key)
    ensures c.KeyOf(a) == c.KeyOf(b) <==> SameEntry(c, a, b)
  {
  }

  lemma OthersLeaveWritten(s: State, step: Step)
    requires Enabled(s, step) && !step.Store? && !step.Drop?
    ensures Apply(s, step).responses.written == s.responses.written
  {
  }

  /** What a step does to the last entry written under a key. */
  ghost predicate Writes(s: State, step: Step, s': State, key: Key) {
    var before, after := s.responses.Last(key), s'.responses.Last(key);
    if Stores(s, step, key) then after.Some? && after.value.expireAt == s.now + step.lifetime
    else if Drops(s, step, key) then after.None?
    else after == before
  }

  lemma WrittenEffect(s: State, step: Step, key: Key)
    requires Enabled(s, step)
    ensures Writes(s, step, Apply(s, step), key)
  {
    SettingsKept(s, step);
    if step.Store? && step.lifetime > 0 {
      StoreEffect(s, step.t, step.lifetime);
      KeyOfSeparates(s.responses, s.calls[step.t].key, key);
    } else if step.Store? {
      AnswerEffect(s, step);
    } else if !step.Drop? {
      OthersLeaveWritten(s, step);
    }
  }

  lemma {:induction false} WrittenIsLastStore(run: seq<State>, steps: seq<Step>, k: nat, key: Key)
    requires Aligned(run, steps) && k < |run| && run[0].responses.Last(key).None?
    requires forall i :: 0 <= i < |steps| ==> Writes(run[i], steps[i], run[i + 1], key)
    ensures run[k].responses.Last(key).Some? ==> exists j: nat :: LastStore(run, steps, k, j, key)
    ensures forall j: nat :: LastStore(run, steps, k, j, key) ==>
              && run[k].responses.Last(key).Some?
              && run[k].responses.Last(key).value.expireAt == run[j].now + steps[j].lifetime
  {
    if k > 0 {
      WrittenIsLastStore(run, steps, k - 1, key);
      assert Writes(run[k - 1], steps[k - 1], run[k - 1 + 1], key);
      if Stores(run[k - 1], steps[k - 1], key) {
        assert LastStore(run, steps, k, k - 1, key);
      } else if !Drops(run[k - 1], steps[k - 1], key) && run[k].responses.Last(key).Some? {
        var j: nat :| LastStore(run, steps, k - 1, j, key);
        assert LastStore(run, steps, k, j, key);
      }
      forall j: nat | LastStore(run, steps, k, j, key)
        ensures run[k].responses.Last(key).Some?
        ensures run[k].responses.Last(key).value.expireAt == run[j].now + steps[j].lifetime
      {
        if j < k - 1 { assert LastStore(run, steps, k - 1, j, key); }
      }
    }
  }

  lemma HitIsLast(c: Responses, key: Key, now: Time)
    requires c.Ok(now)
    ensures c.Hit(key, now) <==> c.Last(key).Some? && (c.disableExpire || now <= c.Last(key).value.expireAt)
  {
  }

  /**
   A cache load ends the call exactly when the last response stored under its
   entry was neither dropped nor has expired; one that misses leaves no entry.
   */
  lemma LoadHitsIffStillStored(run: seq<State>, steps: seq<Step>, k: nat, t: Thread)
    requires IsRun(run, steps) && k < |steps| && steps[k] == Load(t)
    ensures AtPc(run[k + 1], t, GetNegFail) <==> !StillStored(run, steps, k, run[k].calls[t].key)
    ensures StillStored(run, steps, k, run[k].calls[t].key) ==> AtPc(run[k + 1], t, Ending(run[k].calls[t]).pc)
    ensures AtPc(run[k + 1], t, GetNegFail) ==>
              run[k].responses.KeyOf(run[k].calls[t].key) !in run[k + 1].responses.cache
  {
    assert Enabled(run[k], steps[k]) && run[k + 1] == Apply(run[k], steps[k]);
    var key := run[k].calls[t].key;
    RunKeepsInv(run, steps, k);
    LoadEffect(run[k], t);
    HitIsLast(run[k].responses, key, run[k].now);
    forall i | 0 <= i < |steps| ensures Writes(run[i], steps[i], run[i + 1], key) {
      WrittenEffect(run[i], steps[i], key);
    }
    WrittenIsLastStore(run, steps, k, key);
  }

  // ---- the way of one call ----

  /** The moves a call can make, step by step and without regard to the rest of the state. */
  predicate Moves(c: Call, step: Step, c': Call) {
    && c'.key == c.key && c'.cached == c.cached && c'.parent == c.parent
    && (step.Lock? || c'.leading == c.leading) && (step.Wake? || c'.released == c.released)
    && c'.exchanges == c.exchanges + (if step.Circuit? && !step.open then 1 else 0)
    && match step
       case Lock(_) => c.pc.LoadOrStore? && (c'.pc.Joining? || (c'.pc.LoadCache? && c'.leading.Some?))
       case Await(_) => c.pc.Joining? && (c'.pc.Waiting? || c'.pc.Finished?)
       case Abandon(_) => Queued(c.pc) && c'.pc.Finished?
       case Expire(_) => c.pc.Waiting? && c'.pc.Finished?
       case Wake(_) => c.pc.Waiting? && c'.pc.LoadCache? && c'.released.Some?
       case Load(_) => c.pc.LoadCache? && (Ends(c, c') || c'.pc.GetNegFail?)
       case Refuse(_) => c.pc.GetNegFail? && Ends(c, c')
       case NegFail(_) => c.pc.GetNegFail? && (Ends(c, c') || c'.pc.CheckCircuit?)
       case Circuit(_, open) => c.pc.CheckCircuit? && if open then Ends(c, c') else c'.pc.Exchanging?
       case Return(_, networkError) =>
         c.pc.Exchanging? && if networkError then c'.pc.AddNegFail? else c'.pc.StoreAnswer?
       case Store(_, _) => c.pc.StoreAnswer? && Ends(c, c')
       case RecordFailure(_) => c.pc.AddNegFail? && Ends(c, c')
       case Delete(_) => c.pc.DeleteFlight? && c'.pc.CloseDone?
       case Close(_) => c.pc.CloseDone? && c'.pc.Finished?
       case _ => false
  }

  /** Exchange returns: a leader still has its flight to delete and close. */
  predicate Ends(c: Call, c': Call) {
    if c.leading.Some? then c'.pc.DeleteFlight? else c'.pc.Finished?
  }

  lemma QueueMoves(s: State, step: Step)
    requires Enabled(s, step) && QueueStep(step)
    ensures step.t in Apply(s, step).calls && Moves(s.calls[step.t], step, Apply(s, step).calls[step.t])
  {
  }

  lemma CheckMoves(s: State, step: Step)
    requires Enabled(s, step) && CheckStep(step)
    ensures step.t in Apply(s, step).calls && Moves(s.calls[step.t], step, Apply(s, step).calls[step.t])
  {
  }

  lemma AnswerMoves(s: State, step: Step)
    requires Enabled(s, step) && AnswerStep(step)
    ensures step.t in Apply(s, step).calls && Moves(s.calls[step.t], step, Apply(s, step).calls[step.t])
  {
  }

  lemma SharedMoves(s: State, step: Step)
    requires Enabled(s, step) && !step.Tick? && !step.Drop? && !step.Begin? && !step.Load? && !WalkStep(step)
    ensures step.t in Apply(s, step).calls && Moves(s.calls[step.t], step, Apply(s, step).calls[step.t])
  {
  }

  lemma CallMoves(s: State, step: Step)
    requires Enabled(s, step) && !step.Tick? && !step.Drop? && !step.Begin?
    ensures step.t in s.calls && step.t in Apply(s, step).calls
              && Moves(s.calls[step.t], step, Apply(s, step).calls[step.t])
  {
    if QueueStep(step) { QueueMoves(s, step); }
    else if CheckStep(step) { CheckMoves(s, step); }
    else if AnswerStep(step) { AnswerMoves(s, step); }
    else if step.Load? { LoadEffect(s, step.t); }
    else { SharedMoves(s, step); }
  }

  /** What a call's steps so far say about where it stands. */
  ghost predicate FlowOk(c: Call, asked: bool, failed: bool, answered: bool, recorded: bool) {
    && (c.cached ==>
          || c.pc.LoadOrStore? || Queued(c.pc) || c.leading.Some? || c.released.Some?
          || (c.pc.Finished? && !asked))
    && (!c.cached ==>
          && c.leading.None? && c.released.None?
          && !c.pc.LoadOrStore? && !Queued(c.pc) && !c.pc.LoadCache? && !c.pc.DeleteFlight?)
    && c.exchanges == (if asked then 1 else 0)
    && (c.pc.LoadOrStore? || Queued(c.pc) || c.pc.LoadCache? || c.pc.GetNegFail? || c.pc.CheckCircuit? ==> !asked)
    && (failed || answered ==> asked && !c.pc.Exchanging?) && !(failed && answered)
    && (c.pc.StoreAnswer? ==> answered) && (c.pc.AddNegFail? ==> failed && !recorded) && (c.pc.Exchanging? ==> asked)
    && (failed ==> c.pc.AddNegFail? || recorded) && (recorded ==> failed)
  }

  lemma FlowMoves(c: Call, step: Step, c': Call, asked: bool, failed: bool, answered: bool, recorded: bool)
    requires FlowOk(c, asked, failed, answered, recorded) && Moves(c, step, c')
    ensures FlowOk(c', asked || (step.Circuit? && !step.open), failed || (step.Return? && step.networkError),
                   answered || (step.Return? && !step.networkError), recorded || step.RecordFailure?)
  {
  }

  ghost predicate TellsOf(c: Call, steps: seq<Step>, k: nat, t: Thread) {
    FlowOk(c, Did(steps, k, Circuit(t, false)), Did(steps, k, Return(t, true)), Did(steps, k, Return(t, false)),
           Did(steps, k, RecordFailure(t)))
  }

  lemma DidGrows(steps: seq<Step>, k: nat, step: Step)
    requires k < |steps|
    ensures Did(steps, k + 1, step) <==> Did(steps, k, step) || steps[k] == step
  {
  }

  lemma DidOwn(steps: seq<Step>, k: nat, t: Thread)
    requires k < |steps|
    ensures Did(steps, k + 1, Circuit(t, false)) <==> Did(steps, k, Circuit(t, false)) || steps[k] == Circuit(t, false)
    ensures Did(steps, k + 1, Return(t, true)) <==> Did(steps, k, Return(t, true)) || steps[k] == Return(t, true)
    ensures Did(steps, k + 1, Return(t, false)) <==> Did(steps, k, Return(t, false)) || steps[k] == Return(t, false)
    ensures Did(steps, k + 1, RecordFailure(t)) <==> Did(steps, k, RecordFailure(t)) || steps[k] == RecordFailure(t)
  {
    DidGrows(steps, k, Circuit(t, false));
    DidGrows(steps, k, Return(t, true));
    DidGrows(steps, k, Return(t, false));
    DidGrows(steps, k, RecordFailure(t));
  }

  /** A call is changed by its own steps only, and appears with its Begin. */
  ghost predicate Local(s: State, step: Step, s': State, t: Thread) {
    if step.Tick? || step.Drop? || step.t != t then
      (t in s'.calls <==> t in s.calls) && (t in s.calls ==> s'.calls[t] == s.calls[t])
    else
      && t in s'.calls
      && if t in s.calls then Moves(s.calls[t], step, s'.calls[t])
         else step.Begin? && FlowOk(s'.calls[t], false, false, false, false)
  }

  lemma BeginFlow(s: State, t: Thread, key: Key, cached: bool, parent: Option<Thread>)
    requires Enabled(s, Begin(t, key, cached, parent))
    ensures var s' := Apply(s, Begin(t, key, cached, parent));
            && t in s'.calls && s'.calls[t].key == key && s'.calls[t].cached == cached
            && FlowOk(s'.calls[t], false, false, false, false)
  {
  }

  lemma StepIsLocal(s: State, step: Step, t: Thread)
    requires Enabled(s, step)
    ensures Local(s, step, Apply(s, step), t)
  {
    if !step.Tick? && !step.Drop? {
      StepMovesOneCall(s, step);
      if step.Begin? { BeginFlow(s, step.t, step.key, step.cached, step.parent); } else { CallMoves(s, step); }
    }
  }

  lemma {:induction false} StepsOfUnknown(run: seq<State>, steps: seq<Step>, k: nat, t: Thread)
    requires Aligned(run, steps) && k < |run| && t !in run[k].calls
    requires forall i :: 0 <= i < |steps| ==> Local(run[i], steps[i], run[i + 1], t)
    ensures forall j :: 0 <= j < k ==> steps[j].Tick? || steps[j].Drop? || steps[j].t != t
  {
    if k > 0 {
      assert Local(run[k - 1], steps[k - 1], run[k - 1 + 1], t);
      StepsOfUnknown(run, steps, k - 1, t);
    }
  }

  lemma FlowOwn(c: Call, steps: seq<Step>, k: nat, t: Thread, c': Call)
    requires k < |steps| && !steps[k].Tick? && !steps[k].Drop? && steps[k].t == t
    requires TellsOf(c, steps, k, t) && Moves(c, steps[k], c')
    ensures TellsOf(c', steps, k + 1, t)
  {
    DidOwn(steps, k, t);
    FlowMoves(c, steps[k], c', Did(steps, k, Circuit(t, false)), Did(steps, k, Return(t, true)),
              Did(steps, k, Return(t, false)), Did(steps, k, RecordFailure(t)));
  }

  lemma FlowOther(c: Call, steps: seq<Step>, k: nat, t: Thread)
    requires k < |steps| && (steps[k].Tick? || steps[k].Drop? || steps[k].t != t) && TellsOf(c, steps, k, t)
    ensures TellsOf(c, steps, k + 1, t)
  {
    DidOwn(steps, k, t);
  }

  lemma {:induction false} FlowChain(run: seq<State>, steps: seq<Step>, k: nat, t: Thread)
    requires Aligned(run, steps) && k < |run| && t in run[k].calls && t !in run[0].calls
    requires forall i :: 0 <= i < |steps| ==> Local(run[i], steps[i], run[i + 1], t)
    ensures TellsOf(run[k].calls[t], steps, k, t)
  {
    var s, step := run[k - 1], steps[k - 1];
    assert Local(run[k - 1], steps[k - 1], run[k - 1 + 1], t);
    if t !in s.calls {
      StepsOfUnknown(run, steps, k - 1, t);
      DidOwn(steps, k - 1, t);
    } else {
      FlowChain(run, steps, k - 1, t);
      if !step.Tick? && !step.Drop? && step.t == t {
        FlowOwn(s.calls[t], steps, k - 1, t, run[k].calls[t]);
      } else {
        FlowOther(s.calls[t], steps, k - 1, t);
      }
    }
  }

  lemma RunKeepsFlow(run: seq<State>, steps: seq<Step>, k: nat, t: Thread)
    requires IsRun(run, steps) && k < |run| && t in run[k].calls
    ensures TellsOf(run[k].calls[t], steps, k, t)
  {
    forall i | 0 <= i < |steps| ensures Local(run[i], steps[i], run[i + 1], t) { StepIsLocal(run[i], steps[i], t); }
    FlowChain(run, steps, k, t);
  }

  /**
   The way of a call, told by its steps. It asks the transport at most once and
   exactly when the circuit check let it through; a call that uses the cache asks
   only as a leader or as a released waiter, one that does not never touches a
   flight; a failure is recorded exactly after a network error, and only an
   answer is stored.
   */
  lemma WayOfACall(run: seq<State>, steps: seq<Step>, k: nat, t: Thread)
    requires IsRun(run, steps) && k < |run| && t in run[k].calls
    ensures var c := run[k].calls[t];
            && c.exchanges == (if Did(steps, k, Circuit(t, false)) then 1 else 0)
            && (c.cached && c.exchanges > 0 ==> c.leading.Some? || c.released.Some?)
            && (!c.cached ==>
                  && c.leading.None? && c.released.None?
                  && !c.pc.LoadOrStore? && !Queued(c.pc) && !c.pc.LoadCache?)
            && (Did(steps, k, RecordFailure(t)) ==> Did(steps, k, Return(t, true)))
            && (c.pc.Finished? && Did(steps, k, Return(t, true)) ==> Did(steps, k, RecordFailure(t)))
            && (c.pc.StoreAnswer? ==> Did(steps, k, Return(t, false)))
  {
    RunKeepsFlow(run, steps, k, t);
  }

  // ---- the deadline of a flight ----

  /** A call leads from its own look-up on; the flight's deadline is set there and never moved. */
  ghost predicate KeepsDeadline(s: State, step: Step, s': State, t: Thread) {
    t in s'.calls && s'.calls[t].leading.Some? ==>
      var f := s'.calls[t].leading.value;
      && f in s'.flights
      && if t in s.calls && s.calls[t].leading.Some? then
           s.calls[t].leading == Some(f) && f in s.flights && s'.flights[f].deadline == s.flights[f].deadline
         else step == Lock(t) && s'.flights[f].deadline == s.now + s.timeout
  }

  lemma LockDeadline(s: State, t: Thread)
    requires Enabled(s, Lock(t)) && Inv(s)
    ensures forall u :: u in s.calls ==> KeepsDeadline(s, Lock(t), Apply(s, Lock(t)), u)
  {
    forall u | u in s.calls ensures KeepsDeadline(s, Lock(t), Apply(s, Lock(t)), u) {
      assert LeaderOk(s, u) && WaiterOk(s, u);
      if s.calls[u].leading.Some? { assert FlightOk(s, s.calls[u].leading.value); }
    }
  }

  lemma FlightsKeepDeadlines(s: State, step: Step)
    requires Enabled(s, step) && !step.Lock?
    ensures forall f :: f in s.flights ==>
              f in Apply(s, step).flights && Apply(s, step).flights[f].deadline == s.flights[f].deadline
  {
  }

  lemma DeadlineKept(s: State, step: Step, t: Thread)
    requires Enabled(s, step) && Inv(s)
    ensures KeepsDeadline(s, step, Apply(s, step), t)
  {
    if step.Lock? {
      LockDeadline(s, step.t);
    } else {
      StepIsLocal(s, step, t);
      FlightsKeepDeadlines(s, step);
      if t in s.calls { assert LeaderOk(s, t); }
    }
  }

  lemma {:induction false} DeadlineChain(run: seq<State>, steps: seq<Step>, k: nat, t: Thread)
    requires Aligned(run, steps) && k < |run| && run[0].calls == map[]
    requires forall i :: 0 <= i < |steps| ==> KeepsDeadline(run[i], steps[i], run[i + 1], t)
    requires t in run[k].calls && run[k].calls[t].leading.Some?
    ensures run[k].calls[t].leading.value in run[k].flights
    ensures exists j :: 0 <= j < k && steps[j] == Lock(t)
                        && run[k].flights[run[k].calls[t].leading.value].deadline == run[j].now + run[j].timeout
  {
    assert KeepsDeadline(run[k - 1], steps[k - 1], run[k - 1 + 1], t);
    if t in run[k - 1].calls && run[k - 1].calls[t].leading.Some? { DeadlineChain(run, steps, k - 1, t); }
  }

  /** A leader's deadline is one timeout after it looked up, and found, no flight. */
  lemma DeadlineIsOneTimeout(run: seq<State>, steps: seq<Step>, k: nat, t: Thread)
    requires IsRun(run, steps) && k < |run| && t in run[k].calls && run[k].calls[t].leading.Some?
    ensures run[k].calls[t].leading.value in run[k].flights
    ensures exists j :: 0 <= j < k && steps[j] == Lock(t)
                        && run[k].flights[run[k].calls[t].leading.value].deadline == run[j].now + run[j].timeout
  {
    forall i | 0 <= i < |steps| ensures KeepsDeadline(run[i], steps[i], run[i + 1], t) {
      RunKeepsInv(run, steps, i);
      DeadlineKept(run[i], steps[i], t);
    }
    DeadlineChain(run, steps, k, t);
  }

  /** A leader fails at time 0; its key is asked again six seconds later and passes the check. */
  lemma FailureAgesOut(k: Key) returns (s: State)
    ensures Reaches(s) && s.now == 6000 && 0 in s.flights && s.flights[0].failedAt == Some(0) && s.flights[0].key == k
    ensures 1 in s.calls && s.calls[1].key == k && AtPc(s, 1, CheckCircuit)
  {
    s := OuterAsks(k);
    s := LeaderFails(s, k);
    s := Then(s, Tick(6000));
    s := BeginsLeading(s, 1, k, None);
    s := Then(s, Load(1));
    s := Then(s, NegFail(1));
  }

  lemma LeaderFails(s0: State, k: Key) returns (s: State)
    requires Reaches(s0) && s0.lock == map[k := 0] && s0.flights.Keys == {0} && s0.flights[0].key == k
    requires s0.calls.Keys == {0} && AtPc(s0, 0, Exchanging) && s0.calls[0].leading == Some(0) && s0.calls[0].key == k
    requires s0.calls[0].parent.None?
    ensures Reaches(s) && s.now == s0.now && s.negFail == s0.negFail[k := s0.now + NEG_FAIL_TTL] && s.lock == map[]
    ensures s.nextFlight == s0.nextFlight && s.responses == s0.responses && s.calls.Keys == {0}
    ensures s.flights.Keys == {0} && s.flights[0].failedAt == Some(s0.now) && s.flights[0].key == k
  {
    s := Fails(s0);
    s := Closes(s, 0);
  }

  lemma Fails(s0: State) returns (s: State)
    requires Reaches(s0) && 0 in s0.flights && s0.calls.Keys == {0} && AtPc(s0, 0, Exchanging)
    requires s0.calls[0].leading == Some(0) && s0.calls[0].parent.None?
    ensures Reaches(s) && s.now == s0.now && s.lock == s0.lock && s.nextFlight == s0.nextFlight
              && s.responses == s0.responses
    ensures s.negFail == s0.negFail[s0.calls[0].key := s0.now + NEG_FAIL_TTL]
    ensures s.flights == s0.flights[0 := s0.flights[0].(networkError := true, failedAt := Some(s0.now))]
    ensures s.calls == map[0 := s0.calls[0].(pc := DeleteFlight)]
  {
    s := Then(s0, Return(0, true));
    s := Then(s, RecordFailure(0));
  }
}
