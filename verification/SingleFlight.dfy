/**
 The DNS client's single flight per (question, transport), its response cache
 and its short negative cache of network failures. Map and cache operations,
 the Delete and the close of the done channel are single steps; any number of
 Exchange calls interleave, and the response cache may drop entries at any time.
 A transport may resolve names of its own while it is asked: such a nested call
 names the call that waits for it.
 */
module SingleFlight {
  import opened Options

  type Thread = nat
  type FlightId = nat
  type Time = nat  // milliseconds

  const NEG_FAIL_TTL: Time := 5000

  datatype Key = Key(question: string, transport: string)

  /** A cached response: the serial number of its write, the key it was asked under and when it expires. */
  datatype Entry = Entry(serial: nat, from: Key, expireAt: Time)

  /**
   The response cache. `written` remembers the last entry written under each
   cache key also after it expired; `floor` is the serial number from which
   writes under a key have not been dropped.
   */
  datatype Responses = Responses(independent: bool, disableExpire: bool, cache: map<Key, Entry>,
                                 written: map<Key, Entry>, nextSerial: nat, floor: map<Key, nat>) {
    /** A shared cache ignores the transport. */
    function KeyOf(k: Key): Key {
      if independent then k else Key(k.question, "")
    }

    predicate Hit(k: Key, now: Time) {
      KeyOf(k) in cache && (disableExpire || now <= cache[KeyOf(k)].expireAt)
    }

    function Floor(k: Key): nat {
      if KeyOf(k) in floor then floor[KeyOf(k)] else 0
    }

    function Last(k: Key): Option<Entry> {
      if KeyOf(k) in written then Some(written[KeyOf(k)]) else None
    }

    /** A load that misses removes what it found expired. */
    function AfterMiss(k: Key): Responses {
      this.(cache := cache - {KeyOf(k)})
    }

    function Add(k: Key, expireAt: Time): Responses {
      var e := Entry(nextSerial, k, expireAt);
      this.(cache := cache[KeyOf(k) := e], written := written[KeyOf(k) := e], nextSerial := nextSerial + 1)
    }

    /** Eviction or ClearCache. */
    function Without(keys: set<Key>): Responses {
      this.(cache := cache - keys, written := written - keys,
            floor := map k | k in floor.Keys + keys :: if k in keys then nextSerial else floor[k])
    }

    ghost predicate Ok(now: Time) {
      && (forall k :: k in cache ==> k in written)
      && (forall k :: k in written ==>
            && written[k].serial < nextSerial && KeyOf(written[k].from) == k
            && if k in cache then cache[k] == written[k] else !disableExpire && written[k].expireAt < now)
    }

    /** The entry, or one written later, is the last under its key, unless it was dropped. */
    ghost predicate Remembers(e: Entry) {
      && e.serial < nextSerial
      && (e.serial >= Floor(e.from) ==>
            Last(e.from).Some? && Last(e.from).value.serial >= e.serial
                && (Last(e.from).value.serial == e.serial ==> Last(e.from).value == e))
    }
  }

  /** Entries are only replaced by later ones. */
  ghost predicate Grows(c: Responses, c': Responses) {
    && c'.independent == c.independent && c'.disableExpire == c.disableExpire
    && c'.floor == c.floor && c'.nextSerial >= c.nextSerial
    && forall k :: k in c.written ==>
        k in c'.written && (c'.written[k] == c.written[k] || c'.written[k].serial >= c.nextSerial)
  }

  lemma GrowsRemembers(c: Responses, c': Responses, e: Entry)
    requires Grows(c, c') && c.Remembers(e)
    ensures c'.Remembers(e)
  {
  }

  lemma AddOk(c: Responses, k: Key, expireAt: Time, now: Time)
    requires c.Ok(now)
    ensures c.Add(k, expireAt).Ok(now) && Grows(c, c.Add(k, expireAt))
  {
  }

  lemma AddRemembers(c: Responses, k: Key, expireAt: Time)
    ensures c.Add(k, expireAt).Remembers(Entry(c.nextSerial, k, expireAt))
  {
  }

  lemma AfterMissOk(c: Responses, k: Key, now: Time)
    requires c.Ok(now) && !c.Hit(k, now)
    ensures c.AfterMiss(k).Ok(now) && Grows(c, c.AfterMiss(k))
  {
  }

  lemma WithoutOk(c: Responses, keys: set<Key>, now: Time)
    requires c.Ok(now)
    ensures c.Without(keys).Ok(now)
    ensures forall e :: c.Remembers(e) ==> c.Without(keys).Remembers(e)
  {
  }

  /** What a load that missed saw: when, the last entry under its key and how far back writes have not been dropped. */
  datatype Miss = Miss(at: Time, saw: Option<Entry>, floor: nat)

  /** An exchangeFlight, with what its leader has done so far. */
  datatype Flight = Flight(key: Key, leader: Thread, deadline: Time, closes: nat,
                           networkError: bool, failedAt: Option<Time>, stored: Option<Entry>)

  datatype Pc =
    | LoadOrStore
    | Joining(flight: FlightId)   // found a flight; awaitFlight has not looked at its deadline yet
    | Waiting(flight: FlightId)   // in the select of awaitFlight
    | LoadCache
    | GetNegFail
    | CheckCircuit
    | Exchanging
    | StoreAnswer
    | AddNegFail
    | DeleteFlight
    | CloseDone
    | Finished

  /**
   One Exchange call: the call whose transport made it, if nested, the flight it
   leads, the flight that released it, what its cache load missed, when its
   negFail check passed and when it joined.
   */
  datatype Call = Call(key: Key, cached: bool, parent: Option<Thread>, pc: Pc, leading: Option<FlightId>,
                       released: Option<FlightId>, missed: Option<Miss>, passed: Option<Time>,
                       exchanges: nat, joined: Time)

  datatype State = State(now: Time, timeout: Time, lock: map<Key, FlightId>, nextFlight: FlightId,
                         flights: map<FlightId, Flight>,
                         responses: Responses, negFail: map<Key, Time>, calls: map<Thread, Call>) {
    function Put(t: Thread, c: Call): State {
      this.(calls := calls[t := c])
    }

    predicate FailedRecently(k: Key) {
      k in negFail && now < negFail[k]
    }
  }

  datatype Step =
    | Tick(elapsed: nat)
    | Begin(t: Thread, key: Key, cached: bool, parent: Option<Thread>)
    | Lock(t: Thread)                          // LoadOrStore
    | Await(t: Thread)                         // joiner: the deadline has passed, or on to the select
    | Abandon(t: Thread)                       // joiner: circuit open; waiter: ctx done
    | Expire(t: Thread)                        // waiter: the leader's deadline has passed
    | Wake(t: Thread)                          // waiter: done is closed
    | Load(t: Thread)
    | Refuse(t: Thread)                        // loopback or a cached rejection
    | NegFail(t: Thread)
    | Circuit(t: Thread, open: bool)
    | Return(t: Thread, networkError: bool)
    | Store(t: Thread, lifetime: nat)          // 0: rejected, not cacheable or without a positive TTL
    | RecordFailure(t: Thread)
    | Drop(keys: set<Key>)                     // the response cache evicts or is cleared
    | Delete(t: Thread)
    | Close(t: Thread)

  ghost predicate Init(s: State) {
    && s.lock == map[] && s.flights == map[] && s.negFail == map[] && s.calls == map[]
    && s.responses.cache == map[] && s.responses.written == map[] && s.responses.floor == map[]
  }

  predicate AtPc(s: State, t: Thread, pc: Pc) {
    t in s.calls && s.calls[t].pc == pc
  }

  /** The call has found a flight of another and not been released by it. */
  predicate Queued(pc: Pc) {
    pc.Joining? || pc.Waiting?
  }

  predicate Enabled(s: State, step: Step) {
    match step
    case Tick(_) => true
    case Begin(t, _, _, parent) => t !in s.calls && (parent.Some? ==> AtPc(s, parent.value, Exchanging))
    case Lock(t) => AtPc(s, t, LoadOrStore)
    case Await(t) => t in s.calls && s.calls[t].pc.Joining? && s.calls[t].pc.flight in s.flights
    case Abandon(t) => t in s.calls && Queued(s.calls[t].pc)
    case Expire(t) =>
      && t in s.calls && s.calls[t].pc.Waiting?
      && s.calls[t].pc.flight in s.flights && s.flights[s.calls[t].pc.flight].deadline <= s.now
    case Wake(t) =>
      && t in s.calls && s.calls[t].pc.Waiting?
      && s.calls[t].pc.flight in s.flights && s.flights[s.calls[t].pc.flight].closes > 0
    case Load(t) => AtPc(s, t, LoadCache)
    case Refuse(t) => AtPc(s, t, GetNegFail)
    case NegFail(t) => AtPc(s, t, GetNegFail)
    case Circuit(t, _) => AtPc(s, t, CheckCircuit)
    case Return(t, _) =>
      && AtPc(s, t, Exchanging)
      && forall u :: u in s.calls && s.calls[u].parent == Some(t) ==> s.calls[u].pc.Finished?
    case Store(t, _) => AtPc(s, t, StoreAnswer)
    case Drop(_) => true
    case RecordFailure(t) => AtPc(s, t, AddNegFail)
    case Delete(t) => AtPc(s, t, DeleteFlight) && s.calls[t].leading.Some?
    case Close(t) => AtPc(s, t, CloseDone) && s.calls[t].leading.Some? && s.calls[t].leading.value in s.flights
  }

  /** Returning from Exchange: a leader still runs its deferred Delete and close. */
  function Ending(c: Call): Call {
    c.(pc := if c.leading.Some? then DeleteFlight else Finished)
  }

  /** The leader marks its flight; calls outside a flight mark nothing. */
  function Mark(s: State, t: Thread, failedAt: Option<Time>): map<FlightId, Flight>
    requires t in s.calls
  {
    var leading := s.calls[t].leading;
    if leading.Some? && leading.value in s.flights
    then s.flights[leading.value := s.flights[leading.value].(networkError := true, failedAt := failedAt)]
    else s.flights
  }

  function MarkStored(s: State, t: Thread, e: Entry): map<FlightId, Flight>
    requires t in s.calls
  {
    var leading := s.calls[t].leading;
    if leading.Some? && leading.value in s.flights
    then s.flights[leading.value := s.flights[leading.value].(stored := Some(e))]
    else s.flights
  }

  function Apply(s: State, step: Step): State
    requires Enabled(s, step)
  {
    match step
    case Tick(elapsed) => s.(now := s.now + elapsed)
    case Begin(t, key, cached, parent) =>
      s.Put(t, Call(key, cached, parent, if cached then LoadOrStore else GetNegFail, None, None, None, None, 0, s.now))
    case Lock(t) =>
      var c := s.calls[t];
      if c.key in s.lock then s.Put(t, c.(pc := Joining(s.lock[c.key]), joined := s.now))
      else
        var f := s.nextFlight;
        s.(lock := s.lock[c.key := f], nextFlight := f + 1,
           flights := s.flights[f := Flight(c.key, t, s.now + s.timeout, 0, false, None, None)])
         .Put(t, c.(pc := LoadCache, leading := Some(f), joined := s.now))
    case Await(t) =>
      var f := s.calls[t].pc.flight;
      s.Put(t, s.calls[t].(pc := if s.flights[f].deadline <= s.now then Finished else Waiting(f)))
    case Abandon(t) => s.Put(t, s.calls[t].(pc := Finished))
    case Expire(t) => s.Put(t, s.calls[t].(pc := Finished))
    case Wake(t) => s.Put(t, s.calls[t].(pc := LoadCache, released := Some(s.calls[t].pc.flight)))
    case Load(t) =>
      var c := s.calls[t];
      if s.responses.Hit(c.key, s.now) then s.Put(t, Ending(c))
      else s.(responses := s.responses.AfterMiss(c.key))
            .Put(t, c.(pc := GetNegFail,
                       missed := Some(Miss(s.now, s.responses.Last(c.key), s.responses.Floor(c.key)))))
    case Refuse(t) => s.Put(t, Ending(s.calls[t]))
    case NegFail(t) =>
      var c := s.calls[t];
      if s.FailedRecently(c.key) then s.Put(t, Ending(c)) else s.Put(t, c.(pc := CheckCircuit, passed := Some(s.now)))
    case Circuit(t, open) =>
      var c := s.calls[t];
      s.Put(t, if open then Ending(c) else c.(pc := Exchanging, exchanges := c.exchanges + 1))
    case Return(t, networkError) =>
      if networkError then s.(flights := Mark(s, t, None)).Put(t, s.calls[t].(pc := AddNegFail))
      else s.Put(t, s.calls[t].(pc := StoreAnswer))
    case Store(t, lifetime) =>
      var c := s.calls[t];
      if lifetime == 0 || !c.cached then s.Put(t, Ending(c))
      else
        var expireAt := s.now + lifetime;
        s.(responses := s.responses.Add(c.key, expireAt),
           flights := MarkStored(s, t, Entry(s.responses.nextSerial, c.key, expireAt)))
         .Put(t, Ending(c))
    case Drop(keys) => s.(responses := s.responses.Without(keys))
    case RecordFailure(t) =>
      s.(negFail := s.negFail[s.calls[t].key := s.now + NEG_FAIL_TTL], flights := Mark(s, t, Some(s.now)))
       .Put(t, Ending(s.calls[t]))
    case Delete(t) => s.(lock := s.lock - {s.calls[t].key}).Put(t, s.calls[t].(pc := CloseDone))
    case Close(t) =>
      var f := s.calls[t].leading.value;
      s.(flights := s.flights[f := s.flights[f].(closes := s.flights[f].closes + 1)])
       .Put(t, s.calls[t].(pc := Finished))
  }

  ghost predicate IsRun(run: seq<State>, steps: seq<Step>) {
    && |run| == |steps| + 1
    && Init(run[0])
    && forall k :: 0 <= k < |steps| ==> Enabled(run[k], steps[k]) && run[k + 1] == Apply(run[k], steps[k])
  }

  // ---- the invariant, one element at a time ----

  /** The call leads a flight it has not yet deleted. */
  predicate Leads(c: Call, f: FlightId) {
    c.leading == Some(f) && !c.pc.CloseDone? && !c.pc.Finished?
  }

  /** A leader's flight is its own, is locked until deleted and is closed last. */
  ghost predicate LeaderOk(s: State, t: Thread)
    requires t in s.calls
  {
    var c := s.calls[t];
    c.leading.Some? ==>
      var f := c.leading.value;
      && f in s.flights && s.flights[f].leader == t && s.flights[f].key == c.key
      && c.released.None? && !c.pc.LoadOrStore? && !Queued(c.pc)
      && (Leads(c, f) <==> c.key in s.lock && s.lock[c.key] == f)
      && s.flights[f].closes == (if c.pc.Finished? then 1 else 0)
  }

  /**
   The load missed although `e` had been stored: by then `e` had been dropped, or
   the last entry under its key, `e` itself or a later one, had expired.
   */
  ghost predicate AgedOut(responses: Responses, c: Call, e: Entry)
    requires c.missed.Some?
  {
    var m := c.missed.value;
    || e.serial < m.floor
    || (&& !responses.disableExpire && m.saw.Some?
        && responses.KeyOf(m.saw.value.from) == responses.KeyOf(c.key) && m.saw.value.expireAt < m.at
        && m.saw.value.serial >= e.serial && (m.saw.value.serial == e.serial ==> m.saw.value == e))
  }

  /**
   A waiter's flight is of its key; a released one passed the negFail check only
   after that flight's failure aged out.
   */
  ghost predicate WaiterOk(s: State, t: Thread)
    requires t in s.calls
  {
    var c := s.calls[t];
    && (Queued(c.pc) ==>
          && c.leading.None? && c.released.None? && c.pc.flight in s.flights
          && s.flights[c.pc.flight].key == c.key && s.flights[c.pc.flight].deadline <= c.joined + s.timeout)
    && (c.exchanges > 0 || c.pc.CheckCircuit? ==> c.passed.Some?)
    && (c.pc.DeleteFlight? || c.pc.CloseDone? ==> c.leading.Some?)
    && (Queued(c.pc) || c.pc.LoadOrStore? || c.pc.LoadCache? || c.pc.GetNegFail? ==> c.passed.None?)
    && (Queued(c.pc) || c.pc.LoadOrStore? || c.pc.LoadCache? ==> c.missed.None?)
    && (c.released.Some? && c.missed.None? ==> c.exchanges == 0 && (c.pc.LoadCache? || c.pc.Finished?))
    && (c.pc.LoadOrStore? ==> c.leading.None? && c.released.None?)
    && (c.released.Some? ==>
          var f := c.released.value;
          && c.leading.None?
          && f in s.flights && s.flights[f].closes > 0 && s.flights[f].key == c.key
          && (c.passed.Some? && s.flights[f].failedAt.Some? ==>
                c.passed.value >= s.flights[f].failedAt.value + NEG_FAIL_TTL)
          && (c.missed.Some? && s.flights[f].stored.Some? ==> AgedOut(s.responses, c, s.flights[f].stored.value)))
  }

  /**
   A flight has its leader; a recorded failure is still remembered in negFail;
   only the leader can be about to record one.
   */
  ghost predicate FlightOk(s: State, f: FlightId)
    requires f in s.flights
  {
    var fl := s.flights[f];
    && f < s.nextFlight && fl.deadline <= s.now + s.timeout
    && fl.leader in s.calls && s.calls[fl.leader].leading == Some(f)
    && (fl.failedAt.Some? ==> fl.key in s.negFail && s.negFail[fl.key] >= fl.failedAt.value + NEG_FAIL_TTL)
    && (fl.networkError && fl.failedAt.None? <==> s.calls[fl.leader].pc.AddNegFail?)
    && (fl.stored.Some? ==> fl.stored.value.from == fl.key && s.responses.Remembers(fl.stored.value))
  }

  ghost predicate LockOk(s: State, k: Key)
    requires k in s.lock
  {
    s.lock[k] in s.flights && s.flights[s.lock[k]].key == k
  }

  ghost predicate Inv(s: State) {
    && (forall t :: t in s.calls ==> LeaderOk(s, t))
    && (forall t :: t in s.calls ==> WaiterOk(s, t))
    && (forall f :: f in s.flights ==> FlightOk(s, f))
    && (forall k :: k in s.lock ==> LockOk(s, k))
    && (forall k :: k in s.negFail ==> s.negFail[k] <= s.now + NEG_FAIL_TTL)
    && s.responses.Ok(s.now)
  }

  ghost predicate CallOk(s: State, t: Thread)
    requires t in s.calls
  {
    LeaderOk(s, t) && WaiterOk(s, t)
  }

  /** A step of call `t` that changes at most its own flight, unlocks at most its own key and only extends negFail. */
  ghost predicate OwnStep(s: State, s': State, t: Thread) {
    && t in s.calls && t in s'.calls && s'.calls == s.calls[t := s'.calls[t]]
    && s'.calls[t].leading == s.calls[t].leading
    && s'.nextFlight == s.nextFlight && s'.now == s.now && s'.timeout == s.timeout
    && s'.flights.Keys == s.flights.Keys
    && (forall f :: f in s.flights && s.calls[t].leading != Some(f) ==> s'.flights[f] == s.flights[f])
    && (s'.lock == s.lock || (s'.lock == s.lock - {s.calls[t].key} && s.calls[t].pc.DeleteFlight?))
    && (forall k :: k in s.negFail ==> k in s'.negFail && s'.negFail[k] >= s.negFail[k])
    && (forall k :: k in s'.negFail ==> s'.negFail[k] <= s.now + NEG_FAIL_TTL)
    && s'.responses.Ok(s.now) && Grows(s.responses, s'.responses)
  }

  /** The flight a call leads keeps its key and leader and is untouched once closed. */
  ghost predicate OwnFlightKept(s: State, s': State, t: Thread)
    requires OwnStep(s, s', t)
  {
    s.calls[t].leading.Some? ==>
      var f := s.calls[t].leading.value;
      f in s.flights &&
      var fl, fl' := s.flights[f], s'.flights[f];
      && fl'.key == fl.key && fl'.leader == fl.leader && fl'.deadline == fl.deadline
      && fl'.closes >= fl.closes && (fl.closes > 0 ==> fl' == fl)
  }

  lemma OtherCallKept(s: State, s': State, t: Thread, u: Thread)
    requires OwnStep(s, s', t) && OwnFlightKept(s, s', t) && u in s.calls && u != t
    requires CallOk(s, t) && CallOk(s, u)
    ensures CallOk(s', u)
  {
  }

  lemma OtherFlightKept(s: State, s': State, t: Thread, f: FlightId)
    requires OwnStep(s, s', t) && f in s.flights && s.calls[t].leading != Some(f) && FlightOk(s, f)
    ensures FlightOk(s', f)
  {
    if s.flights[f].stored.Some? { GrowsRemembers(s.responses, s'.responses, s.flights[f].stored.value); }
  }

  lemma OwnStepKeepsCalls(s: State, s': State, t: Thread)
    requires OwnStep(s, s', t) && OwnFlightKept(s, s', t) && CallOk(s', t)
    requires forall u :: u in s.calls ==> LeaderOk(s, u) && WaiterOk(s, u)
    ensures forall u :: u in s'.calls ==> LeaderOk(s', u) && WaiterOk(s', u)
  {
    assert CallOk(s, t);
    forall u | u in s'.calls ensures CallOk(s', u) {
      if u != t {
        assert LeaderOk(s, u) && WaiterOk(s, u);
        OtherCallKept(s, s', t, u);
      }
    }
  }

  lemma OwnStepKeepsFlights(s: State, s': State, t: Thread)
    requires OwnStep(s, s', t)
    requires s.calls[t].leading.Some? ==>
             s.calls[t].leading.value in s'.flights && FlightOk(s', s.calls[t].leading.value)
    requires forall f :: f in s.flights ==> FlightOk(s, f)
    ensures forall f :: f in s'.flights ==> FlightOk(s', f)
  {
    forall f | f in s'.flights ensures FlightOk(s', f) {
      assert FlightOk(s, f);
      if s.calls[t].leading != Some(f) { OtherFlightKept(s, s', t, f); }
    }
  }

  lemma OwnStepKeepsLocks(s: State, s': State, t: Thread)
    requires OwnStep(s, s', t) && OwnFlightKept(s, s', t)
    requires forall k :: k in s.lock ==> LockOk(s, k)
    ensures forall k :: k in s'.lock ==> LockOk(s', k)
  {
    forall k | k in s'.lock ensures LockOk(s', k) { assert LockOk(s, k); }
  }

  lemma OwnStepKeepsInv(s: State, s': State, t: Thread)
    requires Inv(s) && OwnStep(s, s', t) && OwnFlightKept(s, s', t)
    requires CallOk(s', t)
    requires s.calls[t].leading.Some? ==> FlightOk(s', s.calls[t].leading.value)
    ensures Inv(s')
  {
    OwnStepKeepsCalls(s, s', t);
    OwnStepKeepsFlights(s, s', t);
    OwnStepKeepsLocks(s, s', t);
  }

  /** The element facts a step of call `t` draws on. */
  ghost predicate Known(s: State, t: Thread)
  {
    && t in s.calls && CallOk(s, t)
    && (s.calls[t].leading.Some? ==> FlightOk(s, s.calls[t].leading.value))
    && (s.calls[t].released.Some? ==>
          FlightOk(s, s.calls[t].released.value) && LeaderOk(s, s.flights[s.calls[t].released.value].leader))
    && (Queued(s.calls[t].pc) ==>
          FlightOk(s, s.calls[t].pc.flight) && LeaderOk(s, s.flights[s.calls[t].pc.flight].leader))
  }

  lemma InvKnown(s: State, t: Thread)
    requires Inv(s) && t in s.calls
    ensures Known(s, t)
  {
    assert LeaderOk(s, t) && WaiterOk(s, t);
    if s.calls[t].leading.Some? { assert FlightOk(s, s.calls[t].leading.value); }
    if s.calls[t].released.Some? { assert FlightOk(s, s.calls[t].released.value); }
    if Queued(s.calls[t].pc) { assert FlightOk(s, s.calls[t].pc.flight); }
  }

  predicate QueueStep(step: Step) {
    step.Await? || step.Abandon? || step.Expire? || step.Wake?
  }

  predicate CheckStep(step: Step) {
    step.Refuse? || step.NegFail? || step.Circuit?
  }

  predicate AnswerStep(step: Step) {
    (step.Return? && !step.networkError) || (step.Store? && step.lifetime == 0)
  }

  /** The steps that move their own call and touch nothing shared. */
  predicate WalkStep(step: Step) {
    QueueStep(step) || CheckStep(step) || AnswerStep(step)
  }

  /** A step that changes its own call and nothing else. */
  ghost predicate Private(s: State, s': State, t: Thread) {
    && t in s.calls && t in s'.calls && s' == s.(calls := s.calls[t := s'.calls[t]])
    && s'.calls[t].key == s.calls[t].key && s'.calls[t].parent == s.calls[t].parent
    && s'.calls[t].leading == s.calls[t].leading && !s'.calls[t].pc.LoadOrStore?
  }

  lemma QueueEffect(s: State, step: Step)
    requires Enabled(s, step) && QueueStep(step)
    ensures Private(s, Apply(s, step), step.t) && Queued(s.calls[step.t].pc)
    ensures var pc, pc' := s.calls[step.t].pc, Apply(s, step).calls[step.t].pc;
            pc'.Finished? || (step.Wake? && pc'.LoadCache?)
            || (step.Await? && pc' == Waiting(pc.flight) && pc.flight in s.flights
                  && s.now < s.flights[pc.flight].deadline)
  {
  }

  lemma CheckEffect(s: State, step: Step)
    requires Enabled(s, step) && CheckStep(step)
    ensures Private(s, Apply(s, step), step.t)
    ensures s.calls[step.t].pc.GetNegFail? || s.calls[step.t].pc.CheckCircuit?
  {
  }

  lemma AnswerEffect(s: State, step: Step)
    requires Enabled(s, step) && AnswerStep(step)
    ensures Private(s, Apply(s, step), step.t)
    ensures s.calls[step.t].pc.Exchanging? || s.calls[step.t].pc.StoreAnswer?
    ensures s.calls[step.t].pc.Exchanging? ==> step.Return?
  {
  }

  lemma WalkEffect(s: State, step: Step)
    requires Enabled(s, step) && WalkStep(step)
    ensures Private(s, Apply(s, step), step.t)
    ensures !s.calls[step.t].pc.Finished? && (s.calls[step.t].pc.Exchanging? ==> step.Return?)
  {
    if QueueStep(step) { QueueEffect(s, step); }
    else if CheckStep(step) { CheckEffect(s, step); }
    else { AnswerEffect(s, step); }
  }

  lemma QueueOwn(s: State, step: Step)
    requires Enabled(s, step) && QueueStep(step) && Known(s, step.t)
    ensures CallOk(Apply(s, step), step.t) && s.calls[step.t].leading.None?
  {
  }

  lemma NegFailOwn(s: State, t: Thread)
    requires Enabled(s, NegFail(t)) && Known(s, t)
    ensures CallOk(Apply(s, NegFail(t)), t)
  {
  }

  lemma CheckOwn(s: State, step: Step)
    requires Enabled(s, step) && CheckStep(step) && Known(s, step.t)
    ensures CallOk(Apply(s, step), step.t)
  {
    if step.NegFail? { NegFailOwn(s, step.t); }
  }

  lemma AnswerOwn(s: State, step: Step)
    requires Enabled(s, step) && AnswerStep(step) && CallOk(s, step.t)
    ensures CallOk(Apply(s, step), step.t)
  {
  }

  /** A walking leader's flight stays as it was. */
  lemma WalkFlight(s: State, step: Step)
    requires Enabled(s, step) && (CheckStep(step) || AnswerStep(step)) && CallOk(s, step.t)
    requires s.calls[step.t].leading.Some? && FlightOk(s, s.calls[step.t].leading.value)
    ensures FlightOk(Apply(s, step), s.calls[step.t].leading.value)
  {
  }

  lemma WalkOwn(s: State, step: Step)
    requires Enabled(s, step) && WalkStep(step) && Known(s, step.t)
    ensures CallOk(Apply(s, step), step.t)
    ensures s.calls[step.t].leading.Some? ==> FlightOk(Apply(s, step), s.calls[step.t].leading.value)
  {
    if QueueStep(step) { QueueOwn(s, step); }
    else {
      if CheckStep(step) { CheckOwn(s, step); } else { AnswerOwn(s, step); }
      if s.calls[step.t].leading.Some? { WalkFlight(s, step); }
    }
  }

  lemma FinishOwn(s: State, step: Step)
    requires step.Delete? || step.Close?
    requires Enabled(s, step) && Known(s, step.t)
    ensures var s' := Apply(s, step);
            && CallOk(s', step.t)
            && (s.calls[step.t].leading.Some? ==> FlightOk(s', s.calls[step.t].leading.value))
  {
  }

  lemma FailureOwn(s: State, step: Step)
    requires (step.Return? && step.networkError) || step.RecordFailure?
    requires Enabled(s, step) && Known(s, step.t)
    ensures var s' := Apply(s, step);
            && CallOk(s', step.t)
            && (s.calls[step.t].leading.Some? ==> FlightOk(s', s.calls[step.t].leading.value))
  {
  }

  lemma PrivateIsOwnStep(s: State, s': State, t: Thread)
    requires Private(s, s', t) && LeaderOk(s, t) && s.responses.Ok(s.now)
    requires forall k :: k in s.negFail ==> s.negFail[k] <= s.now + NEG_FAIL_TTL
    ensures OwnStep(s, s', t) && OwnFlightKept(s, s', t)
  {
  }

  lemma WalkIsOwnStep(s: State, step: Step)
    requires Enabled(s, step) && WalkStep(step) && Known(s, step.t) && s.responses.Ok(s.now)
    requires forall k :: k in s.negFail ==> s.negFail[k] <= s.now + NEG_FAIL_TTL
    ensures OwnStep(s, Apply(s, step), step.t) && OwnFlightKept(s, Apply(s, step), step.t)
  {
    WalkEffect(s, step);
    PrivateIsOwnStep(s, Apply(s, step), step.t);
  }

  lemma SharedIsOwnStep(s: State, step: Step)
    requires (step.Return? && step.networkError) || step.RecordFailure? || step.Delete? || step.Close?
    requires Enabled(s, step) && Known(s, step.t) && s.responses.Ok(s.now)
    requires forall k :: k in s.negFail ==> s.negFail[k] <= s.now + NEG_FAIL_TTL
    ensures OwnStep(s, Apply(s, step), step.t) && OwnFlightKept(s, Apply(s, step), step.t)
  {
  }

  /** What a load that misses proves of an entry the cache had been given. */
  lemma MissAges(c: Responses, k: Key, now: Time, call: Call, e: Entry)
    requires c.Ok(now) && !c.Hit(k, now) && c.Remembers(e) && e.from == k
    requires call.key == k && call.missed == Some(Miss(now, c.Last(k), c.Floor(k)))
    ensures AgedOut(c.AfterMiss(k), call, e)
  {
  }

  /** The state after a load. */
  lemma LoadEffect(s: State, t: Thread)
    requires Enabled(s, Load(t))
    ensures var s', c := Apply(s, Load(t)), s.calls[t];
            if s.responses.Hit(c.key, s.now) then s' == s.(calls := s.calls[t := Ending(c)])
            else
              && s'.responses == s.responses.AfterMiss(c.key)
              && s' == s.(responses := s'.responses, calls := s.calls[t := s'.calls[t]])
              && s'.calls[t] == c.(pc := GetNegFail,
                                   missed := Some(Miss(s.now, s.responses.Last(c.key), s.responses.Floor(c.key))))
  {
  }

  lemma LoadCall(s: State, t: Thread)
    requires Enabled(s, Load(t)) && Known(s, t) && s.responses.Ok(s.now)
    ensures CallOk(Apply(s, Load(t)), t)
  {
    var c := s.calls[t];
    LoadEffect(s, t);
    if !s.responses.Hit(c.key, s.now) && c.released.Some? && s.flights[c.released.value].stored.Some? {
      MissAges(s.responses, c.key, s.now, Apply(s, Load(t)).calls[t], s.flights[c.released.value].stored.value);
    }
  }

  lemma LoadFlight(s: State, t: Thread)
    requires Enabled(s, Load(t)) && LeaderOk(s, t) && s.responses.Ok(s.now)
    requires s.calls[t].leading.Some? && FlightOk(s, s.calls[t].leading.value)
    ensures FlightOk(Apply(s, Load(t)), s.calls[t].leading.value)
  {
    var c := s.calls[t];
    LoadEffect(s, t);
    if !s.responses.Hit(c.key, s.now) {
      AfterMissOk(s.responses, c.key, s.now);
      if s.flights[c.leading.value].stored.Some? {
        GrowsRemembers(s.responses, s.responses.AfterMiss(c.key), s.flights[c.leading.value].stored.value);
      }
    }
  }

  lemma LoadIsOwnStep(s: State, t: Thread)
    requires Enabled(s, Load(t)) && Known(s, t) && s.responses.Ok(s.now)
    requires forall k :: k in s.negFail ==> s.negFail[k] <= s.now + NEG_FAIL_TTL
    ensures OwnStep(s, Apply(s, Load(t)), t) && OwnFlightKept(s, Apply(s, Load(t)), t)
  {
    if !s.responses.Hit(s.calls[t].key, s.now) { AfterMissOk(s.responses, s.calls[t].key, s.now); }
  }

  lemma StoreCall(s: State, t: Thread, lifetime: nat)
    requires Enabled(s, Store(t, lifetime)) && lifetime > 0 && CallOk(s, t)
    ensures CallOk(Apply(s, Store(t, lifetime)), t)
  {
    StoreEffect(s, t, lifetime);
  }

  lemma StoreFlight(s: State, t: Thread, lifetime: nat)
    requires Enabled(s, Store(t, lifetime)) && lifetime > 0 && LeaderOk(s, t)
    requires s.calls[t].leading.Some? && FlightOk(s, s.calls[t].leading.value)
    ensures FlightOk(Apply(s, Store(t, lifetime)), s.calls[t].leading.value)
  {
    AddRemembers(s.responses, s.calls[t].key, s.now + lifetime);
  }

  /** The shared state after a store. */
  lemma StoreEffect(s: State, t: Thread, lifetime: nat)
    requires Enabled(s, Store(t, lifetime)) && lifetime > 0
    ensures var s', c := Apply(s, Store(t, lifetime)), s.calls[t];
            && s'.responses == (if c.cached then s.responses.Add(c.key, s.now + lifetime) else s.responses)
            && s'.negFail == s.negFail && s'.lock == s.lock && s'.nextFlight == s.nextFlight
            && s'.now == s.now && s'.timeout == s.timeout
            && s'.calls == s.calls[t := Ending(c)]
            && s'.flights == (if c.cached then MarkStored(s, t, Entry(s.responses.nextSerial, c.key, s.now + lifetime))
                              else s.flights)
  {
  }

  lemma StoreIsOwnStep(s: State, t: Thread, lifetime: nat)
    requires Enabled(s, Store(t, lifetime)) && lifetime > 0 && LeaderOk(s, t) && s.responses.Ok(s.now)
    requires forall k :: k in s.negFail ==> s.negFail[k] <= s.now + NEG_FAIL_TTL
    ensures OwnStep(s, Apply(s, Store(t, lifetime)), t) && OwnFlightKept(s, Apply(s, Store(t, lifetime)), t)
  {
    StoreEffect(s, t, lifetime);
    AddOk(s.responses, s.calls[t].key, s.now + lifetime, s.now);
  }

  lemma DropKeepsInv(s: State, keys: set<Key>)
    requires Inv(s)
    ensures Inv(Apply(s, Drop(keys)))
  {
    var s' := Apply(s, Drop(keys));
    WithoutOk(s.responses, keys, s.now);
    forall u | u in s'.calls ensures LeaderOk(s', u) && WaiterOk(s', u) { assert LeaderOk(s, u) && WaiterOk(s, u); }
    forall f | f in s'.flights ensures FlightOk(s', f) { assert FlightOk(s, f); }
    forall k | k in s'.lock ensures LockOk(s', k) { assert LockOk(s, k); }
  }

  lemma BeginKeepsInv(s: State, step: Step)
    requires Inv(s) && Enabled(s, step) && (step.Begin? || step.Tick?)
    ensures Inv(Apply(s, step))
  {
    var s' := Apply(s, step);
    forall u | u in s'.calls ensures LeaderOk(s', u) && WaiterOk(s', u) {
      if u in s.calls { assert LeaderOk(s, u) && WaiterOk(s, u); }
    }
    forall f | f in s'.flights ensures FlightOk(s', f) { assert FlightOk(s, f); }
    forall k | k in s'.lock ensures LockOk(s', k) { assert LockOk(s, k); }
  }

  lemma JoinKeepsInv(s: State, t: Thread)
    requires Inv(s) && Enabled(s, Lock(t)) && s.calls[t].key in s.lock
    ensures Inv(Apply(s, Lock(t)))
  {
    InvKnown(s, t);
    assert LockOk(s, s.calls[t].key);
    assert FlightOk(s, s.lock[s.calls[t].key]);
    OwnStepKeepsInv(s, Apply(s, Lock(t)), t);
  }

  /** A new flight disturbs neither the other calls nor the other flights. */
  lemma LeadKeepsCall(s: State, t: Thread, u: Thread)
    requires Enabled(s, Lock(t)) && s.calls[t].key !in s.lock
    requires s.nextFlight !in s.flights && u in s.calls && CallOk(s, u)
    ensures CallOk(Apply(s, Lock(t)), u)
  {
  }

  lemma LeadKeepsCalls(s: State, t: Thread)
    requires Enabled(s, Lock(t)) && s.calls[t].key !in s.lock && s.nextFlight !in s.flights
    requires forall u :: u in s.calls ==> LeaderOk(s, u) && WaiterOk(s, u)
    ensures var s' := Apply(s, Lock(t)); forall u :: u in s'.calls ==> LeaderOk(s', u) && WaiterOk(s', u)
  {
    forall u | u in s.calls ensures CallOk(Apply(s, Lock(t)), u) {
      assert LeaderOk(s, u) && WaiterOk(s, u);
      LeadKeepsCall(s, t, u);
    }
  }

  lemma LeadKeepsFlights(s: State, t: Thread)
    requires Enabled(s, Lock(t)) && s.calls[t].key !in s.lock && s.nextFlight !in s.flights && CallOk(s, t)
    requires forall f :: f in s.flights ==> FlightOk(s, f)
    ensures forall f :: f in Apply(s, Lock(t)).flights ==> FlightOk(Apply(s, Lock(t)), f)
  {
    forall f | f in Apply(s, Lock(t)).flights ensures FlightOk(Apply(s, Lock(t)), f) {
      if f in s.flights { assert FlightOk(s, f); }
    }
  }

  lemma LeadKeepsLocks(s: State, t: Thread)
    requires Enabled(s, Lock(t)) && s.calls[t].key !in s.lock && s.nextFlight !in s.flights
    requires forall k :: k in s.lock ==> LockOk(s, k)
    ensures forall k :: k in Apply(s, Lock(t)).lock ==> LockOk(Apply(s, Lock(t)), k)
  {
    forall k | k in Apply(s, Lock(t)).lock ensures LockOk(Apply(s, Lock(t)), k) {
      if k in s.lock { assert LockOk(s, k); }
    }
  }

  lemma LeadKeepsInv(s: State, t: Thread)
    requires Inv(s) && Enabled(s, Lock(t)) && s.calls[t].key !in s.lock
    ensures Inv(Apply(s, Lock(t)))
  {
    forall f | f in s.flights ensures f < s.nextFlight { assert FlightOk(s, f); }
    assert LeaderOk(s, t) && WaiterOk(s, t);
    LeadKeepsCalls(s, t);
    LeadKeepsFlights(s, t);
    LeadKeepsLocks(s, t);
  }

  /** A step of a call that has begun, other than its look-up of the flight. */
  lemma CallStepKeepsInv(s: State, step: Step)
    requires Enabled(s, step) && Inv(s) && !step.Tick? && !step.Begin? && !step.Drop? && !step.Lock?
    ensures Inv(Apply(s, step))
  {
    InvKnown(s, step.t);
    if WalkStep(step) {
      WalkIsOwnStep(s, step);
      WalkOwn(s, step);
    } else if step.Load? {
      LoadIsOwnStep(s, step.t);
      LoadCall(s, step.t);
      if s.calls[step.t].leading.Some? { LoadFlight(s, step.t); }
    } else if step.Store? {
      StoreIsOwnStep(s, step.t, step.lifetime);
      StoreCall(s, step.t, step.lifetime);
      if s.calls[step.t].leading.Some? { StoreFlight(s, step.t, step.lifetime); }
    } else {
      SharedIsOwnStep(s, step);
      if step.Delete? || step.Close? { FinishOwn(s, step); } else { FailureOwn(s, step); }
    }
    OwnStepKeepsInv(s, Apply(s, step), step.t);
  }

  lemma StepKeepsInv(s: State, step: Step)
    requires Enabled(s, step) && Inv(s)
    ensures Inv(Apply(s, step))
  {
    if step.Tick? || step.Begin? {
      BeginKeepsInv(s, step);
    } else if step.Drop? {
      DropKeepsInv(s, step.keys);
    } else if step.Lock? {
      if s.calls[step.t].key in s.lock { JoinKeepsInv(s, step.t); } else { LeadKeepsInv(s, step.t); }
    } else {
      CallStepKeepsInv(s, step);
    }
  }

  lemma {:induction false} RunKeepsInv(run: seq<State>, steps: seq<Step>, k: nat)
    requires IsRun(run, steps) && k < |run|
    ensures Inv(run[k])
  {
    if k > 0 {
      RunKeepsInv(run, steps, k - 1);
      assert Enabled(run[k - 1], steps[k - 1]) && run[k] == Apply(run[k - 1], steps[k - 1]);
      StepKeepsInv(run[k - 1], steps[k - 1]);
    }
  }

  // ---- what the flight guarantees ----

  predicate Locked(s: State, key: Key, f: FlightId) {
    key in s.lock && s.lock[key] == f
  }

  /** At most one undeleted leader per key, and the lock map holds exactly the flights of such leaders. */
  lemma OneLeaderPerKey(run: seq<State>, steps: seq<Step>, k: nat)
    requires IsRun(run, steps) && k < |run|
    ensures var s := run[k];
            && (forall t, u, f, g ::
                  t in s.calls && u in s.calls && Leads(s.calls[t], f) && Leads(s.calls[u], g)
                      && s.calls[t].key == s.calls[u].key
                  ==> t == u && f == g)
            && (forall key, f :: Locked(s, key, f) <==>
                  exists t :: t in s.calls && s.calls[t].key == key && Leads(s.calls[t], f))
  {
    var s := run[k];
    RunKeepsInv(run, steps, k);
    forall t, u, f, g | t in s.calls && u in s.calls && Leads(s.calls[t], f) && Leads(s.calls[u], g)
        && s.calls[t].key == s.calls[u].key
      ensures t == u && f == g
    {
      assert LeaderOk(s, t) && LeaderOk(s, u);
    }
    forall key, f
      ensures Locked(s, key, f) <==> exists t :: t in s.calls && s.calls[t].key == key && Leads(s.calls[t], f)
    {
      if Locked(s, key, f) {
        assert LockOk(s, key) && FlightOk(s, f);
        var t := s.flights[f].leader;
        assert LeaderOk(s, t);
        assert s.calls[t].key == key && Leads(s.calls[t], f);
      }
      forall t | t in s.calls && s.calls[t].key == key && Leads(s.calls[t], f)
        ensures Locked(s, key, f)
      {
        assert LeaderOk(s, t);
      }
    }
  }

  /**
   A leader's Delete removes its own flight; its close comes after, once, and is
   the only one that flight ever gets.
   */
  lemma DeleteOwnCloseOnce(run: seq<State>, steps: seq<Step>, k: nat)
    requires IsRun(run, steps) && k < |steps|
    ensures steps[k].Delete? ==>
              var c := run[k].calls[steps[k].t];
              c.key in run[k].lock && Some(run[k].lock[c.key]) == c.leading && c.key !in run[k + 1].lock
    ensures steps[k].Close? ==>
              var c := run[k].calls[steps[k].t];
              && c.leading.value !in run[k].lock.Values
              && run[k].flights[c.leading.value].closes == 0
              && run[k + 1].flights[c.leading.value].closes == 1
    ensures forall f :: f in run[k].flights ==> run[k].flights[f].closes <= 1
  {
    var s, step := run[k], steps[k];
    RunKeepsInv(run, steps, k);
    assert Enabled(s, step);
    if step.Delete? || step.Close? { assert LeaderOk(s, step.t); }
    if step.Close? {
      var f := s.calls[step.t].leading.value;
      forall key | key in s.lock ensures s.lock[key] != f { assert LockOk(s, key); }
    }
    forall f | f in s.flights ensures s.flights[f].closes <= 1 {
      assert FlightOk(s, f) && LeaderOk(s, s.flights[f].leader);
    }
  }

  /**
   No waiter is stranded: while its flight is not closed, the leader still has
   steps to take, and the deadline it waits for is never later than one full
   timeout after it joined.
   */
  lemma WaitersAreServed(run: seq<State>, steps: seq<Step>, k: nat, t: Thread)
    requires IsRun(run, steps) && k < |run|
    requires t in run[k].calls && Queued(run[k].calls[t].pc)
    ensures var s := run[k];
            var f := s.calls[t].pc.flight;
            && f in s.flights && s.flights[f].leader in s.calls
            && (s.flights[f].closes == 1 <==> s.calls[s.flights[f].leader].pc.Finished?)
            && s.flights[f].leader != t && s.flights[f].deadline <= s.calls[t].joined + s.timeout
  {
    var s := run[k];
    RunKeepsInv(run, steps, k);
    assert WaiterOk(s, t);
    var f := s.calls[t].pc.flight;
    assert FlightOk(s, f) && LeaderOk(s, s.flights[f].leader);
  }

  /**
   A waiter released by a flight whose leader ended in a network error never
   asks the transport unless its negFail check came a full TTL after that
   failure was recorded; within the TTL the check ends the call.
   */
  lemma ReleasedWaitersFastFail(run: seq<State>, steps: seq<Step>, k: nat, t: Thread)
    requires IsRun(run, steps) && k < |run|
    requires t in run[k].calls && run[k].calls[t].released.Some?
    ensures var s := run[k];
            var c := s.calls[t];
            var f := c.released.value;
            && f in s.flights && s.flights[f].key == c.key
            && (s.flights[f].networkError ==>
                  && s.flights[f].failedAt.Some?
                  && (c.exchanges > 0 ==>
                        c.passed.Some? && c.passed.value >= s.flights[f].failedAt.value + NEG_FAIL_TTL)
                  && (c.pc.GetNegFail? && s.now < s.flights[f].failedAt.value + NEG_FAIL_TTL ==>
                        Apply(s, NegFail(t)).calls[t].pc.Finished? && Apply(s, NegFail(t)).calls[t].exchanges == 0))
  {
    var s := run[k];
    RunKeepsInv(run, steps, k);
    var f := s.calls[t].released.value;
    assert WaiterOk(s, t);
    assert FlightOk(s, f) && LeaderOk(s, s.flights[f].leader);
  }


  /**
   A released waiter asks the transport only after its cache load missed. If the
   flight that released it had stored a response, then that entry had been
   dropped, or the last entry under its cache key, the flight's own or a later
   one, had expired. With independent caches that entry is of the same question
   and transport; a shared cache may hold another transport's.
   */
  lemma ReleasedWaitersAreServed(run: seq<State>, steps: seq<Step>, k: nat, t: Thread)
    requires IsRun(run, steps) && k < |run|
    requires t in run[k].calls && run[k].calls[t].released.Some? && run[k].calls[t].exchanges > 0
    ensures var s := run[k];
            var c := s.calls[t];
            && c.missed.Some?
            && c.released.value in s.flights
            && (s.flights[c.released.value].stored.Some? ==>
                  var m, e := c.missed.value, s.flights[c.released.value].stored.value;
                  && e.from == c.key
                  && (|| e.serial < m.floor
                      || (&& !s.responses.disableExpire && m.saw.Some? && m.saw.value.expireAt < m.at
                          && m.saw.value.serial >= e.serial && (m.saw.value.serial == e.serial ==> m.saw.value == e)
                          && m.saw.value.from.question == c.key.question
                          && (s.responses.independent ==> m.saw.value.from == c.key))))
  {
    var s := run[k];
    RunKeepsInv(run, steps, k);
    assert WaiterOk(s, t);
    assert FlightOk(s, s.calls[t].released.value);
  }

  // ---- when released waiters ask the transport together ----

  /** Steps of the two calls only: the clock stands still and nobody else moves. */
  ghost predicate OfEither(steps: seq<Step>, t: Thread, u: Thread) {
    forall step :: step in steps ==> !step.Tick? && !step.Drop? && (step.t == t || step.t == u)
  }

  ghost predicate Path(s: State, steps: seq<Step>, end: State)
    decreases |steps|
  {
    if steps == [] then s == end else Enabled(s, steps[0]) && Path(Apply(s, steps[0]), steps[1..], end)
  }

  ghost predicate ExchangingTogether(s: State, t: Thread, u: Thread) {
    AtPc(s, t, Exchanging) && AtPc(s, u, Exchanging)
  }

  ghost predicate CanExchangeTogether(s: State, t: Thread, u: Thread) {
    exists steps, end :: OfEither(steps, t, u) && Path(s, steps, end) && ExchangingTogether(end, t, u)
  }

  /** A waiter of a closed flight, released or about to be, that has not yet asked. */
  predicate Before(s: State, t: Thread, key: Key) {
    && t in s.calls && s.calls[t].key == key && s.calls[t].leading.None?
    && (Queued(s.calls[t].pc) || s.calls[t].pc.LoadCache? || s.calls[t].pc.GetNegFail? || s.calls[t].pc.Finished?)
    && (s.calls[t].pc.GetNegFail? ==> !s.responses.Hit(key, s.now))
  }

  predicate Alive(s: State, key: Key) {
    s.responses.Hit(key, s.now) || s.FailedRecently(key)
  }

  /** The moving call of the two stays where it was before asking, and so does what stops it. */
  lemma BeforeMoves(s: State, step: Step, key: Key)
    requires Enabled(s, step) && !step.Tick? && !step.Drop? && step.t in s.calls && Before(s, step.t, key)
             && Alive(s, key)
    ensures var s' := Apply(s, step);
            && s'.now == s.now && s'.negFail == s.negFail && s'.responses.Hit(key, s.now) == s.responses.Hit(key, s.now)
            && step.t in s'.calls && s'.calls == s.calls[step.t := s'.calls[step.t]] && Before(s', step.t, key)
  {
    if step.Load? { LoadEffect(s, step.t); } else if QueueStep(step) { QueueEffect(s, step); }
  }

  lemma AliveKeepsBefore(s: State, step: Step, key: Key, t: Thread, u: Thread)
    requires Enabled(s, step) && !step.Tick? && !step.Drop? && (step.t == t || step.t == u)
    requires Alive(s, key) && Before(s, t, key) && Before(s, u, key)
    ensures var s' := Apply(s, step);
            Alive(s', key) && Before(s', t, key) && Before(s', u, key)
  {
    BeforeMoves(s, step, key);
    BeforeFrame(s, Apply(s, step), step.t, t, key);
    BeforeFrame(s, Apply(s, step), step.t, u, key);
  }

  lemma BeforeFrame(s: State, s': State, moving: Thread, x: Thread, key: Key)
    requires s'.now == s.now && s'.responses.Hit(key, s.now) == s.responses.Hit(key, s.now)
    requires moving in s'.calls && s'.calls == s.calls[moving := s'.calls[moving]] && Before(s', moving, key)
    requires Before(s, x, key)
    ensures Before(s', x, key)
  {
  }

  lemma {:induction false} AliveBlocks(s: State, steps: seq<Step>, end: State, key: Key, t: Thread, u: Thread)
    requires Alive(s, key) && Before(s, t, key) && Before(s, u, key)
    requires OfEither(steps, t, u) && Path(s, steps, end)
    ensures !AtPc(end, t, Exchanging) && !AtPc(end, u, Exchanging)
    decreases |steps|
  {
    if steps != [] {
      assert steps[0] in steps;
      AliveKeepsBefore(s, steps[0], key, t, u);
      AliveBlocks(Apply(s, steps[0]), steps[1..], end, key, t, u);
    }
  }

  /** A call that is in the select of awaitFlight, or will get there because the deadline is still ahead. */
  predicate InTime(s: State, t: Thread) {
    && t in s.calls && Queued(s.calls[t].pc)
    && (s.calls[t].pc.Waiting?
          || (s.calls[t].pc.flight in s.flights && s.now < s.flights[s.calls[t].pc.flight].deadline))
  }

  /** A call that found its leader's deadline past, or has returned because of it. */
  predicate TooLate(s: State, t: Thread) {
    && t in s.calls && s.calls[t].leading.None?
    && (s.calls[t].pc.Finished? || (Queued(s.calls[t].pc) && s.calls[t].pc.flight in s.flights && !InTime(s, t)))
  }

  /** A call that will never lead a flight. */
  predicate Follows(s: State, u: Thread) {
    u in s.calls && s.calls[u].leading.None? && !s.calls[u].pc.LoadOrStore?
  }

  lemma LateMoves(s: State, step: Step)
    requires Enabled(s, step) && !step.Tick? && !step.Drop? && step.t in s.calls && TooLate(s, step.t)
    ensures TooLate(Apply(s, step), step.t) && Private(s, Apply(s, step), step.t)
  {
    assert QueueStep(step);
    QueueEffect(s, step);
  }

  lemma FollowerShares(s: State, step: Step)
    requires Enabled(s, step) && !step.Tick? && !step.Drop? && !WalkStep(step) && !step.Load?
    requires step.t in s.calls && Follows(s, step.t)
    ensures var s' := Apply(s, step);
            && Follows(s', step.t) && s'.calls == s.calls[step.t := s'.calls[step.t]]
            && s'.flights == s.flights && s'.now == s.now
  {
  }

  lemma FollowerMoves(s: State, step: Step)
    requires Enabled(s, step) && !step.Tick? && !step.Drop? && step.t in s.calls && Follows(s, step.t)
    ensures var s' := Apply(s, step);
            && Follows(s', step.t) && s'.calls == s.calls[step.t := s'.calls[step.t]]
            && s'.flights == s.flights && s'.now == s.now
  {
    if WalkStep(step) {
      WalkEffect(s, step);
    } else if step.Load? {
      LoadEffect(s, step.t);
    } else {
      FollowerShares(s, step);
    }
  }

  lemma LateStaysLate(s: State, step: Step, t: Thread, u: Thread)
    requires Enabled(s, step) && !step.Tick? && !step.Drop? && (step.t == t || step.t == u)
    requires TooLate(s, t) && Follows(s, u)
    ensures TooLate(Apply(s, step), t) && Follows(Apply(s, step), u)
  {
    if step.t == t { LateMoves(s, step); } else { FollowerMoves(s, step); }
  }

  lemma {:induction false} LateBlocks(s: State, steps: seq<Step>, end: State, t: Thread, u: Thread)
    requires TooLate(s, t) && Follows(s, u) && OfEither(steps, t, u) && Path(s, steps, end)
    ensures !AtPc(end, t, Exchanging)
    decreases |steps|
  {
    if steps != [] {
      assert steps[0] in steps;
      LateStaysLate(s, steps[0], t, u);
      LateBlocks(Apply(s, steps[0]), steps[1..], end, t, u);
    }
  }

  /** Nothing alive: a call at its cache load can go all the way to the transport. */
  lemma Asks(s0: State, t: Thread, key: Key) returns (steps: seq<Step>, s: State)
    requires AtPc(s0, t, LoadCache) && s0.calls[t].key == key && !Alive(s0, key)
    ensures steps == [Load(t), NegFail(t), Circuit(t, false)] && Path(s0, steps, s)
    ensures AtPc(s, t, Exchanging)
    ensures s == s0.(calls := s0.calls[t := s.calls[t]], responses := s0.responses.AfterMiss(key))
    ensures s.calls[t] == s0.calls[t].(pc := Exchanging, missed := s.calls[t].missed, passed := Some(s0.now),
                                       exchanges := s0.calls[t].exchanges + 1)
  {
    var s1 := Apply(s0, Load(t));
    LoadEffect(s0, t);
    assert !s1.FailedRecently(key);
    var rest;
    rest, s := Checks(s1, t);
    steps := [Load(t)] + rest;
    assert steps[1..] == rest;
  }

  lemma Checks(s0: State, t: Thread) returns (steps: seq<Step>, s: State)
    requires AtPc(s0, t, GetNegFail) && !s0.FailedRecently(s0.calls[t].key)
    ensures steps == [NegFail(t), Circuit(t, false)] && Path(s0, steps, s)
    ensures t in s.calls && s == s0.(calls := s0.calls[t := s.calls[t]])
    ensures s.calls[t] == s0.calls[t].(pc := Exchanging, passed := Some(s0.now), exchanges := s0.calls[t].exchanges + 1)
  {
    steps := [NegFail(t), Circuit(t, false)];
    var s1 := Apply(s0, steps[0]);
    s := Apply(s1, steps[1]);
    assert steps[1..] == [Circuit(t, false)] && Path(s1, steps[1..], s);
  }

  /** So can a waiter of a closed flight. */
  lemma WaiterExchanges(s0: State, t: Thread, key: Key) returns (steps: seq<Step>, s: State)
    requires t in s0.calls && s0.calls[t].pc.Waiting? && s0.calls[t].key == key && !Alive(s0, key)
    requires s0.calls[t].pc.flight in s0.flights && s0.flights[s0.calls[t].pc.flight].closes > 0
    ensures OfEither(steps, t, t) && Path(s0, steps, s) && AtPc(s, t, Exchanging)
    ensures s.calls == s0.calls[t := s.calls[t]] && s.flights == s0.flights && s.now == s0.now && !Alive(s, key)
  {
    var s1 := Apply(s0, Wake(t));
    var rest;
    rest, s := Asks(s1, t, key);
    steps := [Wake(t)] + rest;
    assert steps[1..] == rest;
  }

  /** So can a call that has just found one, if it is in time. */
  lemma QueuedExchanges(s0: State, t: Thread, key: Key) returns (steps: seq<Step>, s: State)
    requires InTime(s0, t) && s0.calls[t].key == key && !Alive(s0, key)
    requires s0.calls[t].pc.flight in s0.flights && s0.flights[s0.calls[t].pc.flight].closes > 0
    ensures OfEither(steps, t, t) && Path(s0, steps, s) && AtPc(s, t, Exchanging)
    ensures s.calls == s0.calls[t := s.calls[t]] && s.flights == s0.flights && s.now == s0.now && !Alive(s, key)
  {
    if s0.calls[t].pc.Waiting? {
      steps, s := WaiterExchanges(s0, t, key);
    } else {
      var s1 := Apply(s0, Await(t));
      assert s1 == s0.(calls := s0.calls[t := s1.calls[t]]) && s1.calls[t].pc == Waiting(s0.calls[t].pc.flight);
      var rest;
      rest, s := WaiterExchanges(s1, t, key);
      steps := [Await(t)] + rest;
      assert steps[1..] == rest;
    }
  }

  lemma {:induction false} PathJoins(s: State, first: seq<Step>, middle: State, second: seq<Step>, end: State)
    requires Path(s, first, middle) && Path(middle, second, end)
    ensures Path(s, first + second, end)
    decreases |first|
  {
    if first == [] {
      assert first + second == second;
    } else {
      assert (first + second)[1..] == first[1..] + second;
      PathJoins(Apply(s, first[0]), first[1..], middle, second, end);
    }
  }

  lemma NothingAliveLets(s: State, t: Thread, u: Thread, key: Key)
    requires t != u && InTime(s, t) && InTime(s, u) && s.calls[t].key == s.calls[u].key == key && !Alive(s, key)
    requires s.calls[u].pc.flight == s.calls[t].pc.flight
    requires s.calls[t].pc.flight in s.flights && s.flights[s.calls[t].pc.flight].closes > 0
    ensures CanExchangeTogether(s, t, u)
  {
    var first, middle := QueuedExchanges(s, t, key);
    var second, end := QueuedExchanges(middle, u, key);
    PathJoins(s, first, middle, second, end);
    assert OfEither(first + second, t, u);
    assert ExchangingTogether(end, t, u);
  }

  lemma EitherWay(steps: seq<Step>, t: Thread, u: Thread)
    requires OfEither(steps, t, u)
    ensures OfEither(steps, u, t)
  {
  }

  /**
   Two calls queued on one closed flight can ask the transport together, with
   nothing else happening, exactly when neither an unexpired response nor a
   recent failure is there for their key and neither found the leader's deadline
   past. A response the flight stored is there unless it was dropped or the last
   entry under its key has expired; a failure it recorded is there for the whole
   TTL.
   */
  lemma TogetherIffNothingAlive(run: seq<State>, steps: seq<Step>, k: nat, t: Thread, u: Thread)
    requires IsRun(run, steps) && k < |run| && t != u && t in run[k].calls && u in run[k].calls
    requires Queued(run[k].calls[t].pc) && Queued(run[k].calls[u].pc)
    requires run[k].calls[u].pc.flight == run[k].calls[t].pc.flight
    requires run[k].calls[t].pc.flight in run[k].flights && run[k].flights[run[k].calls[t].pc.flight].closes > 0
    ensures var s := run[k];
            var key, fl := s.calls[t].key, s.flights[s.calls[t].pc.flight];
            && s.calls[u].key == key
            && (CanExchangeTogether(s, t, u) <==>
                  !s.responses.Hit(key, s.now) && !s.FailedRecently(key) && InTime(s, t) && InTime(s, u))
            && (fl.stored.Some? && fl.stored.value.serial >= s.responses.Floor(key) ==>
                  && s.responses.Last(key).Some? && s.responses.Last(key).value.serial >= fl.stored.value.serial
                  && (s.responses.Hit(key, s.now) <==>
                        s.responses.disableExpire || s.now <= s.responses.Last(key).value.expireAt))
            && (fl.failedAt.Some? && s.now < fl.failedAt.value + NEG_FAIL_TTL ==> s.FailedRecently(key))
            && (fl.networkError ==> fl.failedAt.Some?)
  {
    var s := run[k];
    RunKeepsInv(run, steps, k);
    assert WaiterOk(s, t) && WaiterOk(s, u);
    var key, f := s.calls[t].key, s.calls[t].pc.flight;
    assert FlightOk(s, f) && LeaderOk(s, s.flights[f].leader);
    if !Alive(s, key) && InTime(s, t) && InTime(s, u) {
      NothingAliveLets(s, t, u, key);
    } else {
      forall path, end | OfEither(path, t, u) && Path(s, path, end) ensures !ExchangingTogether(end, t, u) {
        NotTogether(s, path, end, key, t, u);
      }
    }
  }

  lemma NotTogether(s: State, path: seq<Step>, end: State, key: Key, t: Thread, u: Thread)
    requires Before(s, t, key) && Before(s, u, key) && Queued(s.calls[t].pc) && Queued(s.calls[u].pc)
    requires s.calls[t].pc.flight in s.flights && s.calls[u].pc.flight in s.flights
    requires Alive(s, key) || !InTime(s, t) || !InTime(s, u)
    requires OfEither(path, t, u) && Path(s, path, end)
    ensures !ExchangingTogether(end, t, u)
  {
    if Alive(s, key) {
      AliveBlocks(s, path, end, key, t, u);
    } else if !InTime(s, t) {
      LateBlocks(s, path, end, t, u);
    } else {
      EitherWay(path, t, u);
      LateBlocks(s, path, end, u, t);
    }
  }

  // ---- runs in which they do ----

  ghost predicate Reaches(s: State) {
    exists run, steps :: IsRun(run, steps) && run[|run| - 1] == s
  }

  lemma Then(s: State, step: Step) returns (s': State)
    requires Reaches(s) && Enabled(s, step)
    ensures Reaches(s') && s' == Apply(s, step)
  {
    var run, steps :| IsRun(run, steps) && run[|run| - 1] == s;
    s' := Apply(s, step);
    assert IsRun(run + [s'], steps + [step]);
    assert (run + [s'])[|run|] == s';
  }

  lemma {:induction false} ThenAll(s: State, path: seq<Step>, end: State)
    requires Reaches(s) && Path(s, path, end)
    ensures Reaches(end)
    decreases |path|
  {
    if path != [] {
      var next := Then(s, path[0]);
      ThenAll(next, path[1..], end);
    }
  }

  /** A call begins and leads a flight. */
  lemma BeginsLeading(s0: State, t: Thread, k: Key, parent: Option<Thread>) returns (s: State)
    requires Reaches(s0) && t !in s0.calls && k !in s0.lock && (parent.Some? ==> AtPc(s0, parent.value, Exchanging))
    ensures Reaches(s)
    ensures s == s0.(calls := s0.calls[t := Call(k, true, parent, LoadCache, Some(s0.nextFlight), None, None, None, 0,
                                                 s0.now)],
                     lock := s0.lock[k := s0.nextFlight], nextFlight := s0.nextFlight + 1,
                     flights := s0.flights[s0.nextFlight := Flight(k, t, s0.now + s0.timeout, 0, false, None, None)])
  {
    s := Then(s0, Begin(t, k, true, parent));
    s := Then(s, Lock(t));
  }

  /** A call begins and waits for the flight that is there. */
  lemma BeginsWaiting(s0: State, t: Thread, k: Key, parent: Option<Thread>) returns (s: State)
    requires Reaches(s0) && t !in s0.calls && (parent.Some? ==> AtPc(s0, parent.value, Exchanging))
    requires k in s0.lock && s0.lock[k] in s0.flights && s0.now < s0.flights[s0.lock[k]].deadline
    ensures Reaches(s)
    ensures s == s0.(calls := s0.calls[t := Call(k, true, parent, Waiting(s0.lock[k]), None, None, None, None, 0,
                                                 s0.now)])
  {
    s := Then(s0, Begin(t, k, true, parent));
    s := Then(s, Lock(t));
    s := Then(s, Await(t));
  }

  /** A call at its cache load misses, asks and is about to be answered. */
  lemma Misses(s0: State, t: Thread) returns (s: State)
    requires Reaches(s0) && AtPc(s0, t, LoadCache) && !Alive(s0, s0.calls[t].key)
    ensures Reaches(s) && AtPc(s, t, Exchanging)
    ensures s == s0.(calls := s0.calls[t := s.calls[t]], responses := s0.responses.AfterMiss(s0.calls[t].key))
    ensures s.calls[t].key == s0.calls[t].key && s.calls[t].cached == s0.calls[t].cached
    ensures s.calls[t].leading == s0.calls[t].leading && s.calls[t].parent == s0.calls[t].parent
  {
    var path;
    path, s := Asks(s0, t, s0.calls[t].key);
    ThenAll(s0, path, s);
  }

  /** The answer comes; a positive lifetime stores it. */
  lemma Answered(s0: State, t: Thread, lifetime: nat) returns (s: State)
    requires Reaches(s0) && AtPc(s0, t, Exchanging) && s0.calls[t].cached
    requires s0.calls[t].leading.Some? && s0.calls[t].leading.value in s0.flights
    requires forall u :: u in s0.calls ==> s0.calls[u].parent.None?
    ensures var c := s0.calls[t];
            var e := Entry(s0.responses.nextSerial, c.key, s0.now + lifetime);
            && Reaches(s) && s.now == s0.now && s.negFail == s0.negFail && s.lock == s0.lock
            && s.calls == s0.calls[t := c.(pc := DeleteFlight)]
            && (if lifetime == 0 then s.responses == s0.responses && s.flights == s0.flights
                else && s.responses == s0.responses.Add(c.key, s0.now + lifetime)
                     && s.flights == s0.flights[c.leading.value := s0.flights[c.leading.value].(stored := Some(e))])
  {
    s := Then(s0, Return(t, false));
    s := Then(s, Store(t, lifetime));
  }

  lemma Closes(s0: State, t: Thread) returns (s: State)
    requires Reaches(s0) && AtPc(s0, t, DeleteFlight) && s0.calls[t].leading.Some?
             && s0.calls[t].leading.value in s0.flights
    ensures var f := s0.calls[t].leading.value;
            && Reaches(s) && s.now == s0.now && s.lock == s0.lock - {s0.calls[t].key} && s.nextFlight == s0.nextFlight
                && s.negFail == s0.negFail && s.responses == s0.responses
            && s.calls == s0.calls[t := s0.calls[t].(pc := Finished)]
            && s.flights == s0.flights[f := s0.flights[f].(closes := s0.flights[f].closes + 1)]
  {
    s := Then(s0, Delete(t));
    s := Then(s, Close(t));
  }

  /** Calls 1 and 2 wait for call 0 to lead the first flight of `k`. */
  lemma LeaderAndTwoWaiters(k: Key, independent: bool) returns (s: State)
    ensures Reaches(s)
    ensures s == State(0, 10000, map[k := 0], 1, map[0 := Flight(k, 0, 10000, 0, false, None, None)],
                       Responses(independent, false, map[], map[], 0, map[]), map[],
                       map[0 := Call(k, true, None, LoadCache, Some(0), None, None, None, 0, 0),
                           1 := Call(k, true, None, Waiting(0), None, None, None, None, 0, 0),
                           2 := Call(k, true, None, Waiting(0), None, None, None, None, 0, 0)])
  {
    s := State(0, 10000, map[], 0, map[], Responses(independent, false, map[], map[], 0, map[]), map[], map[]);
    assert IsRun([s], []);
    assert [s][|[s]| - 1] == s;
    s := BeginsLeading(s, 0, k, None);
    s := BeginsWaiting(s, 1, k, None);
    s := BeginsWaiting(s, 2, k, None);
  }

  /** A flight whose answer was not stored, in a run with nothing else, lets its waiters ask together. */
  lemma ReleasedWaitersMayExchangeTogether(k: Key, independent: bool) returns (s: State)
    ensures Reaches(s) && 0 in s.flights && s.flights[0].closes == 1
    ensures s.flights[0].stored.None? && !s.flights[0].networkError
    ensures 1 in s.calls && 2 in s.calls && s.calls[1].pc == s.calls[2].pc == Waiting(0)
              && s.calls[1].key == s.calls[2].key == k
    ensures CanExchangeTogether(s, 1, 2)
  {
    s := LeaderAndTwoWaiters(k, independent);
    s := Misses(s, 0);
    s := Answered(s, 0, 0);
    s := Closes(s, 0);
    NothingAliveLets(s, 1, 2, k);
  }

  /** In a shared cache another transport is already asking the same question when the flight's answer comes. */
  lemma OtherTransportAsks(question: string, a: string, b: string) returns (s: State)
    requires a != b
    ensures Reaches(s) && s.now == 0 && s.negFail == map[]
    ensures s.responses == Responses(false, false, map[], map[], 0, map[])
    ensures s.flights.Keys == {0, 1} && s.flights[0] == Flight(Key(question, a), 0, 10000, 0, false, None, None)
    ensures s.calls.Keys == {0, 1, 2, 3} && forall t :: t in s.calls ==> s.calls[t].parent.None?
    ensures s.calls[0].key == s.calls[1].key == s.calls[2].key == Key(question, a)
    ensures s.calls[0].cached && s.calls[0].pc == LoadCache && s.calls[0].leading == Some(0)
    ensures s.calls[1].pc == s.calls[2].pc == Waiting(0)
    ensures s.calls[3].cached && s.calls[3].pc == Exchanging && s.calls[3].leading == Some(1)
              && s.calls[3].key == Key(question, b)
  {
    s := LeaderAndTwoWaiters(Key(question, a), false);
    var s1 := BeginsLeading(s, 3, Key(question, b), None);
    assert s1.calls.Keys == {0, 1, 2, 3} && s1.flights.Keys == {0, 1};
    s := Misses(s1, 3);
    assert s.responses == Responses(false, false, map[], map[], 0, map[]);
  }

  /** The flight's answer is stored for long and the flight closed. */
  lemma FlightAnswers(question: string, a: string, b: string) returns (s: State)
    requires a != b
    ensures Reaches(s) && s.now == 0 && s.negFail == map[]
    ensures s.flights.Keys == {0, 1} && s.flights[0].closes == 1 && s.flights[0].key == Key(question, a)
    ensures s.flights[0].stored == Some(Entry(0, Key(question, a), 1000))
    ensures !s.responses.independent && !s.responses.disableExpire && s.responses.floor == map[]
    ensures s.calls.Keys == {0, 1, 2, 3} && forall t :: t in s.calls ==> s.calls[t].parent.None?
    ensures s.calls[1].key == s.calls[2].key == Key(question, a) && s.calls[1].pc == s.calls[2].pc == Waiting(0)
    ensures s.calls[3].cached && s.calls[3].pc == Exchanging && s.calls[3].leading == Some(1)
    ensures s.calls[3].key == Key(question, b)
  {
    s := OtherTransportAsks(question, a, b);
    s := Misses(s, 0);
    s := Answered(s, 0, 1000);
    s := Closes(s, 0);
  }

  /**
   Its shorter-lived answer overwrites the flight's, and the waiters ask together
   although the flight's own answer would still be alive.
   */
  lemma OtherTransportOverwrites(question: string, a: string, b: string) returns (s: State)
    requires a != b
    ensures Reaches(s) && 0 in s.flights && s.flights[0].closes == 1 && s.flights[0].key == Key(question, a)
    ensures s.flights[0].stored.Some? && s.now < s.flights[0].stored.value.expireAt
    ensures s.responses.Floor(s.flights[0].key) == 0
    ensures 1 in s.calls && 2 in s.calls && s.calls[1].pc == s.calls[2].pc == Waiting(0)
              && s.calls[1].key == s.calls[2].key == Key(question, a)
    ensures CanExchangeTogether(s, 1, 2)
  {
    s := FlightAnswers(question, a, b);
    s := Answered(s, 3, 1);
    s := Then(s, Tick(2));
    NothingAliveLets(s, 1, 2, Key(question, a));
  }

  // ---- nested calls ----

  /** `a` is the call that made `t` through its transport, or made the call that did, `n` calls in between. */
  ghost predicate Ancestor(s: State, a: Thread, t: Thread, n: nat)
    decreases n
  {
    && t in s.calls && s.calls[t].parent.Some?
    && if n == 0 then s.calls[t].parent.value == a else Ancestor(s, a, s.calls[t].parent.value, n - 1)
  }

  /** While a nested call runs, the call that made it is asking its transport. */
  ghost predicate ParentOk(s: State, t: Thread)
    requires t in s.calls
  {
    s.calls[t].parent.Some? && !s.calls[t].pc.Finished? ==> AtPc(s, s.calls[t].parent.value, Exchanging)
  }

  lemma SharedMovesOneCall(s: State, step: Step)
    requires Enabled(s, step) && !step.Tick? && !step.Drop? && !WalkStep(step) && !step.Load? && !step.Begin?
    ensures var s' := Apply(s, step);
            && step.t in s.calls && step.t in s'.calls && s'.calls == s.calls[step.t := s'.calls[step.t]]
            && s'.calls[step.t].parent == s.calls[step.t].parent && !s.calls[step.t].pc.Finished?
            && (s.calls[step.t].pc.Exchanging? ==> step.Return?)
  {
  }

  lemma StepMovesOneCall(s: State, step: Step)
    requires Enabled(s, step) && !step.Tick? && !step.Drop?
    ensures var s' := Apply(s, step);
            && step.t in s'.calls && s'.calls == s.calls[step.t := s'.calls[step.t]]
            && (step.t in s.calls ==>
                  && s'.calls[step.t].parent == s.calls[step.t].parent && !s.calls[step.t].pc.Finished?
                  && (s.calls[step.t].pc.Exchanging? ==> step.Return?))
  {
    if WalkStep(step) { WalkEffect(s, step); }
    else if step.Load? { LoadEffect(s, step.t); }
    else if !step.Begin? { SharedMovesOneCall(s, step); }
  }

  lemma ParentStep(s: State, step: Step)
    requires Enabled(s, step) && forall t :: t in s.calls ==> ParentOk(s, t)
    ensures forall t :: t in Apply(s, step).calls ==> ParentOk(Apply(s, step), t)
  {
    if !step.Tick? && !step.Drop? {
      StepMovesOneCall(s, step);
      forall t | t in Apply(s, step).calls ensures ParentOk(Apply(s, step), t) {
        if t in s.calls { assert ParentOk(s, t); }
      }
    } else {
      forall t | t in Apply(s, step).calls ensures ParentOk(Apply(s, step), t) { assert ParentOk(s, t); }
    }
  }

  lemma {:induction false} RunKeepsParents(run: seq<State>, steps: seq<Step>, k: nat)
    requires IsRun(run, steps) && k < |run|
    ensures forall t :: t in run[k].calls ==> ParentOk(run[k], t)
  {
    if k > 0 {
      RunKeepsParents(run, steps, k - 1);
      assert Enabled(run[k - 1], steps[k - 1]) && run[k] == Apply(run[k - 1], steps[k - 1]);
      ParentStep(run[k - 1], steps[k - 1]);
    }
  }

  lemma {:induction false} AncestorsAsk(s: State, a: Thread, t: Thread, n: nat)
    requires forall u :: u in s.calls ==> ParentOk(s, u)
    requires Ancestor(s, a, t, n) && !s.calls[t].pc.Finished?
    ensures AtPc(s, a, Exchanging)
    decreases n
  {
    assert ParentOk(s, t);
    if n > 0 { AncestorsAsk(s, a, s.calls[t].parent.value, n - 1); }
  }

  /** The call is queued on a flight led by one of its own ancestors. */
  ghost predicate WaitsForItself(s: State, t: Thread) {
    && t in s.calls && Queued(s.calls[t].pc) && s.calls[t].pc.flight in s.flights
    && exists n :: Ancestor(s, s.flights[s.calls[t].pc.flight].leader, t, n)
  }

  /** Some ancestor leads a flight of the same question and transport. */
  ghost predicate AncestorLeads(s: State, t: Thread) {
    exists a, n :: Ancestor(s, a, t, n) && a in s.calls && s.calls[a].leading.Some? && s.calls[a].key == s.calls[t].key
  }

  lemma {:induction false} AncestorKept(s: State, s': State, a: Thread, u: Thread, n: nat)
    requires forall x :: x in s.calls <==> x in s'.calls
    requires forall x :: x in s.calls ==> s'.calls[x].parent == s.calls[x].parent
    ensures Ancestor(s, a, u, n) <==> Ancestor(s', a, u, n)
    decreases n
  {
    if n > 0 && u in s.calls && s.calls[u].parent.Some? { AncestorKept(s, s', a, s.calls[u].parent.value, n - 1); }
  }

  lemma LockKeepsAncestors(s: State, t: Thread, a: Thread, n: nat)
    requires AtPc(s, t, LoadOrStore)
    ensures Ancestor(s, a, t, n) <==> Ancestor(Apply(s, Lock(t)), a, t, n)
  {
    AncestorKept(s, Apply(s, Lock(t)), a, t, n);
  }

  lemma FindsAncestor(s: State, t: Thread)
    requires Inv(s) && AtPc(s, t, LoadOrStore) && WaitsForItself(Apply(s, Lock(t)), t)
    ensures AncestorLeads(s, t)
  {
    var f := Apply(s, Lock(t)).calls[t].pc.flight;
    assert LockOk(s, s.calls[t].key) && FlightOk(s, f);
    var a := s.flights[f].leader;
    assert LeaderOk(s, a);
    var n :| Ancestor(Apply(s, Lock(t)), a, t, n);
    LockKeepsAncestors(s, t, a, n);
  }

  lemma AncestorFound(s: State, t: Thread)
    requires Inv(s) && (forall u :: u in s.calls ==> ParentOk(s, u)) && AtPc(s, t, LoadOrStore) && AncestorLeads(s, t)
    ensures WaitsForItself(Apply(s, Lock(t)), t)
  {
    var a, n :| Ancestor(s, a, t, n) && a in s.calls && s.calls[a].leading.Some? && s.calls[a].key == s.calls[t].key;
    AncestorsAsk(s, a, t, n);
    assert LeaderOk(s, a);
    assert Leads(s.calls[a], s.calls[a].leading.value);
    LockKeepsAncestors(s, t, a, n);
  }

  /**
   A nested query comes to wait for itself exactly when an ancestor leads a
   flight of the same question and transport: the flight is looked up before
   the loopback check.
   */
  lemma WaitsForItselfIff(run: seq<State>, steps: seq<Step>, k: nat, t: Thread)
    requires IsRun(run, steps) && k < |run| && AtPc(run[k], t, LoadOrStore)
    ensures WaitsForItself(Apply(run[k], Lock(t)), t) <==> AncestorLeads(run[k], t)
  {
    RunKeepsInv(run, steps, k);
    RunKeepsParents(run, steps, k);
    if WaitsForItself(Apply(run[k], Lock(t)), t) { FindsAncestor(run[k], t); }
    if AncestorLeads(run[k], t) { AncestorFound(run[k], t); }
  }

  lemma QueuedSteps(s: State, step: Step, t: Thread)
    requires Enabled(s, step) && !step.Tick? && !step.Drop? && step.t == t && t in s.calls && Queued(s.calls[t].pc)
    ensures step == Abandon(t) || step == Await(t) || step == Expire(t) || step == Wake(t)
  {
  }

  /** The step that ends a queued call once the deadline has passed. */
  function DeadlineStep(s: State, t: Thread): Step
    requires t in s.calls
  {
    if s.calls[t].pc.Joining? then Await(t) else Expire(t)
  }

  lemma DeadlineFinishes(s: State, t: Thread)
    requires t in s.calls && Queued(s.calls[t].pc) && s.calls[t].pc.flight in s.flights
    requires s.flights[s.calls[t].pc.flight].deadline <= s.now
    ensures Enabled(s, DeadlineStep(s, t)) && AtPc(Apply(s, DeadlineStep(s, t)), t, Finished)
  {
  }

  lemma LeaderStillAsks(run: seq<State>, steps: seq<Step>, k: nat, t: Thread)
    requires IsRun(run, steps) && k < |run| && WaitsForItself(run[k], t)
    ensures var s := run[k];
            var fl := s.flights[s.calls[t].pc.flight];
            fl.closes == 0 && AtPc(s, fl.leader, Exchanging) && fl.deadline <= s.calls[t].joined + s.timeout
  {
    var s := run[k];
    RunKeepsInv(run, steps, k);
    RunKeepsParents(run, steps, k);
    var f := s.calls[t].pc.flight;
    assert WaiterOk(s, t) && FlightOk(s, f) && LeaderOk(s, s.flights[f].leader);
    var n :| Ancestor(s, s.flights[f].leader, t, n);
    AncestorsAsk(s, s.flights[f].leader, t, n);
  }

  /**
   It is never released: the flight stays open until it gives up. Besides the end
   of its own context, what ends it is the deadline, at most one timeout after it
   joined.
   */
  lemma OnlyTheDeadlineEndsIt(run: seq<State>, steps: seq<Step>, k: nat, t: Thread)
    requires IsRun(run, steps) && k < |run| && WaitsForItself(run[k], t)
    ensures var s := run[k];
            var fl := s.flights[s.calls[t].pc.flight];
            && fl.closes == 0 && !Enabled(s, Wake(t)) && AtPc(s, fl.leader, Exchanging)
            && fl.deadline <= s.calls[t].joined + s.timeout
            && (forall step :: Enabled(s, step) && !step.Tick? && !step.Drop? && step.t == t ==>
                  step == Abandon(t) || step == Await(t) || step == Expire(t))
            && (fl.deadline <= s.now ==>
                  Enabled(s, DeadlineStep(s, t)) && AtPc(Apply(s, DeadlineStep(s, t)), t, Finished))
  {
    var s := run[k];
    LeaderStillAsks(run, steps, k, t);
    forall step | Enabled(s, step) && !step.Tick? && !step.Drop? && step.t == t
      ensures step == Abandon(t) || step == Await(t) || step == Expire(t)
    {
      QueuedSteps(s, step, t);
    }
    if s.flights[s.calls[t].pc.flight].deadline <= s.now { DeadlineFinishes(s, t); }
  }

  lemma OuterAsks(k: Key) returns (s: State)
    ensures Reaches(s) && s.now == 0 && s.negFail == map[] && s.lock == map[k := 0] && s.nextFlight == 1
    ensures s.flights == map[0 := Flight(k, 0, 10000, 0, false, None, None)]
    ensures s.responses == Responses(true, false, map[], map[], 0, map[])
    ensures s.calls.Keys == {0} && AtPc(s, 0, Exchanging) && s.calls[0].leading == Some(0) && s.calls[0].key == k
    ensures s.calls[0].parent.None?
  {
    s := State(0, 10000, map[], 0, map[], Responses(true, false, map[], map[], 0, map[]), map[], map[]);
    assert IsRun([s], []);
    assert [s][|[s]| - 1] == s;
    s := BeginsLeading(s, 0, k, None);
    s := Misses(s, 0);
    assert s.responses == Responses(true, false, map[], map[], 0, map[]);
  }

  lemma InnerAsks(k: Key, nested: Key) returns (s: State)
    requires k != nested
    ensures Reaches(s) && s.now == 0 && k in s.lock && s.lock[k] == 0
    ensures 0 in s.flights && s.flights[0].leader == 0 && s.flights[0].deadline == 10000
    ensures s.calls.Keys == {0, 1} && AtPc(s, 1, Exchanging) && s.calls[1].parent == Some(0)
  {
    s := OuterAsks(k);
    s := BeginsLeading(s, 1, nested, Some(0));
    s := Misses(s, 1);
  }

  /**
   A transport that resolves through a second one, which resolves through the
   first: the innermost call waits for the outermost.
   */
  lemma NestedRun(question: string, inner: string, a: string, b: string) returns (s: State)
    requires a != b
    ensures Reaches(s) && WaitsForItself(s, 2) && s.calls[2].pc.Waiting? && s.calls[2].key == Key(question, a)
  {
    s := InnerAsks(Key(question, a), Key(inner, b));
    s := BeginsWaiting(s, 2, Key(question, a), Some(1));
    assert Ancestor(s, 0, 1, 0);
    assert Ancestor(s, 0, 2, 1);
  }
}
