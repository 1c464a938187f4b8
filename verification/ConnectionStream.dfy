/**
 The connection event stream: the daemon keeps a snapshot per open connection
 and sends NEW, UPDATE and CLOSED events; the client replays them into its own
 map. Counters are read separately for the event and for the snapshot, so the
 two readings of one connection may differ.
 */
module ConnectionStream {
  import opened Options

  type Id = string

  // ---- the client ----

  /** A connection as the client shows it; closedAt is 0 while it is open. */
  datatype Conn = Conn(up: int, down: int, closedAt: int)

  datatype Event =
    | New(id: Id, conn: Conn)
    | Update(id: Id, up: int, down: int)
    | Closed(id: Id, closedAt: int, last: Option<Conn>)

  type View = map<Id, Conn>

  const CLOSED_MAX_AGE := 300000  // milliseconds

  function ApplyOne(m: View, e: Event): View {
    match e
    case New(id, conn) => m[id := conn]
    case Update(id, up, down) =>
      if id in m then m[id := m[id].(up := m[id].up + up, down := m[id].down + down)] else m
    case Closed(id, closedAt, last) =>
      if last.Some? then m[id := last.value.(closedAt := closedAt)]
      else if id in m then m[id := m[id].(closedAt := closedAt)] else m
  }

  function Evict(m: View, now: int): View {
    map id | id in m && (m[id].closedAt == 0 || now - m[id].closedAt <= CLOSED_MAX_AGE) :: m[id]
  }

  /** All events sent so far, replayed without ever evicting. */
  function Replay(events: seq<Event>): View {
    if events == [] then map[] else ApplyOne(Replay(events[..|events| - 1]), events[|events| - 1])
  }

  predicate IsOpen(m: View, id: Id) {
    id in m && m[id].closedAt == 0
  }

  ghost function Open(m: View): set<Id> {
    set id | id in m && IsOpen(m, id)
  }

  /** Two views show the same open connections with the same totals. */
  ghost predicate SameOpen(a: View, b: View) {
    Open(a) == Open(b) && forall id :: id in Open(a) ==> a[id] == b[id]
  }

  ghost predicate ClosesForReal(e: Event) {
    e.Closed? ==> e.closedAt != 0
  }

  lemma ApplyKeepsSameOpen(a: View, b: View, e: Event)
    requires SameOpen(a, b) && ClosesForReal(e)
    ensures SameOpen(ApplyOne(a, e), ApplyOne(b, e))
  {
    forall id ensures id in Open(ApplyOne(a, e)) <==> id in Open(ApplyOne(b, e))
      ensures id in Open(ApplyOne(a, e)) ==> ApplyOne(a, e)[id] == ApplyOne(b, e)[id]
    {
      assert id in Open(a) <==> id in Open(b);
    }
  }

  function ApplyAll(m: View, events: seq<Event>): View {
    if events == [] then m else ApplyOne(ApplyAll(m, events[..|events| - 1]), events[|events| - 1])
  }

  /** What the client shows of a closed connection: the totals the event brings, or else those it had. */
  lemma ClosedKeepsTotals(m: View, id: Id, closedAt: int, last: Option<Conn>)
    ensures var m' := ApplyOne(m, Closed(id, closedAt, last));
            && (id in m' <==> last.Some? || id in m)
            && (last.Some? ==> m'[id] == Conn(last.value.up, last.value.down, closedAt))
            && (last.None? && id in m ==> m'[id] == Conn(m[id].up, m[id].down, closedAt))
            && (forall x :: x != id ==> (x in m' <==> x in m) && (x in m ==> m'[x] == m[x]))
  {
  }

  /** The client as the source keeps it, evicting old closed connections after each batch. */
  class Connections {
    var connectionMap: View

    constructor ()
      ensures connectionMap == map[]
    {
      connectionMap := map[];
    }

    /** Whatever was evicted, the open connections are those of the full replay. */
    method ApplyEvents(reset: bool, events: seq<Event>, now: int, ghost sent: seq<Event>)
      requires reset || SameOpen(connectionMap, Replay(sent))
      requires reset ==> sent == []
      requires forall e :: e in events ==> ClosesForReal(e)
      modifies this
      ensures SameOpen(connectionMap, Replay(sent + events))
      // exactly the closed connections past the maximum age are gone
      ensures var m := ApplyAll(if reset then map[] else old(connectionMap), events);
              forall id ::
                && (id in connectionMap <==> id in m && !(m[id].closedAt != 0 && now - m[id].closedAt > CLOSED_MAX_AGE))
                && (id in connectionMap ==> connectionMap[id] == m[id])
    {
      if reset { connectionMap := map[]; }
      ghost var start := connectionMap;
      assert sent + events[..0] == sent;
      for i := 0 to |events|
        invariant SameOpen(connectionMap, Replay(sent + events[..i]))
        invariant connectionMap == ApplyAll(start, events[..i])
      {
        assert events[..i + 1][..i] == events[..i];
        var all := sent + events[..i + 1];
        assert all[..|all| - 1] == sent + events[..i];
        ApplyKeepsSameOpen(connectionMap, Replay(sent + events[..i]), events[i]);
        connectionMap := ApplyOne(connectionMap, events[i]);
      }
      assert sent + events[..|events|] == sent + events && events[..|events|] == events;
      assert Open(Evict(connectionMap, now)) == Open(connectionMap);
      connectionMap := Evict(connectionMap, now);
    }
  }

  // ---- what a well-behaved stream looks like ----

  predicate NonZero(e: Event) {
    e.Update? && (e.up != 0 || e.down != 0)
  }

  function Last(events: seq<Event>, id: Id): Option<Event> {
    if events == [] then None
    else if events[|events| - 1].id == id then Some(events[|events| - 1])
    else Last(events[..|events| - 1], id)
  }

  predicate LastNonZero(events: seq<Event>, id: Id) {
    Last(events, id).Some? && NonZero(Last(events, id).value)
  }

  /** Whether an event may follow what was sent before it. */
  ghost predicate Fits(before: seq<Event>, e: Event) {
    match e
    case New(id, conn) => conn.closedAt == 0 ==> !IsOpen(Replay(before), id)
    case Update(id, up, down) =>
      && IsOpen(Replay(before), id) && up >= 0 && down >= 0
      && (up == 0 && down == 0 ==> LastNonZero(before, id))
    case Closed(_, closedAt, _) => closedAt != 0
  }

  /**
   NEW is never sent for an open connection, UPDATE only for an open one with
   deltas that are never negative, and a zero UPDATE only directly after a
   non-zero one of the same connection.
   */
  ghost predicate WellBehaved(events: seq<Event>) {
    forall p {:trigger Fits(events[..p], events[p])} :: 0 <= p < |events| ==> Fits(events[..p], events[p])
  }

  lemma WellBehavedSnoc(events: seq<Event>, e: Event)
    requires WellBehaved(events) && Fits(events, e)
    ensures WellBehaved(events + [e])
  {
    var all := events + [e];
    forall p | 0 <= p < |all| ensures Fits(all[..p], all[p]) {
      assert all[..p] == events[..p];
      if p == |events| { assert events[..p] == events; } else { assert Fits(events[..p], events[p]); }
    }
  }

  lemma ReplaySnoc(events: seq<Event>, e: Event)
    ensures Replay(events + [e]) == ApplyOne(Replay(events), e)
    ensures forall id :: Last(events + [e], id) == if e.id == id then Some(e) else Last(events, id)
  {
    assert (events + [e])[..|events + [e]| - 1] == events;
  }

  /** The events about one connection. */
  function EventsOf(events: seq<Event>, id: Id): seq<Event> {
    if events == [] then []
    else if events[|events| - 1].id == id then EventsOf(events[..|events| - 1], id) + [events[|events| - 1]]
    else EventsOf(events[..|events| - 1], id)
  }

  lemma EventsOfSnoc(events: seq<Event>, e: Event)
    ensures forall id :: EventsOf(events + [e], id) == EventsOf(events, id) + if e.id == id then [e] else []
  {
    assert (events + [e])[..|events + [e]| - 1] == events;
  }

  lemma {:induction false} EventsOfJoin(a: seq<Event>, b: seq<Event>, id: Id)
    ensures EventsOf(a + b, id) == EventsOf(a, id) + EventsOf(b, id)
  {
    if b == [] {
      assert a + b == a;
    } else {
      EventsOfJoin(a, b[..|b| - 1], id);
      assert a + b == (a + b[..|b| - 1]) + [b[|b| - 1]];
      EventsOfSnoc(a + b[..|b| - 1], b[|b| - 1]);
      if b[|b| - 1].id == id { assert EventsOf(b, id) == EventsOf(b[..|b| - 1], id) + [b[|b| - 1]]; }
    }
  }

  // ---- the server ----

  datatype Snapshot = Snapshot(up: int, down: int, hadTraffic: bool)

  /** Two readings of one connection's counters: one for the event, one for the snapshot. */
  datatype Reading = Reading(id: Id, shown: Conn, up: int, down: int)

  datatype TrackerEvent =
    | TrackerNew(r: Reading)
    | TrackerClosed(id: Id, at: int, metadataAt: int, last: Option<Conn>)
    | TrackerOther

  /** By how much the client's totals are off, fixed by the two readings at NEW. */
  datatype Drift = Drift(up: int, down: int)

  function Ids(rs: seq<Reading>): set<Id> {
    set r | r in rs :: r.id
  }

  /**
   One open connection: the client's totals are the snapshot plus the drift, and
   hadTraffic remembers a non-zero last UPDATE.
   */
  ghost predicate Tracks(sent: seq<Event>, id: Id, snapshot: Snapshot, d: Drift) {
    && id in Replay(sent)
    && Replay(sent)[id] == Conn(snapshot.up + d.up, snapshot.down + d.down, 0)
    && (snapshot.hadTraffic <==> LastNonZero(sent, id))
  }

  /**
   The client's open set is the snapshot set but for the `stale` connections,
   which the client was shown as closed; every other one is tracked.
   */
  ghost predicate InSync(sent: seq<Event>, snapshots: map<Id, Snapshot>, drift: map<Id, Drift>, stale: set<Id>) {
    && snapshots.Keys == drift.Keys && stale <= snapshots.Keys
    && (forall id {:trigger IsOpen(Replay(sent), id)} :: IsOpen(Replay(sent), id) <==> id in snapshots && id !in stale)
    && forall id {:trigger Tracks(sent, id, snapshots[id], drift[id])} ::
         id in snapshots && id !in stale ==> Tracks(sent, id, snapshots[id], drift[id])
  }

  lemma OpenIs(sent: seq<Event>, snapshots: map<Id, Snapshot>, drift: map<Id, Drift>, stale: set<Id>)
    requires InSync(sent, snapshots, drift, stale)
    ensures Open(Replay(sent)) == snapshots.Keys - stale
  {
    forall id ensures id in Open(Replay(sent)) <==> id in snapshots && id !in stale {
      assert IsOpen(Replay(sent), id) <==> id in snapshots && id !in stale;
    }
  }

  lemma TracksOther(sent: seq<Event>, e: Event, id: Id, snapshot: Snapshot, d: Drift)
    requires Tracks(sent, id, snapshot, d) && e.id != id
    ensures Tracks(sent + [e], id, snapshot, d)
  {
    ReplaySnoc(sent, e);
  }

  /** An event that leaves its own connection tracked, closed or stale leaves the whole stream in sync. */
  lemma SyncSnoc(sent: seq<Event>, snapshots: map<Id, Snapshot>, drift: map<Id, Drift>, stale: set<Id>, e: Event,
                 snapshots': map<Id, Snapshot>, drift': map<Id, Drift>, stale': set<Id>)
    requires InSync(sent, snapshots, drift, stale)
    requires snapshots'.Keys == drift'.Keys && stale' <= snapshots'.Keys
    requires forall id :: id != e.id ==> (id in snapshots' <==> id in snapshots) && (id in stale' <==> id in stale)
    requires e.id in snapshots' && e.id !in stale' <==> IsOpen(ApplyOne(Replay(sent), e), e.id)
    requires forall id :: id in snapshots' && id != e.id ==> snapshots'[id] == snapshots[id] && drift'[id] == drift[id]
    requires e.id in snapshots' && e.id !in stale' ==> Tracks(sent + [e], e.id, snapshots'[e.id], drift'[e.id])
    ensures InSync(sent + [e], snapshots', drift', stale')
  {
    ReplaySnoc(sent, e);
    forall id ensures IsOpen(Replay(sent + [e]), id) <==> id in snapshots' && id !in stale' {
      if id != e.id { assert IsOpen(Replay(sent), id) <==> id in snapshots && id !in stale; }
    }
    forall id | id in snapshots' && id !in stale' ensures Tracks(sent + [e], id, snapshots'[id], drift'[id]) {
      if id != e.id {
        assert Tracks(sent, id, snapshots[id], drift[id]);
        TracksOther(sent, e, id, snapshots[id], drift[id]);
      }
    }
  }

  lemma SyncAnnounce(sent: seq<Event>, snapshots: map<Id, Snapshot>, drift: map<Id, Drift>, stale: set<Id>, r: Reading)
    requires InSync(sent, snapshots, drift, stale) && r.id !in snapshots && r.shown.closedAt == 0
    ensures InSync(sent + [New(r.id, r.shown)], snapshots[r.id := Snapshot(r.up, r.down, false)],
                   drift[r.id := Drift(r.shown.up - r.up, r.shown.down - r.down)], stale)
    ensures Fits(sent, New(r.id, r.shown))
  {
    var e := New(r.id, r.shown);
    ReplaySnoc(sent, e);
    assert !IsOpen(Replay(sent), r.id);
    SyncSnoc(sent, snapshots, drift, stale, e, snapshots[r.id := Snapshot(r.up, r.down, false)],
             drift[r.id := Drift(r.shown.up - r.up, r.shown.down - r.down)], stale);
  }

  lemma SyncRetire(sent: seq<Event>, snapshots: map<Id, Snapshot>, drift: map<Id, Drift>, stale: set<Id>, e: Event)
    requires InSync(sent, snapshots, drift, stale) && e.Closed? && e.closedAt != 0
    ensures InSync(sent + [e], snapshots - {e.id}, drift - {e.id}, stale - {e.id})
  {
    SyncSnoc(sent, snapshots, drift, stale, e, snapshots - {e.id}, drift - {e.id}, stale - {e.id});
  }

  /** How the drift of a connection changes when `up` and `down` are sent and the snapshot becomes `next`. */
  function Shift(d: Drift, previous: Snapshot, up: int, down: int, next: Snapshot): Drift {
    Drift(d.up + previous.up + up - next.up, d.down + previous.down + down - next.down)
  }

  lemma SyncSend(sent: seq<Event>, snapshots: map<Id, Snapshot>, drift: map<Id, Drift>, stale: set<Id>, e: Event,
                 next: Snapshot)
    requires InSync(sent, snapshots, drift, stale) && e.Update? && e.id in snapshots && e.up >= 0 && e.down >= 0
    requires !NonZero(e) ==> snapshots[e.id].hadTraffic
    requires next.hadTraffic <==> NonZero(e)
    ensures InSync(sent + [e], snapshots[e.id := next],
                   drift[e.id := Shift(drift[e.id], snapshots[e.id], e.up, e.down, next)], stale)
    // to a stale connection it is the one event that does not belong
    ensures Fits(sent, e) <==> e.id !in stale
  {
    ReplaySnoc(sent, e);
    assert IsOpen(Replay(sent), e.id) <==> e.id !in stale;
    if e.id !in stale { assert Tracks(sent, e.id, snapshots[e.id], drift[e.id]); }
    SyncSnoc(sent, snapshots, drift, stale, e, snapshots[e.id := next],
             drift[e.id := Shift(drift[e.id], snapshots[e.id], e.up, e.down, next)], stale);
  }

  /** A snapshot replaced without an event. */
  lemma SyncSilent(sent: seq<Event>, snapshots: map<Id, Snapshot>, drift: map<Id, Drift>, stale: set<Id>, id: Id,
                   next: Snapshot)
    requires InSync(sent, snapshots, drift, stale) && id in snapshots && !snapshots[id].hadTraffic && !next.hadTraffic
    ensures InSync(sent, snapshots[id := next], drift[id := Shift(drift[id], snapshots[id], 0, 0, next)], stale)
  {
    var snapshots', drift' := snapshots[id := next], drift[id := Shift(drift[id], snapshots[id], 0, 0, next)];
    forall x ensures IsOpen(Replay(sent), x) <==> x in snapshots' && x !in stale {
      assert IsOpen(Replay(sent), x) <==> x in snapshots && x !in stale;
    }
    forall x | x in snapshots' && x !in stale ensures Tracks(sent, x, snapshots'[x], drift'[x]) {
      assert Tracks(sent, x, snapshots[x], drift[x]);
    }
  }

  /** The counters of a known connection have moved, and neither backwards. */
  predicate MovedForward(r: Reading, known: Snapshot) {
    r.up >= known.up && r.down >= known.down && (r.up > known.up || r.down > known.down)
  }

  /**
   What a tick says about an active connection: NEW if it was unknown, the two
   differences if its counters moved forward, and otherwise a zero UPDATE exactly
   if the last one was not.
   */
  predicate Tells(r: Reading, known: Option<Snapshot>, events: seq<Event>) {
    if known.None? then events == [New(r.id, r.shown)]
    else if MovedForward(r, known.value) then events == [Update(r.id, r.up - known.value.up, r.down - known.value.down)]
    else events == if known.value.hadTraffic then [Update(r.id, 0, 0)] else []
  }

  function Known(snapshots: map<Id, Snapshot>, id: Id): Option<Snapshot> {
    if id in snapshots then Some(snapshots[id]) else None
  }

  /** How a tick closes a connection that is no longer active. */
  predicate ClosesAs(e: Event, id: Id, closedIndex: map<Id, Conn>, now: int) {
    && e.Closed? && e.id == id
    && (id in closedIndex ==>
          && e.closedAt == (if closedIndex[id].closedAt != 0 then closedIndex[id].closedAt else now)
          && e.last == Some(Conn(closedIndex[id].up, closedIndex[id].down, e.closedAt)))
    && (id !in closedIndex ==> e.closedAt == now && e.last == None)
  }

  /** Counters that have not gone back since the snapshots were taken. */
  ghost predicate NoneGoesBack(active: seq<Reading>, snapshots: map<Id, Snapshot>) {
    && (forall r :: r in active && r.id in snapshots ==> r.up >= snapshots[r.id].up && r.down >= snapshots[r.id].down)
    && DistinctIds(active)
  }

  ghost predicate DistinctIds(rs: seq<Reading>) {
    forall i, j :: 0 <= i < j < |rs| ==> rs[i].id != rs[j].id
  }

  /** Connections present before and after keep their drift. */
  ghost predicate DriftKept(before: map<Id, Drift>, after: map<Id, Drift>) {
    forall id :: id in before && id in after ==> after[id] == before[id]
  }

  /** Connections not yet visited still have the snapshots they had. */
  ghost predicate Untouched(before: map<Id, Snapshot>, after: map<Id, Snapshot>, visited: set<Id>) {
    forall id :: id in before && id !in visited ==> id in after && after[id] == before[id]
  }

  lemma NextDoesNotGoBack(active: seq<Reading>, i: nat, before: map<Id, Snapshot>, now: map<Id, Snapshot>)
    requires i < |active| && Untouched(before, now, Ids(active[..i])) && now.Keys == before.Keys + Ids(active[..i])
    ensures NoneGoesBack(active, before) && active[i].id in now ==>
              && active[i].id in before
              && active[i].up >= now[active[i].id].up && active[i].down >= now[active[i].id].down
  {
    IdsSnoc(active, i);
  }

  /** A step that rewrites one entry keeps the others as they were; an entry that is new had no drift before. */
  lemma TickTouchesOne(before: map<Id, Snapshot>, middle: map<Id, Snapshot>, after: map<Id, Snapshot>,
                       visited: set<Id>, id: Id,
                       drifts: map<Id, Drift>, drifted: map<Id, Drift>, drift: map<Id, Drift>)
    requires Untouched(before, middle, visited) && middle.Keys == before.Keys + visited
    requires id in after && after == middle[id := after[id]]
    ensures Untouched(before, after, visited + {id}) && after.Keys == before.Keys + (visited + {id})
    ensures && DriftKept(drifts, drifted) && drifts.Keys == before.Keys && drifted.Keys == middle.Keys
            && (drift == drifted || (id !in middle && id in drift && drift == drifted[id := drift[id]]))
            ==> DriftKept(drifts, drift)
  {
  }

  lemma IdsSnoc(rs: seq<Reading>, i: nat)
    requires i < |rs|
    ensures rs[i] in rs && Ids(rs[..i + 1]) == Ids(rs[..i]) + {rs[i].id}
    ensures DistinctIds(rs) ==> rs[i].id !in Ids(rs[..i])
  {
    assert rs[..i + 1] == rs[..i] + [rs[i]];
  }

  /** Each active connection has its reading for a snapshot and has been told about as it should. */
  ghost predicate Ticked(active: seq<Reading>, before: map<Id, Snapshot>, after: map<Id, Snapshot>,
                         events: seq<Event>)
  {
    forall r :: r in active ==> Seen(r, before, after, events)
  }

  ghost predicate Seen(r: Reading, before: map<Id, Snapshot>, after: map<Id, Snapshot>, events: seq<Event>) {
    && r.id in after && after[r.id].up == r.up && after[r.id].down == r.down
    && Tells(r, Known(before, r.id), EventsOf(events, r.id))
  }

  lemma SaidOne(said: seq<Event>, e: Option<Event>, events: seq<Event>, id: Id)
    requires events == (if e.Some? then said + [e.value] else said) && (e.Some? ==> e.value.id == id)
    ensures EventsOf(events, id) == EventsOf(said, id) + if e.Some? then [e.value] else []
    ensures forall x :: x != id ==> EventsOf(events, x) == EventsOf(said, x)
  {
    if e.Some? { EventsOfSnoc(said, e.value); }
  }

  /** Another connection's turn leaves what was seen of this one. */
  lemma SeenStays(r: Reading, before: map<Id, Snapshot>, middle: map<Id, Snapshot>, after: map<Id, Snapshot>,
                  said: seq<Event>, events: seq<Event>)
    requires Seen(r, before, middle, said) && r.id in after && after[r.id] == middle[r.id]
    requires EventsOf(events, r.id) == EventsOf(said, r.id)
    ensures Seen(r, before, after, events)
  {
  }

  lemma TickedSnoc(active: seq<Reading>, i: nat, before: map<Id, Snapshot>, middle: map<Id, Snapshot>,
                   after: map<Id, Snapshot>, said: seq<Event>, events: seq<Event>)
    requires i < |active| && DistinctIds(active) && Ticked(active[..i], before, middle, said)
    requires active[i].id in after && after == middle[active[i].id := after[active[i].id]]
    requires Seen(active[i], before, after, events)
    requires forall id :: id != active[i].id ==> EventsOf(events, id) == EventsOf(said, id)
    ensures Ticked(active[..i + 1], before, after, events)
  {
    IdsSnoc(active, i);
    assert active[..i + 1] == active[..i] + [active[i]];
    forall r | r in active[..i + 1] ensures Seen(r, before, after, events) {
      if r in active[..i] {
        assert Seen(r, before, middle, said) && r.id in Ids(active[..i]);
        SeenStays(r, before, middle, after, said, events);
      }
    }
  }

  /** The client's totals of the active connections are the readings plus the drift. */
  ghost predicate TotalsShown(active: seq<Reading>, sent: seq<Event>, drift: map<Id, Drift>, stale: set<Id>) {
    forall r :: r in active && r.id !in stale ==> TotalShown(r, sent, drift)
  }

  ghost predicate TotalShown(r: Reading, sent: seq<Event>, drift: map<Id, Drift>) {
    && r.id in Replay(sent) && r.id in drift
    && Replay(sent)[r.id] == Conn(r.up + drift[r.id].up, r.down + drift[r.id].down, 0)
  }

  lemma TotalsAreReadings(active: seq<Reading>, sent: seq<Event>, before: map<Id, Snapshot>,
                          snapshots: map<Id, Snapshot>, drift: map<Id, Drift>, stale: set<Id>, events: seq<Event>)
    requires InSync(sent, snapshots, drift, stale) && Ticked(active, before, snapshots, events)
    ensures TotalsShown(active, sent, drift, stale)
  {
    forall r | r in active && r.id !in stale ensures TotalShown(r, sent, drift) {
      assert Seen(r, before, snapshots, events);
      assert Tracks(sent, r.id, snapshots[r.id], drift[r.id]);
    }
  }

  /** Exactly the connections in `gone` have been closed, each once and as it should. */
  ghost predicate ClosedAll(gone: set<Id>, closedIndex: map<Id, Conn>, now: int, events: seq<Event>) {
    forall id ::
      var es := EventsOf(events, id);
      if id in gone then |es| == 1 && ClosesAs(es[0], id, closedIndex, now) else es == []
  }

  lemma ClosedOne(gone: set<Id>, closedIndex: map<Id, Conn>, now: int, events: seq<Event>, id: Id, e: Event)
    requires ClosedAll(gone, closedIndex, now, events) && id !in gone && ClosesAs(e, id, closedIndex, now)
    ensures ClosedAll(gone + {id}, closedIndex, now, events + [e])
  {
    EventsOfSnoc(events, e);
    assert EventsOf(events, id) == [];
    forall x
      ensures var es := EventsOf(events + [e], x);
              if x in gone + {id} then |es| == 1 && ClosesAs(es[0], x, closedIndex, now) else es == []
    {
      assert EventsOf(events + [e], x) == if x == id then [e] else EventsOf(events, x);
    }
  }

  /**
   The connections known before and not active are closed, each once; nothing is
   said about any other that is not active.
   */
  ghost predicate OthersClosed(active: seq<Reading>, before: set<Id>, closedIndex: map<Id, Conn>, now: int,
                               events: seq<Event>)
  {
    forall id :: id !in Ids(active) ==> ClosedOrSilent(id, before, closedIndex, now, EventsOf(events, id))
  }

  predicate ClosedOrSilent(id: Id, before: set<Id>, closedIndex: map<Id, Conn>, now: int, es: seq<Event>) {
    if id in before then |es| == 1 && ClosesAs(es[0], id, closedIndex, now) else es == []
  }

  ghost predicate Restricted(m: map<Id, Snapshot>, ids: set<Id>, m': map<Id, Snapshot>) {
    m'.Keys == m.Keys * ids && forall id :: id in m' ==> m'[id] == m[id]
  }

  /** The two halves of a tick put together. */
  lemma TickJoins(active: seq<Reading>, before: map<Id, Snapshot>, ticked: map<Id, Snapshot>, after: map<Id, Snapshot>,
                  updates: seq<Event>, closings: seq<Event>, closedIndex: map<Id, Conn>, now: int)
    requires ticked.Keys == before.Keys + Ids(active) && Restricted(ticked, Ids(active), after)
    requires forall id :: id !in Ids(active) ==> EventsOf(updates, id) == []
    requires ClosedAll(ticked.Keys - Ids(active), closedIndex, now, closings)
    ensures OthersClosed(active, before.Keys, closedIndex, now, updates + closings)
    ensures Ticked(active, before, ticked, updates) ==> Ticked(active, before, after, updates + closings)
  {
    forall id | id !in Ids(active)
      ensures ClosedOrSilent(id, before.Keys, closedIndex, now, EventsOf(updates + closings, id))
    {
      EventsOfJoin(updates, closings, id);
      assert EventsOf(updates + closings, id) == EventsOf(closings, id);
    }
    if Ticked(active, before, ticked, updates) {
      forall r | r in active ensures Seen(r, before, after, updates + closings) {
        assert r.id in Ids(active) && Seen(r, before, ticked, updates);
        EventsOfJoin(updates, closings, r.id);
        assert EventsOf(closings, r.id) == [];
        SeenStays(r, before, ticked, after, updates, updates + closings);
      }
    }
  }

  /** The first `i` active connections have had their turn. */
  ghost predicate TickedUpTo(active: seq<Reading>, i: nat, before: map<Id, Snapshot>, drifts: map<Id, Drift>,
                             snapshots: map<Id, Snapshot>, drift: map<Id, Drift>, events: seq<Event>)
  {
    && i <= |active| && drifts.Keys == before.Keys && drift.Keys == snapshots.Keys
    && snapshots.Keys == before.Keys + Ids(active[..i])
    && Untouched(before, snapshots, Ids(active[..i]))
    && (NoneGoesBack(active, before) ==> DriftKept(drifts, drift))
    && (DistinctIds(active) ==> Ticked(active[..i], before, snapshots, events))
    && SilentOutside(Ids(active[..i]), events)
  }

  ghost predicate SilentOutside(ids: set<Id>, events: seq<Event>) {
    forall id :: id !in ids ==> EventsOf(events, id) == []
  }

  lemma TickedNone(active: seq<Reading>, snapshots: map<Id, Snapshot>, drift: map<Id, Drift>)
    requires drift.Keys == snapshots.Keys
    ensures TickedUpTo(active, 0, snapshots, drift, snapshots, drift, [])
  {
  }

  lemma TickedNext(active: seq<Reading>, i: nat, before: map<Id, Snapshot>, drifts: map<Id, Drift>,
                   middle: map<Id, Snapshot>, drifted: map<Id, Drift>, snapshots: map<Id, Snapshot>,
                   drift: map<Id, Drift>, said: seq<Event>, e: Option<Event>, events: seq<Event>)
    requires i < |active| && TickedUpTo(active, i, before, drifts, middle, drifted, said)
    requires active[i].id in snapshots && snapshots == middle[active[i].id := snapshots[active[i].id]]
    requires snapshots[active[i].id].up == active[i].up && snapshots[active[i].id].down == active[i].down
    requires drift.Keys == snapshots.Keys
    requires Tells(active[i], Known(middle, active[i].id), if e.Some? then [e.value] else [])
    requires active[i].id in middle && active[i].up >= middle[active[i].id].up
             && active[i].down >= middle[active[i].id].down ==>
               drift == drifted
    requires active[i].id !in middle ==> active[i].id in drift && drift == drifted[active[i].id := drift[active[i].id]]
    requires events == if e.Some? then said + [e.value] else said
    ensures TickedUpTo(active, i + 1, before, drifts, snapshots, drift, events)
  {
    var r := active[i];
    IdsSnoc(active, i);
    NextDoesNotGoBack(active, i, before, middle);
    TickTouchesOne(before, middle, snapshots, Ids(active[..i]), r.id, drifts, drifted, drift);
    SaidOne(said, e, events, r.id);
    if DistinctIds(active) { TickedNextSeen(active, i, before, middle, snapshots, said, e, events); }
  }

  lemma TickedNextSeen(active: seq<Reading>, i: nat, before: map<Id, Snapshot>, middle: map<Id, Snapshot>,
                       snapshots: map<Id, Snapshot>, said: seq<Event>, e: Option<Event>, events: seq<Event>)
    requires i < |active| && DistinctIds(active) && Ticked(active[..i], before, middle, said)
    requires middle.Keys == before.Keys + Ids(active[..i]) && Untouched(before, middle, Ids(active[..i]))
    requires SilentOutside(Ids(active[..i]), said)
    requires active[i].id in snapshots && snapshots == middle[active[i].id := snapshots[active[i].id]]
    requires snapshots[active[i].id].up == active[i].up && snapshots[active[i].id].down == active[i].down
    requires Tells(active[i], Known(middle, active[i].id), if e.Some? then [e.value] else [])
    requires events == if e.Some? then said + [e.value] else said
    ensures Ticked(active[..i + 1], before, snapshots, events)
  {
    IdsSnoc(active, i);
    SeenNow(active[i], before, middle, snapshots, said, e, events);
    TickedSnoc(active, i, before, middle, snapshots, said, events);
  }

  /** What is said of a connection in its own turn. */
  lemma SeenNow(r: Reading, before: map<Id, Snapshot>, middle: map<Id, Snapshot>, snapshots: map<Id, Snapshot>,
                said: seq<Event>, e: Option<Event>, events: seq<Event>)
    requires Known(middle, r.id) == Known(before, r.id) && EventsOf(said, r.id) == []
    requires r.id in snapshots && snapshots[r.id].up == r.up && snapshots[r.id].down == r.down
    requires Tells(r, Known(middle, r.id), if e.Some? then [e.value] else [])
    requires events == if e.Some? then said + [e.value] else said
    ensures Seen(r, before, snapshots, events)
    ensures forall id :: id != r.id ==> EventsOf(events, id) == EventsOf(said, id)
  {
    SaidOne(said, e, events, r.id);
  }

  /** What a whole tick has done, from the two halves. */
  lemma TickDone(active: seq<Reading>, before: map<Id, Snapshot>, drifts: map<Id, Drift>, ticked: map<Id, Snapshot>,
                 mid: map<Id, Drift>, after: map<Id, Snapshot>, drift: map<Id, Drift>, updates: seq<Event>,
                 closings: seq<Event>, closedIndex: map<Id, Conn>, now: int)
    requires TickedUpTo(active, |active|, before, drifts, ticked, mid, updates)
    requires Restricted(ticked, Ids(active), after)
    requires drift.Keys == after.Keys && DriftKept(mid, drift)
    requires ClosedAll(ticked.Keys - Ids(active), closedIndex, now, closings)
    ensures after.Keys == Ids(active)
    ensures OthersClosed(active, before.Keys, closedIndex, now, updates + closings)
    ensures DistinctIds(active) ==> Ticked(active, before, after, updates + closings)
    ensures NoneGoesBack(active, before) ==> DriftKept(drifts, drift)
  {
    assert active[..|active|] == active;
    TickJoins(active, before, ticked, after, updates, closings, closedIndex, now);
    if NoneGoesBack(active, before) {
      forall id | id in drifts && id in drift ensures drift[id] == drifts[id] { assert id in mid; }
    }
  }

  /** The connections in `gone` have been closed and those in `ids` are still to be looked at. */
  ghost predicate RetiredUpTo(before: map<Id, Snapshot>, stale0: set<Id>, activeIndex: set<Id>,
                              closedIndex: map<Id, Conn>, now: int, ids: set<Id>, gone: set<Id>,
                              snapshots: map<Id, Snapshot>, stale: set<Id>, events: seq<Event>)
  {
    && stale == stale0 - gone && snapshots == before - gone
    && gone !! activeIndex && before.Keys == activeIndex + gone + ids && gone !! ids
    && ClosedAll(gone, closedIndex, now, events)
  }

  lemma RetiredNext(before: map<Id, Snapshot>, stale0: set<Id>, activeIndex: set<Id>, closedIndex: map<Id, Conn>,
                    now: int, ids: set<Id>, gone: set<Id>, snapshots: map<Id, Snapshot>, stale: set<Id>,
                    events: seq<Event>, id: Id, e: Event)
    requires RetiredUpTo(before, stale0, activeIndex, closedIndex, now, ids, gone, snapshots, stale, events)
    requires id in ids && id !in activeIndex && ClosesAs(e, id, closedIndex, now)
    ensures RetiredUpTo(before, stale0, activeIndex, closedIndex, now, ids - {id}, gone + {id}, snapshots - {id},
                        stale - {id}, events + [e])
  {
    ClosedOne(gone, closedIndex, now, events, id, e);
  }

  lemma RetiredDone(before: map<Id, Snapshot>, stale0: set<Id>, activeIndex: set<Id>, closedIndex: map<Id, Conn>,
                    now: int, gone: set<Id>, snapshots: map<Id, Snapshot>, stale: set<Id>, events: seq<Event>)
    requires RetiredUpTo(before, stale0, activeIndex, closedIndex, now, {}, gone, snapshots, stale, events)
             && stale0 <= before.Keys
    ensures stale == stale0 * activeIndex
    ensures Restricted(before, activeIndex, snapshots)
    ensures ClosedAll(before.Keys - activeIndex, closedIndex, now, events)
  {
    assert before.Keys - activeIndex == gone;
  }

  /** One NEW event per reading, in order. */
  ghost predicate Listed(readings: seq<Reading>, events: seq<Event>) {
    && |events| == |readings|
    && forall i :: 0 <= i < |readings| ==> events[i] == New(readings[i].id, readings[i].shown)
  }

  /** The connections have been announced: each with its reading for a snapshot and the drift of the two readings. */
  ghost predicate Announced(readings: seq<Reading>, snapshots: map<Id, Snapshot>, drift: map<Id, Drift>,
                            events: seq<Event>)
  {
    && snapshots.Keys == Ids(readings) && Listed(readings, events)
    && forall r :: r in readings ==> AnnouncedOne(r, snapshots, drift)
  }

  predicate AnnouncedOne(r: Reading, snapshots: map<Id, Snapshot>, drift: map<Id, Drift>) {
    && r.id in snapshots && snapshots[r.id] == Snapshot(r.up, r.down, false)
    && r.id in drift && drift[r.id] == Drift(r.shown.up - r.up, r.shown.down - r.down)
  }

  lemma AnnouncedNext(active: seq<Reading>, i: nat, before: map<Id, Snapshot>, drifts: map<Id, Drift>,
                      snapshots: map<Id, Snapshot>, drift: map<Id, Drift>, events: seq<Event>)
    requires i < |active| && DistinctIds(active) && Announced(active[..i], before, drifts, events)
    requires snapshots == before[active[i].id := Snapshot(active[i].up, active[i].down, false)]
    requires drift == drifts[active[i].id := Drift(active[i].shown.up - active[i].up,
                                                   active[i].shown.down - active[i].down)]
    ensures Announced(active[..i + 1], snapshots, drift, events + [New(active[i].id, active[i].shown)])
  {
    IdsSnoc(active, i);
    assert active[..i + 1] == active[..i] + [active[i]];
    forall r | r in active[..i + 1] ensures AnnouncedOne(r, snapshots, drift) {
      if r in active[..i] { assert AnnouncedOne(r, before, drifts) && r.id in Ids(active[..i]); }
    }
  }

  class Stream {
    var snapshots: map<Id, Snapshot>
    ghost var sent: seq<Event>
    ghost var drift: map<Id, Drift>
    ghost var stale: set<Id>

    ghost predicate Valid()
      reads this
    {
      InSync(sent, snapshots, drift, stale)
    }

    /** Client and server show the same open connections. */
    ghost predicate InStep()
      reads this
    {
      Open(Replay(sent)) == snapshots.Keys
    }

    constructor ()
      ensures Valid() && sent == [] && snapshots == map[] && stale == {}
    {
      snapshots, sent, drift, stale := map[], [], map[], {};
    }

    method Announce(r: Reading) returns (e: Event)
      requires Valid() && r.id !in snapshots && r.shown.closedAt == 0
      modifies this
      ensures Valid() && sent == old(sent) + [e] && e == New(r.id, r.shown) && stale == old(stale)
      ensures snapshots == old(snapshots)[r.id := Snapshot(r.up, r.down, false)]
      ensures drift == old(drift)[r.id := Drift(r.shown.up - r.up, r.shown.down - r.down)]
      ensures WellBehaved(old(sent)) ==> WellBehaved(sent)
    {
      SyncAnnounce(sent, snapshots, drift, stale, r);
      e := New(r.id, r.shown);
      if WellBehaved(sent) { WellBehavedSnoc(sent, e); }
      snapshots := snapshots[r.id := Snapshot(r.up, r.down, false)];
      sent := sent + [e];
      drift := drift[r.id := Drift(r.shown.up - r.up, r.shown.down - r.down)];
    }

    method Retire(id: Id, closedAt: int, last: Option<Conn>) returns (e: Event)
      requires Valid() && closedAt != 0
      modifies this
      ensures Valid() && sent == old(sent) + [e] && e == Closed(id, closedAt, last)
      ensures snapshots == old(snapshots) - {id} && drift == old(drift) - {id} && stale == old(stale) - {id}
      ensures WellBehaved(old(sent)) ==> WellBehaved(sent)
    {
      e := Closed(id, closedAt, last);
      SyncRetire(sent, snapshots, drift, stale, e);
      if WellBehaved(sent) { WellBehavedSnoc(sent, e); }
      snapshots := snapshots - {id};
      sent := sent + [e];
      drift := drift - {id};
      stale := stale - {id};
    }

    method Send(id: Id, up: int, down: int, next: Snapshot) returns (e: Event)
      requires Valid() && id in snapshots && up >= 0 && down >= 0
      requires up == 0 && down == 0 ==> snapshots[id].hadTraffic
      requires next.hadTraffic <==> up != 0 || down != 0
      modifies this
      ensures Valid() && sent == old(sent) + [e] && e == Update(id, up, down) && stale == old(stale)
      ensures snapshots == old(snapshots)[id := next]
      ensures drift == old(drift)[id := Shift(old(drift)[id], old(snapshots)[id], up, down, next)]
      ensures WellBehaved(old(sent)) && id !in stale ==> WellBehaved(sent)
    {
      e := Update(id, up, down);
      SyncSend(sent, snapshots, drift, stale, e, next);
      if WellBehaved(sent) && id !in stale { WellBehavedSnoc(sent, e); }
      sent := sent + [e];
      drift := drift[id := Shift(drift[id], snapshots[id], up, down, next)];
      snapshots := snapshots[id := next];
    }

    /** A closing time of 0 stands for the zero time; then the metadata's is used, then the clock. */
    method ApplyConnectionEvent(event: TrackerEvent, now: int) returns (e: Option<Event>)
      requires Valid() && now != 0
      requires event.TrackerNew? ==> event.r.shown.closedAt == 0
      modifies this
      ensures Valid() && sent == old(sent) + if e.Some? then [e.value] else []
      ensures WellBehaved(old(sent)) ==> WellBehaved(sent)
      ensures snapshots.Keys == match event
                                case TrackerNew(r) => old(snapshots).Keys + {r.id}
                                case TrackerClosed(id, _, _, _) => old(snapshots).Keys - {id}
                                case TrackerOther => old(snapshots).Keys
      // a CLOSED event brings a stale connection back in step
      ensures stale == if event.TrackerClosed? then old(stale) - {event.id} else old(stale)
      ensures Open(Replay(sent)) == snapshots.Keys - stale
      ensures forall id :: id in old(snapshots) && id in snapshots ==>
                snapshots[id] == old(snapshots)[id] && drift[id] == old(drift)[id]
      // what is sent
      ensures event.TrackerNew? ==>
                && e == (if event.r.id in old(snapshots) then None else Some(New(event.r.id, event.r.shown)))
                && (e.Some? ==> snapshots[event.r.id] == Snapshot(event.r.up, event.r.down, false))
      ensures event.TrackerClosed? ==>
                && e.Some? && e.value.Closed? && e.value.id == event.id && e.value.last == event.last
                && (event.at != 0 ==> e.value.closedAt == event.at)
                && (event.at == 0 && event.metadataAt != 0 ==> e.value.closedAt == event.metadataAt)
                && (event.at == 0 && event.metadataAt == 0 ==> e.value.closedAt == now)
      ensures event.TrackerOther? ==> e.None?
    {
      e := None;
      match event {
        case TrackerNew(r) =>
          if r.id !in snapshots {
            var sending := Announce(r);
            e := Some(sending);
          }
        case TrackerClosed(id, at, metadataAt, last) =>
          var closedAt := if at != 0 then at else if metadataAt != 0 then metadataAt else now;
          var sending := Retire(id, closedAt, last);
          e := Some(sending);
        case TrackerOther =>
      }
      OpenIs(sent, snapshots, drift, stale);
    }

    /** A known connection in a traffic tick. */
    method TickKnown(r: Reading) returns (e: Option<Event>)
      requires Valid() && r.id in snapshots
      modifies this
      ensures Valid() && sent == old(sent) + (if e.Some? then [e.value] else []) && stale == old(stale)
      ensures WellBehaved(old(sent)) && r.id !in stale ==> WellBehaved(sent)
      ensures r.id in snapshots && snapshots == old(snapshots)[r.id := snapshots[r.id]]
      ensures snapshots[r.id].up == r.up && snapshots[r.id].down == r.down
      ensures r.id in drift && drift == old(drift)[r.id := drift[r.id]]
      ensures Tells(r, Some(old(snapshots)[r.id]), if e.Some? then [e.value] else [])
      ensures snapshots[r.id].hadTraffic <==> MovedForward(r, old(snapshots)[r.id])
      // counters that do not go back leave the drift alone
      ensures r.up >= old(snapshots)[r.id].up && r.down >= old(snapshots)[r.id].down ==> drift == old(drift)
    {
      e := None;
      var snapshot := snapshots[r.id];
      var uplinkDelta, downlinkDelta := r.up - snapshot.up, r.down - snapshot.down;
      if uplinkDelta < 0 || downlinkDelta < 0 {
        if snapshot.hadTraffic {
          var sending := Send(r.id, 0, 0, Snapshot(r.up, r.down, false));
          return Some(sending);
        }
        SyncSilent(sent, snapshots, drift, stale, r.id, Snapshot(r.up, r.down, false));
        drift := drift[r.id := Shift(drift[r.id], snapshot, 0, 0, Snapshot(r.up, r.down, false))];
        snapshots := snapshots[r.id := Snapshot(r.up, r.down, false)];
        return None;
      }
      if uplinkDelta > 0 || downlinkDelta > 0 {
        var sending := Send(r.id, uplinkDelta, downlinkDelta, Snapshot(r.up, r.down, true));
        return Some(sending);
      }
      if snapshot.hadTraffic {
        var sending := Send(r.id, 0, 0, Snapshot(r.up, r.down, false));
        return Some(sending);
      }
    }

    /** One active connection in a traffic tick. */
    method Tick(r: Reading) returns (e: Option<Event>)
      requires Valid() && r.shown.closedAt == 0
      modifies this
      ensures Valid() && sent == old(sent) + (if e.Some? then [e.value] else []) && stale == old(stale)
      ensures WellBehaved(old(sent)) && r.id !in stale ==> WellBehaved(sent)
      ensures r.id in snapshots && snapshots == old(snapshots)[r.id := snapshots[r.id]]
      ensures snapshots[r.id].up == r.up && snapshots[r.id].down == r.down
      ensures Tells(r, Known(old(snapshots), r.id), if e.Some? then [e.value] else [])
      ensures r.id in old(snapshots) && r.up >= old(snapshots)[r.id].up && r.down >= old(snapshots)[r.id].down ==>
                drift == old(drift)
      ensures r.id !in old(snapshots) ==> drift == old(drift)[r.id := Drift(r.shown.up - r.up, r.shown.down - r.down)]
    {
      if r.id !in snapshots {
        var sending := Announce(r);
        return Some(sending);
      }
      e := TickKnown(r);
    }

    /** One turn of the first half of a traffic tick. */
    method TickTurn(active: seq<Reading>, i: nat, said: seq<Event>, ghost before: map<Id, Snapshot>,
                    ghost drifts: map<Id, Drift>, ghost earlier: seq<Event>)
      returns (events: seq<Event>)
      requires Valid() && i < |active| && active[i].shown.closedAt == 0 && sent == earlier + said
      requires TickedUpTo(active, i, before, drifts, snapshots, drift, said)
      modifies this
      ensures Valid() && sent == earlier + events && stale == old(stale)
      ensures WellBehaved(old(sent)) && active[i].id !in stale ==> WellBehaved(sent)
      ensures TickedUpTo(active, i + 1, before, drifts, snapshots, drift, events)
    {
      var e := Tick(active[i]);
      events := if e.Some? then said + [e.value] else said;
      TickedNext(active, i, before, drifts, old(snapshots), old(drift), snapshots, drift, said, e, events);
    }

    /** The first half of a traffic tick: every active connection, new or known. */
    method TickAll(active: seq<Reading>) returns (events: seq<Event>, activeIndex: set<Id>)
      requires Valid()
      requires forall r :: r in active ==> r.shown.closedAt == 0
      modifies this
      ensures Valid() && sent == old(sent) + events && stale == old(stale)
      ensures WellBehaved(old(sent)) && stale !! Ids(active) ==> WellBehaved(sent)
      ensures activeIndex == Ids(active) <= snapshots.Keys
      ensures TickedUpTo(active, |active|, old(snapshots), old(drift), snapshots, drift, events)
    {
      events, activeIndex := [], {};
      TickedNone(active, snapshots, drift);
      for i := 0 to |active|
        invariant Valid() && sent == old(sent) + events && stale == old(stale)
        invariant WellBehaved(old(sent)) && stale !! activeIndex ==> WellBehaved(sent)
        invariant activeIndex == Ids(active[..i])
        invariant TickedUpTo(active, i, old(snapshots), old(drift), snapshots, drift, events)
      {
        IdsSnoc(active, i);
        events := TickTurn(active, i, events, old(snapshots), old(drift), old(sent));
        activeIndex := activeIndex + {active[i].id};
      }
      assert active[..|active|] == active;
    }

    /** A connection that is no longer active is closed; one without a closing time gets the clock's. */
    method CloseGone(id: Id, closedIndex: map<Id, Conn>, now: int) returns (e: Event)
      requires Valid() && now != 0
      modifies this
      ensures Valid() && sent == old(sent) + [e] && ClosesAs(e, id, closedIndex, now)
      ensures snapshots == old(snapshots) - {id} && drift == old(drift) - {id} && stale == old(stale) - {id}
      ensures WellBehaved(old(sent)) ==> WellBehaved(sent)
    {
      if id in closedIndex {
        var closedAt := if closedIndex[id].closedAt != 0 then closedIndex[id].closedAt else now;
        e := Retire(id, closedAt, Some(closedIndex[id].(closedAt := closedAt)));
      } else {
        e := Retire(id, now, None);
      }
    }

    /** The second half: connections no longer active are closed, in any order. */
    method RetireGone(activeIndex: set<Id>, closedIndex: map<Id, Conn>, now: int) returns (events: seq<Event>)
      requires Valid() && now != 0 && activeIndex <= snapshots.Keys
      modifies this
      ensures Valid() && sent == old(sent) + events && stale == old(stale) * activeIndex
      ensures WellBehaved(old(sent)) ==> WellBehaved(sent)
      ensures Restricted(old(snapshots), activeIndex, snapshots)
      ensures DriftKept(old(drift), drift)
      ensures ClosedAll(old(snapshots).Keys - activeIndex, closedIndex, now, events)
    {
      events := [];
      var ids := snapshots.Keys;
      ghost var before, stale0, gone: set<Id> := snapshots, stale, {};
      while ids != {}
        invariant Valid() && sent == old(sent) + events
        invariant WellBehaved(old(sent)) ==> WellBehaved(sent)
        invariant DriftKept(old(drift), drift)
        invariant RetiredUpTo(before, stale0, activeIndex, closedIndex, now, ids, gone, snapshots, stale, events)
        decreases ids
      {
        var id :| id in ids;
        if id !in activeIndex {
          ghost var were, staleWere := snapshots, stale;
          var e := CloseGone(id, closedIndex, now);
          RetiredNext(before, stale0, activeIndex, closedIndex, now, ids, gone, were, staleWere, events, id, e);
          events := events + [e];
          gone := gone + {id};
        }
        ids := ids - {id};
      }
      RetiredDone(before, stale0, activeIndex, closedIndex, now, gone, snapshots, stale, events);
    }

    /** The second half, after the first. */
    method TickRest(active: seq<Reading>, updates: seq<Event>, closedIndex: map<Id, Conn>, now: int,
                    ghost earlier: seq<Event>, ghost before: map<Id, Snapshot>, ghost drifts: map<Id, Drift>)
      returns (events: seq<Event>)
      requires Valid() && now != 0 && Ids(active) <= snapshots.Keys && sent == earlier + updates
      requires TickedUpTo(active, |active|, before, drifts, snapshots, drift, updates)
      modifies this
      ensures Valid() && sent == earlier + events
      ensures snapshots.Keys == Ids(active) && stale == old(stale) * Ids(active)
      ensures WellBehaved(old(sent)) ==> WellBehaved(sent)
      ensures NoneGoesBack(active, before) ==> DriftKept(drifts, drift)
      ensures DistinctIds(active) ==> Ticked(active, before, snapshots, events)
      ensures OthersClosed(active, before.Keys, closedIndex, now, events)
    {
      var closings := RetireGone(Ids(active), closedIndex, now);
      events := updates + closings;
      TickDone(active, before, drifts, old(snapshots), old(drift), snapshots, drift, updates, closings, closedIndex,
               now);
    }

    /** Both halves of a traffic tick. */
    method TickBoth(active: seq<Reading>, closedIndex: map<Id, Conn>, now: int) returns (events: seq<Event>)
      requires Valid() && now != 0
      requires forall r :: r in active ==> r.shown.closedAt == 0
      modifies this
      ensures Valid() && sent == old(sent) + events
      ensures snapshots.Keys == Ids(active) && stale == old(stale) * Ids(active)
      ensures WellBehaved(old(sent)) && old(stale) !! Ids(active) ==> WellBehaved(sent)
      ensures NoneGoesBack(active, old(snapshots)) ==> DriftKept(old(drift), drift)
      ensures DistinctIds(active) ==> Ticked(active, old(snapshots), snapshots, events)
      ensures OthersClosed(active, old(snapshots).Keys, closedIndex, now, events)
    {
      var updates, activeIndex := TickAll(active);
      events := TickRest(active, updates, closedIndex, now, old(sent), old(snapshots), old(drift));
    }

    /** `now` stands for time.Now; `closedIndex` holds the closed connections the manager still remembers. */
    method BuildTrafficUpdates(active: seq<Reading>, closedIndex: map<Id, Conn>, now: int) returns (events: seq<Event>)
      requires Valid() && now != 0
      requires forall r :: r in active ==> r.shown.closedAt == 0
      modifies this
      ensures Valid() && sent == old(sent) + events
      // after a tick the client shows exactly the active connections, but for those that were
      // stale and still are active
      ensures snapshots.Keys == Ids(active) && stale == old(stale) * Ids(active)
      ensures Open(Replay(sent)) == Ids(active) - stale
      // so a tick brings client and server in step exactly when it finds every stale connection inactive
      ensures InStep() <==> old(stale) !! Ids(active)
      ensures WellBehaved(old(sent)) && old(stale) !! Ids(active) ==> WellBehaved(sent)
      // when no counter went back, the totals still differ from the snapshots by what they did at NEW
      ensures NoneGoesBack(active, old(snapshots)) ==> DriftKept(old(drift), drift)
      // every active connection has its reading for a snapshot and is told about: NEW, the
      // differences, or a last zero
      ensures DistinctIds(active) ==> Ticked(active, old(snapshots), snapshots, events)
      // the client's totals are the readings plus the drift
      ensures DistinctIds(active) ==> TotalsShown(active, sent, drift, stale)
      // every other connection known before is closed
      ensures OthersClosed(active, old(snapshots).Keys, closedIndex, now, events)
    {
      events := TickBoth(active, closedIndex, now);
      if DistinctIds(active) { TotalsAreReadings(active, sent, old(snapshots), snapshots, drift, stale, events); }
      OpenIs(sent, snapshots, drift, stale);
      assert InStep() <==> stale == {};
    }

    method AnnounceAll(active: seq<Reading>) returns (events: seq<Event>)
      requires Valid() && sent == [] && snapshots == map[] && stale == {} && DistinctIds(active)
      requires forall r :: r in active ==> r.shown.closedAt == 0
      modifies this
      ensures Valid() && sent == events && WellBehaved(sent) && snapshots.Keys == Ids(active) && stale == {}
      ensures Listed(active, events) && forall r :: r in active ==> snapshots[r.id] == Snapshot(r.up, r.down, false)
      ensures forall r :: r in active ==>
                r.id in drift && drift[r.id] == Drift(r.shown.up - r.up, r.shown.down - r.down)
    {
      events := [];
      for i := 0 to |active|
        invariant Valid() && sent == events && WellBehaved(sent) && stale == {}
        invariant Announced(active[..i], snapshots, drift, events)
      {
        ghost var before, drifts := snapshots, drift;
        IdsSnoc(active, i);
        var e := Announce(active[i]);
        AnnouncedNext(active, i, before, drifts, snapshots, drift, events);
        events := events + [e];
      }
      assert active[..|active|] == active;
    }

    /**
     Recently closed connections are shown too, as NEW events that are closed
     already; a tracked one becomes stale.
     */
    method ShowClosed(closed: seq<Reading>) returns (events: seq<Event>)
      requires Valid() && WellBehaved(sent)
      requires forall r :: r in closed ==> r.shown.closedAt != 0
      modifies this`sent, this`stale
      ensures Valid() && sent == old(sent) + events && WellBehaved(sent)
      ensures stale == old(stale) + snapshots.Keys * Ids(closed)
      ensures Listed(closed, events)
    {
      events := [];
      for i := 0 to |closed|
        invariant Valid() && sent == old(sent) + events && WellBehaved(sent)
        invariant stale == old(stale) + snapshots.Keys * Ids(closed[..i])
        invariant Listed(closed[..i], events)
      {
        var r := closed[i];
        var e := New(r.id, r.shown);
        IdsSnoc(closed, i);
        WellBehavedSnoc(sent, e);
        SyncClosedNew(sent, snapshots, drift, stale, e);
        sent := sent + [e];
        stale := stale + snapshots.Keys * {r.id};
        events := events + [e];
      }
      assert closed[..|closed|] == closed;
    }

    /** The first batch of a subscription. */
    method BuildInitial(active: seq<Reading>, closed: seq<Reading>) returns (events: seq<Event>)
      requires Valid() && sent == [] && snapshots == map[] && stale == {} && DistinctIds(active)
      requires forall r :: r in active ==> r.shown.closedAt == 0
      requires forall r :: r in closed ==> r.shown.closedAt != 0
      modifies this
      ensures Valid() && sent == events && WellBehaved(sent)
      ensures snapshots.Keys == Ids(active) && Open(Replay(sent)) == Ids(active) - Ids(closed)
      // a connection caught closing between the two listings is the only way the views part
      ensures stale == Ids(active) * Ids(closed)
      // the active connections are listed first, then the closed ones
      ensures |events| == |active| + |closed| && Listed(active, events[..|active|])
                && Listed(closed, events[|active|..])
      ensures forall r :: r in active ==> snapshots[r.id] == Snapshot(r.up, r.down, false)
      ensures InStep() <==> Ids(active) !! Ids(closed)
      ensures forall r :: r in active ==>
                r.id in drift && drift[r.id] == Drift(r.shown.up - r.up, r.shown.down - r.down)
    {
      var news := AnnounceAll(active);
      var shown := ShowClosed(closed);
      events := news + shown;
      assert events[..|active|] == news && events[|active|..] == shown;
      OpenIs(sent, snapshots, drift, stale);
      assert Open(Replay(sent)) == Ids(active) - Ids(closed);
      assert Ids(active) - Ids(closed) == Ids(active) <==> Ids(active) !! Ids(closed);
    }
  }

  lemma SyncClosedNew(sent: seq<Event>, snapshots: map<Id, Snapshot>, drift: map<Id, Drift>, stale: set<Id>, e: Event)
    requires InSync(sent, snapshots, drift, stale) && e.New? && e.conn.closedAt != 0
    ensures InSync(sent + [e], snapshots, drift, stale + snapshots.Keys * {e.id})
  {
    SyncSnoc(sent, snapshots, drift, stale, e, snapshots, drift, stale + snapshots.Keys * {e.id});
  }
}
