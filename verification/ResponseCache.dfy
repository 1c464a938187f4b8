/**
 Lifetimes of DNS responses: how Exchange chooses one, stamps it on every
 record and stores a copy, and how loadResponse ages the copy it hands out.
 The three record lists of a message are laid out in one array, answers first,
 then the authority section, then the additional section.
 */
module ResponseCache {
  import opened Options

  const UINT32 := 0x1_0000_0000
  const SECOND := 1_000_000_000  // nanoseconds

  datatype RRType = OPT | SOA | OtherType

  /** A record: its type, its TTL and, for an SOA, its MINIMUM field. */
  datatype RR = RR(kind: RRType, ttl: nat, minimum: nat) {
    predicate Wire() { ttl < UINT32 && minimum < UINT32 }
  }

  datatype Msg = Msg(records: array<RR>, answers: nat, authority: nat) {
    ghost predicate Valid()
      reads records
    {
      answers + authority <= records.Length && forall i :: 0 <= i < records.Length ==> records[i].Wire()
    }
  }

  // ---- choosing a lifetime ----

  /** One record of the scan for the least positive TTL; 0 stands for none found yet. */
  function Consider(least: nat, r: RR): nat {
    if r.kind.OPT? then least
    else if least == 0 || (r.ttl > 0 && r.ttl < least) then r.ttl
    else least
  }

  function Scan(rs: seq<RR>): nat {
    if rs == [] then 0 else Consider(Scan(rs[..|rs| - 1]), rs[|rs| - 1])
  }

  /** The least positive TTL of the non-OPT records, or 0 when none is positive. */
  ghost predicate IsLeastPositive(rs: seq<RR>, t: nat) {
    && (forall r :: r in rs && !r.kind.OPT? && r.ttl > 0 ==> 0 < t <= r.ttl)
    && (t > 0 ==> exists r :: r in rs && !r.kind.OPT? && r.ttl == t)
  }

  lemma {:induction false} ScanIsLeast(rs: seq<RR>)
    ensures IsLeastPositive(rs, Scan(rs))
  {
    if rs != [] {
      var front, r := rs[..|rs| - 1], rs[|rs| - 1];
      ScanIsLeast(front);
      assert rs == front + [r];
      forall x | x in rs && !x.kind.OPT? && x.ttl > 0 ensures 0 < Scan(rs) <= x.ttl {
        assert x in front || x == r;
      }
      if Scan(rs) > 0 && Scan(rs) == Scan(front) {
        var x :| x in front && !x.kind.OPT? && x.ttl == Scan(front);
        assert x in rs;
      }
    }
  }

  lemma LeastPositiveIsUnique(rs: seq<RR>, t: nat, u: nat)
    requires IsLeastPositive(rs, t) && IsLeastPositive(rs, u)
    ensures t == u
  {
  }

  method LeastTTL(a: array<RR>) returns (t: nat)
    ensures t == Scan(a[..])
  {
    t := 0;
    for i := 0 to a.Length
      invariant t == Scan(a[..i])
    {
      assert a[..i + 1][..i] == a[..i];
      t := Consider(t, a[i]);
    }
    assert a[..a.Length] == a[..];
  }

  function FirstSOA(ns: seq<RR>): Option<RR> {
    if ns == [] then None else if ns[0].kind.SOA? then Some(ns[0]) else FirstSOA(ns[1..])
  }

  /** The lesser of two. */
  predicate IsLesser(t: nat, a: nat, b: nat) {
    t <= a && t <= b && (t == a || t == b)
  }

  /** The first SOA record: one, with none before it. */
  lemma {:induction false} FirstSOAIsFirst(ns: seq<RR>)
    ensures FirstSOA(ns).None? <==> forall r :: r in ns ==> !r.kind.SOA?
    ensures FirstSOA(ns).Some? ==>
              exists i :: 0 <= i < |ns| && ns[i] == FirstSOA(ns).value && ns[i].kind.SOA?
                          && forall j :: 0 <= j < i ==> !ns[j].kind.SOA?
  {
    if ns != [] && !ns[0].kind.SOA? {
      FirstSOAIsFirst(ns[1..]);
      if FirstSOA(ns).Some? {
        var i :| 0 <= i < |ns[1..]| && ns[1..][i] == FirstSOA(ns).value && ns[1..][i].kind.SOA?
                 && forall j :: 0 <= j < i ==> !ns[1..][j].kind.SOA?;
        forall j | 0 <= j < i + 1 ensures !ns[j].kind.SOA? { if j > 0 { assert !ns[1..][j - 1].kind.SOA?; } }
        assert ns[i + 1] == FirstSOA(ns).value;
      }
    }
  }

  /** The negative-answer TTL of section 5 of RFC 2308: the lesser of the first SOA's TTL and MINIMUM. */
  method ExtractNegativeTTL(m: Msg) returns (ttl: nat, found: bool)
    requires m.Valid()
    ensures var soa := FirstSOA(m.records[m.answers..m.answers + m.authority]);
            found == soa.Some? && if found then IsLesser(ttl, soa.value.ttl, soa.value.minimum) else ttl == 0
  {
    ghost var ns := m.records[m.answers..m.answers + m.authority];
    var i := 0;
    while i < m.authority
      invariant i <= m.authority
      invariant FirstSOA(ns) == FirstSOA(ns[i..])
    {
      var r := m.records[m.answers + i];
      assert r == ns[i] && ns[i..][0] == r && ns[i..][1..] == ns[i + 1..];
      if r.kind.SOA? {
        if r.ttl < r.minimum { return r.ttl, true; }
        return r.minimum, true;
      }
      i := i + 1;
    }
    return 0, false;
  }

  /** The lifetime of a response, as the design states it. */
  ghost predicate IsLifetime(rs: seq<RR>, answers: nat, authority: nat, rewrite: Option<nat>, t: nat)
    requires answers + authority <= |rs|
  {
    if rewrite.Some? then t == rewrite.value
    else
      var soa := FirstSOA(rs[answers..answers + authority]);
      if answers == 0 && soa.Some? && soa.value.ttl > 0 && soa.value.minimum > 0
      then IsLesser(t, soa.value.ttl, soa.value.minimum)
      else IsLeastPositive(rs, t)
  }

  /** Which leaves no choice. */
  lemma LifetimeIsDetermined(rs: seq<RR>, answers: nat, authority: nat, rewrite: Option<nat>, t: nat, u: nat)
    requires answers + authority <= |rs|
    requires IsLifetime(rs, answers, authority, rewrite, t) && IsLifetime(rs, answers, authority, rewrite, u)
    ensures t == u
  {
    if IsLeastPositive(rs, t) && IsLeastPositive(rs, u) { LeastPositiveIsUnique(rs, t, u); }
  }

  method ChooseLifetime(m: Msg, rewrite: Option<nat>) returns (ttl: nat)
    requires m.Valid() && (rewrite.Some? ==> rewrite.value < UINT32)
    ensures IsLifetime(m.records[..], m.answers, m.authority, rewrite, ttl) && ttl < UINT32
  {
    ttl := 0;
    if m.answers == 0 {
      var soaTTL, hasSOA := ExtractNegativeTTL(m);
      if hasSOA { ttl := soaTTL; }
      FirstSOAMember(m.records[m.answers..m.answers + m.authority]);
    }
    assert m.records[..][m.answers..m.answers + m.authority] == m.records[m.answers..m.answers + m.authority];
    if ttl == 0 {
      ttl := LeastTTL(m.records);
      ScanIsLeast(m.records[..]);
    }
    if rewrite.Some? { ttl := rewrite.value; }
  }

  lemma {:induction false} FirstSOAMember(ns: seq<RR>)
    ensures FirstSOA(ns).Some? ==> FirstSOA(ns).value in ns
  {
    if ns != [] { FirstSOAMember(ns[1..]); }
  }

  // ---- stamping and ageing ----

  /** The records with every non-OPT TTL replaced. */
  ghost predicate Stamped(before: seq<RR>, after: seq<RR>, ttl: nat) {
    && |after| == |before|
    && forall i :: 0 <= i < |before| ==> after[i] == if before[i].kind.OPT? then before[i] else before[i].(ttl := ttl)
  }

  ghost predicate Uniform(rs: seq<RR>, ttl: nat) {
    forall i :: 0 <= i < |rs| && !rs[i].kind.OPT? ==> rs[i].ttl == ttl
  }

  method Stamp(a: array<RR>, ttl: nat)
    modifies a
    ensures Stamped(old(a[..]), a[..], ttl) && Uniform(a[..], ttl)
  {
    for i := 0 to a.Length
      invariant forall k :: i <= k < a.Length ==> a[k] == old(a[k])
      invariant forall k :: 0 <= k < i ==> a[k] == if old(a[k]).kind.OPT? then old(a[k]) else old(a[k]).(ttl := ttl)
    {
      if !a[i].kind.OPT? { a[i] := a[i].(ttl := ttl); }
    }
  }

  /** Subtracts the elapsed seconds in 32-bit arithmetic. */
  method Age(a: array<RR>, elapsed: nat)
    requires forall i :: 0 <= i < a.Length ==> a[i].Wire()
    modifies a
    ensures forall i :: 0 <= i < a.Length ==>
              a[i] == if old(a[i]).kind.OPT? then old(a[i]) else old(a[i]).(ttl := (old(a[i]).ttl - elapsed) % UINT32)
  {
    for i := 0 to a.Length
      invariant forall k :: i <= k < a.Length ==> a[k] == old(a[k])
      invariant forall k :: 0 <= k < i ==>
                  a[k] == if old(a[k]).kind.OPT? then old(a[k])
                      else old(a[k]).(ttl := (old(a[k]).ttl - elapsed) % UINT32)
    {
      if !a[i].kind.OPT? { a[i] := a[i].(ttl := (a[i].ttl - elapsed) % UINT32); }
    }
  }

  method Copy(m: Msg) returns (r: Msg)
    requires m.Valid()
    ensures fresh(r.records) && r.records[..] == m.records[..] && r.answers == m.answers && r.authority == m.authority
  {
    var a := new RR[m.records.Length](i requires 0 <= i < m.records.Length reads m.records => m.records[i]);
    r := Msg(a, m.answers, m.authority);
  }

  lemma NoWrap(lifetime: nat, left: nat)
    requires left <= lifetime < UINT32
    ensures (lifetime - (lifetime - left) % UINT32) % UINT32 == left
  {
  }

  /** The copy a hit returns, `expireAt - now` before the stored message expires. */
  method AgedCopy(m: Msg, ghost lifetime: nat, expireAt: int, now: int) returns (r: Msg, nowTTL: nat)
    requires m.Valid() && 0 < lifetime < UINT32 && Uniform(m.records[..], lifetime)
    requires 0 <= expireAt - now <= lifetime * SECOND
    ensures fresh(r.records) && r.answers == m.answers && r.authority == m.authority
    ensures nowTTL == (expireAt - now) / SECOND <= lifetime
    ensures Stamped(m.records[..], r.records[..], nowTTL)
  {
    var originTTL := LeastTTL(m.records);
    ScanUniform(m.records[..], lifetime);
    nowTTL := (expireAt - now) / SECOND;
    r := Copy(m);
    ghost var before := m.records[..];
    if originTTL > 0 {
      NoWrap(lifetime, nowTTL);
      Age(r.records, (originTTL - nowTTL) % UINT32);
    } else {
      forall i | 0 <= i < |before| ensures before[i].kind.OPT? { assert before[i] in before; }
      Stamp(r.records, nowTTL);
    }
  }

  // ---- the cache ----

  datatype Question = Question(name: string, qtype: nat)

  /** Keyed by question, and by transport too when caches are independent. */
  datatype Key = Key(question: Question, transport: Option<string>)

  /** A stored copy, when it expires and the lifetime in seconds it was stored with. */
  datatype Entry = Entry(msg: Msg, expireAt: int, lifetime: nat)

  class Cache {
    const disableExpire: bool
    const independent: bool
    var entries: map<Key, Entry>
    ghost var clock: int

    ghost function Stored(): set<object>
      reads this
    {
      set k | k in entries :: entries[k].msg.records
    }

    /** Every stored record carries the entry's lifetime, which began no later than now. */
    ghost predicate EntryOk(e: Entry)
      reads this, e.msg.records
    {
      && e.msg.Valid() && 0 < e.lifetime < UINT32
      && Uniform(e.msg.records[..], e.lifetime)
      && e.expireAt - e.lifetime * SECOND <= clock
    }

    ghost predicate Valid()
      reads this, Stored()
    {
      forall k :: k in entries ==> EntryOk(entries[k])
    }

    function KeyOf(question: Question, transport: string): Key {
      Key(question, if independent then Some(transport) else None)
    }

    /** Two queries share an entry: the same question, and the same transport when caches are independent. */
    predicate Shares(question: Question, transport: string, q: Question, t: string) {
      q == question && (independent ==> t == transport)
    }

    lemma KeysApart(question: Question, transport: string, q: Question, t: string)
      ensures KeyOf(q, t) == KeyOf(question, transport) <==> Shares(question, transport, q, t)
    {
    }

    constructor (disableExpire: bool, independent: bool, now: int)
      ensures Valid() && entries == map[] && clock == now
      ensures this.disableExpire == disableExpire && this.independent == independent
    {
      this.disableExpire, this.independent := disableExpire, independent;
      entries, clock := map[], now;
    }

    /** The end of a successful Exchange: choose the lifetime, stamp the response, store a copy of it. */
    method Finish(question: Question, transport: string, m: Msg, rewrite: Option<nat>, cacheable: bool, now: int)
      returns (ttl: nat)
      requires Valid() && m.Valid() && m.records !in Stored() && now >= clock
      requires rewrite.Some? ==> rewrite.value < UINT32
      modifies this, m.records
      ensures Valid() && clock == now
      ensures IsLifetime(old(m.records[..]), m.answers, m.authority, rewrite, ttl)
      ensures Stamped(old(m.records[..]), m.records[..], ttl)
      ensures !(cacheable && ttl > 0) ==> entries == old(entries)
      ensures cacheable && ttl > 0 ==>
                var key := KeyOf(question, transport);
                && key in entries && entries == old(entries)[key := entries[key]]
                && entries[key].lifetime == ttl && entries[key].expireAt == now + ttl * SECOND
                && fresh(entries[key].msg.records) && entries[key].msg.records[..] == m.records[..]
      // it is found again under the same question, and under no other; by other transports iff the cache is shared
      ensures forall q, t :: !Shares(question, transport, q, t) ==>
                && (KeyOf(q, t) in entries <==> KeyOf(q, t) in old(entries))
                && (KeyOf(q, t) in entries ==> entries[KeyOf(q, t)] == old(entries)[KeyOf(q, t)])
      ensures cacheable && ttl > 0 ==>
                forall q, t :: Shares(question, transport, q, t) ==>
                  KeyOf(q, t) in entries && entries[KeyOf(q, t)] == entries[KeyOf(question, transport)]
    {
      ttl := ChooseLifetime(m, rewrite);
      Stamp(m.records, ttl);
      clock := now;
      if cacheable && ttl > 0 {
        var copy := Copy(m);
        entries := entries[KeyOf(question, transport) := Entry(copy, now + ttl * SECOND, ttl)];
      }
    }

    /**
     A hit returns a copy of its own whose non-OPT TTLs are the whole seconds
     the entry has left, or its full lifetime when nothing expires. Nothing
     stored changes.
     */
    method LoadResponse(question: Question, transport: string, now: int) returns (r: Option<Msg>, nowTTL: int)
      requires Valid() && now >= clock
      modifies this
      ensures Valid() && clock == now
      ensures var key := KeyOf(question, transport);
              && (r.Some? <==> key in old(entries) && (disableExpire || now <= old(entries)[key].expireAt))
              && entries == (if r.None? && key in old(entries) then old(entries) - {key} else old(entries))
      ensures r.Some? ==>
                var e := old(entries)[KeyOf(question, transport)];
                && fresh(r.value.records)
                && nowTTL == (if disableExpire then 0 else (e.expireAt - now) / SECOND)
                && 0 <= nowTTL <= e.lifetime
                && Stamped(e.msg.records[..], r.value.records[..], if disableExpire then e.lifetime else nowTTL)
    {
      var key := KeyOf(question, transport);
      clock := now;
      nowTTL := 0;
      if key !in entries { return None, 0; }
      var e := entries[key];
      assert EntryOk(e);
      if disableExpire {
        var copy := Copy(e.msg);
        return Some(copy), 0;
      }
      if now > e.expireAt {
        entries := entries - {key};
        return None, 0;
      }
      var copy;
      copy, nowTTL := AgedCopy(e.msg, e.lifetime, e.expireAt, now);
      r := Some(copy);
    }
  }

  /** Scanning records that all carry one positive TTL finds it, if there is any record to find it in. */
  lemma ScanUniform(rs: seq<RR>, ttl: nat)
    requires Uniform(rs, ttl) && ttl > 0
    ensures Scan(rs) == ttl || (Scan(rs) == 0 && forall r :: r in rs ==> r.kind.OPT?)
  {
    ScanIsLeast(rs);
    if r :| r in rs && !r.kind.OPT? {
      var i :| 0 <= i < |rs| && rs[i] == r;
      assert r.ttl == ttl;
    }
  }
}
