/**
 DNS rule matching and the retry loops of Router.Exchange and Router.Lookup:
 each round asks the transport of the first eligible rule after the previous
 one, and a rejected or bypassed answer leads to the next round. What the
 client answers is given per matched rule, which loses nothing because no rule
 is asked twice.
 */
module RuleRetry {
  import opened Options

  datatype RejectMethod = RejectDefault | RejectDrop | RejectReply

  datatype Legacy = Legacy(strategy: nat, subnet: Option<string>)

  datatype Transport = Transport(tag: string, fakeIP: bool, legacy: Option<Legacy>)

  /** Strategy 0 is "as is". */
  datatype QueryOptions = QueryOptions(strategy: nat, disableCache: bool, rewriteTTL: Option<nat>,
                                       subnet: Option<string>)

  datatype Action =
    | Route(server: string, sets: QueryOptions)
    | RouteOptions(sets: QueryOptions)
    | Reject(how: RejectMethod)
    | Predefined

  /** A rule, with the outcome of matching it against the query at hand. */
  datatype Rule = Rule(addressLimit: bool, matched: bool, bypassIfFailed: bool, action: Action)

  /** What the router knows: its rules, the transports by tag, the default transport and strategy. */
  datatype Router = Router(rules: seq<Rule>, transports: map<string, Transport>, default: Transport,
                           defaultStrategy: nat)

  /** The options a rule sets override those of the query where they say something. */
  function Override(o: QueryOptions, over: QueryOptions): QueryOptions {
    QueryOptions(
      if over.strategy != 0 then over.strategy else o.strategy,
      o.disableCache || over.disableCache,
      if over.rewriteTTL.Some? then over.rewriteTTL else o.rewriteTTL,
      if over.subnet.Some? then over.subnet else o.subnet)
  }

  function ApplyLegacy(o: QueryOptions, t: Transport): QueryOptions {
    if t.legacy.None? then o
    else o.(strategy := if o.strategy == 0 then t.legacy.value.strategy else o.strategy,
            subnet := if o.subnet.None? then t.legacy.value.subnet else o.subnet)
  }

  /** The rule takes part: it matched and is not an address-limited rule asked about something else. */
  predicate Applies(rule: Rule, addressQuery: bool) {
    (rule.addressLimit ==> addressQuery) && rule.matched
  }

  /** The rule ends the search for a transport. */
  predicate Decides(r: Router, rule: Rule, allowFakeIP: bool, addressQuery: bool) {
    && Applies(rule, addressQuery)
    && match rule.action
       case Route(server, _) => server in r.transports && (r.transports[server].fakeIP ==> allowFakeIP)
       case RouteOptions(_) => false
       case Reject(_) => true
       case Predefined => true
  }

  /** The first deciding rule from index `j` on, or -1. */
  function FirstFrom(r: Router, j: nat, allowFakeIP: bool, addressQuery: bool): (k: int)
    ensures k == -1 || (j <= k < |r.rules| && Decides(r, r.rules[k], allowFakeIP, addressQuery))
    decreases |r.rules| - j
  {
    if j >= |r.rules| then -1
    else if Decides(r, r.rules[j], allowFakeIP, addressQuery) then j
    else FirstFrom(r, j + 1, allowFakeIP, addressQuery)
  }

  /** It is the first: nothing before it decides. */
  lemma {:induction false} FirstFromIsFirst(r: Router, j: nat, allowFakeIP: bool, addressQuery: bool)
    ensures var k := FirstFrom(r, j, allowFakeIP, addressQuery);
            forall i :: j <= i < (if k == -1 then |r.rules| else k) ==>
                !Decides(r, r.rules[i], allowFakeIP, addressQuery)
    decreases |r.rules| - j
  {
    if j < |r.rules| && !Decides(r, r.rules[j], allowFakeIP, addressQuery) {
      FirstFromIsFirst(r, j + 1, allowFakeIP, addressQuery);
    }
  }

  /** Options gathered from the options-only rules among rules[j..k]. */
  function Gathered(r: Router, j: nat, k: nat, addressQuery: bool, o: QueryOptions): QueryOptions
    requires j <= k <= |r.rules|
    decreases k
  {
    if j == k then o
    else
      var before := Gathered(r, j, k - 1, addressQuery, o);
      var rule := r.rules[k - 1];
      if Applies(rule, addressQuery) && rule.action.RouteOptions? then Override(before, rule.action.sets) else before
  }

  /** The transport chosen, if any, and the options to ask it with. */
  ghost predicate Chosen(r: Router, start: nat, k: int, allowFakeIP: bool, addressQuery: bool, o: QueryOptions,
                         t: Option<Transport>, o': QueryOptions)
    requires start <= |r.rules| && k == FirstFrom(r, start, allowFakeIP, addressQuery)
  {
    if k == -1 then
      t == Some(r.default) && o' == ApplyLegacy(Gathered(r, start, |r.rules|, addressQuery, o), r.default)
    else
      var gathered := Gathered(r, start, k, addressQuery, o);
      match r.rules[k].action
      case Route(server, sets) =>
        && server in r.transports && t == Some(r.transports[server])
        && o' == ApplyLegacy(Override(gathered, sets.(disableCache := sets.disableCache || t.value.fakeIP)), t.value)
      case _ => t == None && o' == gathered
  }

  method MatchDNS(r: Router, allowFakeIP: bool, ruleIndex: int, addressQuery: bool, options: QueryOptions)
    returns (transport: Option<Transport>, index: int, options': QueryOptions)
    requires -1 <= ruleIndex < |r.rules|
    ensures index == FirstFrom(r, ruleIndex + 1, allowFakeIP, addressQuery)
    ensures Chosen(r, ruleIndex + 1, index, allowFakeIP, addressQuery, options, transport, options')
  {
    var current := 0;
    if ruleIndex != -1 { current := ruleIndex + 1; }
    ghost var start := current;
    options' := options;
    while current < |r.rules|
      invariant start <= current <= |r.rules|
      invariant FirstFrom(r, start, allowFakeIP, addressQuery) == FirstFrom(r, current, allowFakeIP, addressQuery)
      invariant options' == Gathered(r, start, current, addressQuery, options)
    {
      var rule := r.rules[current];
      if !(rule.addressLimit && !addressQuery) && rule.matched {
        match rule.action
        case Route(server, sets) =>
          if server in r.transports {
            var t := r.transports[server];
            if !(t.fakeIP && !allowFakeIP) {
              options' := Override(options', sets.(disableCache := sets.disableCache || t.fakeIP));
              options' := ApplyLegacy(options', t);
              return Some(t), current, options';
            }
          }
        case RouteOptions(sets) =>
          options' := Override(options', sets);
        case Reject(_) =>
          return None, current, options';
        case Predefined =>
          return None, current, options';
      }
      current := current + 1;
    }
    return Some(r.default), -1, ApplyLegacy(options', r.default);
  }

  // ---- the rounds ----

  /** One answer of the client; `cancelled` says whether the caller's context was done by then. */
  datatype Reply = Answered(addresses: nat) | Rejected(cancelled: bool) | Failed(cancelled: bool)

  /**
   Which loop: Exchange (for an address query or not) or Lookup, which never uses
   fakeip and always asks for addresses.
   */
  datatype Loop = ExchangeLoop(addressQuery: bool) | LookupLoop {
    predicate AllowFakeIP() { ExchangeLoop? }

    predicate AddressQuery() { LookupLoop? || addressQuery }
  }

  datatype Outcome =
    | Refused                  // Exchange: reject, default method
    | Dropped                  // Exchange: reject, drop
    | NilTransport(rule: nat)  // Exchange: reject, reply: the client is called without a transport
    | RejectedError(rule: nat) // Lookup: reject
    | Fixed(rule: nat)         // predefined answer of a rule
    | FromClient(reply: Reply)

  /** Why a loop goes on to another round. */
  predicate Retries(loop: Loop, rule: Rule, reply: Reply) {
    match loop
    case ExchangeLoop(_) =>
      || (reply.Rejected? && rule.addressLimit)
      || (!reply.Answered? && rule.bypassIfFailed && !reply.cancelled)
    case LookupLoop =>
      || (rule.bypassIfFailed && (reply.Answered? ==> reply.addresses == 0))
      || (rule.addressLimit && !reply.Answered?)
  }

  /** How a rule without a transport ends the loop. */
  function Verdict(loop: Loop, action: Action, k: nat): Outcome
    requires action.Reject? || action.Predefined?
  {
    if action.Predefined? then Fixed(k)
    else if loop.LookupLoop? then RejectedError(k)
    else match action.how
      case RejectDefault => Refused
      case RejectDrop => Dropped
      case RejectReply => NilTransport(k)
  }

  function Next(r: Router, loop: Loop, previous: int): (k: int)
    requires previous >= -1
    ensures k == -1 || (previous < k < |r.rules| && Decides(r, r.rules[k], loop.AllowFakeIP(), loop.AddressQuery()))
  {
    FirstFrom(r, previous + 1, loop.AllowFakeIP(), loop.AddressQuery())
  }

  /** The outcome of a loop and the rule each client call belonged to; -1 is the default transport. */
  datatype Trace = Trace(outcome: Outcome, calls: seq<int>)

  /** The rounds after the one that came to rule `previous`. */
  function Rounds(r: Router, loop: Loop, reply: int -> Reply, previous: int): Trace
    requires previous >= -1
    decreases if previous < |r.rules| then |r.rules| - previous else 0
  {
    var k := Next(r, loop, previous);
    if k == -1 then Trace(FromClient(reply(-1)), [-1])
    else if !r.rules[k].action.Route? then Trace(Verdict(loop, r.rules[k].action, k), [])
    else if !Retries(loop, r.rules[k], reply(k)) then Trace(FromClient(reply(k)), [k])
    else
      var rest := Rounds(r, loop, reply, k);
      Trace(rest.outcome, [k] + rest.calls)
  }

  /** One unfolding of the rounds. */
  lemma RoundsUnfold(r: Router, loop: Loop, reply: int -> Reply, previous: int, calls: seq<int>)
    requires previous >= -1
    ensures var k := Next(r, loop, previous);
            var t := Rounds(r, loop, reply, previous);
            if k == -1 then t.outcome == FromClient(reply(-1)) && calls + t.calls == calls + [-1]
            else if !r.rules[k].action.Route? then
              t.outcome == Verdict(loop, r.rules[k].action, k) && calls + t.calls == calls
            else if !Retries(loop, r.rules[k], reply(k)) then
              t.outcome == FromClient(reply(k)) && calls + t.calls == calls + [k]
            else
              && t.outcome == Rounds(r, loop, reply, k).outcome
              && calls + t.calls == (calls + [k]) + Rounds(r, loop, reply, k).calls
  {
    var k := Next(r, loop, previous);
    var t := Rounds(r, loop, reply, previous);
    if k == -1 {
      assert t.calls == [-1];
    } else if !r.rules[k].action.Route? {
      assert t.calls == [] && calls + [] == calls;
    } else if !Retries(loop, r.rules[k], reply(k)) {
      assert t.calls == [k];
    } else {
      var rest := Rounds(r, loop, reply, k).calls;
      assert t.calls == [k] + rest;
      assert calls + ([k] + rest) == (calls + [k]) + rest;
    }
  }

  /** The rule the i-th round starts after. */
  function Before(calls: seq<int>, previous: int, i: nat): int
    requires i <= |calls|
  {
    if i == 0 then previous else calls[i - 1]
  }

  /** What a client call is given. */
  datatype Ask = Ask(transport: Transport, options: QueryOptions)

  /** The router's own strategy stands in where none was set. */
  function WithDefault(r: Router, o: QueryOptions): QueryOptions {
    if o.strategy == 0 then o.(strategy := r.defaultStrategy) else o
  }

  /** The call that belongs to rule `k`, matched from rule `start` on with the query's own options `o`. */
  ghost predicate AskedWith(r: Router, loop: Loop, o: QueryOptions, start: int, k: int, ask: Ask) {
    && 0 <= start <= |r.rules| && k == FirstFrom(r, start, loop.AllowFakeIP(), loop.AddressQuery())
    && exists matched ::
         && Chosen(r, start, k, loop.AllowFakeIP(), loop.AddressQuery(), o, Some(ask.transport), matched)
         && ask.options == WithDefault(r, matched)
  }

  /** The i-th round starts over from the options of the query. */
  ghost predicate AskedAt(r: Router, loop: Loop, o: QueryOptions, calls: seq<int>, asked: seq<Ask>, i: nat)
    requires i < |calls| == |asked|
  {
    AskedWith(r, loop, o, Before(calls, -1, i) + 1, calls[i], asked[i])
  }

  ghost predicate AskedAll(r: Router, loop: Loop, o: QueryOptions, calls: seq<int>, asked: seq<Ask>) {
    |asked| == |calls| && forall i: nat :: i < |calls| ==> AskedAt(r, loop, o, calls, asked, i)
  }

  lemma AskedSnoc(r: Router, loop: Loop, o: QueryOptions, calls: seq<int>, asked: seq<Ask>, k: int, ask: Ask)
    requires AskedAll(r, loop, o, calls, asked)
    requires AskedWith(r, loop, o, Before(calls, -1, |calls|) + 1, k, ask)
    ensures AskedAll(r, loop, o, calls + [k], asked + [ask])
  {
    forall i: nat | i < |calls| + 1 ensures AskedAt(r, loop, o, calls + [k], asked + [ask], i) {
      assert Before(calls + [k], -1, i) == Before(calls, -1, i);
      if i < |calls| { assert AskedAt(r, loop, o, calls, asked, i); }
    }
  }

  /** MatchDNS as the loops use it: the rule that decides and, if it routes, the call to make. */
  method NextRule(r: Router, loop: Loop, ruleIndex: int, options: QueryOptions) returns (index: int, ask: Option<Ask>)
    requires -1 <= ruleIndex < |r.rules|
    ensures index == Next(r, loop, ruleIndex)
    ensures ask.Some? <==> index == -1 || r.rules[index].action.Route?
    ensures ask.Some? ==> AskedWith(r, loop, options, ruleIndex + 1, index, ask.value)
  {
    var dnsOptions, transport := options, None;
    transport, index, dnsOptions := MatchDNS(r, loop.AllowFakeIP(), ruleIndex, loop.AddressQuery(), dnsOptions);
    if transport.None? { return index, None; }
    ghost var matched := dnsOptions;
    if dnsOptions.strategy == 0 { dnsOptions := dnsOptions.(strategy := r.defaultStrategy); }
    assert dnsOptions == WithDefault(r, matched);
    return index, Some(Ask(transport.value, dnsOptions));
  }

  method Exchange(r: Router, addressQuery: bool, options: QueryOptions, reply: int -> Reply)
    returns (trace: Trace, asked: seq<Ask>)
    ensures trace == Rounds(r, ExchangeLoop(addressQuery), reply, -1)
    ensures AskedAll(r, ExchangeLoop(addressQuery), options, trace.calls, asked)
  {
    var loop := ExchangeLoop(addressQuery);
    ghost var todo := Rounds(r, loop, reply, -1);
    var calls: seq<int> := [];
    asked := [];
    var ruleIndex := -1;
    while true
      invariant -1 <= ruleIndex < |r.rules| && ruleIndex == Before(calls, -1, |calls|)
      invariant todo == Rounds(r, loop, reply, ruleIndex)
      invariant Rounds(r, loop, reply, -1) == Trace(todo.outcome, calls + todo.calls)
      invariant AskedAll(r, loop, options, calls, asked)
      decreases |r.rules| - ruleIndex
    {
      RoundsUnfold(r, loop, reply, ruleIndex, calls);
      var ask;
      ruleIndex, ask := NextRule(r, loop, ruleIndex, options);
      if ruleIndex != -1 {
        var action := r.rules[ruleIndex].action;
        if action.Reject? {
          var outcome := match action.how
            case RejectDefault => Refused
            case RejectDrop => Dropped
            case RejectReply => NilTransport(ruleIndex);
          return Trace(outcome, calls), asked;
        }
        if action.Predefined? { return Trace(Fixed(ruleIndex), calls), asked; }
      }
      var hasCheck := ruleIndex != -1 && r.rules[ruleIndex].addressLimit;
      AskedSnoc(r, loop, options, calls, asked, ruleIndex, ask.value);
      calls, asked := calls + [ruleIndex], asked + [ask.value];
      var answer := reply(ruleIndex);
      var rejected := answer.Rejected?;
      var bypass := false;
      if !answer.Answered? && ruleIndex != -1 && r.rules[ruleIndex].bypassIfFailed && !answer.cancelled {
        bypass := true;
      }
      if !(hasCheck && rejected) && !bypass { return Trace(FromClient(answer), calls), asked; }
      todo := Rounds(r, loop, reply, ruleIndex);
    }
  }

  method Lookup(r: Router, options: QueryOptions, reply: int -> Reply) returns (trace: Trace, asked: seq<Ask>)
    ensures trace == Rounds(r, LookupLoop, reply, -1)
    ensures AskedAll(r, LookupLoop, options, trace.calls, asked)
  {
    var loop := LookupLoop;
    ghost var todo := Rounds(r, loop, reply, -1);
    var calls: seq<int> := [];
    asked := [];
    var ruleIndex := -1;
    while true
      invariant -1 <= ruleIndex < |r.rules| && ruleIndex == Before(calls, -1, |calls|)
      invariant todo == Rounds(r, loop, reply, ruleIndex)
      invariant Rounds(r, loop, reply, -1) == Trace(todo.outcome, calls + todo.calls)
      invariant AskedAll(r, loop, options, calls, asked)
      decreases |r.rules| - ruleIndex
    {
      RoundsUnfold(r, loop, reply, ruleIndex, calls);
      var ask;
      ruleIndex, ask := NextRule(r, loop, ruleIndex, options);
      if ruleIndex != -1 {
        if r.rules[ruleIndex].action.Reject? { return Trace(RejectedError(ruleIndex), calls), asked; }
        if r.rules[ruleIndex].action.Predefined? { return Trace(Fixed(ruleIndex), calls), asked; }
      }
      var hasCheck := ruleIndex != -1 && r.rules[ruleIndex].addressLimit;
      AskedSnoc(r, loop, options, calls, asked, ruleIndex, ask.value);
      calls, asked := calls + [ruleIndex], asked + [ask.value];
      var answer := reply(ruleIndex);
      var empty := answer.Answered? ==> answer.addresses == 0;
      if !(ruleIndex != -1 && empty && r.rules[ruleIndex].bypassIfFailed) {
        if !hasCheck || answer.Answered? { return Trace(FromClient(answer), calls), asked; }
      }
      todo := Rounds(r, loop, reply, ruleIndex);
    }
  }

  // ---- what the rounds guarantee ----

  /**
   Client calls belong to strictly later and later rules, each the first
   deciding rule after the one before; the default transport is only ever asked
   last; every call but the last was answered by something that asks for another.
   */
  lemma {:induction false} CallsAdvance(r: Router, loop: Loop, reply: int -> Reply, previous: int, i: nat)
    requires previous >= -1 && i < |Rounds(r, loop, reply, previous).calls|
    ensures var calls := Rounds(r, loop, reply, previous).calls;
            && Before(calls, previous, i) >= -1
            && calls[i] == Next(r, loop, Before(calls, previous, i))
            && (calls[i] == -1 ==> i == |calls| - 1)
            && (calls[i] != -1 ==> previous + i < calls[i] < |r.rules| && r.rules[calls[i]].action.Route?)
            && (i < |calls| - 1 ==> Retries(loop, r.rules[calls[i]], reply(calls[i])))
    decreases i
  {
    var k := Next(r, loop, previous);
    var calls := Rounds(r, loop, reply, previous).calls;
    if i > 0 {
      var rest := Rounds(r, loop, reply, k).calls;
      assert calls == [k] + rest;
      CallsAdvance(r, loop, reply, k, i - 1);
      assert Before(calls, previous, i) == Before(rest, k, i - 1);
    }
  }

  /**
   The rule matched, and one that checks addresses is asked for some: by Lookup,
   or by Exchange for an address query.
   */
  predicate TakesPart(loop: Loop, rule: Rule) {
    rule.matched && (rule.addressLimit ==> loop == LookupLoop || loop == ExchangeLoop(true))
  }

  /** The rule leads somewhere: to a known server, and in Lookup not to fakeip, or to an end. */
  predicate LeadsSomewhere(r: Router, loop: Loop, rule: Rule) {
    match rule.action
    case Route(server, _) => server in r.transports && !(loop == LookupLoop && r.transports[server].fakeIP)
    case RouteOptions(_) => false
    case Reject(_) => true
    case Predefined => true
  }

  /** A round goes to the first rule after the one before that takes part and leads somewhere. */
  lemma WhichRuleIsNext(r: Router, loop: Loop, previous: int)
    requires previous >= -1
    ensures var k := Next(r, loop, previous);
            && (k != -1 ==>
                  previous < k < |r.rules| && TakesPart(loop, r.rules[k]) && LeadsSomewhere(r, loop, r.rules[k]))
            && forall h :: previous < h < (if k == -1 then |r.rules| else k) ==>
                 !(TakesPart(loop, r.rules[h]) && LeadsSomewhere(r, loop, r.rules[h]))
  {
    FirstFromIsFirst(r, previous + 1, loop.AllowFakeIP(), loop.AddressQuery());
    var k := Next(r, loop, previous);
    forall h | previous < h < (if k == -1 then |r.rules| else k)
      ensures !(TakesPart(loop, r.rules[h]) && LeadsSomewhere(r, loop, r.rules[h]))
    {
      assert !Decides(r, r.rules[h], loop.AllowFakeIP(), loop.AddressQuery());
    }
  }

  /** At most one client call per rule and one for the default transport. */
  lemma {:induction false} CallsAreBounded(r: Router, loop: Loop, reply: int -> Reply, previous: int)
    requires -1 <= previous < |r.rules|
    ensures |Rounds(r, loop, reply, previous).calls| <= |r.rules| - previous
    decreases |r.rules| - previous
  {
    var k := Next(r, loop, previous);
    if k != -1 { CallsAreBounded(r, loop, reply, k); }
  }

  /** The rule at which the loop stops: the one after the last call, or the last call's own. */
  lemma {:induction false} HowItEnds(r: Router, loop: Loop, reply: int -> Reply, previous: int) returns (k: int)
    requires previous >= -1
    ensures var t := Rounds(r, loop, reply, previous);
            match t.outcome
            case FromClient(answer) =>
              && t.calls != [] && k == t.calls[|t.calls| - 1] && answer == reply(k)
              && (k != -1 ==> 0 <= k < |r.rules| && !Retries(loop, r.rules[k], reply(k)))
            case _ =>
              && Before(t.calls, previous, |t.calls|) >= -1
              && k == Next(r, loop, Before(t.calls, previous, |t.calls|)) && k != -1
              && !r.rules[k].action.Route? && t.outcome == Verdict(loop, r.rules[k].action, k)
    decreases if previous < |r.rules| then |r.rules| - previous else 0
  {
    k := Next(r, loop, previous);
    if k != -1 && r.rules[k].action.Route? && Retries(loop, r.rules[k], reply(k)) {
      var first := k;
      k := HowItEnds(r, loop, reply, first);
      var rest, whole := Rounds(r, loop, reply, first).calls, Rounds(r, loop, reply, previous).calls;
      assert whole == [first] + rest;
      assert Before(whole, previous, |whole|) == Before(rest, first, |rest|);
    }
  }

  /** A reject rule with the reply method lies behind deciding rules that all may ask for another round. */
  predicate ReplyRejectReachable(r: Router, loop: Loop, previous: int)
    requires previous >= -1
    decreases if previous < |r.rules| then |r.rules| - previous else 0
  {
    var k := Next(r, loop, previous);
    k != -1 &&
    if r.rules[k].action.Route? then
      (r.rules[k].addressLimit || r.rules[k].bypassIfFailed) && ReplyRejectReachable(r, loop, k)
    else r.rules[k].action == Reject(RejectReply)
  }

  lemma {:induction false} NilTransportNeedsReplyReject(r: Router, loop: Loop, reply: int -> Reply, previous: int)
    requires previous >= -1 && Rounds(r, loop, reply, previous).outcome.NilTransport?
    ensures loop.ExchangeLoop? && ReplyRejectReachable(r, loop, previous)
    decreases if previous < |r.rules| then |r.rules| - previous else 0
  {
    var k := Next(r, loop, previous);
    if r.rules[k].action.Route? { NilTransportNeedsReplyReject(r, loop, reply, k); }
    if r.rules[k].action.Reject? { assert r.rules[k].action.how == RejectReply; }
  }

  /** The client rejects only where it was given an address check. */
  ghost predicate Plausible(r: Router, reply: int -> Reply) {
    forall k :: reply(k).Rejected? ==> 0 <= k < |r.rules| && r.rules[k].addressLimit
  }

  /** A client that answers nothing: rejected where that is possible, failed elsewhere. */
  function Unhelpful(r: Router, k: int): Reply {
    if 0 <= k < |r.rules| && r.rules[k].addressLimit then Rejected(false) else Failed(false)
  }

  lemma {:induction false} ReplyRejectIsReached(r: Router, loop: Loop, reply: int -> Reply, previous: int)
    requires previous >= -1 && loop.ExchangeLoop? && ReplyRejectReachable(r, loop, previous)
    requires forall k :: reply(k) == Unhelpful(r, k)
    ensures Rounds(r, loop, reply, previous).outcome.NilTransport?
    decreases if previous < |r.rules| then |r.rules| - previous else 0
  {
    var k := Next(r, loop, previous);
    if r.rules[k].action.Route? { ReplyRejectIsReached(r, loop, reply, k); }
  }

  /**
   Exchange can come to call the client without a transport exactly when such a
   rule is reachable; Lookup never does.
   */
  lemma NilTransportExactly(r: Router, loop: Loop)
    ensures (exists reply: int -> Reply :: Plausible(r, reply) && Rounds(r, loop, reply, -1).outcome.NilTransport?)
       <==> loop.ExchangeLoop? && ReplyRejectReachable(r, loop, -1)
  {
    forall reply: int -> Reply | Rounds(r, loop, reply, -1).outcome.NilTransport?
      ensures loop.ExchangeLoop? && ReplyRejectReachable(r, loop, -1)
    {
      NilTransportNeedsReplyReject(r, loop, reply, -1);
    }
    if loop.ExchangeLoop? && ReplyRejectReachable(r, loop, -1) {
      var unhelpful: int -> Reply := (k: int) => Unhelpful(r, k);
      ReplyRejectIsReached(r, loop, unhelpful, -1);
      assert Plausible(r, unhelpful);
    }
  }

  // ---- why a loop goes on and how it ends, spelt out ----

  /**
   Exchange goes on after a call exactly when the answer was a rejection and its
   rule checks addresses, or was a rejection or another error before the caller
   was gone and its rule bypasses failures.
   */
  lemma WhyExchangeGoesOn(r: Router, addressQuery: bool, reply: int -> Reply, i: nat)
    requires i < |Rounds(r, ExchangeLoop(addressQuery), reply, -1).calls|
    ensures var trace := Rounds(r, ExchangeLoop(addressQuery), reply, -1);
            var k := trace.calls[i];
            && (k == -1 ==> i == |trace.calls| - 1)
            && (k != -1 ==> 0 <= k < |r.rules|)
            && (k != -1 && (i < |trace.calls| - 1 || !trace.outcome.FromClient?) ==>
                  match reply(k)
                  case Answered(_) => false
                  case Rejected(cancelled) => r.rules[k].addressLimit || (r.rules[k].bypassIfFailed && !cancelled)
                  case Failed(cancelled) => r.rules[k].bypassIfFailed && !cancelled)
            && (k != -1 && i == |trace.calls| - 1 && trace.outcome.FromClient? ==>
                  match reply(k)
                  case Answered(_) => true
                  case Rejected(cancelled) => !r.rules[k].addressLimit && (!r.rules[k].bypassIfFailed || cancelled)
                  case Failed(cancelled) => !r.rules[k].bypassIfFailed || cancelled)
  {
    var loop := ExchangeLoop(addressQuery);
    CallsAdvance(r, loop, reply, -1, i);
    LastCallDecides(r, loop, reply, -1);
  }

  /**
   Lookup goes on after a call exactly when its rule bypasses failures and no
   address came, by error or not, or the call failed and its rule checks addresses.
   */
  lemma WhyLookupGoesOn(r: Router, reply: int -> Reply, i: nat)
    requires i < |Rounds(r, LookupLoop, reply, -1).calls|
    ensures var trace := Rounds(r, LookupLoop, reply, -1);
            var k := trace.calls[i];
            && (k == -1 ==> i == |trace.calls| - 1)
            && (k != -1 ==> 0 <= k < |r.rules|)
            && (k != -1 && (i < |trace.calls| - 1 || !trace.outcome.FromClient?) ==>
                  match reply(k)
                  case Answered(addresses) => r.rules[k].bypassIfFailed && addresses == 0
                  case _ => r.rules[k].bypassIfFailed || r.rules[k].addressLimit)
            && (k != -1 && i == |trace.calls| - 1 && trace.outcome.FromClient? ==>
                  match reply(k)
                  case Answered(addresses) => !r.rules[k].bypassIfFailed || addresses > 0
                  case _ => !r.rules[k].bypassIfFailed && !r.rules[k].addressLimit)
  {
    CallsAdvance(r, LookupLoop, reply, -1, i);
    LastCallDecides(r, LookupLoop, reply, -1);
  }

  /** The last call asked for another round exactly when the loop did not end with its answer. */
  lemma {:induction false} LastCallDecides(r: Router, loop: Loop, reply: int -> Reply, previous: int)
    requires previous >= -1
    ensures var trace := Rounds(r, loop, reply, previous);
            trace.calls != [] && trace.calls[|trace.calls| - 1] != -1 ==>
              var k := trace.calls[|trace.calls| - 1];
              0 <= k < |r.rules| && (Retries(loop, r.rules[k], reply(k)) <==> !trace.outcome.FromClient?)
    decreases if previous < |r.rules| then |r.rules| - previous else 0
  {
    var k := Next(r, loop, previous);
    if k != -1 && r.rules[k].action.Route? && Retries(loop, r.rules[k], reply(k)) {
      var rest := Rounds(r, loop, reply, k);
      LastCallDecides(r, loop, reply, k);
      if rest.calls == [] { NoCallNoAnswer(r, loop, reply, k); }
    }
  }

  lemma NoCallNoAnswer(r: Router, loop: Loop, reply: int -> Reply, previous: int)
    requires previous >= -1 && Rounds(r, loop, reply, previous).calls == []
    ensures !Rounds(r, loop, reply, previous).outcome.FromClient?
  {
  }

  /** What a rule without a transport makes of the query, by its action. */
  lemma HowRulesEndIt(r: Router, loop: Loop, reply: int -> Reply) returns (k: int)
    ensures var outcome := Rounds(r, loop, reply, -1).outcome;
            !outcome.FromClient? ==>
              && 0 <= k < |r.rules| && Applies(r.rules[k], loop.AddressQuery())
              && (outcome.Refused? <==> loop.ExchangeLoop? && r.rules[k].action == Reject(RejectDefault))
              && (outcome.Dropped? <==> loop.ExchangeLoop? && r.rules[k].action == Reject(RejectDrop))
              && (outcome == NilTransport(k) <==> loop.ExchangeLoop? && r.rules[k].action == Reject(RejectReply))
              && (outcome == RejectedError(k) <==> loop.LookupLoop? && r.rules[k].action.Reject?)
              && (outcome == Fixed(k) <==> r.rules[k].action.Predefined?)
  {
    k := HowItEnds(r, loop, reply, -1);
  }

  // ---- the options, field by field ----

  /** The options set by the options-only rules of rules[j..k] that take part, in order. */
  function Settings(r: Router, j: nat, k: nat, addressQuery: bool): seq<QueryOptions>
    requires j <= k <= |r.rules|
    decreases k
  {
    if j == k then []
    else
      var before, rule := Settings(r, j, k - 1, addressQuery), r.rules[k - 1];
      if Applies(rule, addressQuery) && rule.action.RouteOptions? then before + [rule.action.sets] else before
  }

  datatype Field = Strategy | Cache | TTL | Subnet

  predicate Sets(field: Field, o: QueryOptions) {
    match field
    case Strategy => o.strategy != 0
    case Cache => o.disableCache
    case TTL => o.rewriteTTL.Some?
    case Subnet => o.subnet.Some?
  }

  /** The last of the settings that says something about the field, or -1. */
  function LastSetting(settings: seq<QueryOptions>, field: Field): (i: int)
    ensures -1 <= i < |settings|
    ensures i != -1 ==> Sets(field, settings[i])
    ensures forall j :: i < j < |settings| ==> !Sets(field, settings[j])
  {
    if settings == [] then -1
    else if Sets(field, settings[|settings| - 1]) then |settings| - 1
    else
      var i := LastSetting(settings[..|settings| - 1], field);
      assert forall j :: i < j < |settings| - 1 ==> settings[..|settings| - 1][j] == settings[j];
      i
  }

  /** The query's options, overridden by each of the settings in turn. */
  function Overridden(o: QueryOptions, settings: seq<QueryOptions>): QueryOptions {
    if settings == [] then o
    else Override(Overridden(o, settings[..|settings| - 1]), settings[|settings| - 1])
  }

  lemma OverriddenSnoc(o: QueryOptions, settings: seq<QueryOptions>, over: QueryOptions)
    ensures Overridden(o, settings + [over]) == Override(Overridden(o, settings), over)
  {
    assert (settings + [over])[..|settings|] == settings;
  }

  lemma {:induction false} GatheredIsOverridden(r: Router, j: nat, k: nat, addressQuery: bool, o: QueryOptions)
    requires j <= k <= |r.rules|
    ensures Gathered(r, j, k, addressQuery, o) == Overridden(o, Settings(r, j, k, addressQuery))
    decreases k
  {
    if j < k {
      GatheredIsOverridden(r, j, k - 1, addressQuery, o);
      var rule := r.rules[k - 1];
      if Applies(rule, addressQuery) && rule.action.RouteOptions? {
        OverriddenSnoc(o, Settings(r, j, k - 1, addressQuery), rule.action.sets);
      }
    }
  }

  /** Of each option the last setting wins; any of them disables the cache. */
  lemma {:induction false} LastSettingWins(o: QueryOptions, settings: seq<QueryOptions>)
    ensures var result := Overridden(o, settings);
            var s, t, n := LastSetting(settings, Strategy), LastSetting(settings, TTL), LastSetting(settings, Subnet);
            && result.strategy == (if s == -1 then o.strategy else settings[s].strategy)
            && result.rewriteTTL == (if t == -1 then o.rewriteTTL else settings[t].rewriteTTL)
            && result.subnet == (if n == -1 then o.subnet else settings[n].subnet)
            && (result.disableCache <==> o.disableCache || LastSetting(settings, Cache) != -1)
  {
    if settings != [] { LastSettingWins(o, settings[..|settings| - 1]); }
  }

  /** Everything the rules say about a call that belongs to rule `k`: the rules passed over, then its own. */
  function SettingsFor(r: Router, start: nat, k: int, addressQuery: bool): seq<QueryOptions>
    requires start <= |r.rules| && (k == -1 || start <= k < |r.rules|)
  {
    if k == -1 then Settings(r, start, |r.rules|, addressQuery)
    else if r.rules[k].action.Route? then Settings(r, start, k, addressQuery) + [r.rules[k].action.sets]
    else Settings(r, start, k, addressQuery)
  }

  function LegacyStrategy(t: Transport): nat { if t.legacy.Some? then t.legacy.value.strategy else 0 }

  function LegacySubnet(t: Transport): Option<string> { if t.legacy.Some? then t.legacy.value.subnet else None }

  /** What was set wins over what came with the query, and that over the transport's default. */
  ghost predicate Resolved(o: QueryOptions, settings: seq<QueryOptions>, t: Transport, fakeIP: bool,
                           matched: QueryOptions)
  {
    var strategy, ttl, subnet :=
      LastSetting(settings, Strategy), LastSetting(settings, TTL), LastSetting(settings, Subnet);
    && matched.strategy == (if strategy != -1 then settings[strategy].strategy
                            else if o.strategy != 0 then o.strategy
                            else LegacyStrategy(t))
    && matched.subnet == (if subnet != -1 then settings[subnet].subnet
                          else if o.subnet.Some? then o.subnet
                          else LegacySubnet(t))
    && matched.rewriteTTL == (if ttl != -1 then settings[ttl].rewriteTTL else o.rewriteTTL)
    && (matched.disableCache <==> o.disableCache || fakeIP || LastSetting(settings, Cache) != -1)
  }

  lemma LegacyResolves(o: QueryOptions, settings: seq<QueryOptions>, t: Transport, fakeIP: bool, over: QueryOptions)
    requires over == Overridden(o, settings).(disableCache := Overridden(o, settings).disableCache || fakeIP)
    ensures Resolved(o, settings, t, fakeIP, ApplyLegacy(over, t))
  {
    LastSettingWins(o, settings);
  }

  /**
   The call of each round, field by field: its transport is the one its rule
   names, or the default; each option is the last one set by the rules passed
   over since the round before and the routing rule itself, else the query's,
   else the transport's own default; a fakeip route is never cached; a strategy
   still unset is the router's.
   */
  lemma OptionsOfACall(r: Router, loop: Loop, o: QueryOptions, calls: seq<int>, asked: seq<Ask>, i: nat)
    returns (matched: QueryOptions)
    requires AskedAll(r, loop, o, calls, asked) && i < |calls|
    ensures var start, k, ask := Before(calls, -1, i) + 1, calls[i], asked[i];
            && 0 <= start <= |r.rules| && (k == -1 || start <= k < |r.rules|)
            && (k == -1 ==> ask.transport == r.default)
            && (k != -1 ==> r.rules[k].action.Route? && r.rules[k].action.server in r.transports
                            && ask.transport == r.transports[r.rules[k].action.server])
            && Resolved(o, SettingsFor(r, start, k, loop.AddressQuery()), ask.transport,
                        k != -1 && ask.transport.fakeIP, matched)
            && ask.options ==
                 matched.(strategy := if matched.strategy != 0 then matched.strategy else r.defaultStrategy)
  {
    var start, k, ask := Before(calls, -1, i) + 1, calls[i], asked[i];
    assert AskedAt(r, loop, o, calls, asked, i);
    matched :| && Chosen(r, start, k, loop.AllowFakeIP(), loop.AddressQuery(), o, Some(ask.transport), matched)
               && ask.options == WithDefault(r, matched);
    MatchedIsResolved(r, loop, o, start, k, ask.transport, matched);
  }

  lemma MatchedIsResolved(r: Router, loop: Loop, o: QueryOptions, start: nat, k: int, t: Transport,
                          matched: QueryOptions)
    requires start <= |r.rules| && k == FirstFrom(r, start, loop.AllowFakeIP(), loop.AddressQuery())
    requires Chosen(r, start, k, loop.AllowFakeIP(), loop.AddressQuery(), o, Some(t), matched)
    ensures Resolved(o, SettingsFor(r, start, k, loop.AddressQuery()), t, k != -1 && t.fakeIP, matched)
  {
    var addressQuery := loop.AddressQuery();
    var settings := SettingsFor(r, start, k, addressQuery);
    if k == -1 {
      GatheredIsOverridden(r, start, |r.rules|, addressQuery, o);
      LegacyResolves(o, settings, t, false, Overridden(o, settings));
    } else {
      GatheredIsOverridden(r, start, k, addressQuery, o);
      var gathered, sets := Gathered(r, start, k, addressQuery, o), r.rules[k].action.sets;
      OverriddenSnoc(o, Settings(r, start, k, addressQuery), sets);
      LegacyResolves(o, settings, t, t.fakeIP,
                     Override(gathered, sets.(disableCache := sets.disableCache || t.fakeIP)));
    }
  }
}
