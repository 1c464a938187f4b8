/**
 The DNS transport manager and the outbound manager: upkeep of the item list,
 the by-tag map, the reverse-dependency map and the default item.
 */
module Managers {
  import opened Options
  import opened DependencyStart

  const FAKE_IP := "fakeip"

  type DependBy = map<Tag, seq<Tag>>

  datatype Result =
    | Ok
    | Invalid            // empty tag on Create, unknown tag on Remove
    | ConstructError
    | StartError
    | CloseError
    | FakeIPDefault      // "default server cannot be fakeip"
    | SecondFakeIP
    | StillDependedOn(dependents: seq<Tag>)
    | IndexPanic         // "invalid inbound index"

  // ---- the agreement of list and map ----

  /** The list and the by-tag map describe the same items. */
  ghost predicate Agree(items: seq<Item>, byTag: map<Tag, Item>) {
    && DistinctTags(items)
    && byTag.Keys == Tags(items)
    && MapWithinList(items, byTag)
  }

  function Without(items: seq<Item>, it: Item): (r: seq<Item>)
    ensures it !in items ==> r == items
  {
    if items == [] then []
    else if items[0] == it then items[1..]
    else [items[0]] + Without(items[1..], it)
  }

  lemma {:induction false} WithoutAt(items: seq<Item>, it: Item, index: nat)
    requires index < |items| && items[index] == it && it !in items[..index]
    ensures Without(items, it) == items[..index] + items[index + 1..]
  {
    if index > 0 {
      var rest := items[1..];
      assert rest[..index - 1] == items[1..index];
      WithoutAt(rest, it, index - 1);
      assert rest[index..] == items[index + 1..];
      assert items[..index] == [items[0]] + items[1..index];
    }
  }

  method IndexOf(items: seq<Item>, it: Item) returns (index: int)
    ensures index == -1 <==> it !in items
    ensures index != -1 ==> 0 <= index < |items| && items[index] == it
    ensures index != -1 ==> items[..index] + items[index + 1..] == Without(items, it)
  {
    index := 0;
    while index < |items|
      invariant 0 <= index <= |items|
      invariant it !in items[..index]
    {
      if items[index] == it {
        WithoutAt(items, it, index);
        return;
      }
      index := index + 1;
    }
    index := -1;
  }

  lemma {:induction false} WithoutMembers(items: seq<Item>, it: Item)
    requires DistinctTags(items)
    ensures DistinctTags(Without(items, it))
    ensures forall x :: x in Without(items, it) <==> x in items && x != it
    ensures Tags(Without(items, it)) == if it in items then Tags(items) - {it.tag} else Tags(items)
  {
    if items != [] {
      var rest := items[1..];
      assert items == [items[0]] + rest;
      assert DistinctTags(rest) by {
        forall i, j | 0 <= i < j < |rest| ensures rest[i].tag != rest[j].tag {
          assert items[i + 1].tag != items[j + 1].tag;
        }
      }
      WithoutMembers(rest, it);
      forall x | x in rest ensures x.tag != items[0].tag {
        var i :| 0 <= i < |rest| && rest[i] == x;
        assert items[i + 1] == x;
      }
      if items[0] != it {
        var r := Without(rest, it);
        forall i, j | 0 <= i < j < |[items[0]] + r| ensures ([items[0]] + r)[i].tag != ([items[0]] + r)[j].tag {
          if i == 0 { assert r[j - 1] in r; }
        }
      }
      forall t ensures t in Tags(Without(items, it)) <==> t in Tags(items) && !(it in items && t == it.tag) {
        if t in Tags(items) && !(it in items && t == it.tag) {
          var x :| x in items && x.tag == t;
          assert x in Without(items, it);
        }
        if t in Tags(Without(items, it)) {
          var x :| x in Without(items, it) && x.tag == t;
          if it in items { SameTag(items, x, it); }
        }
      }
    }
  }

  lemma SameTag(items: seq<Item>, a: Item, b: Item)
    requires DistinctTags(items) && a in items && b in items && a != b
    ensures a.tag != b.tag
  {
    if a.tag == b.tag { SameTagSameItem(items, a, b); }
  }

  lemma AgreeAfterRemoval(items: seq<Item>, byTag: map<Tag, Item>, tag: Tag)
    requires Agree(items, byTag) && tag in byTag
    ensures Agree(Without(items, byTag[tag]), byTag - {tag})
  {
    var it := byTag[tag];
    WithoutMembers(items, it);
    forall t | t in byTag - {tag} ensures byTag[t] in Without(items, it) {
    }
  }

  lemma AgreeAfterInsertion(items: seq<Item>, byTag: map<Tag, Item>, it: Item)
    requires Agree(items, byTag) && it.tag !in byTag
    ensures Agree(items + [it], byTag[it.tag := it])
  {
    DistinctSnoc(items, it);
    assert Tags(items + [it]) == Tags(items) + {it.tag};
  }

  // ---- the reverse-dependency map ----

  function Entry(m: DependBy, d: Tag): seq<Tag> {
    if d in m then m[d] else []
  }

  ghost function Named(m: DependBy, d: Tag): set<Tag> {
    set t | t in Entry(m, d)
  }

  ghost function Dependents(items: seq<Item>, d: Tag): set<Tag> {
    set it | it in items && d in it.deps :: it.tag
  }

  /** dependByTag names exactly the items of the list that depend on a tag. */
  ghost predicate Exact(items: seq<Item>, m: DependBy) {
    forall d :: Named(m, d) == Dependents(items, d)
  }

  function Drop(names: seq<Tag>, tag: Tag): (r: seq<Tag>)
    ensures forall t :: t in r <==> t in names && t != tag
  {
    if names == [] then []
    else if names[0] == tag then Drop(names[1..], tag)
    else [names[0]] + Drop(names[1..], tag)
  }

  /** One round of the withdrawal loop on one entry: a singleton is deleted whatever it holds. */
  function WithdrawOnce(names: seq<Tag>, tag: Tag): seq<Tag> {
    if |names| == 1 then [] else Drop(names, tag)
  }

  function Times(names: seq<Tag>, tag: Tag, n: nat): seq<Tag>
    decreases n
  {
    if n == 0 then names else Times(WithdrawOnce(names, tag), tag, n - 1)
  }

  function Count(deps: seq<Tag>, d: Tag): nat {
    if deps == [] then 0 else (if deps[0] == d then 1 else 0) + Count(deps[1..], d)
  }

  lemma {:induction false} CountMembers(deps: seq<Tag>, d: Tag)
    ensures Count(deps, d) > 0 <==> d in deps
  {
    if deps != [] { CountMembers(deps[1..], d); }
  }

  lemma {:induction false} CountAppend(deps: seq<Tag>, x: Tag, d: Tag)
    ensures Count(deps + [x], d) == Count(deps, d) + if x == d then 1 else 0
  {
    if deps != [] {
      assert (deps + [x])[1..] == deps[1..] + [x];
      CountAppend(deps[1..], x, d);
    }
  }

  lemma {:induction false} TimesAppend(names: seq<Tag>, tag: Tag, n: nat)
    ensures Times(names, tag, n + 1) == WithdrawOnce(Times(names, tag, n), tag)
    decreases n
  {
    if n > 0 { TimesAppend(WithdrawOnce(names, tag), tag, n - 1); }
  }

  lemma {:induction false} TimesSettles(names: seq<Tag>, tag: Tag, n: nat)
    requires n >= 2 && tag !in names
    ensures Times(names, tag, n - 1) == if |names| == 1 then [] else names
    decreases n
  {
    NothingToDrop(names, tag);
    if n > 2 { TimesSettles(WithdrawOnce(names, tag), tag, n - 1); }
    else { assert Times(names, tag, 1) == Times(WithdrawOnce(names, tag), tag, 0); }
  }

  lemma {:induction false} NothingToDrop(names: seq<Tag>, tag: Tag)
    requires tag !in names
    ensures Drop(names, tag) == names
  {
    if names != [] { NothingToDrop(names[1..], tag); }
  }

  /** A second listing of the same dependency meets an entry that now holds one other name, and deletes it. */
  predicate LosesOther(names: seq<Tag>, tag: Tag, n: nat) {
    n >= 2 && |Drop(names, tag)| == 1
  }

  lemma WithdrawnEntry(names: seq<Tag>, tag: Tag, n: nat)
    requires n >= 1 && tag in names
    ensures Times(names, tag, n) == if LosesOther(names, tag, n) then [] else Drop(names, tag)
  {
    assert Times(names, tag, n) == Times(WithdrawOnce(names, tag), tag, n - 1);
    assert WithdrawOnce(names, tag) == Drop(names, tag) by {
      if |names| == 1 { assert names == [tag]; }
    }
    if n >= 2 { TimesSettles(Drop(names, tag), tag, n); }
  }

  /** The withdrawal loop of Remove over the dependencies of the removed item. */
  method Withdraw(m: DependBy, deps: seq<Tag>, tag: Tag) returns (r: DependBy)
    ensures forall d :: Entry(r, d) == Times(Entry(m, d), tag, Count(deps, d))
  {
    r := m;
    for i := 0 to |deps|
      invariant forall d :: Entry(r, d) == Times(Entry(m, d), tag, Count(deps[..i], d))
    {
      var d := deps[i];
      ghost var before := r;
      if |Entry(r, d)| == 1 {
        r := r - {d};
      } else {
        r := r[d := Drop(Entry(r, d), tag)];
      }
      forall x ensures Entry(r, x) == Times(Entry(m, x), tag, Count(deps[..i + 1], x)) {
        assert deps[..i + 1] == deps[..i] + [d];
        CountAppend(deps[..i], d, x);
        if x == d {
          TimesAppend(Entry(m, d), tag, Count(deps[..i], d));
        } else {
          assert Entry(r, x) == Entry(before, x);
        }
      }
    }
    assert deps[..|deps|] == deps;
  }

  function Repeated(tag: Tag, n: nat): (r: seq<Tag>)
    ensures |r| == n && forall t :: t in r ==> t == tag
  {
    seq(n, _ => tag)
  }

  /** The tag is added to the entry of each dependency, at its end, once for every time it is listed. */
  ghost predicate Registered(m: DependBy, deps: seq<Tag>, tag: Tag, r: DependBy) {
    forall d :: Entry(r, d) == Entry(m, d) + Repeated(tag, Count(deps, d))
  }

  lemma RegisteredNames(m: DependBy, deps: seq<Tag>, tag: Tag, r: DependBy)
    requires Registered(m, deps, tag, r)
    ensures forall d :: Named(r, d) == Named(m, d) + if d in deps then {tag} else {}
  {
    forall d ensures Named(r, d) == Named(m, d) + if d in deps then {tag} else {} {
      CountMembers(deps, d);
      var more := Repeated(tag, Count(deps, d));
      assert Entry(r, d) == Entry(m, d) + more;
      if d in deps { assert more[0] == tag; }
    }
  }

  /** The registration loop of Create. */
  method Register(m: DependBy, deps: seq<Tag>, tag: Tag) returns (r: DependBy)
    ensures Registered(m, deps, tag, r)
    ensures forall d :: Named(r, d) == Named(m, d) + if d in deps then {tag} else {}
  {
    r := m;
    for i := 0 to |deps|
      invariant Registered(m, deps[..i], tag, r)
    {
      ghost var before := r;
      r := r[deps[i] := Entry(r, deps[i]) + [tag]];
      assert deps[..i + 1] == deps[..i] + [deps[i]];
      forall d ensures Entry(r, d) == Entry(m, d) + Repeated(tag, Count(deps[..i + 1], d)) {
        CountAppend(deps[..i], deps[i], d);
        assert Entry(before, d) == Entry(m, d) + Repeated(tag, Count(deps[..i], d));
      }
    }
    assert deps[..|deps|] == deps;
    RegisteredNames(m, deps, tag, r);
  }

  /** Registering an item under an unused tag keeps the map exact; replacing one does so iff it drops no dependency. */
  lemma ExactAfterRegister(items: seq<Item>, m: DependBy, it: Item, m': DependBy)
    requires DistinctTags(items) && Exact(items, m)
    requires forall d :: Named(m', d) == Named(m, d) + if d in it.deps then {it.tag} else {}
    ensures it.tag !in Tags(items) ==> Exact(items + [it], m')
    ensures forall prev :: prev in items && prev.tag == it.tag ==>
              (Exact(Without(items, prev) + [it], m') <==> forall d :: d in prev.deps ==> d in it.deps)
  {
    if it.tag !in Tags(items) {
      forall d ensures Named(m', d) == Dependents(items + [it], d) {
        assert Dependents(items + [it], d) == Dependents(items, d) + if d in it.deps then {it.tag} else {};
      }
    }
    forall prev | prev in items && prev.tag == it.tag
      ensures Exact(Without(items, prev) + [it], m') <==> forall d :: d in prev.deps ==> d in it.deps
    {
      WithoutMembers(items, prev);
      forall d ensures Dependents(Without(items, prev) + [it], d)
                       == (Dependents(items, d) - {it.tag}) + if d in it.deps then {it.tag} else {} {
        DependentsWithout(items, prev, d);
        assert Dependents(Without(items, prev) + [it], d)
            == Dependents(Without(items, prev), d) + if d in it.deps then {it.tag} else {};
      }
      forall d ensures it.tag in Dependents(items, d) <==> d in prev.deps {
        DependentsOwn(items, prev, d);
      }
      if Exact(Without(items, prev) + [it], m') {
        forall d | d in prev.deps ensures d in it.deps {
          assert it.tag in Named(m', d);
          assert it.tag in Dependents(Without(items, prev) + [it], d);
        }
      }
    }
  }

  lemma DependentsOwn(items: seq<Item>, prev: Item, d: Tag)
    requires DistinctTags(items) && prev in items
    ensures prev.tag in Dependents(items, d) <==> d in prev.deps
  {
    if prev.tag in Dependents(items, d) {
      var x :| x in items && d in x.deps && x.tag == prev.tag;
      SameTagSameItem(items, x, prev);
    }
  }

  lemma DependentsWithout(items: seq<Item>, prev: Item, d: Tag)
    requires DistinctTags(items) && prev in items
    ensures Dependents(Without(items, prev), d) == Dependents(items, d) - {prev.tag}
  {
    WithoutMembers(items, prev);
    forall t ensures t in Dependents(Without(items, prev), d) <==> t in Dependents(items, d) && t != prev.tag {
      if t in Dependents(items, d) && t != prev.tag {
        var x :| x in items && d in x.deps && x.tag == t;
        assert x in Without(items, prev);
      }
      if t in Dependents(Without(items, prev), d) {
        var x :| x in Without(items, prev) && d in x.deps && x.tag == t;
        SameTag(items, x, prev);
      }
    }
  }

  /**
   After a completed Remove the map is exact unless the removed item listed a
   dependency twice on which exactly one other registration remained.
   */
  lemma ExactAfterWithdraw(items: seq<Item>, m: DependBy, it: Item, m': DependBy)
    requires DistinctTags(items) && Exact(items, m) && it in items
    requires forall d :: Entry(m', d) == Times(Entry(m, d), it.tag, Count(it.deps, d))
    ensures Exact(Without(items, it), m')
       <==> forall d :: d in it.deps ==> !LosesOther(Entry(m, d), it.tag, Count(it.deps, d))
  {
    forall d
      ensures Named(m', d) == (if d in it.deps && LosesOther(Entry(m, d), it.tag, Count(it.deps, d)) then {}
                               else Named(m, d) - {it.tag})
      ensures Dependents(Without(items, it), d) == Named(m, d) - {it.tag}
    {
      DependentsWithout(items, it, d);
      DependentsOwn(items, it, d);
      CountMembers(it.deps, d);
      assert Named(m, d) == Dependents(items, d);
      if d in it.deps {
        assert it.tag in Named(m, d);
        WithdrawnEntry(Entry(m, d), it.tag, Count(it.deps, d));
      }
    }
    forall d | d in it.deps && LosesOther(Entry(m, d), it.tag, Count(it.deps, d))
      ensures Named(m, d) - {it.tag} != {}
    {
      var other := Drop(Entry(m, d), it.tag)[0];
      assert other in Drop(Entry(m, d), it.tag);
      assert other in Named(m, d) - {it.tag};
    }
  }

  /** A refused Remove drops the item from the list but keeps its registrations. */
  lemma ExactAfterRefusal(items: seq<Item>, m: DependBy, it: Item)
    requires DistinctTags(items) && Exact(items, m) && it in items
    ensures Exact(Without(items, it), m) <==> it.deps == []
  {
    forall d ensures Dependents(Without(items, it), d) == Named(m, d) - {it.tag} {
      DependentsWithout(items, it, d);
      assert Named(m, d) == Dependents(items, d);
    }
    forall d ensures it.tag in Named(m, d) <==> d in it.deps {
      assert Named(m, d) == Dependents(items, d);
      DependentsOwn(items, it, d);
    }
    if it.deps != [] {
      assert it.deps[0] in it.deps;
      assert it.tag in Named(m, it.deps[0]);
      assert it.tag !in Dependents(Without(items, it), it.deps[0]);
    }
  }

  // ---- the upkeep both managers share ----

  datatype Registry = Registry(items: seq<Item>, byTag: map<Tag, Item>, names: DependBy) {
    ghost predicate Agrees() { Agree(items, byTag) }

    ghost predicate IsExact() { Exact(items, names) }

    /** The map knows the tag but the list has lost the item. */
    predicate Orphaned(tag: Tag) { tag in byTag && byTag[tag] !in items }

    function Kept(tag: Tag): seq<Item> {
      if tag in byTag then Without(items, byTag[tag]) else items
    }

    /** An item put in the place of another keeps all of its dependencies. */
    ghost predicate KeepsDependencies(it: Item) {
      it.tag in byTag ==> forall d :: d in byTag[it.tag].deps ==> d in it.deps
    }

    /** Some dependency is listed twice and holds exactly one registration of another item. */
    ghost predicate ForgetsOther(it: Item) {
      exists d :: d in it.deps && LosesOther(Entry(names, d), it.tag, Count(it.deps, d))
    }
  }

  method Install(reg: Registry, it: Item) returns (ok: bool, r: Registry)
    ensures ok <==> !reg.Orphaned(it.tag)
    ensures !ok ==> r == reg
    ensures ok ==> r.items == reg.Kept(it.tag) + [it] && r.byTag == reg.byTag[it.tag := it]
    ensures ok ==> Registered(reg.names, it.deps, it.tag, r.names)
    ensures ok ==> forall d :: Named(r.names, d) == Named(reg.names, d) + if d in it.deps then {it.tag} else {}
    ensures reg.Agrees() ==> ok && r.Agrees()
    ensures reg.Agrees() && reg.IsExact() ==> (r.IsExact() <==> reg.KeepsDependencies(it))
  {
    var items := reg.items;
    if it.tag in reg.byTag {
      var index := IndexOf(items, reg.byTag[it.tag]);
      if index == -1 { return false, reg; }
      items := items[..index] + items[index + 1..];
    }
    var names := Register(reg.names, it.deps, it.tag);
    r := Registry(items + [it], reg.byTag[it.tag := it], names);
    ok := true;
    if reg.Agrees() { InstallKeepsAgreement(reg, it); }
    if reg.Agrees() && reg.IsExact() { ExactAfterRegister(reg.items, reg.names, it, names); }
  }

  lemma InstallKeepsAgreement(reg: Registry, it: Item)
    requires reg.Agrees()
    ensures Agree(reg.Kept(it.tag) + [it], reg.byTag[it.tag := it])
  {
    if it.tag in reg.byTag { AgreeAfterRemoval(reg.items, reg.byTag, it.tag); }
    assert it.tag !in reg.byTag ==> reg.byTag - {it.tag} == reg.byTag;
    AgreeAfterInsertion(reg.Kept(it.tag), reg.byTag - {it.tag}, it);
    assert (reg.byTag - {it.tag})[it.tag := it] == reg.byTag[it.tag := it];
  }

  method Unlist(reg: Registry, tag: Tag) returns (ok: bool, r: Registry)
    requires tag in reg.byTag
    ensures ok <==> !reg.Orphaned(tag)
    ensures r == Registry(reg.Kept(tag), reg.byTag - {tag}, reg.names)
    ensures reg.Agrees() ==> ok && r.Agrees()
    ensures reg.Agrees() && reg.IsExact() ==> (r.IsExact() <==> reg.byTag[tag].deps == [])
  {
    var index := IndexOf(reg.items, reg.byTag[tag]);
    ok := index != -1;
    r := Registry(if ok then reg.items[..index] + reg.items[index + 1..] else reg.items, reg.byTag - {tag}, reg.names);
    if reg.Agrees() { AgreeAfterRemoval(reg.items, reg.byTag, tag); }
    if reg.Agrees() && reg.IsExact() { ExactAfterRefusal(reg.items, reg.names, reg.byTag[tag]); }
  }

  /** The dependency check and the withdrawal that end Remove; None means the removal is refused. */
  method Release(names: DependBy, tag: Tag, it: Item, ghost reg: Registry) returns (r: Option<DependBy>)
    requires reg.names == names
    ensures r.None? <==> Entry(names, tag) != []
    ensures r.Some? ==> forall d :: Entry(r.value, d) == Times(Entry(names, d), tag, Count(it.deps, d))
    ensures reg.IsExact() ==> (r.None? <==> Dependents(reg.items, tag) != {})
    ensures r.Some? && it in reg.items && it.tag == tag && reg.Agrees() && reg.IsExact() ==>
              (Exact(Without(reg.items, it), r.value) <==> !reg.ForgetsOther(it))
  {
    var dependBy := Entry(names, tag);
    assert reg.IsExact() ==> Named(names, tag) == Dependents(reg.items, tag);
    if |dependBy| > 0 {
      assert dependBy[0] in Named(names, tag);
      return None;
    }
    var left := Withdraw(names, it.deps, tag);
    if it in reg.items && it.tag == tag && reg.Agrees() && reg.IsExact() {
      ExactAfterWithdraw(reg.items, names, it, left);
    }
    return Some(left);
  }

  // ---- the managers ----

  ghost predicate Listed(chosen: Option<Item>, items: seq<Item>) {
    chosen.Some? ==> chosen.value in items
  }

  lemma ListedAfterInstall(reg: Registry, it: Item, chosen: Option<Item>)
    requires reg.Agrees() && Listed(chosen, reg.items) && it !in reg.items
    ensures Listed(chosen, reg.Kept(it.tag) + [it]) <==> !(it.tag in reg.byTag && chosen == Some(reg.byTag[it.tag]))
  {
    if it.tag in reg.byTag { WithoutMembers(reg.items, reg.byTag[it.tag]); }
  }

  lemma ListedAfterUnlist(reg: Registry, tag: Tag, chosen: Option<Item>)
    requires reg.Agrees() && Listed(chosen, reg.items) && tag in reg.byTag
    ensures Listed(chosen, reg.Kept(tag)) <==> chosen != Some(reg.byTag[tag])
  {
    WithoutMembers(reg.items, reg.byTag[tag]);
  }

  /** The item was the last to be marked, its Start failed and no other's did. */
  ghost predicate FailedLast(order: seq<Item>, it: Item) {
    order != [] && order[|order| - 1] == it && it.start.Fails? && NoneFailed(order[..|order| - 1])
  }

  /** The items were marked in the order of whole sweeps of the list. */
  ghost predicate SweptWhole(items: seq<Item>, order: seq<Item>) {
    exists passes: nat :: passes <= |items| + 1 && order == Sweeps(items, passes)
  }

  /** The items were marked in the order of sweeps of the list, the last one cut short. */
  ghost predicate SweptUpTo(items: seq<Item>, order: seq<Item>) {
    exists i: nat, passes: nat :: i <= |items| && order == Sweep(items[..i], Sweeps(items, passes))
  }

  /**
   Success exactly when the dependencies are closed and acyclic, and then in
   order; a "not found" tag is in no item, and "circular" exhibits a cycle.
   */
  ghost predicate ExactVerdict(items: seq<Item>, order: seq<Item>, outcome: Outcome) {
    && !outcome.NilItem?
    && (outcome.Started? <==> Closed(items) && Acyclic(items))
    && (outcome.Started? ==> TopologicalOrder(items, order))
    && (outcome.Diagnosed? && outcome.verdict.NotFound? ==> outcome.verdict.dependency !in Tags(items))
    && (outcome.Diagnosed? && outcome.verdict.Circular? ==>
          exists k :: 0 <= k < |outcome.verdict.tree|
            && Cycle(items, outcome.verdict.tree[k..] + [outcome.verdict.repeated]))
  }

  lemma VerdictIsExact(items: seq<Item>, byTag: map<Tag, Item>, order: seq<Item>, outcome: Outcome)
    requires Agree(items, byTag) && !outcome.StartFailed?
    requires outcome.Started? ==> TopologicalOrder(items, order)
    requires outcome.Started? || outcome.Diagnosed? ==> (outcome.Started? <==> HasTopologicalOrder(items))
    requires outcome.Diagnosed? ==> Truthful(items, byTag, Tags(order), outcome.verdict)
    requires outcome.NilItem? ==> !DistinctTags(items)
    ensures ExactVerdict(items, order, outcome)
  {
    OrderExistsIffClosedAcyclic(items);
    if outcome.Diagnosed? && outcome.verdict.Circular? {
      var path := CircularVerdictHasCycle(items, outcome.verdict.tree, outcome.verdict.repeated);
    }
  }

  /** Create got as far as changing the list and the map. */
  predicate Installed(r: Result) {
    r.Ok? || r.FakeIPDefault? || r.SecondFakeIP?
  }

  class TransportManager {
    const defaultTag: Tag
    var started: bool
    var transports: seq<Item>
    var transportByTag: map<Tag, Item>
    var dependByTag: DependBy
    var defaultTransport: Option<Item>
    var fakeIPTransport: Option<Item>

    function Reg(): Registry reads this { Registry(transports, transportByTag, dependByTag) }

    /** A server created under this tag becomes the default. */
    predicate Adopts(tag: Tag)
      reads this
    {
      tag == defaultTag || (defaultTag == "" && defaultTransport == None)
    }

    constructor (defaultTag: Tag)
      ensures this.defaultTag == defaultTag && !started && transports == []
      ensures defaultTransport == None && fakeIPTransport == None
      ensures Reg().Agrees() && Reg().IsExact()
    {
      this.defaultTag := defaultTag;
      started, transports, transportByTag, dependByTag := false, [], map[], map[];
      defaultTransport, fakeIPTransport := None, None;
      new;
      assert forall d :: Named(dependByTag, d) == {};
      assert forall d :: Dependents(transports, d) == {};
    }

    /** The end of Create: an installed server becomes the default, the fakeip server, or neither. */
    method Appoint(it: Item) returns (r: Result)
      modifies `defaultTransport, `fakeIPTransport
      ensures Installed(r)
      ensures r.FakeIPDefault? <==> old(Adopts(it.tag)) && it.kind == FAKE_IP
      ensures r.SecondFakeIP? <==> !old(Adopts(it.tag)) && it.kind == FAKE_IP && old(fakeIPTransport) != None
      ensures defaultTransport == if old(Adopts(it.tag)) && it.kind != FAKE_IP then Some(it) else old(defaultTransport)
      ensures fakeIPTransport == if r.Ok? && it.kind == FAKE_IP then Some(it) else old(fakeIPTransport)
    {
      if it.tag == defaultTag || (defaultTag == "" && defaultTransport == None) {
        if it.kind == FAKE_IP { return FakeIPDefault; }
        defaultTransport := Some(it);
      }
      if it.kind == FAKE_IP {
        if fakeIPTransport != None { return SecondFakeIP; }
        fakeIPTransport := Some(it);
      }
      return Ok;
    }

    /**
     `made` is what the registry constructs, `starts` and `closes` are the
     outcomes of starting it and of closing the item it replaces.
     */
    method Create(tag: Tag, made: Option<Item>, starts: bool, closes: bool) returns (r: Result)
      requires made.Some? ==> made.value.tag == tag && made.value !in transports
      modifies this
      ensures started == old(started)
      ensures Installed(r) || unchanged(this)
      ensures Installed(r) <==> tag != "" && made.Some? && !old(Reg()).Orphaned(tag)
                                && (started ==> starts && (tag in old(transportByTag) ==> closes))
      ensures r.Invalid? <==> tag == ""
      ensures r.ConstructError? <==> tag != "" && made.None?
      ensures r.StartError? <==> tag != "" && made.Some? && started && !starts
      ensures r.CloseError? <==> tag != "" && made.Some? && started && starts && tag in old(transportByTag) && !closes
      ensures r.IndexPanic? <==> tag != "" && made.Some? && old(Reg()).Orphaned(tag)
                                 && (started ==> starts && closes)
      ensures Installed(r) ==> Registered(old(dependByTag), made.value.deps, tag, dependByTag)
      ensures forall d :: Named(dependByTag, d) ==
                Named(old(dependByTag), d) + if Installed(r) && d in made.value.deps then {tag} else {}
      ensures old(Reg()).Agrees() ==> Reg().Agrees()
      ensures Installed(r) ==>
                && made.Some?
                && transports == old(Reg()).Kept(tag) + [made.value]
                && transportByTag == old(transportByTag)[tag := made.value]
                && (old(Reg()).Agrees() && old(Reg()).IsExact() ==>
                      (Reg().IsExact() <==> old(Reg()).KeepsDependencies(made.value)))
      // a fakeip server is refused as default, and refused for good once there has been one; both
      // come after the install
      ensures r.FakeIPDefault? <==> Installed(r) && old(Adopts(tag)) && made.value.kind == FAKE_IP
      ensures r.SecondFakeIP? <==>
                Installed(r) && !old(Adopts(tag)) && made.value.kind == FAKE_IP && old(fakeIPTransport) != None
      ensures defaultTransport == if Installed(r) && old(Adopts(tag)) && made.value.kind != FAKE_IP then made
                else old(defaultTransport)
      ensures fakeIPTransport == if r.Ok? && made.value.kind == FAKE_IP then made else old(fakeIPTransport)
      // the default dangles exactly when it was replaced and its successor was not adopted
      ensures Installed(r)
              && old(Reg()).Agrees() && Listed(old(defaultTransport), old(transports)) ==>
                (Listed(defaultTransport, transports) <==>
                 !(tag in old(transportByTag) && old(defaultTransport) == Some(old(transportByTag)[tag])
                   && (tag != defaultTag || made.value.kind == FAKE_IP)))
    {
      if tag == "" { return Invalid; }
      if made.None? { return ConstructError; }
      var transport := made.value;
      if started && !starts { return StartError; }
      if tag in transportByTag && started && !closes { return CloseError; }
      ghost var before, chosen := Reg(), defaultTransport;
      var ok, reg := Install(Reg(), transport);
      if !ok { return IndexPanic; }
      transports, transportByTag, dependByTag := reg.items, reg.byTag, reg.names;
      if before.Agrees() && Listed(chosen, before.items) { ListedAfterInstall(before, transport, chosen); }
      r := Appoint(transport);
    }

    method Remove(tag: Tag) returns (r: Result)
      modifies this
      ensures started == old(started) && fakeIPTransport == old(fakeIPTransport)
      ensures r.Ok? || r.FakeIPDefault? || r.StillDependedOn? || r.Invalid? || r.IndexPanic?
      ensures r.Invalid? <==> tag !in old(transportByTag)
      ensures r.Invalid? ==> unchanged(this)
      ensures r.IndexPanic? <==> old(Reg()).Orphaned(tag)
      ensures transports == old(Reg()).Kept(tag) && transportByTag == old(transportByTag) - {tag}
      ensures old(Reg()).Agrees() ==> Reg().Agrees()
      // the type test refuses every successor that is NOT fakeip
      ensures r.FakeIPDefault? <==> tag in old(transportByTag) && !r.IndexPanic?
                                    && old(defaultTransport) == Some(old(transportByTag)[tag])
                                    && transports != [] && transports[0].kind != FAKE_IP
      ensures old(Reg()).Agrees() && Listed(old(defaultTransport), old(transports)) ==>
                (Listed(defaultTransport, transports) <==> !r.FakeIPDefault?)
      // a removed default hands over to the first of the rest
      ensures defaultTransport == if (r.Ok? || r.StillDependedOn?)
                && old(defaultTransport) == Some(old(transportByTag)[tag])
                then (if transports == [] then None else Some(transports[0])) else old(defaultTransport)
      ensures if r.Ok? then
                forall d :: Entry(dependByTag, d)
                  == Times(Entry(old(dependByTag), d), tag, Count(old(transportByTag)[tag].deps, d))
              else dependByTag == old(dependByTag)
      // with an exact map, a removal that gets that far is refused iff some item depends on the tag
      ensures old(Reg()).IsExact() && (r.Ok? || r.StillDependedOn?) ==>
                (r.StillDependedOn? <==> Dependents(old(transports), tag) != {})
      ensures r.StillDependedOn? <==>
                !r.Invalid? && !r.IndexPanic? && !r.FakeIPDefault? && Entry(old(dependByTag), tag) != []
      ensures r.StillDependedOn? ==> r.dependents == Entry(old(dependByTag), tag)
      ensures (r.FakeIPDefault? || r.StillDependedOn?) && old(Reg()).Agrees() && old(Reg()).IsExact() ==>
                (Reg().IsExact() <==> old(transportByTag)[tag].deps == [])
      ensures r.Ok? && old(Reg()).Agrees() && old(Reg()).IsExact() ==>
                (Reg().IsExact() <==> !old(Reg()).ForgetsOther(old(transportByTag)[tag]))
    {
      if tag !in transportByTag {
        assert transportByTag - {tag} == transportByTag;
        return Invalid;
      }
      ghost var before, chosen := Reg(), defaultTransport;
      var transport := transportByTag[tag];
      var ok, reg := Unlist(Reg(), tag);
      transports, transportByTag := reg.items, reg.byTag;
      if !ok { return IndexPanic; }
      if before.Agrees() && Listed(chosen, before.items) { ListedAfterUnlist(before, tag, chosen); }
      if defaultTransport == Some(transport) {
        if |transports| > 0 {
          var next := transports[0];
          if next.kind != FAKE_IP { return FakeIPDefault; }
          defaultTransport := Some(next);
        } else {
          defaultTransport := None;
        }
      }
      var left := Release(dependByTag, tag, transport, before);
      if left.None? { return StillDependedOn(Entry(dependByTag, tag)); }
      dependByTag := left.value;
      return Ok;
    }

    /** Close empties the list but keeps the map, so every known tag becomes an orphan. */
    method Close()
      modifies this
      ensures transportByTag == old(transportByTag) && dependByTag == old(dependByTag) && !started
      ensures defaultTransport == old(defaultTransport) && fakeIPTransport == old(fakeIPTransport)
      ensures transports == if old(started) then [] else old(transports)
      ensures old(started) ==> forall tag :: tag in transportByTag ==> Reg().Orphaned(tag)
    {
      if !started { return; }
      started := false;
      transports := [];
    }

    /** A manager without a default and without a default tag takes the fallback server for one. */
    method ResolveDefault(fallback: Option<Item>) returns (ok: bool)
      modifies `transports, `transportByTag, `defaultTransport
      ensures ok <==> old(defaultTransport).Some? || (defaultTag == "" && fallback.Some?)
      ensures !ok || old(defaultTransport).Some? ==> Reg() == old(Reg()) && defaultTransport == old(defaultTransport)
      ensures ok && old(defaultTransport) == None ==>
                && transports == old(transports) + [fallback.value] && defaultTransport == fallback
                && (old(Reg()).Agrees() ==> (Reg().Agrees() <==> fallback.value.tag !in old(transportByTag)))
    {
      if defaultTag != "" && defaultTransport == None { return false; }
      if defaultTransport == None {
        if fallback.None? { return false; }
        if Reg().Agrees() { FallbackAgreement(transports, transportByTag, fallback.value); }
        transports := transports + [fallback.value];
        transportByTag := transportByTag[fallback.value.tag := fallback.value];
        defaultTransport := fallback;
      }
      return true;
    }

    /** The start stage proper: default resolution, the fallback server, then the ordered start. */
    method Start(fallback: Option<Item>) returns (r: Option<Outcome>, order: seq<Item>)
      modifies this
      ensures started
      ensures r.None? <==> old(defaultTransport) == None && (defaultTag != "" || fallback.None?)
      ensures r.None? ==> order == [] && Reg() == old(Reg())
      ensures r.Some? ==> defaultTransport.Some? && PartialOrder(transports, order)
      ensures defaultTransport == if old(defaultTransport) == None && r.Some? then fallback else old(defaultTransport)
      ensures r.Some? && r.value.StartFailed? ==> FailedLast(order, r.value.item)
      ensures r.Some? && !r.value.StartFailed? ==> NoneFailed(order) && SweptWhole(transports, order)
      ensures r.Some? && r.value.StartFailed? ==> SweptUpTo(transports, order)
      ensures old(Reg()).Agrees() ==>
                (Reg().Agrees() <==>
                    !(r.Some? && old(defaultTransport) == None && fallback.value.tag in old(transportByTag)))
      // restarted after Close, with an empty list, a full map and a default, it succeeds having started nothing
      ensures transports == old(transports)
                || (old(defaultTransport) == None && transports == old(transports) + [fallback.value])
      ensures r.Some? && transports == [] ==> r.value.Started? && order == []
      ensures old(defaultTransport).Some? ==> Reg() == old(Reg()) && defaultTransport == old(defaultTransport)
      // exact verdicts for an agreeing list and map
      ensures r.Some? && !r.value.StartFailed? && Reg().Agrees() ==> ExactVerdict(transports, order, r.value)
    {
      started := true;
      var ok := ResolveDefault(fallback);
      if !ok { return None, []; }
      var outcome, marked, passes := StartAll(transports, transportByTag);
      if transports == [] { assert TopologicalOrder(transports, []); }
      if Reg().Agrees() && !outcome.StartFailed? { VerdictIsExact(transports, transportByTag, marked, outcome); }
      return Some(outcome), marked;
    }
  }

  lemma {:induction false} WithoutSubset(items: seq<Item>, it: Item, x: Item)
    requires x in Without(items, it)
    ensures x in items
  {
    if items != [] && items[0] != it && x != items[0] { WithoutSubset(items[1..], it, x); }
  }

  /** Removing the fakeip server does not make room for another: the next one is refused, yet installed. */
  method FakeIPIsNeverReplaced(m: TransportManager, tag: Tag, made: Item, starts: bool, closes: bool)
    returns (removed: Result, created: Result)
    requires m.fakeIPTransport.Some? && tag in m.transportByTag && m.transportByTag[tag] == m.fakeIPTransport.value
    requires made.kind == FAKE_IP && made !in m.transports
    modifies m
    ensures !created.Ok? && m.fakeIPTransport == old(m.fakeIPTransport)
    ensures Installed(created) ==>
              made in m.transports && made.tag in m.transportByTag && m.transportByTag[made.tag] == made
  {
    removed := m.Remove(tag);
    if made in m.transports { WithoutSubset(old(m.transports), old(m.transportByTag)[tag], made); }
    created := m.Create(made.tag, Some(made), starts, closes);
  }

  /**
   A manager restarted after Close keeps its default and its map and reports
   success, having started no server at all.
   */
  method RestartStartsNothing(m: TransportManager, fallback: Option<Item>)
      returns (r: Option<Outcome>, order: seq<Item>)
    requires m.started && m.defaultTransport.Some?
    modifies m
    ensures r == Some(Outcome.Started) && order == [] && m.transports == []
    ensures m.transportByTag == old(m.transportByTag) && m.defaultTransport == old(m.defaultTransport)
  {
    m.Close();
    r, order := m.Start(fallback);
  }

  /** Appending without looking: agreement survives exactly when the tag was free. */
  lemma FallbackAgreement(items: seq<Item>, byTag: map<Tag, Item>, it: Item)
    requires Agree(items, byTag)
    ensures Agree(items + [it], byTag[it.tag := it]) <==> it.tag !in byTag
    ensures MapWithinList(items + [it], byTag[it.tag := it])
  {
    if it.tag !in byTag {
      AgreeAfterInsertion(items, byTag, it);
    } else {
      DistinctSnoc(items, it);
    }
  }

  class OutboundManager {
    const defaultTag: Tag
    var started: bool
    var outbounds: seq<Item>
    var outboundByTag: map<Tag, Item>
    var dependByTag: DependBy
    var defaultOutbound: Option<Item>

    function Reg(): Registry reads this { Registry(outbounds, outboundByTag, dependByTag) }

    constructor (defaultTag: Tag)
      ensures this.defaultTag == defaultTag && !started && outbounds == [] && defaultOutbound == None
      ensures Reg().Agrees() && Reg().IsExact()
    {
      this.defaultTag := defaultTag;
      started, outbounds, outboundByTag, dependByTag, defaultOutbound := false, [], map[], map[], None;
      new;
      assert forall d :: Named(dependByTag, d) == {};
      assert forall d :: Dependents(outbounds, d) == {};
    }

    /**
     `made` is the configured outbound, or None when its constructor fails or
     panics; `placeholder` is the invalid-config outbound built in its stead.
     */
    method Create(tag: Tag, made: Option<Item>, placeholder: Option<Item>, starts: bool, closes: bool)
        returns (r: Result)
      requires made.Some? ==> made.value.tag == tag && made.value !in outbounds
      requires placeholder.Some? ==> placeholder.value.tag == tag && placeholder.value !in outbounds
      modifies this
      ensures started == old(started)
      ensures r.Ok? || unchanged(this)
      ensures r.Ok? <==> tag != "" && (made.Some? || placeholder.Some?) && !old(Reg()).Orphaned(tag)
                         && (started ==> starts && (tag in old(outboundByTag) ==> closes))
      ensures r.Invalid? <==> tag == ""
      ensures r.StartError? <==> tag != "" && (made.Some? || placeholder.Some?) && started && !starts
      ensures r.CloseError? <==>
                tag != "" && (made.Some? || placeholder.Some?) && started && starts && tag in old(outboundByTag)
                    && !closes
      ensures r.ConstructError? <==> tag != "" && made.None? && placeholder.None?
      // the first under no default tag, or any under the default tag, becomes the default
      ensures r.Ok? ==>
                defaultOutbound == if tag == defaultTag || (defaultTag == "" && old(defaultOutbound) == None)
                  then (if made.Some? then made else placeholder) else old(defaultOutbound)
      ensures r.Ok? ==>
                Registered(old(dependByTag), (if made.Some? then made else placeholder).value.deps, tag, dependByTag)
      ensures r.Ok? ==>
                forall d :: Named(dependByTag, d) == Named(old(dependByTag), d)
                  + if d in (if made.Some? then made else placeholder).value.deps then {tag} else {}
      ensures r.IndexPanic? <==> tag != "" && (made.Some? || placeholder.Some?) && old(Reg()).Orphaned(tag)
                                 && (started ==> starts && closes)
      ensures old(Reg()).Agrees() ==> Reg().Agrees()
      ensures r.Ok? ==>
                var it := if made.Some? then made else placeholder;
                && it.Some?
                && outbounds == old(Reg()).Kept(tag) + [it.value]
                && outboundByTag == old(outboundByTag)[tag := it.value]
                && (old(Reg()).Agrees() && old(Reg()).IsExact() ==>
                      (Reg().IsExact() <==> old(Reg()).KeepsDependencies(it.value)))
      ensures r.Ok? && old(Reg()).Agrees() && Listed(old(defaultOutbound), old(outbounds)) ==>
                (Listed(defaultOutbound, outbounds) <==>
                 !(tag in old(outboundByTag) && old(defaultOutbound) == Some(old(outboundByTag)[tag])
                     && tag != defaultTag))
    {
      if tag == "" { return Invalid; }
      var built := made;
      if built.None? { built := placeholder; }
      if built.None? { return ConstructError; }
      var outbound := built.value;
      if started && !starts { return StartError; }
      if tag in outboundByTag && started && !closes { return CloseError; }
      ghost var before, chosen := Reg(), defaultOutbound;
      var ok, reg := Install(Reg(), outbound);
      if !ok { return IndexPanic; }
      outbounds, outboundByTag, dependByTag := reg.items, reg.byTag, reg.names;
      if before.Agrees() && Listed(chosen, before.items) { ListedAfterInstall(before, outbound, chosen); }
      if tag == defaultTag || (defaultTag == "" && defaultOutbound == None) {
        defaultOutbound := Some(outbound);
      }
      return Ok;
    }

    method Remove(tag: Tag, closes: bool) returns (r: Result)
      modifies this
      ensures started == old(started)
      ensures r.Ok? || r.CloseError? || r.StillDependedOn? || r.Invalid? || r.IndexPanic?
      ensures r.Invalid? <==> tag !in old(outboundByTag)
      ensures r.Invalid? ==> unchanged(this)
      ensures r.IndexPanic? <==> old(Reg()).Orphaned(tag)
      ensures r.CloseError? <==> !r.Invalid? && !r.IndexPanic? && !r.StillDependedOn? && started && !closes
      // a removed default hands over to the first of the rest
      ensures defaultOutbound == if !r.Invalid? && !r.IndexPanic?
                && old(defaultOutbound) == Some(old(outboundByTag)[tag])
                then (if outbounds == [] then None else Some(outbounds[0])) else old(defaultOutbound)
      ensures if r.Ok? || r.CloseError? then
                forall d :: Entry(dependByTag, d)
                  == Times(Entry(old(dependByTag), d), tag, Count(old(outboundByTag)[tag].deps, d))
              else dependByTag == old(dependByTag)
      ensures outbounds == old(Reg()).Kept(tag) && outboundByTag == old(outboundByTag) - {tag}
      ensures old(Reg()).Agrees() ==> Reg().Agrees()
      ensures old(Reg()).Agrees() && Listed(old(defaultOutbound), old(outbounds)) ==> Listed(defaultOutbound, outbounds)
      ensures old(Reg()).IsExact() && (r.Ok? || r.CloseError? || r.StillDependedOn?) ==>
                (r.StillDependedOn? <==> Dependents(old(outbounds), tag) != {})
      ensures r.StillDependedOn? <==> !r.Invalid? && !r.IndexPanic? && Entry(old(dependByTag), tag) != []
      ensures r.StillDependedOn? ==> r.dependents == Entry(old(dependByTag), tag)
      ensures r.StillDependedOn? && old(Reg()).Agrees() && old(Reg()).IsExact() ==>
                (Reg().IsExact() <==> old(outboundByTag)[tag].deps == [])
      ensures (r.Ok? || r.CloseError?) && old(Reg()).Agrees() && old(Reg()).IsExact() ==>
                (Reg().IsExact() <==> !old(Reg()).ForgetsOther(old(outboundByTag)[tag]))
    {
      if tag !in outboundByTag {
        assert outboundByTag - {tag} == outboundByTag;
        return Invalid;
      }
      ghost var before, chosen := Reg(), defaultOutbound;
      var outbound := outboundByTag[tag];
      var ok, reg := Unlist(Reg(), tag);
      outbounds, outboundByTag := reg.items, reg.byTag;
      if !ok { return IndexPanic; }
      if before.Agrees() && Listed(chosen, before.items) { ListedAfterUnlist(before, tag, chosen); }
      if defaultOutbound == Some(outbound) {
        defaultOutbound := if |outbounds| > 0 then Some(outbounds[0]) else None;
      }
      var left := Release(dependByTag, tag, outbound, before);
      if left.None? { return StillDependedOn(Entry(dependByTag, tag)); }
      dependByTag := left.value;
      if started && !closes { return CloseError; }
      return Ok;
    }

    /** Outbounds and endpoints start together, but the diagnosis only looks tags up among the outbounds. */
    method StartOutbounds(endpoints: seq<Item>) returns (outcome: Outcome, order: seq<Item>, passes: nat)
      ensures PartialOrder(outbounds + endpoints, order)
      ensures passes <= if |outbounds + endpoints| == 0 then 1 else |outbounds + endpoints|
      ensures outcome.StartFailed? ==> FailedLast(order, outcome.item)
      ensures !outcome.StartFailed? ==> NoneFailed(order) && order == Sweeps(outbounds + endpoints, passes)
      ensures outcome.StartFailed? ==> SweptUpTo(outbounds + endpoints, order)
      ensures outcome.Started? ==> TopologicalOrder(outbounds + endpoints, order)
      ensures DistinctTags(outbounds + endpoints) && !outcome.StartFailed? ==>
                (outcome.Started? <==> Closed(outbounds + endpoints) && Acyclic(outbounds + endpoints))
      ensures outcome.NilItem? ==> !DistinctTags(outbounds + endpoints)
      // "not found" is true of the whole system exactly when the name is not an endpoint's
      ensures Reg().Agrees() && outcome.Diagnosed? && outcome.verdict.NotFound? ==>
                (outcome.verdict.dependency !in Tags(outbounds + endpoints)
                 <==> outcome.verdict.dependency !in Tags(endpoints))
      // "circular" exhibits a cycle of the whole system
      ensures Reg().Agrees() && outcome.Diagnosed? && outcome.verdict.Circular? ==>
                exists k :: 0 <= k < |outcome.verdict.tree|
                  && Cycle(outbounds + endpoints, outcome.verdict.tree[k..] + [outcome.verdict.repeated])
    {
      var all := outbounds + endpoints;
      outcome, order, passes := StartAll(all, outboundByTag);
      if Reg().Agrees() && outcome.Diagnosed? && outcome.verdict.Circular? {
        var path := CircularVerdictHasCycle(all, outcome.verdict.tree, outcome.verdict.repeated);
      }
      if DistinctTags(all) { OrderExistsIffClosedAcyclic(all); }
      assert Tags(all) == Tags(outbounds) + Tags(endpoints);
    }
  }

  /** Two listings of one dependency make a completed Remove forget another item's registration. */
  lemma DuplicateDependencyLosesOther()
    ensures var a, b := Item(0, "a", "", [], NoStarter), Item(1, "b", "", ["a"], NoStarter);
            var c := Item(2, "c", "", ["a", "a"], NoStarter);
            var names: DependBy := map["a" := ["b", "c", "c"]];
            && Agree([a, b, c], map["a" := a, "b" := b, "c" := c])
            && Exact([a, b, c], names)
            && LosesOther(Entry(names, "a"), "c", Count(c.deps, "a"))
  {
    var a, b := Item(0, "a", "", [], NoStarter), Item(1, "b", "", ["a"], NoStarter);
    var c := Item(2, "c", "", ["a", "a"], NoStarter);
    var names: DependBy := map["a" := ["b", "c", "c"]];
    assert Tags([a, b, c]) == {"a", "b", "c"};
    forall d ensures Named(names, d) == Dependents([a, b, c], d) {
      if d == "a" {
        assert b in [a, b, c] && c in [a, b, c];
        assert Dependents([a, b, c], d) == {"b", "c"};
        assert Named(names, d) == {"b", "c"};
      } else {
        assert Named(names, d) == {};
        assert Dependents([a, b, c], d) == {};
      }
    }
    assert Drop(["c"], "c") == [] && Drop(["c", "c"], "c") == Drop(["c"], "c");
    assert Count(["a", "a"], "a") == 2 by { assert ["a", "a"][1..] == ["a"]; }
  }
}
