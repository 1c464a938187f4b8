/**
 Dependency-ordered start-up, shared by the DNS transport manager and the
 outbound manager: passes over the item list start every item whose
 dependencies are all started; when a pass makes no progress a recursive
 diagnosis names a cycle or a missing dependency.
 */
module DependencyStart {
  import opened Counting

  type Tag = string

  /** What calling Start on an item does; an item may also have no Start at all. */
  datatype StartOutcome = NoStarter | Succeeds | Fails

  /** A managed item. `id` is its object identity. */
  datatype Item = Item(id: nat, tag: Tag, kind: string, deps: seq<Tag>, start: StartOutcome)

  datatype Verdict =
    | Circular(tree: seq<Tag>, repeated: Tag)
    | NotFound(dependency: Tag, dependent: Tag)

  datatype Outcome =
    | Started
    | StartFailed(item: Item)
    | Diagnosed(verdict: Verdict)
    | NilItem  // the diagnosis is asked about an unstarted item and there is none: a nil dereference

  function Tags(items: seq<Item>): set<Tag> {
    set it | it in items :: it.tag
  }

  ghost predicate DistinctTags(items: seq<Item>) {
    forall i, j :: 0 <= i < j < |items| ==> items[i].tag != items[j].tag
  }

  /** Every dependency of the k-th item is the tag of an earlier one. */
  ghost predicate DepsEarlier(order: seq<Item>) {
    forall k, d :: 0 <= k < |order| && d in order[k].deps ==> d in Tags(order[..k])
  }

  /** A start order so far: items of the list, no tag twice, dependencies first. */
  ghost predicate PartialOrder(items: seq<Item>, order: seq<Item>) {
    && DistinctTags(order)
    && DepsEarlier(order)
    && forall it :: it in order ==> it in items
  }

  ghost predicate TopologicalOrder(items: seq<Item>, order: seq<Item>) {
    && PartialOrder(items, order)
    && |order| == |items|
    && forall it :: it in items ==> it in order
  }

  ghost predicate HasTopologicalOrder(items: seq<Item>) {
    exists order :: TopologicalOrder(items, order)
  }

  // ---- the dependency graph, without reference to any order ----

  ghost predicate Edge(items: seq<Item>, a: Tag, b: Tag) {
    exists it :: it in items && it.tag == a && b in it.deps
  }

  ghost predicate Chain(items: seq<Item>, path: seq<Tag>) {
    forall i :: 0 <= i < |path| - 1 ==> Edge(items, path[i], path[i + 1])
  }

  ghost predicate Cycle(items: seq<Item>, path: seq<Tag>) {
    |path| >= 2 && path[0] == path[|path| - 1] && Chain(items, path)
  }

  ghost predicate Acyclic(items: seq<Item>) {
    forall path :: !Cycle(items, path)
  }

  ghost predicate Closed(items: seq<Item>) {
    forall it, d :: it in items && d in it.deps ==> d in Tags(items)
  }

  /** Each entry of the by-tag map is an item of the list under its own tag. */
  ghost predicate MapWithinList(items: seq<Item>, byTag: map<Tag, Item>) {
    forall t :: t in byTag ==> byTag[t] in items && byTag[t].tag == t
  }

  predicate Blocked(it: Item, started: set<Tag>) {
    exists d :: d in it.deps && d !in started
  }

  ghost predicate Stuck(items: seq<Item>, started: set<Tag>) {
    forall it :: it in items && it.tag !in started ==> Blocked(it, started)
  }

  // ---- the diagnosis ----

  /** The first dependency that is not started, or "" when there is none. */
  function FirstUnstarted(deps: seq<Tag>, started: set<Tag>): (d: Tag)
    ensures (exists x :: x in deps && x !in started) ==> d in deps && d !in started
    ensures (forall x :: x in deps ==> x in started) ==> d == ""
  {
    if deps == [] then ""
    else if deps[0] !in started then deps[0]
    else FirstUnstarted(deps[1..], started)
  }

  /** It is the first: everything listed before it is started. */
  lemma {:induction false} FirstUnstartedIsFirst(deps: seq<Tag>, started: set<Tag>, i: nat)
    requires i < |deps| && deps[i] !in started && forall j :: 0 <= j < i ==> deps[j] in started
    ensures FirstUnstarted(deps, started) == deps[i]
  {
    if i > 0 { FirstUnstartedIsFirst(deps[1..], started, i - 1); }
  }

  function Lint(byTag: map<Tag, Item>, started: set<Tag>, tree: seq<Tag>, current: Item): Verdict
    decreases |byTag.Keys - (set t | t in tree)|
  {
    var problem := FirstUnstarted(current.deps, started);
    if problem in tree then Circular(tree, problem)
    else if problem !in byTag then NotFound(problem, current.tag)
    else
      TreeGrows(byTag.Keys, tree, problem);
      Lint(byTag, started, tree + [problem], byTag[problem])
  }

  lemma TreeGrows(keys: set<Tag>, tree: seq<Tag>, t: Tag)
    requires t in keys && t !in tree
    ensures |keys - (set x | x in tree + [t])| < |keys - (set x | x in tree)|
  {
    var before := keys - (set x | x in tree);
    assert keys - (set x | x in tree + [t]) == before - {t};
  }

  /** What a verdict has to exhibit to be true of the graph. */
  ghost predicate Truthful(items: seq<Item>, byTag: map<Tag, Item>, started: set<Tag>, v: Verdict) {
    match v
    case Circular(tree, repeated) =>
      && repeated in tree
      && Chain(items, tree + [repeated])
      && forall t :: t in tree ==> t !in started && t in Tags(items)
    case NotFound(dependency, dependent) =>
      && dependency !in byTag
      && dependency !in started
      && Edge(items, dependent, dependency)
  }

  lemma {:induction false} LintIsTruthful(items: seq<Item>, byTag: map<Tag, Item>, started: set<Tag>, tree: seq<Tag>,
                                          current: Item)
    requires MapWithinList(items, byTag) && Stuck(items, started)
    requires current in items && current.tag !in started
    requires |tree| > 0 && tree[|tree| - 1] == current.tag
    requires Chain(items, tree)
    requires forall t :: t in tree ==> t !in started && t in Tags(items)
    ensures Truthful(items, byTag, started, Lint(byTag, started, tree, current))
    decreases |byTag.Keys - (set t | t in tree)|
  {
    assert Blocked(current, started);
    var problem := FirstUnstarted(current.deps, started);
    assert Edge(items, current.tag, problem);
    assert Chain(items, tree + [problem]);
    if problem !in tree && problem in byTag {
      TreeGrows(byTag.Keys, tree, problem);
      LintIsTruthful(items, byTag, started, tree + [problem], byTag[problem]);
    }
  }

  /** A way from item to item by the first dependency that is not started, through known tags not passed before. */
  ghost predicate Walk(byTag: map<Tag, Item>, started: set<Tag>, tree: seq<Tag>, path: seq<Item>, passed: seq<Tag>) {
    && |path| == |passed| + 1
    && forall i :: 0 <= i < |passed| ==>
         && passed[i] == FirstUnstarted(path[i].deps, started) && passed[i] in byTag
         && path[i + 1] == byTag[passed[i]] && passed[i] !in tree && passed[i] !in passed[..i]
  }

  lemma WalkCons(byTag: map<Tag, Item>, started: set<Tag>, tree: seq<Tag>, current: Item, path: seq<Item>,
                 passed: seq<Tag>)
    requires var problem := FirstUnstarted(current.deps, started);
             && problem in byTag && problem !in tree && path != [] && path[0] == byTag[problem]
             && Walk(byTag, started, tree + [problem], path, passed)
    ensures Walk(byTag, started, tree, [current] + path, [FirstUnstarted(current.deps, started)] + passed)
  {
    var problem := FirstUnstarted(current.deps, started);
    var path', passed' := [current] + path, [problem] + passed;
    forall i | 0 <= i < |passed'|
      ensures passed'[i] == FirstUnstarted(path'[i].deps, started) && passed'[i] in byTag
      ensures path'[i + 1] == byTag[passed'[i]] && passed'[i] !in tree && passed'[i] !in passed'[..i]
    {
      if i > 0 { assert passed'[i] == passed[i - 1] && passed'[..i] == [problem] + passed[..i - 1]; }
    }
  }

  /**
   The diagnosis walks from item to item by the first dependency that is not
   started, as long as that is known and was not passed before; what it reports
   is the way it came and where it could not go on.
   */
  lemma {:induction false} LintWalks(byTag: map<Tag, Item>, started: set<Tag>, tree: seq<Tag>, current: Item)
    returns (path: seq<Item>, passed: seq<Tag>)
    ensures path != [] && path[0] == current && Walk(byTag, started, tree, path, passed)
    ensures var last := path[|passed|];
            var problem := FirstUnstarted(last.deps, started);
            && (problem in tree + passed || problem !in byTag)
            && Lint(byTag, started, tree, current)
               == if problem in tree + passed then Circular(tree + passed, problem) else NotFound(problem, last.tag)
    decreases |byTag.Keys - (set t | t in tree)|
  {
    var problem := FirstUnstarted(current.deps, started);
    path, passed := [current], [];
    assert tree + [] == tree;
    if problem !in tree && problem in byTag {
      TreeGrows(byTag.Keys, tree, problem);
      var further, behind := LintWalks(byTag, started, tree + [problem], byTag[problem]);
      path, passed := [current] + further, [problem] + behind;
      WalkCons(byTag, started, tree, current, further, behind);
      assert (tree + [problem]) + behind == tree + passed;
    }
  }

  /** A circular verdict contains an actual cycle: the tree from the first occurrence of the repeated tag. */
  lemma CircularVerdictHasCycle(items: seq<Item>, tree: seq<Tag>, repeated: Tag) returns (path: seq<Tag>)
    requires repeated in tree && Chain(items, tree + [repeated])
    ensures Cycle(items, path)
    ensures exists k :: 0 <= k < |tree| && tree[k] == repeated && path == tree[k..] + [repeated]
  {
    var k :| 0 <= k < |tree| && tree[k] == repeated;
    path := tree[k..] + [repeated];
    forall i | 0 <= i < |path| - 1
      ensures Edge(items, path[i], path[i + 1])
    {
      assert path[i] == (tree + [repeated])[k + i] && path[i + 1] == (tree + [repeated])[k + i + 1];
    }
  }

  // ---- counting ----

  lemma DistinctSnoc(front: seq<Item>, x: Item)
    ensures DistinctTags(front + [x]) <==> DistinctTags(front) && x.tag !in Tags(front)
  {
    var items := front + [x];
    if DistinctTags(items) {
      forall i, j | 0 <= i < j < |front| ensures front[i].tag != front[j].tag {
        assert items[i].tag != items[j].tag;
      }
      forall y | y in front ensures y.tag != x.tag {
        var i :| 0 <= i < |front| && front[i] == y;
        assert items[i].tag != items[|front|].tag;
      }
    }
    if DistinctTags(front) && x.tag !in Tags(front) {
      forall i, j | 0 <= i < j < |items| ensures items[i].tag != items[j].tag {
        if j == |front| { assert front[i] in front; }
      }
    }
  }

  lemma {:induction false} TagCount(items: seq<Item>)
    ensures |Tags(items)| <= |items|
    ensures |Tags(items)| == |items| <==> DistinctTags(items)
  {
    if items != [] {
      var front, x := items[..|items| - 1], items[|items| - 1];
      assert items == front + [x];
      TagCount(front);
      DistinctSnoc(front, x);
      assert Tags(items) == Tags(front) + {x.tag};
    }
  }

  lemma PartialOrderFits(items: seq<Item>, order: seq<Item>)
    requires PartialOrder(items, order)
    ensures |Tags(order)| == |order| <= |items|
    ensures |order| == |items| ==> DistinctTags(items) && TopologicalOrder(items, order)
  {
    TagCount(order);
    TagCount(items);
    assert Tags(order) <= Tags(items);
    SubsetCard(Tags(order), Tags(items));
    if |order| == |items| {
      assert Tags(order) == Tags(items);
      assert DistinctTags(items);
      forall it | it in items ensures it in order {
        assert it.tag in Tags(order);
        var o :| o in order && o.tag == it.tag;
        SameTagSameItem(items, o, it);
      }
    }
  }

  lemma SameTagSameItem(items: seq<Item>, a: Item, b: Item)
    requires DistinctTags(items) && a in items && b in items && a.tag == b.tag
    ensures a == b
  {
    var i :| 0 <= i < |items| && items[i] == a;
    var j :| 0 <= j < |items| && items[j] == b;
  }

  lemma PartialOrderExtends(items: seq<Item>, order: seq<Item>, it: Item)
    requires PartialOrder(items, order) && it in items
    requires it.tag !in Tags(order) && !Blocked(it, Tags(order))
    ensures PartialOrder(items, order + [it])
    ensures Tags(order + [it]) == Tags(order) + {it.tag}
  {
    var longer := order + [it];
    DistinctSnoc(order, it);
    forall k, d | 0 <= k < |longer| && d in longer[k].deps ensures d in Tags(longer[..k]) {
      if k < |order| { assert longer[..k] == order[..k]; } else { assert longer[..k] == order; }
    }
  }

  // ---- when a start order exists ----

  /** A stuck set of started tags contains everything that any start order could reach. */
  lemma {:induction false} OrderRunsThroughStuck(items: seq<Item>, order: seq<Item>, started: set<Tag>, k: nat)
    requires PartialOrder(items, order) && Stuck(items, started) && k <= |order|
    ensures Tags(order[..k]) <= started
  {
    if k > 0 {
      OrderRunsThroughStuck(items, order, started, k - 1);
      var it := order[k - 1];
      assert it in order;
      assert order[..k] == order[..k - 1] + [it];
      assert forall d :: d in it.deps ==> d in Tags(order[..k - 1]);
    }
  }

  lemma StuckRefutesOrder(items: seq<Item>, started: set<Tag>, it: Item)
    requires Stuck(items, started) && it in items && it.tag !in started
    ensures !HasTopologicalOrder(items)
  {
    forall order | TopologicalOrder(items, order) ensures false {
      assert order[..|order|] == order && it in order;
      OrderRunsThroughStuck(items, order, started, |order|);
    }
  }

  lemma StuckIsMaximal(items: seq<Item>, started: set<Tag>)
    requires Stuck(items, started)
    ensures forall order :: PartialOrder(items, order) ==> Tags(order) <= started
  {
    forall order | PartialOrder(items, order) ensures Tags(order) <= started {
      assert order[..|order|] == order;
      OrderRunsThroughStuck(items, order, started, |order|);
    }
  }

  /** Along a chain, positions in a topological order strictly decrease. */
  lemma {:induction false} ChainDescends(items: seq<Item>, order: seq<Item>, path: seq<Tag>, k: nat)
    requires TopologicalOrder(items, order) && |path| >= 2 && Chain(items, path)
    requires k < |order| && order[k].tag == path[0]
    ensures exists j :: 0 <= j < k && order[j].tag == path[|path| - 1]
    decreases |path|
  {
    assert Edge(items, path[0], path[1]);
    var it :| it in items && it.tag == path[0] && path[1] in it.deps;
    assert it in order && order[k] in order;
    SameTagSameItem(order, it, order[k]);
    assert path[1] in Tags(order[..k]);
    var x :| x in order[..k] && x.tag == path[1];
    var j :| 0 <= j < k && order[j] == x;
    if |path| > 2 {
      var rest := path[1..];
      assert Chain(items, rest) by {
        forall i | 0 <= i < |rest| - 1 ensures Edge(items, rest[i], rest[i + 1]) {
          assert rest[i] == path[i + 1] && rest[i + 1] == path[i + 2];
        }
      }
      ChainDescends(items, order, rest, j);
    }
  }

  lemma OrderedIsClosedAcyclic(items: seq<Item>)
    requires HasTopologicalOrder(items)
    ensures Closed(items) && Acyclic(items)
  {
    var order :| TopologicalOrder(items, order);
    forall it, d | it in items && d in it.deps ensures d in Tags(items) {
      var k :| 0 <= k < |order| && order[k] == it;
      assert d in Tags(order[..k]);
    }
    forall path ensures !Cycle(items, path) {
      if Cycle(items, path) {
        assert Edge(items, path[0], path[1]);
        var it :| it in items && it.tag == path[0] && path[1] in it.deps;
        var k :| 0 <= k < |order| && order[k] == it;
        ChainDescends(items, order, path, k);
      }
    }
  }

  /** The map a manager keeps: every item of the list under its tag. */
  ghost function FullMap(items: seq<Item>): (m: map<Tag, Item>)
    requires DistinctTags(items)
    ensures MapWithinList(items, m) && m.Keys == Tags(items)
  {
    map t | t in Tags(items) :: (var it :| it in items && it.tag == t; it)
  }

  /** A partial order of a closed acyclic graph always extends to a full one. */
  lemma {:induction false} ExtendOrder(items: seq<Item>, order: seq<Item>)
    requires DistinctTags(items) && Closed(items) && Acyclic(items) && PartialOrder(items, order)
    ensures HasTopologicalOrder(items)
    decreases |items| - |order|
  {
    PartialOrderFits(items, order);
    if |order| < |items| {
      var started := Tags(order);
      if it :| it in items && it.tag !in started && !Blocked(it, started) {
        PartialOrderExtends(items, order, it);
        PartialOrderFits(items, order + [it]);
        ExtendOrder(items, order + [it]);
      } else {
        var it := UnstartedItem(items, order);
        var byTag := FullMap(items);
        LintIsTruthful(items, byTag, started, [it.tag], it);
        match Lint(byTag, started, [it.tag], it)
        case Circular(tree, repeated) =>
          var path := CircularVerdictHasCycle(items, tree, repeated);
        case NotFound(dependency, dependent) =>
      }
    }
  }

  lemma UnstartedItem(items: seq<Item>, order: seq<Item>) returns (it: Item)
    requires DistinctTags(items) && PartialOrder(items, order) && |order| < |items|
    ensures it in items && it.tag !in Tags(order)
  {
    TagCount(items);
    PartialOrderFits(items, order);
    if Tags(items) <= Tags(order) { SubsetCard(Tags(items), Tags(order)); }
    var t :| t in Tags(items) && t !in Tags(order);
    it :| it in items && it.tag == t;
  }

  /** A start order exists exactly when the dependency graph is closed and acyclic. */
  lemma OrderExistsIffClosedAcyclic(items: seq<Item>)
    requires DistinctTags(items)
    ensures HasTopologicalOrder(items) <==> Closed(items) && Acyclic(items)
  {
    if HasTopologicalOrder(items) { OrderedIsClosedAcyclic(items); }
    if Closed(items) && Acyclic(items) { ExtendOrder(items, []); }
  }

  // ---- the scheduler ----

  method AllStarted(deps: seq<Tag>, started: set<Tag>) returns (ok: bool)
    ensures ok <==> forall d :: d in deps ==> d in started
  {
    for i := 0 to |deps|
      invariant forall d :: d in deps[..i] ==> d in started
    {
      if deps[i] !in started { return false; }
    }
    assert deps[..|deps|] == deps;
    return true;
  }

  /** The item comes first among those not started. */
  ghost predicate IsFirstUnstarted(items: seq<Item>, started: set<Tag>, it: Item) {
    exists i :: 0 <= i < |items| && items[i] == it && it.tag !in started && Tags(items[..i]) <= started
  }

  ghost predicate DiagnosesFirst(items: seq<Item>, byTag: map<Tag, Item>, started: set<Tag>, v: Verdict) {
    exists it :: IsFirstUnstarted(items, started, it) && v == Lint(byTag, started, [it.tag], it)
  }

  method FindUnstarted(items: seq<Item>, started: set<Tag>) returns (found: bool, it: Item)
    requires |items| > 0
    ensures found ==> it in items && it.tag !in started && IsFirstUnstarted(items, started, it)
    ensures !found ==> forall x :: x in items ==> x.tag in started
  {
    it := items[0];
    for i := 0 to |items|
      invariant forall x :: x in items[..i] ==> x.tag in started
    {
      if items[i].tag !in started { return true, items[i]; }
    }
    assert items[..|items|] == items;
    return false, it;
  }

  /** No item marked so far has had a failing Start. */
  ghost predicate NoneFailed(order: seq<Item>) {
    forall it :: it in order ==> !it.start.Fails?
  }

  /** The order after one sweep: items are taken in list order, each as soon as its dependencies are in. */
  ghost function Sweep(items: seq<Item>, order: seq<Item>): seq<Item> {
    if items == [] then order
    else
      var before, it := Sweep(items[..|items| - 1], order), items[|items| - 1];
      if it.tag in Tags(before) || Blocked(it, Tags(before)) then before else before + [it]
  }

  ghost function Sweeps(items: seq<Item>, passes: nat): seq<Item> {
    if passes == 0 then [] else Sweep(items, Sweeps(items, passes - 1))
  }

  /** One sweep of the list; a failing Start ends it at once. */
  method Pass(items: seq<Item>, order0: seq<Item>, started0: set<Tag>)
    returns (order: seq<Item>, started: set<Tag>, canContinue: bool, failed: bool)
    requires PartialOrder(items, order0) && NoneFailed(order0) && started0 == Tags(order0)
    ensures PartialOrder(items, order) && started == Tags(order)
    ensures order0 <= order && (canContinue <==> |order| > |order0|)
    ensures !failed ==> NoneFailed(order)
    ensures failed ==> order != [] && order[|order| - 1].start.Fails? && NoneFailed(order[..|order| - 1])
    ensures !failed && !canContinue ==> Stuck(items, started)
    ensures !failed ==> order == Sweep(items, order0)
    ensures failed ==> exists i :: 0 <= i <= |items| && order == Sweep(items[..i], order0)
  {
    order, started, canContinue := order0, started0, false;
    for i := 0 to |items|
      invariant PartialOrder(items, order) && NoneFailed(order)
      invariant started == Tags(order)
      invariant order0 <= order && (canContinue <==> |order| > |order0|)
      invariant !canContinue ==> Stuck(items[..i], started)
      invariant order == Sweep(items[..i], order0)
    {
      var it := items[i];
      assert items[..i + 1][..i] == items[..i];
      if it.tag !in started {
        var ready := AllStarted(it.deps, started);
        if ready {
          PartialOrderExtends(items, order, it);
          ghost var before := order;
          order := order + [it];
          started := started + {it.tag};
          canContinue := true;
          if it.start.Fails? {
            assert order[..|order| - 1] == before && order == Sweep(items[..i + 1], order0);
            return order, started, true, true;
          }
        }
      }
    }
    assert items[..|items|] == items;
    return order, started, canContinue, false;
  }

  /** A sweep started nothing although tags are fewer than items. */
  method Diagnose(items: seq<Item>, byTag: map<Tag, Item>, order: seq<Item>, started: set<Tag>)
      returns (outcome: Outcome)
    requires PartialOrder(items, order) && started == Tags(order)
    requires Stuck(items, started) && |order| < |items|
    ensures outcome.Diagnosed? || outcome.NilItem?
    ensures outcome.Diagnosed? ==> !HasTopologicalOrder(items)
    ensures outcome.Diagnosed? ==> forall other :: PartialOrder(items, other) ==> Tags(other) <= started
    ensures outcome.Diagnosed? && MapWithinList(items, byTag) ==> Truthful(items, byTag, started, outcome.verdict)
    ensures outcome.Diagnosed? ==> DiagnosesFirst(items, byTag, started, outcome.verdict)
    ensures outcome.NilItem? ==> !DistinctTags(items) && Tags(items) == started
  {
    var found, current := FindUnstarted(items, started);
    if !found {
      assert Tags(items) == Tags(order);
      TagCount(items);
      PartialOrderFits(items, order);
      return NilItem;
    }
    StuckRefutesOrder(items, started, current);
    StuckIsMaximal(items, started);
    if MapWithinList(items, byTag) { LintIsTruthful(items, byTag, started, [current.tag], current); }
    return Diagnosed(Lint(byTag, started, [current.tag], current));
  }

  /** Sweeps until everything is started, a sweep starts nothing or a Start fails. */
  method SweepAll(items: seq<Item>) returns (order: seq<Item>, started: set<Tag>, passes: nat, failed: bool)
    ensures PartialOrder(items, order) && started == Tags(order)
    ensures passes <= if |items| == 0 then 1 else |items|
    ensures !failed ==> NoneFailed(order) && order == Sweeps(items, passes)
    ensures failed ==> order != [] && order[|order| - 1].start.Fails? && NoneFailed(order[..|order| - 1])
    ensures failed ==>
              passes > 0 && exists i :: 0 <= i <= |items| && order == Sweep(items[..i], Sweeps(items, passes - 1))
    ensures !failed && |started| != |items| ==> Stuck(items, started) && |order| < |items|
  {
    order, passes, started := [], 0, {};
    PartialOrderFits(items, order);
    while true
      invariant PartialOrder(items, order) && NoneFailed(order) && started == Tags(order)
      invariant passes <= |order| <= |items|
      invariant passes > 0 ==> |order| < |items|
      invariant order == Sweeps(items, passes)
      decreases |items| - |order|
    {
      passes := passes + 1;
      var canContinue;
      order, started, canContinue, failed := Pass(items, order, started);
      PartialOrderFits(items, order);
      if failed || |started| == |items| || !canContinue { return; }
    }
  }

  /** An order of as many items as there are has them all. */
  lemma WholeOrder(items: seq<Item>, order: seq<Item>)
    requires PartialOrder(items, order)
    ensures |Tags(order)| == |order| <= |items|
    ensures |order| == |items| ==> TopologicalOrder(items, order) && HasTopologicalOrder(items)
  {
    PartialOrderFits(items, order);
  }

  /**
   Starts the items. `order` lists the items in the order they were marked
   started and their Start (if any) called; `passes` counts sweeps of the list.
   */
  method StartAll(items: seq<Item>, byTag: map<Tag, Item>)
    returns (outcome: Outcome, order: seq<Item>, passes: nat)
    // never twice, never before a dependency, only listed items
    ensures PartialOrder(items, order)
    ensures passes <= if |items| == 0 then 1 else |items|
    // a failing Start stops everything at once
    ensures outcome.StartFailed? ==>
              order != [] && order[|order| - 1] == outcome.item && outcome.item.start.Fails?
              && NoneFailed(order[..|order| - 1])
    ensures !outcome.StartFailed? ==> NoneFailed(order)
    // the order is that of whole sweeps, the last one cut short by a failing Start
    ensures !outcome.StartFailed? ==> order == Sweeps(items, passes)
    ensures outcome.StartFailed? ==>
              passes > 0 && exists i :: 0 <= i <= |items| && order == Sweep(items[..i], Sweeps(items, passes - 1))
    // success means everything was started exactly once
    ensures outcome.Started? ==> TopologicalOrder(items, order)
    ensures outcome.Started? || outcome.Diagnosed? ==> (outcome.Started? <==> HasTopologicalOrder(items))
    ensures outcome.Diagnosed? && MapWithinList(items, byTag) ==>
              Truthful(items, byTag, Tags(order), outcome.verdict)
    // the diagnosis is that of the first item not started
    ensures outcome.Diagnosed? ==> DiagnosesFirst(items, byTag, Tags(order), outcome.verdict)
    // nothing that any order could have started was left out
    ensures outcome.Diagnosed? ==> forall other :: PartialOrder(items, other) ==> Tags(other) <= Tags(order)
    // the nil dereference: everything started, yet fewer tags than items
    ensures outcome.NilItem? ==> !DistinctTags(items) && Tags(items) == Tags(order)
  {
    var started, failed;
    order, started, passes, failed := SweepAll(items);
    WholeOrder(items, order);
    if failed { return StartFailed(order[|order| - 1]), order, passes; }
    if |started| == |items| { return Started, order, passes; }
    outcome := Diagnose(items, byTag, order, started);
  }
}
