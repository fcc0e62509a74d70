/** FleetWorkflow (internal/fleet/workflow.go): the layered scheduler. */
module Scheduler {
  /*  Twice: as the rule that settles every node, and as a step system in which the children run
      and end in any order between the scheduler's own steps.  The step system obeys the rule, and
      only takes the steps of module World.  */

  import opened Ordering
  import opened Graphs
  import opened Plans
  import opened World

  datatype NodeStatus = Ran(outcome: Outcome) | WasSkipped

  const OK := Ran(Succeeded)

  /** The rule: a node is skipped if any dependency did not succeed, and otherwise settles
      as its own child ended. */
  ghost function FinalStatus(g: Graph, child: string -> Outcome, id: string): NodeStatus
    requires Closed(g) && Acyclic(g) && id in g
    decreases Height(g, id)
  {
    HeightsFall(g, id);
    if exists d :: d in g[id] && FinalStatus(g, child, d) != OK then WasSkipped else Ran(child(id))
  }

  lemma HeightsFall(g: Graph, id: string)
    requires Closed(g) && Acyclic(g) && id in g
    ensures forall d | d in g[id] :: d in g && Height(g, d) < Height(g, id)
  {
    forall d | d in g[id] ensures Height(g, d) < Height(g, id) {
      assert Edge(g, id, d);
      HeightFalls(g, id, d);
    }
  }

  // ------------------------------------------------------------- the step system

  /** A scheduler state: the world, the layer and position reached, the children started in
      this layer and how many of them have been awaited, and what has settled. */
  datatype Sched = Sched(
    w: State, layer: nat, next: nat, started: seq<string>, collected: nat,
    results: map<string, NodeStatus>, order: seq<string>)

  ghost predicate InitSched(c: Sched) {
    Init(c.w) && c.layer == 0 && c.next == 0 && c.started == [] && c.collected == 0
    && c.results == map[] && c.order == []
  }

  predicate AllOk(deps: seq<string>, results: map<string, NodeStatus>) {
    forall d | d in deps :: d in results && results[d] == OK
  }

  /** A child takes a step of its own. */
  ghost predicate ChildMoves(f: Fleet, c: Sched, d: Sched) {
    exists id, to, w :: ChildStep(f, c.w, id, to, w) && d == c.(w := AfterChild(f, c.w, id, to, w))
  }

  /** The next node of the layer is started, or skipped behind a dependency. */
  ghost predicate Launches(f: Fleet, layers: seq<seq<string>>, c: Sched, d: Sched) {
    && c.layer < |layers| && c.next < |layers[c.layer]|
    && var id := layers[c.layer][c.next];
       && id in f.g
       && d == if AllOk(f.g[id], c.results)
               then c.(w := Started(c.w, id), started := c.started + [id], next := c.next + 1)
               else c.(w := Skipped(c.w, id), results := c.results[id := WasSkipped],
                       order := c.order + [id], next := c.next + 1)
  }

  /** The next started child is awaited, once the whole layer is launched. */
  ghost predicate Collects(layers: seq<seq<string>>, c: Sched, d: Sched) {
    && c.layer < |layers| && c.next == |layers[c.layer]| && c.collected < |c.started|
    && var id := c.started[c.collected];
       && id in c.w.children && c.w.children[id].phase.Ended?
       && d == c.(results := c.results[id := Ran(c.w.children[id].phase.outcome)],
                  order := c.order + [id], collected := c.collected + 1)
  }

  /** The layer has settled. */
  ghost predicate Advances(layers: seq<seq<string>>, c: Sched, d: Sched) {
    && c.layer < |layers| && c.next == |layers[c.layer]| && c.collected == |c.started|
    && d == c.(layer := c.layer + 1, next := 0, started := [], collected := 0)
  }

  ghost predicate SchedNext(f: Fleet, layers: seq<seq<string>>, c: Sched, d: Sched) {
    d == c || ChildMoves(f, c, d) || Launches(f, layers, c, d) || Collects(layers, c, d) || Advances(layers, c, d)
  }

  ghost predicate IsSchedRun(f: Fleet, layers: seq<seq<string>>, run: seq<Sched>) {
    && run != [] && InitSched(run[0])
    && forall i | 0 <= i < |run| - 1 :: SchedNext(f, layers, run[i], run[i + 1])
  }

  ghost predicate Finished(layers: seq<seq<string>>, c: Sched) {
    c.layer == |layers|
  }

  // ---------------------------------------------------------------- settle order

  function Those(ids: seq<string>, chosen: set<string>): seq<string> {
    if ids == [] then [] else
      var k := |ids| - 1;
      Those(ids[..k], chosen) + (if ids[k] in chosen then [ids[k]] else [])
  }

  function Others(ids: seq<string>, chosen: set<string>): seq<string> {
    if ids == [] then [] else
      var k := |ids| - 1;
      Others(ids[..k], chosen) + (if ids[k] in chosen then [] else [ids[k]])
  }

  /** Layer by layer: first the skipped nodes, then the started ones, each in id order. */
  function SettleOrder(layers: seq<seq<string>>, skipped: set<string>): seq<string> {
    if layers == [] then [] else
      var k := |layers| - 1;
      SettleOrder(layers[..k], skipped) + (Those(layers[k], skipped) + Others(layers[k], skipped))
  }

  lemma {:induction false} OthersIgnore(ids: seq<string>, s: set<string>, t: set<string>)
    requires forall id | id in ids :: id in s <==> id in t
    ensures Those(ids, s) == Those(ids, t) && Others(ids, s) == Others(ids, t)
  {
    if ids != [] { OthersIgnore(ids[..|ids| - 1], s, t); }
  }

  lemma {:induction false} SettleOrderIgnores(layers: seq<seq<string>>, s: set<string>, t: set<string>)
    requires forall i, id | 0 <= i < |layers| && id in layers[i] :: id in s <==> id in t
    ensures SettleOrder(layers, s) == SettleOrder(layers, t)
  {
    if layers != [] {
      var k := |layers| - 1;
      SettleOrderIgnores(layers[..k], s, t);
      OthersIgnore(layers[k], s, t);
    }
  }

  // ------------------------------------------------------------------ invariant

  ghost function Current(layers: seq<seq<string>>, c: Sched): seq<string> {
    if c.layer < |layers| then layers[c.layer] else []
  }

  /** The position reached; the started children are the launched nodes not skipped. */
  ghost predicate Bounds(layers: seq<seq<string>>, c: Sched) {
    var now := Current(layers, c);
    && c.layer <= |layers| && c.next <= |now| && c.collected <= |c.started|
    && (c.collected > 0 ==> c.next == |now|)
    && c.started == Others(now[..c.next], c.w.skipped)
  }

  /** Exactly the nodes of earlier layers and of the launched part of this one were started
      or skipped. */
  ghost predicate Launched(f: Fleet, layers: seq<seq<string>>, c: Sched)
    requires Bounds(layers, c)
  {
    c.w.children.Keys + c.w.skipped == Below(f.g, c.layer) + Elements(Current(layers, c)[..c.next])
  }

  /** Of those, exactly the children of this layer not awaited yet have no result. */
  ghost predicate Awaiting(layers: seq<seq<string>>, c: Sched)
    requires Bounds(layers, c)
  {
    var waiting := Elements(c.started[c.collected..]);
    c.results.Keys + waiting == c.w.children.Keys + c.w.skipped && c.results.Keys !! waiting
  }

  ghost predicate InOrder(layers: seq<seq<string>>, c: Sched)
    requires Bounds(layers, c)
  {
    c.order == SettleOrder(layers[..c.layer], c.w.skipped)
               + (Those(Current(layers, c)[..c.next], c.w.skipped) + c.started[..c.collected])
  }

  ghost predicate Position(f: Fleet, layers: seq<seq<string>>, c: Sched) {
    Bounds(layers, c) && Launched(f, layers, c) && Awaiting(layers, c) && InOrder(layers, c)
  }

  /** A settled result is what happened in the world. */
  ghost predicate Faithful(c: Sched) {
    forall id | id in c.results ::
      match c.results[id]
      case WasSkipped => id in c.w.skipped
      case Ran(o) => id in c.w.children && c.w.children[id].phase == Ended(o)
  }

  ghost predicate SettledOnce(c: Sched) {
    Distinct(c.order) && Elements(c.order) == c.results.Keys
  }

  ghost predicate SchedInv(f: Fleet, layers: seq<seq<string>>, c: Sched) {
    Scheduled(f, c.w) && Position(f, layers, c) && Faithful(c) && SettledOnce(c)
  }

  lemma ElementsAppend(s: seq<string>, x: string)
    ensures Elements(s + [x]) == Elements(s) + {x} && s + [] == s
  {
  }

  lemma {:induction false} OthersElements(ids: seq<string>, chosen: set<string>)
    ensures Elements(Others(ids, chosen)) == Elements(ids) - chosen
    ensures Elements(Those(ids, chosen)) == Elements(ids) * chosen
    ensures Distinct(ids) ==> Distinct(Others(ids, chosen)) && Distinct(Those(ids, chosen))
  {
    if ids != [] {
      var k := |ids| - 1;
      OthersElements(ids[..k], chosen);
      assert ids == ids[..k] + [ids[k]];
      ElementsAppend(ids[..k], ids[k]);
      ElementsAppend(Others(ids[..k], chosen), ids[k]);
      ElementsAppend(Those(ids[..k], chosen), ids[k]);
      assert ids[k] in Others(ids[..k], chosen) ==> ids[k] in Elements(Others(ids[..k], chosen));
      assert ids[k] in Those(ids[..k], chosen) ==> ids[k] in Elements(Those(ids[..k], chosen));
    }
  }

  /** The ids of a layer are distinct, form one chain class, and are in no earlier layer. */
  lemma LayerFacts(g: Graph, layers: seq<seq<string>>, i: nat)
    requires IsLayering(g, layers) && i < |layers|
    ensures Distinct(layers[i]) && Elements(layers[i]) == ChainClass(g, i)
    ensures Elements(layers[i]) !! Below(g, i) && Below(g, i) + Elements(layers[i]) == Below(g, i + 1)
    ensures forall j | 0 <= j < i :: Elements(layers[j]) <= Below(g, i)
  {
    AscendingDistinct(layers[i]);
    forall j | 0 <= j < i ensures Elements(layers[j]) <= Below(g, i) {
      assert layers[j] == Listing(ChainClass(g, j));
    }
  }

  /** The node about to be launched: new, and with every dependency settled. */
  lemma LaunchFacts(f: Fleet, layers: seq<seq<string>>, c: Sched)
    requires ValidFleet(f) && IsLayering(f.g, layers) && SchedInv(f, layers, c)
    requires c.layer < |layers| && c.next < |layers[c.layer]|
    ensures var now := layers[c.layer];
      var id := now[c.next];
      && Untouched(f, c.w, id) && id !in now[..c.next] && id !in c.results
      && id !in Below(f.g, c.layer)
      && forall d | d in f.g[id] :: d in c.results
  {
    var now := layers[c.layer];
    var id := now[c.next];
    LayerFacts(f.g, layers, c.layer);
    assert id in Elements(now);
    assert id in ChainClass(f.g, c.layer);
    assert id in now[..c.next] <==> id in Elements(now[..c.next]);
    DependenciesBelow(f.g, c.layer, id);
    OthersElements(now[..c.next], c.w.skipped);
    forall d | d in f.g[id] ensures d in c.results {
      assert d in Elements(f.g[id]);
      assert d !in Elements(now);
      assert forall x | x in Elements(now[..c.next]) :: x in Elements(now);
      assert d !in Elements(c.started);
    }
  }

  lemma LaunchIsStep(f: Fleet, layers: seq<seq<string>>, c: Sched, d: Sched)
    requires ValidFleet(f) && IsLayering(f.g, layers) && SchedInv(f, layers, c) && Launches(f, layers, c, d)
    ensures Next(f, c.w, d.w)
  {
    LaunchFacts(f, layers, c);
    var id := layers[c.layer][c.next];
    if AllOk(f.g[id], c.results) {
      forall b | b in f.g[id] ensures HasSucceeded(c.w, b) {
        assert c.results[b] == OK;
      }
      assert CanStart(f, c.w, id);
    } else {
      var b :| b in f.g[id] && c.results[b] != OK;
      assert HasFallen(c.w, b);
      assert CanSkip(f, c.w, id);
    }
  }

  /** Skipping a node of the current layer leaves the order of earlier layers alone. */
  lemma SkipKeepsOrder(f: Fleet, layers: seq<seq<string>>, c: Sched, id: string)
    requires IsLayering(f.g, layers) && c.layer < |layers| && id !in Below(f.g, c.layer)
    ensures SettleOrder(layers[..c.layer], c.w.skipped + {id}) == SettleOrder(layers[..c.layer], c.w.skipped)
  {
    LayerFacts(f.g, layers, c.layer);
    forall i, x | 0 <= i < |layers[..c.layer]| && x in layers[..c.layer][i]
      ensures x in c.w.skipped <==> x in c.w.skipped + {id}
    {
      assert x in Elements(layers[i]);
    }
    SettleOrderIgnores(layers[..c.layer], c.w.skipped, c.w.skipped + {id});
  }

  lemma StartKeepsPosition(f: Fleet, layers: seq<seq<string>>, c: Sched, d: Sched)
    requires ValidFleet(f) && IsLayering(f.g, layers) && SchedInv(f, layers, c) && Launches(f, layers, c, d)
    requires AllOk(f.g[layers[c.layer][c.next]], c.results)
    ensures Position(f, layers, d)
  {
    LaunchFacts(f, layers, c);
    StartKeepsBounds(layers, c, d);
    StartKeepsOrder(layers, c, d);
  }

  lemma StartKeepsOrder(layers: seq<seq<string>>, c: Sched, d: Sched)
    requires Bounds(layers, c) && Bounds(layers, d) && InOrder(layers, c)
    requires c.layer < |layers| && c.next < |layers[c.layer]| && layers[c.layer][c.next] !in c.w.skipped
    requires d.layer == c.layer && d.next == c.next + 1 && d.order == c.order && d.w.skipped == c.w.skipped
    requires c.collected == d.collected == 0
    ensures InOrder(layers, d)
  {
    TakeNext(layers[c.layer], c.next);
  }

  lemma StartKeepsBounds(layers: seq<seq<string>>, c: Sched, d: Sched)
    requires Bounds(layers, c) && c.layer < |layers| && c.next < |layers[c.layer]|
    requires d.layer == c.layer && d.next == c.next + 1 && d.collected == c.collected && d.w.skipped == c.w.skipped
    requires d.started == c.started + [layers[c.layer][c.next]] && layers[c.layer][c.next] !in c.w.skipped
    ensures Bounds(layers, d)
  {
    TakeNext(layers[c.layer], c.next);
  }

  lemma SkipKeepsPosition(f: Fleet, layers: seq<seq<string>>, c: Sched, d: Sched)
    requires ValidFleet(f) && IsLayering(f.g, layers) && SchedInv(f, layers, c) && Launches(f, layers, c, d)
    requires !AllOk(f.g[layers[c.layer][c.next]], c.results)
    ensures Position(f, layers, d)
  {
    LaunchFacts(f, layers, c);
    SkipKeepsBounds(layers, c, d);
    SkipKeepsLaunched(f, layers, c, d);
    SkipKeepsOrder(f, layers, c, layers[c.layer][c.next]);
    SkipExtendsOrder(layers, c, d);
  }

  lemma SkipKeepsLaunched(f: Fleet, layers: seq<seq<string>>, c: Sched, d: Sched)
    requires Bounds(layers, c) && Bounds(layers, d) && Launched(f, layers, c)
    requires c.layer < |layers| && c.next < |layers[c.layer]| && d.layer == c.layer && d.next == c.next + 1
    requires d.w.children == c.w.children && d.w.skipped == c.w.skipped + {layers[c.layer][c.next]}
    ensures Launched(f, layers, d)
  {
    var now := layers[c.layer];
    TakeNext(now, c.next);
    ElementsAppend(now[..c.next], now[c.next]);
  }

  lemma SkipKeepsBounds(layers: seq<seq<string>>, c: Sched, d: Sched)
    requires Bounds(layers, c) && c.layer < |layers| && c.next < |layers[c.layer]|
    requires layers[c.layer][c.next] !in layers[c.layer][..c.next]
    requires d.layer == c.layer && d.next == c.next + 1 && d.collected == c.collected && d.started == c.started
    requires d.w.skipped == c.w.skipped + {layers[c.layer][c.next]}
    ensures Bounds(layers, d)
  {
    var now := layers[c.layer];
    TakeNext(now, c.next);
    OthersIgnore(now[..c.next], c.w.skipped, d.w.skipped);
    ElementsAppend(Others(now[..c.next], c.w.skipped), now[c.next]);
  }

  lemma SkipExtendsOrder(layers: seq<seq<string>>, c: Sched, d: Sched)
    requires Bounds(layers, c) && Bounds(layers, d) && InOrder(layers, c)
    requires c.layer < |layers| && c.next < |layers[c.layer]| && c.collected == 0
    requires var id := layers[c.layer][c.next];
      && d.layer == c.layer && d.next == c.next + 1 && d.collected == 0
      && d.order == c.order + [id] && d.w.skipped == c.w.skipped + {id} && id !in layers[c.layer][..c.next]
      && SettleOrder(layers[..c.layer], d.w.skipped) == SettleOrder(layers[..c.layer], c.w.skipped)
    ensures InOrder(layers, d)
  {
    var now := layers[c.layer];
    var id := now[c.next];
    TakeNext(now, c.next);
    OthersIgnore(now[..c.next], c.w.skipped, d.w.skipped);
  }

  lemma CollectKeepsPosition(f: Fleet, layers: seq<seq<string>>, c: Sched, d: Sched)
    requires IsLayering(f.g, layers) && SchedInv(f, layers, c) && Collects(layers, c, d)
    ensures Position(f, layers, d) && c.started[c.collected] !in c.results
  {
    var now := layers[c.layer];
    var id := c.started[c.collected];
    assert Bounds(layers, d);
    assert Launched(f, layers, d);
    StartedDistinct(f, layers, c);
    assert Awaiting(layers, d);
    CollectExtendsOrder(layers, c, d);
  }

  lemma CollectExtendsOrder(layers: seq<seq<string>>, c: Sched, d: Sched)
    requires Bounds(layers, c) && Bounds(layers, d) && InOrder(layers, c) && Collects(layers, c, d)
    ensures InOrder(layers, d)
  {
    var now := layers[c.layer];
    var id := c.started[c.collected];
    TakeNext(c.started, c.collected);
  }

  lemma StartedDistinct(f: Fleet, layers: seq<seq<string>>, c: Sched)
    requires IsLayering(f.g, layers) && Bounds(layers, c) && c.layer < |layers|
    ensures Distinct(c.started)
  {
    LayerFacts(f.g, layers, c.layer);
    OthersElements(layers[c.layer][..c.next], c.w.skipped);
  }

  lemma CollectKeepsResults(f: Fleet, layers: seq<seq<string>>, c: Sched, d: Sched)
    requires SchedInv(f, layers, c) && Collects(layers, c, d) && c.started[c.collected] !in c.results
    ensures Faithful(d) && SettledOnce(d)
  {
  }

  lemma AdvanceKeepsPosition(f: Fleet, layers: seq<seq<string>>, c: Sched, d: Sched)
    requires IsLayering(f.g, layers) && SchedInv(f, layers, c) && Advances(layers, c, d)
    ensures Position(f, layers, d)
  {
    AdvanceKeepsLaunched(f, layers, c, d);
    AdvanceKeepsOrder(layers, c, d);
  }

  lemma AdvanceKeepsLaunched(f: Fleet, layers: seq<seq<string>>, c: Sched, d: Sched)
    requires IsLayering(f.g, layers) && Bounds(layers, c) && Bounds(layers, d)
    requires Launched(f, layers, c) && Advances(layers, c, d)
    ensures Launched(f, layers, d)
  {
    LayerFacts(f.g, layers, c.layer);
    assert layers[c.layer][..c.next] == layers[c.layer] && Current(layers, d)[..0] == [];
  }

  lemma AdvanceKeepsOrder(layers: seq<seq<string>>, c: Sched, d: Sched)
    requires Bounds(layers, c) && Bounds(layers, d) && InOrder(layers, c) && Advances(layers, c, d)
    ensures InOrder(layers, d)
  {
    var now := layers[c.layer];
    assert now[..c.next] == now && c.started[..c.collected] == c.started;
    TakeNext(layers, c.layer);
    assert Current(layers, d)[..0] == [] && d.started[..0] == [];
  }

  lemma LaunchKeeps(f: Fleet, layers: seq<seq<string>>, c: Sched, d: Sched)
    requires ValidFleet(f) && IsLayering(f.g, layers) && SchedInv(f, layers, c) && Launches(f, layers, c, d)
    ensures Next(f, c.w, d.w) && SchedInv(f, layers, d)
  {
    LaunchIsStep(f, layers, c, d);
    ScheduledStep(f, c.w, d.w);
    if AllOk(f.g[layers[c.layer][c.next]], c.results) {
      StartKeepsPosition(f, layers, c, d);
    } else {
      SkipKeepsPosition(f, layers, c, d);
    }
    LaunchKeepsResults(f, layers, c, d);
  }

  lemma ChildMoveKeeps(f: Fleet, layers: seq<seq<string>>, c: Sched, d: Sched)
    requires SchedInv(f, layers, c) && ChildMoves(f, c, d)
    ensures Next(f, c.w, d.w) && SchedInv(f, layers, d)
  {
    assert Next(f, c.w, d.w);
    ScheduledStep(f, c.w, d.w);
    StepIsLater(f, c.w, d.w);
    assert d.w.children.Keys == c.w.children.Keys && d.w.skipped == c.w.skipped;
  }

  /** Every step of the scheduler is a step of the world, and keeps the invariant. */
  lemma SchedStep(f: Fleet, layers: seq<seq<string>>, c: Sched, d: Sched)
    requires ValidFleet(f) && IsLayering(f.g, layers) && SchedInv(f, layers, c) && SchedNext(f, layers, c, d)
    ensures Next(f, c.w, d.w) && SchedInv(f, layers, d)
  {
    if ChildMoves(f, c, d) {
      ChildMoveKeeps(f, layers, c, d);
    } else if Launches(f, layers, c, d) {
      LaunchKeeps(f, layers, c, d);
    } else if Collects(layers, c, d) {
      CollectKeepsPosition(f, layers, c, d);
      CollectKeepsResults(f, layers, c, d);
    } else if Advances(layers, c, d) {
      AdvanceKeepsPosition(f, layers, c, d);
    }
  }

  lemma LaunchKeepsResults(f: Fleet, layers: seq<seq<string>>, c: Sched, d: Sched)
    requires ValidFleet(f) && IsLayering(f.g, layers) && SchedInv(f, layers, c) && Launches(f, layers, c, d)
    ensures Faithful(d) && SettledOnce(d)
  {
    LaunchFacts(f, layers, c);
    var id := layers[c.layer][c.next];
  }

  function Worlds(run: seq<Sched>): seq<State> {
    seq(|run|, i requires 0 <= i < |run| => run[i].w)
  }

  lemma {:induction false} SchedRunInv(f: Fleet, layers: seq<seq<string>>, run: seq<Sched>, i: nat)
    requires ValidFleet(f) && IsLayering(f.g, layers) && IsSchedRun(f, layers, run) && i < |run|
    ensures SchedInv(f, layers, run[i])
    decreases i
  {
    if i == 0 {
      assert layers[..0] == [];
    } else {
      SchedRunInv(f, layers, run, i - 1);
      assert SchedNext(f, layers, run[i - 1], run[i - 1 + 1]);
      SchedStep(f, layers, run[i - 1], run[i]);
    }
  }

  /** The layered scheduler refines the one that starts a node as soon as it can: a run of
      the first, seen from the world, is a run of the second. */
  lemma LayeredRefinesGreedy(f: Fleet, layers: seq<seq<string>>, run: seq<Sched>)
    requires ValidFleet(f) && IsLayering(f.g, layers) && IsSchedRun(f, layers, run)
    ensures IsRun(f, Worlds(run))
  {
    var worlds := Worlds(run);
    forall i | 0 <= i < |worlds| - 1 ensures Next(f, worlds[i], worlds[i + 1]) {
      SchedRunInv(f, layers, run, i);
      assert SchedNext(f, layers, run[i], run[i + 1]);
      SchedStep(f, layers, run[i], run[i + 1]);
    }
  }

  // ----------------------------------------------------------------- confluence

  /** The children that ended did so as `child` says. */
  ghost predicate EndsAs(s: State, child: string -> Outcome) {
    forall id | id in s.children && s.children[id].phase.Ended? :: s.children[id].phase.outcome == child(id)
  }

  /** Under any scheduling, a node that has settled has settled as the rule says. */
  lemma {:induction false} SettledByRule(f: Fleet, s: State, child: string -> Outcome, id: string)
    requires ValidFleet(f) && Scheduled(f, s) && EndsAs(s, child) && id in f.g
    ensures id in s.skipped ==> FinalStatus(f.g, child, id) == WasSkipped
    ensures id in s.children ==> FinalStatus(f.g, child, id) == Ran(child(id))
    decreases Height(f.g, id)
  {
    HeightsFall(f.g, id);
    forall d | d in f.g[id] && HasSucceeded(s, d) ensures FinalStatus(f.g, child, d) == OK {
      SettledByRule(f, s, child, d);
    }
    forall d | d in f.g[id] && HasFallen(s, d) ensures FinalStatus(f.g, child, d) != OK {
      SettledByRule(f, s, child, d);
    }
  }

  lemma FinishedCoversAll(f: Fleet, layers: seq<seq<string>>, c: Sched)
    requires IsLayering(f.g, layers) && SchedInv(f, layers, c) && Finished(layers, c)
    ensures c.results.Keys == f.g.Keys && c.order == SettleOrder(layers, c.w.skipped)
  {
    assert layers[..|layers|] == layers;
    assert c.started == [] && Current(layers, c)[..c.next] == [];
  }

  lemma SkippedByRule(f: Fleet, layers: seq<seq<string>>, c: Sched, child: string -> Outcome)
    requires ValidFleet(f) && SchedInv(f, layers, c) && c.results.Keys == f.g.Keys && EndsAs(c.w, child)
    ensures forall id | id in f.g :: c.results[id] == FinalStatus(f.g, child, id)
    ensures c.w.skipped == SkippedBy(f.g, child)
  {
    forall id | id in f.g
      ensures c.results[id] == FinalStatus(f.g, child, id) && (id in c.w.skipped <==> id in SkippedBy(f.g, child))
    {
      SettledByRule(f, c.w, child, id);
    }
  }

  /** Whatever order the children complete in, a finished run has settled every node once,
      with the rule's status, in an order that does not depend on the completions. */
  lemma FinishedByRule(f: Fleet, layers: seq<seq<string>>, run: seq<Sched>, child: string -> Outcome)
    requires ValidFleet(f) && IsLayering(f.g, layers) && IsSchedRun(f, layers, run)
    requires Finished(layers, run[|run| - 1]) && EndsAs(run[|run| - 1].w, child)
    ensures var c := run[|run| - 1];
      && c.results.Keys == f.g.Keys
      && (forall id | id in f.g :: c.results[id] == FinalStatus(f.g, child, id))
      && Distinct(c.order) && Elements(c.order) == f.g.Keys
      && c.order == SettleOrder(layers, SkippedBy(f.g, child))
  {
    var c := run[|run| - 1];
    SchedRunInv(f, layers, run, |run| - 1);
    FinishedCoversAll(f, layers, c);
    SkippedByRule(f, layers, c, child);
  }

  ghost function SkippedBy(g: Graph, child: string -> Outcome): set<string>
    requires Closed(g) && Acyclic(g)
  {
    set id | id in g && FinalStatus(g, child, id) == WasSkipped
  }

  /** The layer barrier changes no status: a finished layered run and any completed run of
      the scheduler without layers agree on every node, given the same child outcomes. */
  lemma BarrierChangesNothing(f: Fleet, layers: seq<seq<string>>, run: seq<Sched>, s: State, child: string -> Outcome)
    requires ValidFleet(f) && IsLayering(f.g, layers) && IsSchedRun(f, layers, run)
    requires Finished(layers, run[|run| - 1]) && EndsAs(run[|run| - 1].w, child)
    requires Reachable(f, s) && Complete(f, s) && EndsAs(s, child)
    ensures forall id | id in f.g ::
              id in run[|run| - 1].results && run[|run| - 1].results[id] == StatusIn(s, id)
  {
    FinishedByRule(f, layers, run, child);
    ReachableInv(f, s);
    var c := run[|run| - 1];
    forall id | id in f.g ensures c.results[id] == StatusIn(s, id) {
      SettledByRule(f, s, child, id);
    }
  }

  /** Every node has settled. */
  ghost predicate Complete(f: Fleet, s: State) {
    forall id | id in f.g :: id in s.skipped || (id in s.children && s.children[id].phase.Ended?)
  }

  function StatusIn(s: State, id: string): NodeStatus {
    if id in s.children && s.children[id].phase.Ended? then Ran(s.children[id].phase.outcome) else WasSkipped
  }
}
