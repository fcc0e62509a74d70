/** FleetWorkflow as the program runs it (internal/fleet/workflow.go). */
module Workflow {
  /*  Nested loops over the layers, with the eventual result of each child given by `child`.  */

  import opened Options
  import opened Ordering
  import opened Graphs
  import opened Plans
  import opened World
  import opened Scheduler
  import Tokens

  datatype ErrorType = SeedConflictBlocked | ReviewNotConverged | OtherError

  datatype ChildResult = Returned(summary: string) | Errored(kind: ErrorType, text: string)

  datatype NodeResult = NodeResult(id: string, status: NodeStatus, detail: string, tokens: int)

  datatype FleetResult =
    | MissingWorktreesDir
    | InvalidPlan(verdict: Verdict)
    | NoBase
    | Cancelled(results: map<string, NodeResult>, ordered: seq<NodeResult>)
    | Completed(results: map<string, NodeResult>, ordered: seq<NodeResult>)

  /** A child that stopped in a recoverable way is blocked, not failed. */
  function OutcomeOf(r: ChildResult): Outcome {
    match r
    case Returned(_) => Succeeded
    case Errored(kind, _) => if kind == OtherError then Failed else Blocked
  }

  function Outcomes(child: string -> ChildResult): string -> Outcome {
    id => OutcomeOf(child(id))
  }

  predicate IsOk(id: string, results: map<string, NodeResult>) {
    id in results && results[id].status == OK
  }

  /** The first dependency, in id order, that did not succeed. */
  method BlockingDependency(dependsOn: seq<string>, results: map<string, NodeResult>)
    returns (blocker: Option<string>)
    ensures blocker.None? <==> forall d | d in dependsOn :: IsOk(d, results)
    ensures blocker.Some? ==>
      && blocker.value in dependsOn && !IsOk(blocker.value, results)
      && forall d | d in dependsOn && !IsOk(d, results) :: !Less(d, blocker.value)
  {
    var deps := SortBy(Less, dependsOn);
    LessIsStrictTotal();
    SortBySorts(Less, dependsOn);
    for k := 0 to |deps|
      invariant forall d | d in deps[..k] :: IsOk(d, results)
    {
      TakeNext(deps, k);
      if !IsOk(deps[k], results) {
        forall d | d in dependsOn && !IsOk(d, results) ensures !Less(d, deps[k]) {
        }
        assert deps[k] in deps;
        return Some(deps[k]);
      }
    }
    assert deps[..|deps|] == deps;
    return None;
  }

  function SkipDetail(blocker: string): string {
    "skipped: dependency \"" + blocker + "\" did not succeed"
  }

  /** What the recursive rule says about one node's result, blocker and tokens included. */
  ghost predicate AsRuled(g: Graph, child: string -> ChildResult, id: string, r: NodeResult)
    requires Closed(g) && Acyclic(g) && id in g
  {
    var rule := FinalStatus(g, Outcomes(child), id);
    && r.id == id && r.status == rule
    && match rule
       case WasSkipped => r.tokens == 0 && exists b :: FirstBlocker(g, child, id, b) && r.detail == SkipDetail(b)
       case Ran(_) =>
         match child(id)
         case Returned(s) => r.detail == s && r.tokens == Tokens.ParseTokenTotal(s)
         case Errored(_, text) => r.detail == text && r.tokens == 0
  }

  ghost predicate FirstBlocker(g: Graph, child: string -> ChildResult, id: string, b: string)
    requires Closed(g) && Acyclic(g) && id in g
  {
    && b in g[id] && FinalStatus(g, Outcomes(child), b) != OK
    && forall d | d in g[id] && FinalStatus(g, Outcomes(child), d) != OK :: !Less(d, b)
  }

  ghost predicate AllRuled(g: Graph, child: string -> ChildResult, results: map<string, NodeResult>)
    requires Closed(g) && Acyclic(g)
  {
    forall id | id in results :: id in g && AsRuled(g, child, id, results[id])
  }

  /** A blocker is found exactly for the nodes the rule skips, and it is the rule's. */
  method BlockerOf(g: Graph, id: string, results: map<string, NodeResult>, ghost child: string -> ChildResult)
    returns (blocker: Option<string>)
    requires Closed(g) && Acyclic(g) && id in g && AllRuled(g, child, results)
    requires Elements(g[id]) <= results.Keys
    ensures blocker.Some? <==> id in SkippedBy(g, Outcomes(child))
    ensures blocker.Some? ==> AsRuled(g, child, id, NodeResult(id, WasSkipped, SkipDetail(blocker.value), 0))
  {
    blocker := BlockingDependency(g[id], results);
    if blocker.Some? {
      assert FirstBlocker(g, child, id, blocker.value);
    }
  }

  lemma PartNext(ids: seq<string>, k: nat, s: set<string>)
    requires k < |ids|
    ensures Those(ids[..k + 1], s) == if ids[k] in s then Those(ids[..k], s) + [ids[k]] else Those(ids[..k], s)
    ensures Others(ids[..k + 1], s) == if ids[k] in s then Others(ids[..k], s) else Others(ids[..k], s) + [ids[k]]
  {
    TakeNext(ids, k);
  }

  /** Launches one node: skips it behind a blocker, or leaves it to be started. */
  method LaunchNode(g: Graph, id: string, before: map<string, NodeResult>, ghost child: string -> ChildResult)
    returns (results: map<string, NodeResult>, skips: bool)
    requires Closed(g) && Acyclic(g) && id in g && AllRuled(g, child, before) && Elements(g[id]) <= before.Keys
    ensures AllRuled(g, child, results) && (skips <==> id in SkippedBy(g, Outcomes(child)))
    ensures results.Keys == before.Keys + (if skips then {id} else {})
  {
    var blocker := BlockerOf(g, id, before, child);
    if blocker.None? { return before, false; }
    var r := NodeResult(id, WasSkipped, SkipDetail(blocker.value), 0);
    return before[id := r], true;
  }

  /** Launches a layer: skips what is blocked, starts the rest. */
  method LaunchLayer(g: Graph, layer: seq<string>, before: map<string, NodeResult>,
                     ghost child: string -> ChildResult)
    returns (results: map<string, NodeResult>, skipped: seq<string>, started: seq<string>)
    requires Closed(g) && Acyclic(g) && AllRuled(g, child, before) && Elements(layer) <= g.Keys
    requires forall id | id in layer :: Elements(g[id]) <= before.Keys
    ensures AllRuled(g, child, results) && results.Keys == before.Keys + Elements(skipped)
    ensures skipped == Those(layer, SkippedBy(g, Outcomes(child)))
    ensures started == Others(layer, SkippedBy(g, Outcomes(child)))
  {
    results, skipped, started := before, [], [];
    ghost var s := SkippedBy(g, Outcomes(child));
    for k := 0 to |layer|
      invariant AllRuled(g, child, results) && results.Keys == before.Keys + Elements(skipped)
      invariant Parts(layer[..k], s, skipped, started)
    {
      assert layer[k] in Elements(layer);
      PartsNext(layer, k, s, skipped, started, before.Keys);
      var skips;
      results, skips := LaunchNode(g, layer[k], results, child);
      if skips { skipped := skipped + [layer[k]]; } else { started := started + [layer[k]]; }
    }
    assert layer[..|layer|] == layer;
  }

  ghost predicate Parts(ids: seq<string>, s: set<string>, skipped: seq<string>, started: seq<string>) {
    skipped == Those(ids, s) && started == Others(ids, s)
  }

  lemma PartsNext(layer: seq<string>, k: nat, s: set<string>, skipped: seq<string>, started: seq<string>, keys: set<string>)
    requires k < |layer| && Parts(layer[..k], s, skipped, started)
    ensures layer[k] in s ==> Parts(layer[..k + 1], s, skipped + [layer[k]], started)
    ensures layer[k] !in s ==> Parts(layer[..k + 1], s, skipped, started + [layer[k]])
    ensures keys + Elements(skipped + [layer[k]]) == keys + Elements(skipped) + {layer[k]}
  {
    PartNext(layer, k, s);
    ElementsAppend(skipped, layer[k]);
  }

  function ResultOf(id: string, r: ChildResult): NodeResult {
    match r
    case Returned(s) => NodeResult(id, OK, s, Tokens.ParseTokenTotal(s))
    case Errored(kind, text) => NodeResult(id, Ran(if kind == OtherError then Failed else Blocked), text, 0)
  }

  /** Awaits the started children in turn. */
  method CollectLayer(g: Graph, started: seq<string>, before: map<string, NodeResult>, child: string -> ChildResult)
    returns (results: map<string, NodeResult>)
    requires Closed(g) && Acyclic(g) && AllRuled(g, child, before)
    requires forall id | id in started :: id in g && FinalStatus(g, Outcomes(child), id) != WasSkipped
    ensures AllRuled(g, child, results) && results.Keys == before.Keys + Elements(started)
  {
    results := before;
    for k := 0 to |started|
      invariant AllRuled(g, child, results) && results.Keys == before.Keys + Elements(started[..k])
    {
      var id := started[k];
      TakeNext(started, k);
      ElementsAppend(started[..k], id);
      results := results[id := ResultOf(id, child(id))];
    }
    assert started[..|started|] == started;
  }

  /** One layer, from launch to the last awaited child. */
  method RunLayer(g: Graph, ghost layers: seq<seq<string>>, ghost i: nat, layer: seq<string>,
                  before: map<string, NodeResult>, child: string -> ChildResult)
    returns (results: map<string, NodeResult>, settled: seq<string>)
    requires Closed(g) && Acyclic(g) && IsLayering(g, layers) && i < |layers| && layer == layers[i]
    requires before.Keys == Below(g, i) && AllRuled(g, child, before)
    ensures results.Keys == Below(g, i + 1) && AllRuled(g, child, results)
    ensures settled == Those(layer, SkippedBy(g, Outcomes(child))) + Others(layer, SkippedBy(g, Outcomes(child)))
  {
    ghost var s := SkippedBy(g, Outcomes(child));
    LayerFacts(g, layers, i);
    forall id | id in layer ensures Elements(g[id]) <= before.Keys {
      assert id in Elements(layer);
      DependenciesBelow(g, i, id);
    }
    var skipped, started;
    results, skipped, started := LaunchLayer(g, layer, before, child);
    StartedRun(g, child, layer);
    results := CollectLayer(g, started, results, child);
    settled := skipped + started;
  }

  lemma StartedRun(g: Graph, child: string -> ChildResult, layer: seq<string>)
    requires Closed(g) && Acyclic(g) && Elements(layer) <= g.Keys
    ensures var s := SkippedBy(g, Outcomes(child));
      && Elements(Those(layer, s)) + Elements(Others(layer, s)) == Elements(layer)
      && forall id | id in Others(layer, s) :: id in g && FinalStatus(g, Outcomes(child), id) != WasSkipped
  {
    var s := SkippedBy(g, Outcomes(child));
    OthersElements(layer, s);
    forall id | id in Others(layer, s) ensures id in g && FinalStatus(g, Outcomes(child), id) != WasSkipped {
      assert id in Elements(Others(layer, s));
    }
  }

  method RunLayers(g: Graph, layers: seq<seq<string>>, child: string -> ChildResult)
    returns (results: map<string, NodeResult>, order: seq<string>)
    requires Closed(g) && Acyclic(g) && IsLayering(g, layers)
    ensures results.Keys == g.Keys && AllRuled(g, child, results)
    ensures order == SettleOrder(layers, SkippedBy(g, Outcomes(child)))
  {
    results, order := map[], [];
    ghost var s := SkippedBy(g, Outcomes(child));
    for i := 0 to |layers|
      invariant results.Keys == Below(g, i) && AllRuled(g, child, results)
      invariant order == SettleOrder(layers[..i], s)
    {
      var settled;
      results, settled := RunLayer(g, layers, i, layers[i], results, child);
      order := order + settled;
      TakeNext(layers, i);
    }
    assert layers[..|layers|] == layers;
  }

  /** What a node's child workflow is handed. */
  datatype ChildInput = ChildInput(
    workflowId: string, workDir: string, worktreesDir: string, branch: string, startPoint: string,
    mergeBranches: seq<string>, prompt: string, summary: bool, awaitReview: bool)

  datatype FleetInput = FleetInput(plan: Plan, fleetId: string, workDir: string, worktreesDir: string, summary: bool)

  function InputFor(input: FleetInput, base: string, n: Node): ChildInput {
    ChildInput(input.fleetId + "-" + n.id, input.workDir, input.worktreesDir, NodeBranch(input.fleetId, n.id), base,
               DependencyBranches(input.fleetId, n.dependsOn), n.prompt, input.summary, true)
  }

  /** What the child of a node has to be handed: to start from the resolved base and do its own node's prompt on its
      own branch, merging those of its dependencies, in the fleet's own directories, and to wait for its review. */
  ghost predicate HandedRight(input: FleetInput, base: string, n: Node, c: ChildInput) {
    && c.startPoint == base && c.prompt == n.prompt && c.branch == NodeBranch(input.fleetId, n.id)
    && c.mergeBranches == DependencyBranches(input.fleetId, n.dependsOn)
    && c.workDir == input.workDir && c.worktreesDir == input.worktreesDir && c.summary == input.summary && c.awaitReview
    && c.workflowId == input.fleetId + "-" + n.id
  }

  /** Children of one fleet share no workflow and no branch, and each merges its own dependencies' branches. */
  lemma ChildrenAreApart(input: FleetInput, base: string, m: Node, n: Node, a: ChildInput, b: ChildInput)
    requires HandedRight(input, base, m, a) && HandedRight(input, base, n, b)
    ensures (a.workflowId == b.workflowId ==> m.id == n.id) && (a.branch == b.branch ==> m.id == n.id)
    ensures b.branch in a.mergeBranches <==> n.id in m.dependsOn
  {
    DependencyBranchesCover(input.fleetId, m.dependsOn);
    if a.branch == b.branch || a.workflowId == b.workflowId { NodeBranchInjective(input.fleetId, m.id, n.id); }
    if b.branch in a.mergeBranches {
      var d :| d in m.dependsOn && b.branch == NodeBranch(input.fleetId, d);
      NodeBranchInjective(input.fleetId, d, n.id);
    }
  }

  /** The id-to-node map the launches read. */
  method NodesById(nodes: seq<Node>) returns (byId: map<string, Node>)
    requires Distinct(Ids(nodes))
    ensures forall n | n in nodes :: n.id in byId && byId[n.id] == n
  {
    byId := map[];
    for k := 0 to |nodes|
      invariant forall n | n in nodes[..k] :: n.id in byId && byId[n.id] == n
    {
      TakeNext(nodes, k);
      forall n | n in nodes[..k] ensures n.id != nodes[k].id {
        var i :| 0 <= i < k && nodes[i] == n;
        assert Ids(nodes)[i] != Ids(nodes)[k];
      }
      byId := byId[nodes[k].id := nodes[k]];
    }
    assert nodes[..|nodes|] == nodes;
  }

  /** The results in the order nodes settled in. */
  method InOrderOfSettling(results: map<string, NodeResult>, order: seq<string>) returns (ordered: seq<NodeResult>)
    requires Elements(order) <= results.Keys
    ensures Results(results, order) == Some(ordered)
  {
    ordered := [];
    for k := 0 to |order|
      invariant Results(results, order[..k]) == Some(ordered)
    {
      TakeNext(order, k);
      assert order[k] in Elements(order);
      ordered := ordered + [results[order[k]]];
    }
    assert order[..|order|] == order;
  }

  /** Every node's child, if it is launched, is handed its own input; every node settles once, as the recursive rule
      says, in an order fixed by the plan and the outcomes; and a run that was cancelled says so, its results kept. */
  method FleetWorkflow(input: FleetInput, base: Option<string>, cancelled: bool, run: ChildInput -> ChildResult)
    returns (r: FleetResult, ghost handed: map<string, ChildInput>, ghost child: string -> ChildResult)
    ensures r.MissingWorktreesDir? <==> input.worktreesDir == ""
    ensures r.InvalidPlan? <==> input.worktreesDir != "" && !Valid(input.plan)
    ensures r.InvalidPlan? ==> RefusalHolds(input.plan, r.verdict) && FirstDefect(input.plan, r.verdict)
    ensures r.NoBase? <==> input.worktreesDir != "" && Valid(input.plan) && base.None?
    ensures r.Cancelled? || r.Completed? ==> (r.Cancelled? <==> cancelled)
    ensures r.Cancelled? || r.Completed? ==>
      forall n | n in input.plan.nodes ::
        n.id in handed && HandedRight(input, base.value, n, handed[n.id]) && child(n.id) == run(handed[n.id])
    ensures r.Cancelled? || r.Completed? ==>
      var g := DepsOf(input.plan.nodes);
      && Closed(g) && Acyclic(g)
      && r.results.Keys == g.Keys && AllRuled(g, child, r.results)
      && exists layers :: (
           && IsLayering(g, layers)
           && Results(r.results, SettleOrder(layers, SkippedBy(g, Outcomes(child)))) == Some(r.ordered))
  {
    handed, child := map[], id => Returned("");
    if input.worktreesDir == "" { return MissingWorktreesDir, handed, child; }
    var t := TopoLayers(input.plan);
    if t.Refused? { return InvalidPlan(t.verdict), handed, child; }
    var byId := NodesById(input.plan.nodes);
    if base.None? { return NoBase, handed, child; }
    var answer := (id: string) =>
      run(InputFor(input, base.value, if id in byId then byId[id] else Node(id, "", [])));
    handed, child := map id | id in byId :: InputFor(input, base.value, byId[id]), answer;
    var g := DependencyMap(input.plan.nodes);
    WellFormedClosed(input.plan);
    var results, order := RunLayers(g, t.layers, answer);
    SettleOrderCovers(g, t.layers, SkippedBy(g, Outcomes(answer)));
    var ordered := InOrderOfSettling(results, order);
    r := if cancelled then Cancelled(results, ordered) else Completed(results, ordered);
  }

  /** The results in a given order of ids. */
  function Results(results: map<string, NodeResult>, order: seq<string>): Option<seq<NodeResult>> {
    if order == [] then Some([]) else
      var k := |order| - 1;
      var front := Results(results, order[..k]);
      if front.Some? && order[k] in results then Some(front.value + [results[order[k]]]) else None
  }

  lemma SettleOrderCovers(g: Graph, layers: seq<seq<string>>, s: set<string>)
    requires IsLayering(g, layers)
    ensures Elements(SettleOrder(layers, s)) == g.Keys
  {
    SettleOrderBelow(g, layers, s, |layers|);
    assert layers[..|layers|] == layers;
  }

  lemma {:induction false} SettleOrderBelow(g: Graph, layers: seq<seq<string>>, s: set<string>, k: nat)
    requires IsLayering(g, layers) && k <= |layers|
    ensures Elements(SettleOrder(layers[..k], s)) == Below(g, k)
  {
    if k > 0 {
      SettleOrderBelow(g, layers, s, k - 1);
      TakeNext(layers, k - 1);
      LayerFacts(g, layers, k - 1);
      LayerElements(SettleOrder(layers[..k - 1], s), layers[k - 1], s);
    } else {
    }
  }

  lemma LayerElements(before: seq<string>, layer: seq<string>, s: set<string>)
    ensures Elements(before + (Those(layer, s) + Others(layer, s))) == Elements(before) + Elements(layer)
  {
    OthersElements(layer, s);
    JoinElements(Those(layer, s), Others(layer, s));
    JoinElements(before, Those(layer, s) + Others(layer, s));
  }

  lemma JoinElements(a: seq<string>, b: seq<string>)
    ensures Elements(a + b) == Elements(a) + Elements(b)
  {
  }

  // ------------------------------------------------------------- SummarizeFleet

  function SumTokens(rs: seq<NodeResult>): int {
    if rs == [] then 0 else SumTokens(rs[..|rs| - 1]) + rs[|rs| - 1].tokens
  }

  function CountOf(rs: seq<NodeResult>, status: NodeStatus): nat {
    if rs == [] then 0 else
      CountOf(rs[..|rs| - 1], status) + (if rs[|rs| - 1].status == status then 1 else 0)
  }

  datatype Totals = Totals(succeeded: nat, failed: nat, blocked: nat, skipped: nat, tokens: int)

  ghost function TotalsOf(rs: seq<NodeResult>): Totals {
    Totals(CountOf(rs, OK), CountOf(rs, Ran(Failed)), CountOf(rs, Ran(Blocked)), CountOf(rs, WasSkipped), SumTokens(rs))
  }

  method Tally(t: Totals, r: NodeResult) returns (t': Totals)
    ensures t' == Totals(
      t.succeeded + (if r.status == OK then 1 else 0), t.failed + (if r.status == Ran(Failed) then 1 else 0),
      t.blocked + (if r.status == Ran(Blocked) then 1 else 0), t.skipped + (if r.status == WasSkipped then 1 else 0),
      t.tokens + r.tokens)
  {
    t' := t.(tokens := t.tokens + r.tokens);
    match r.status
    case Ran(Succeeded) => t' := t'.(succeeded := t.succeeded + 1);
    case Ran(Failed) => t' := t'.(failed := t.failed + 1);
    case Ran(Blocked) => t' := t'.(blocked := t.blocked + 1);
    case WasSkipped => t' := t'.(skipped := t.skipped + 1);
  }

  lemma CountStep(rs: seq<NodeResult>, k: nat, status: NodeStatus)
    requires k < |rs|
    ensures CountOf(rs[..k + 1], status) == CountOf(rs[..k], status) + (if rs[k].status == status then 1 else 0)
  {
    TakeNext(rs, k);
  }

  lemma SumStep(rs: seq<NodeResult>, k: nat)
    requires k < |rs|
    ensures SumTokens(rs[..k + 1]) == SumTokens(rs[..k]) + rs[k].tokens
  {
    TakeNext(rs, k);
  }

  /** The counts partition the results. */
  lemma {:induction false} CountsPartition(rs: seq<NodeResult>)
    ensures CountOf(rs, OK) + CountOf(rs, Ran(Failed)) + CountOf(rs, Ran(Blocked)) + CountOf(rs, WasSkipped) == |rs|
  {
    if rs != [] {
      var k := |rs| - 1;
      assert rs[..k + 1] == rs;
      CountsPartition(rs[..k]);
      CountStep(rs, k, OK);
      CountStep(rs, k, Ran(Failed));
      CountStep(rs, k, Ran(Blocked));
      CountStep(rs, k, WasSkipped);
      match rs[k].status
      case Ran(Succeeded) =>
      case Ran(Failed) =>
      case Ran(Blocked) =>
      case WasSkipped =>
    }
  }

  function Statuses(rs: seq<NodeResult>): seq<NodeStatus> {
    seq(|rs|, i requires 0 <= i < |rs| => rs[i].status)
  }

  /** A count is how often the status occurs. */
  lemma {:induction false} CountIsMultiplicity(rs: seq<NodeResult>, status: NodeStatus)
    ensures CountOf(rs, status) == multiset(Statuses(rs))[status]
  {
    if rs != [] {
      var k := |rs| - 1;
      CountIsMultiplicity(rs[..k], status);
      assert Statuses(rs) == Statuses(rs[..k]) + [rs[k].status];
    } else {
      assert Statuses(rs) == [];
    }
  }

  /** The figures of the summary: how often each status occurs among the results, and their tokens. */
  method SummarizeFleet(rs: seq<NodeResult>) returns (t: Totals)
    ensures var statuses := multiset(Statuses(rs));
      && t.succeeded == statuses[Ran(Succeeded)] && t.failed == statuses[Ran(Failed)]
      && t.blocked == statuses[Ran(Blocked)] && t.skipped == statuses[WasSkipped]
    ensures t.tokens == SumTokens(rs) && t.succeeded + t.failed + t.blocked + t.skipped == |rs|
  {
    t := Totals(0, 0, 0, 0, 0);
    for k := 0 to |rs|
      invariant t == TotalsOf(rs[..k])
    {
      CountStep(rs, k, OK);
      CountStep(rs, k, Ran(Failed));
      CountStep(rs, k, Ran(Blocked));
      CountStep(rs, k, WasSkipped);
      SumStep(rs, k);
      t := Tally(t, rs[k]);
    }
    assert rs[..|rs|] == rs;
    CountsPartition(rs);
    CountIsMultiplicity(rs, OK);
    CountIsMultiplicity(rs, Ran(Failed));
    CountIsMultiplicity(rs, Ran(Blocked));
    CountIsMultiplicity(rs, WasSkipped);
  }

  /** What an awaited develop run says before its figure. */
  function Developed(branch: string, commits: nat): string {
    "Developed branch " + branch + " with " + Tokens.Decimal(commits) + " commit(s); local review converged."
  }

  /** The summary an awaited develop run returns to the fleet. */
  function AwaitedSummary(branch: string, commits: nat, tokens: int): string {
    Tokens.WithDevelopStepTokens(Developed(branch, commits), tokens)
  }

  /** No node's summary reports a figure of its own before the appended one. */
  lemma NoNodeHidesItsFigure(fleetId: string, nodeId: string, commits: nat)
    requires ':' !in fleetId && Slug(nodeId)
    ensures Tokens.Find(Tokens.Matcher(Tokens.USAGE), Developed(NodeBranch(fleetId, nodeId), commits)).None?
  {
    assert ':' !in NodeBranch(fleetId, nodeId);
    Tokens.DecimalValue(commits);
    assert ':' !in Tokens.Decimal(commits);
    Tokens.NoColonNoFigure(Tokens.USAGE, Developed(NodeBranch(fleetId, nodeId), commits));
  }

  /** A node's figure survives the trip through its summary. */
  lemma NodeTokensSurvive(fleetId: string, nodeId: string, commits: nat, tokens: nat)
    requires tokens <= Tokens.MAX_INT && ':' !in fleetId && Slug(nodeId)
    ensures Tokens.ParseTokenTotal(AwaitedSummary(NodeBranch(fleetId, nodeId), commits, tokens)) == tokens
  {
    NoNodeHidesItsFigure(fleetId, nodeId, commits);
    Tokens.TokensThroughProse(Developed(NodeBranch(fleetId, nodeId), commits), tokens);
  }

  /** The tokens of the succeeded nodes' develop steps. */
  ghost function SucceededTokens(rs: seq<NodeResult>, tokens: string -> nat): int {
    if rs == [] then 0 else
      var r := rs[|rs| - 1];
      SucceededTokens(rs[..|rs| - 1], tokens) + (if r.status == OK then tokens(r.id) else 0)
  }

  /** The fleet's total is exactly the develop-step tokens of the succeeded nodes. */
  lemma {:induction false} FleetTotalIsDevelopTokens(
      g: Graph, child: string -> ChildResult, results: map<string, NodeResult>, order: seq<string>,
      fleetId: string, commits: string -> nat, tokens: string -> nat)
    requires Closed(g) && Acyclic(g) && AllRuled(g, child, results)
    requires ':' !in fleetId && forall id | id in g :: Slug(id) && tokens(id) <= Tokens.MAX_INT
    requires forall id | id in g && child(id).Returned? ::
               child(id).summary == AwaitedSummary(NodeBranch(fleetId, id), commits(id), tokens(id))
    requires Results(results, order).Some?
    ensures SumTokens(Results(results, order).value) == SucceededTokens(Results(results, order).value, tokens)
    decreases |order|
  {
    if order != [] {
      var k := |order| - 1;
      var id := order[k];
      FleetTotalIsDevelopTokens(g, child, results, order[..k], fleetId, commits, tokens);
      var front := Results(results, order[..k]).value;
      assert Results(results, order).value[..|front|] == front;
      assert AsRuled(g, child, id, results[id]);
      if results[id].status == OK {
        NodeTokensSurvive(fleetId, id, commits(id), tokens(id));
      }
    }
  }
}
