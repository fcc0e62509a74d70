/** What a fleet's summary counts: the develop runs of its nodes, read back from what they return. */
module FleetTotals {
  import opened Ordering
  import opened Graphs
  import opened Plans
  import opened World
  import opened Scheduler
  import opened Workflow
  import D = Development
  import Tokens

  /** One node's develop run: what it merges, where it starts, what the world answers it, how its error reads. */
  datatype NodeRun = NodeRun(branches: seq<Commits>, base: Commits, events: D.NodeEvents, text: string)

  predicate WellFormed(run: NodeRun) {
    |run.events.seeds| == |run.branches|
  }

  ghost function Seeding(run: NodeRun): D.Seed
    requires WellFormed(run)
  {
    D.SeedAll(run.base, run.branches, run.events.seeds)
  }

  ghost function End(run: NodeRun): D.NodeEnd
    requires WellFormed(run)
  {
    D.NodeEndOf(run.branches, run.base, run.events)
  }

  /** What the run returns to its fleet, once it has ended: its summary, or an error that names how it stopped. */
  ghost function AnswerOf(run: NodeRun, branch: string): ChildResult
    requires WellFormed(run) && !End(run).Unsettled?
  {
    match End(run)
    case Landed(tokens) =>
      Returned(AwaitedSummary(branch, |run.events.agent.adds - Seeding(run).history|, tokens))
    case Stopped(outcome) =>
      Errored(if outcome != Blocked then OtherError
              else if Seeding(run).result.SeedBlocked? then SeedConflictBlocked else ReviewNotConverged, run.text)
  }

  lemma NeverStopsSucceeded(run: NodeRun)
    requires WellFormed(run)
    ensures End(run) != D.Stopped(Succeeded)
  {
  }

  /** The fleet reads a run's end off its answer: success exactly when it landed, blocked exactly when it blocked. */
  lemma FleetReadsEnd(run: NodeRun, branch: string)
    requires WellFormed(run) && !End(run).Unsettled?
    ensures OutcomeOf(AnswerOf(run, branch)) == match End(run)
                                               case Landed(_) => Succeeded
                                               case Stopped(outcome) => outcome
  {
    NeverStopsSucceeded(run);
  }

  /** What seeding and developing cost. */
  ghost function DevelopCost(run: NodeRun): int
    requires WellFormed(run)
  {
    match Seeding(run).result
    case Seeded(tokens) => tokens + run.events.agent.tokens
    case _ => 0
  }

  /** The figure the fleet reads off the answer of a run that landed is what the run cost. */
  lemma FigureIsCost(run: NodeRun, fleetId: string, id: string)
    requires WellFormed(run) && End(run).Landed? && ':' !in fleetId && Slug(id)
    requires 0 <= DevelopCost(run) <= Tokens.MAX_INT
    ensures var answer := AnswerOf(run, NodeBranch(fleetId, id));
            answer.Returned? && Tokens.ParseTokenTotal(answer.summary) == DevelopCost(run)
  {
    D.LandsExactly(run.branches, run.base, run.events);
    NodeTokensSurvive(fleetId, id, |run.events.agent.adds - Seeding(run).history|, DevelopCost(run));
  }

  /** Every node's child is its develop run, ended, and its cost is one a figure can show. */
  ghost predicate AreRuns(g: Graph, runs: map<string, NodeRun>, child: string -> ChildResult, fleetId: string) {
    forall id | id in g ::
      && id in runs && Slug(id) && WellFormed(runs[id]) && !End(runs[id]).Unsettled?
      && child(id) == AnswerOf(runs[id], NodeBranch(fleetId, id))
      && (End(runs[id]).Landed? ==> 0 <= DevelopCost(runs[id]) <= Tokens.MAX_INT)
  }

  /** What the runs of the nodes that succeeded cost. */
  ghost function CostOfSucceeded(rs: seq<NodeResult>, runs: map<string, NodeRun>): int {
    if rs == [] then 0 else
      var r := rs[|rs| - 1];
      CostOfSucceeded(rs[..|rs| - 1], runs)
      + if r.status == OK && r.id in runs && WellFormed(runs[r.id]) then DevelopCost(runs[r.id]) else 0
  }

  /** One result counts what its node's run cost, if it succeeded, and nothing otherwise. */
  lemma ResultCounts(g: Graph, runs: map<string, NodeRun>, child: string -> ChildResult, fleetId: string,
                     id: string, r: NodeResult)
    requires Closed(g) && Acyclic(g) && id in g && AsRuled(g, child, id, r)
    requires AreRuns(g, runs, child, fleetId) && ':' !in fleetId
    ensures r.tokens == if r.status == OK then DevelopCost(runs[id]) else 0
  {
    FleetReadsEnd(runs[id], NodeBranch(fleetId, id));
    if r.status == OK { FigureIsCost(runs[id], fleetId, id); }
  }

  /** The fleet's total is what seeding and developing cost in the runs that landed, and nothing else. */
  lemma {:induction false} FleetTotalIsCost(
      g: Graph, runs: map<string, NodeRun>, child: string -> ChildResult, results: map<string, NodeResult>,
      order: seq<string>, fleetId: string)
    requires Closed(g) && Acyclic(g) && AllRuled(g, child, results)
    requires AreRuns(g, runs, child, fleetId) && ':' !in fleetId
    requires Results(results, order).Some?
    ensures SumTokens(Results(results, order).value) == CostOfSucceeded(Results(results, order).value, runs)
    decreases |order|
  {
    if order != [] {
      var k := |order| - 1;
      var id := order[k];
      FleetTotalIsCost(g, runs, child, results, order[..k], fleetId);
      var front := Results(results, order[..k]).value;
      assert Results(results, order).value[..|front|] == front;
      assert AsRuled(g, child, id, results[id]);
      ResultCounts(g, runs, child, fleetId, id, results[id]);
    }
  }
}
