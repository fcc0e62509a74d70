/** A whole fleet, from what FleetWorkflow hands its children to what their develop runs leave in the repository. */
module FleetRuns {
  import opened Ordering
  import opened Graphs
  import opened Plans
  import opened World
  import opened Scheduler
  import opened Workflow
  import F = FleetTotals
  import D = Development

  /** What a commit or a branch reaches. A branch that is merged is not written any more, so one value stands for it. */
  type Refs = string -> Commits

  /** A develop run does what its child was handed: it starts from the start point, merges the branches to merge, and
      what it lands is on the branch it was given. */
  ghost predicate Serves(c: ChildInput, run: F.NodeRun, refs: Refs, answer: ChildResult) {
    && F.WellFormed(run) && !F.End(run).Unsettled? && answer == F.AnswerOf(run, c.branch)
    && run.base == refs(c.startPoint) && run.events.summary == c.summary
    && |run.branches| == |c.mergeBranches|
    && (forall k | 0 <= k < |run.branches| :: run.branches[k] == refs(c.mergeBranches[k]))
    && (F.End(run).Landed? ==> exists m :: D.LandedOn(m, run.base, run.branches) && m.history == refs(c.branch))
  }

  /** Every node that is not skipped has been handed what it has to be, and a run that awaits its review serves it. */
  ghost predicate Served(input: FleetInput, base: string, child: string -> ChildResult, handed: map<string, ChildInput>,
                         runs: map<string, F.NodeRun>, refs: Refs)
    requires Closed(DepsOf(input.plan.nodes)) && Acyclic(DepsOf(input.plan.nodes))
  {
    var g := DepsOf(input.plan.nodes);
    forall n | n in input.plan.nodes && n.id in g && FinalStatus(g, Outcomes(child), n.id) != WasSkipped ::
      && n.id in handed && HandedRight(input, base, n, handed[n.id])
      && (handed[n.id].awaitReview ==> n.id in runs && Serves(handed[n.id], runs[n.id], refs, child(n.id)))
  }

  /** The plan's graph says of every node what the node says. */
  lemma NodeOf(plan: Plan, id: string) returns (n: Node)
    requires Valid(plan) && id in DepsOf(plan.nodes)
    ensures n in plan.nodes && n.id == id && n.dependsOn == DepsOf(plan.nodes)[id]
  {
    DepsOfKeys(plan.nodes);
    assert id in Ids(plan.nodes);
    var i :| 0 <= i < |plan.nodes| && Ids(plan.nodes)[i] == id;
    DepsOfNode(plan.nodes, i);
    n := plan.nodes[i];
  }

  /** The branch a node succeeded on. */
  function Branch(input: FleetInput, refs: Refs, id: string): Commits {
    refs(NodeBranch(input.fleetId, id))
  }

  /** What one succeeded node built on: the base, every direct dependency, each succeeded, and a commit of its own. */
  ghost predicate BuiltOn(input: FleetInput, base: string, refs: Refs, id: string)
    requires id in DepsOf(input.plan.nodes)
  {
    var deps := DepsOf(input.plan.nodes)[id];
    && refs(base) <= Branch(input, refs, id)
    && (forall d | d in deps :: Branch(input, refs, d) <= Branch(input, refs, id))
    && exists x :: x in Branch(input, refs, id) && x !in refs(base) && forall d | d in deps :: x !in Branch(input, refs, d)
  }

  lemma ServedIsBuilt(input: FleetInput, base: string, child: string -> ChildResult, handed: map<string, ChildInput>,
                      runs: map<string, F.NodeRun>, refs: Refs, id: string)
    requires Closed(DepsOf(input.plan.nodes)) && Acyclic(DepsOf(input.plan.nodes))
    requires Valid(input.plan) && Served(input, base, child, handed, runs, refs) && id in DepsOf(input.plan.nodes)
    requires FinalStatus(DepsOf(input.plan.nodes), Outcomes(child), id) == OK
    ensures BuiltOn(input, base, refs, id)
  {
    var n := NodeOf(input.plan, id);
    var c, run := handed[id], runs[id];
    F.FleetReadsEnd(run, c.branch);
    F.NeverStopsSucceeded(run);
    var m :| D.LandedOn(m, run.base, run.branches) && m.history == refs(c.branch);
    var x :| x in m.history - m.child.start;
    DependencyBranchesCover(input.fleetId, n.dependsOn);
    forall d | d in n.dependsOn ensures Branch(input, refs, d) <= m.child.start {
      var k :| 0 <= k < |c.mergeBranches| && c.mergeBranches[k] == NodeBranch(input.fleetId, d);
      assert run.branches[k] == refs(c.mergeBranches[k]);
    }
  }

  /** Layering of the code, from the program's own loops: once a fleet is done, the branch of every node that succeeded
      holds the base the workflow resolved, a commit of the node's own that none of its dependencies has, and the whole
      branch of every direct and transitive dependency, each of which succeeded. */
  lemma {:induction false} FleetLayersCode(
      input: FleetInput, base: string, child: string -> ChildResult, handed: map<string, ChildInput>,
      results: map<string, NodeResult>, runs: map<string, F.NodeRun>, refs: Refs, id: string)
    requires Closed(DepsOf(input.plan.nodes)) && Acyclic(DepsOf(input.plan.nodes))
    requires Valid(input.plan) && Served(input, base, child, handed, runs, refs)
    requires results.Keys == DepsOf(input.plan.nodes).Keys && AllRuled(DepsOf(input.plan.nodes), child, results)
    requires id in results && results[id].status == OK
    ensures BuiltOn(input, base, refs, id)
    ensures forall d | Reaches(DepsOf(input.plan.nodes), id, d) ::
              && d in results && results[d].status == OK && BuiltOn(input, base, refs, d)
              && Branch(input, refs, d) <= Branch(input, refs, id)
    decreases Height(DepsOf(input.plan.nodes), id)
  {
    var g := DepsOf(input.plan.nodes);
    RuledOk(g, child, results, id);
    ServedIsBuilt(input, base, child, handed, runs, refs, id);
    HeightsFall(g, id);
    forall d | Reaches(g, id, d)
      ensures d in results && results[d].status == OK && BuiltOn(input, base, refs, d)
      ensures Branch(input, refs, d) <= Branch(input, refs, id)
    {
      var b := ReachesFirst(g, id, d);
      FleetLayersCode(input, base, child, handed, results, runs, refs, b);
    }
  }

  /** A node's result is the rule's, and a succeeded node's dependencies all succeeded. */
  lemma RuledOk(g: Graph, child: string -> ChildResult, results: map<string, NodeResult>, id: string)
    requires Closed(g) && Acyclic(g) && results.Keys == g.Keys && AllRuled(g, child, results) && id in g
    ensures results[id].status == OK <==> FinalStatus(g, Outcomes(child), id) == OK
    ensures results[id].status == OK ==> forall d | d in g[id] :: d in results && results[d].status == OK
  {
    assert AsRuled(g, child, id, results[id]);
    HeightsFall(g, id);
    forall d | d in g[id] ensures results[d].status == FinalStatus(g, Outcomes(child), d) {
      assert AsRuled(g, child, d, results[d]);
    }
  }
}
