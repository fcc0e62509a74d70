/** What a fleet run does to the repository: the children of FleetWorkflow and their branches. */
module World {
  /*  A branch is the set of commits reachable from it.  The steps below may interleave in any
      order; they are what the develop workflow of each node does
      (internal/codereview/workflow.go, internal/codereview/activities.go).  Assumed of the
      world outside: a clean merge reaches the union of both histories, and an agent only adds
      commits on top of HEAD.  Each activity takes effect once.

      The rules for starting and skipping a node are those of a scheduler that acts on a node
      as soon as its dependencies allow it; module Scheduler shows that FleetWorkflow, with its
      layer barrier, only takes these steps.  */

  import opened Ordering
  import opened Graphs
  import opened Plans

  type Commits = set<nat>

  datatype Outcome = Succeeded | Failed | Blocked

  datatype Phase =
    | Creating
    | Seeding(merged: nat)
    | Developing
    | Reviewing
    | Ended(outcome: Outcome)

  /** `start` is the history the develop agent started from; `landed` and `converged` record
      that EnsureDeveloped found a new commit and that the review ended converged. */
  datatype Child = Child(phase: Phase, agentStarted: bool, start: Commits, landed: bool, converged: bool)

  datatype Fleet = Fleet(id: string, g: Graph, base: Commits)

  datatype State = State(branches: map<string, Commits>, children: map<string, Child>, skipped: set<string>)

  // ------------------------------------------------------------------ branches

  function NodeBranch(fleetId: string, nodeId: string): string {
    fleetId + "-" + nodeId
  }

  /** Within one fleet, different nodes write different branches. */
  lemma NodeBranchInjective(fleetId: string, a: string, b: string)
    requires NodeBranch(fleetId, a) == NodeBranch(fleetId, b)
    ensures a == b
  {
    var prefix := fleetId + "-";
    assert NodeBranch(fleetId, a)[|prefix|..] == a;
    assert NodeBranch(fleetId, b)[|prefix|..] == b;
  }

  /** The branches merged into a node's branch, in the order they are merged. */
  function DependencyBranches(fleetId: string, deps: seq<string>): seq<string> {
    var sorted := SortBy(Less, deps);
    seq(|sorted|, i requires 0 <= i < |sorted| => NodeBranch(fleetId, sorted[i]))
  }

  lemma DependencyBranchesCover(fleetId: string, deps: seq<string>)
    ensures |DependencyBranches(fleetId, deps)| == |deps|
    ensures forall d | d in deps :: NodeBranch(fleetId, d) in DependencyBranches(fleetId, deps)
    ensures forall b | b in DependencyBranches(fleetId, deps) ::
              exists d :: d in deps && b == NodeBranch(fleetId, d)
  {
    LessIsStrictTotal();
    SortBySorts(Less, deps);
    var sorted := SortBy(Less, deps);
    var branches := DependencyBranches(fleetId, deps);
    forall d | d in deps ensures NodeBranch(fleetId, d) in branches {
      var i :| 0 <= i < |sorted| && sorted[i] == d;
      assert branches[i] == NodeBranch(fleetId, d);
    }
    forall b | b in branches ensures exists d :: d in deps && b == NodeBranch(fleetId, d) {
      var i :| 0 <= i < |branches| && branches[i] == b;
      assert sorted[i] in deps;
    }
  }

  /** The branches are merged in the order of their nodes' ids, each dependency's once for every time it is listed. */
  ghost predicate MergesInOrder(fleetId: string, deps: seq<string>, ids: seq<string>) {
    && Sorted(Less, ids) && multiset(ids) == multiset(deps) && |ids| == |DependencyBranches(fleetId, deps)|
    && forall i | 0 <= i < |ids| :: DependencyBranches(fleetId, deps)[i] == NodeBranch(fleetId, ids[i])
  }

  lemma DependencyBranchesInOrder(fleetId: string, deps: seq<string>)
    ensures exists ids :: MergesInOrder(fleetId, deps, ids)
  {
    LessIsStrictTotal();
    SortBySorts(Less, deps);
    assert MergesInOrder(fleetId, deps, SortBy(Less, deps));
  }

  // --------------------------------------------------------------------- steps

  predicate HasSucceeded(s: State, id: string) {
    id in s.children && s.children[id].phase == Ended(Succeeded)
  }

  /** Settled without success: its child failed or is blocked, or it was skipped. */
  predicate HasFallen(s: State, id: string) {
    || id in s.skipped
    || (id in s.children && s.children[id].phase.Ended? && s.children[id].phase.outcome != Succeeded)
  }

  predicate Untouched(f: Fleet, s: State, id: string) {
    id in f.g && id !in s.children && id !in s.skipped
  }

  const NewChild := Child(Creating, false, {}, false, false)

  predicate CanStart(f: Fleet, s: State, id: string) {
    Untouched(f, s, id) && forall d | d in f.g[id] :: HasSucceeded(s, d)
  }

  predicate CanSkip(f: Fleet, s: State, id: string) {
    Untouched(f, s, id) && exists d :: d in f.g[id] && HasFallen(s, d)
  }

  function Started(s: State, id: string): State {
    s.(children := s.children[id := NewChild])
  }

  function Skipped(s: State, id: string): State {
    s.(skipped := s.skipped + {id})
  }

  /** What a child's step does to its branch. */
  datatype Write = Keep | Reset(history: Commits)

  predicate Grows(s: State, branch: string, w: Write) {
    branch in s.branches && w.Reset? && s.branches[branch] <= w.history
  }

  /** CreateBranch: cuts a new branch from the pinned base, or fails. */
  predicate CreateStep(f: Fleet, s: State, id: string, from: Child, to: Child, w: Write) {
    var created := NodeBranch(f.id, id) !in s.branches && w == Reset(f.base);
    && from.phase == Creating
    && ( || (to == from.(phase := Seeding(0)) && created)
         || (to == from.(phase := Ended(Failed)) && (created || w == Keep)))
  }

  /** seedBranches: merges the next dependency branch.  A clean merge reaches both
      histories; a resolved conflict is accepted only when the dependency is an ancestor of
      HEAD, and its agent only added commits.  Either way the branch grows and the
      dependency lies within it.  An unresolved one blocks the node once the merge is
      aborted, and fails it when the abort fails, as any other git error does. */
  predicate MergeStep(f: Fleet, s: State, id: string, from: Child, to: Child, w: Write)
    requires id in f.g
  {
    var b, deps := NodeBranch(f.id, id), DependencyBranches(f.id, f.g[id]);
    && from.phase.Seeding? && from.phase.merged < |deps|
    && var k := from.phase.merged;
       || (to == from.(phase := Ended(Failed)) && (w == Keep || Grows(s, b, w)))
       || (to == from.(phase := Ended(Blocked)) && (w == Keep || Grows(s, b, w)))
       || (to == from.(phase := Seeding(k + 1)) && Grows(s, b, w) && Within(s, deps[k], w.history))
  }

  /** Every dependency is merged: the develop agent starts. */
  predicate DevelopStep(f: Fleet, s: State, id: string, from: Child, to: Child, w: Write)
    requires id in f.g
  {
    var b := NodeBranch(f.id, id);
    && from.phase == Seeding(|DependencyBranches(f.id, f.g[id])|)
    && b in s.branches && w == Keep
    && to == from.(phase := Developing, agentStarted := true, start := s.branches[b])
  }

  /** The agent adds commits; EnsureDeveloped then demands at least one new commit (and a
      clean tree) before the review loop starts. */
  predicate EnsureStep(f: Fleet, s: State, id: string, from: Child, to: Child, w: Write) {
    && from.phase == Developing && Grows(s, NodeBranch(f.id, id), w)
    && ( || to == from
         || to == from.(phase := Ended(Failed))
         || (w.history - from.start != {} && to == from.(phase := Reviewing, landed := true)))
  }

  /** The review loop adds commits and ends: converged, not converged (blocked), or with an
      error (failed). */
  predicate ReviewStep(f: Fleet, s: State, id: string, from: Child, to: Child, w: Write) {
    && from.phase == Reviewing && Grows(s, NodeBranch(f.id, id), w)
    && ( || to == from
         || to == from.(phase := Ended(Failed))
         || to == from.(phase := Ended(Blocked))
         || to == from.(phase := Ended(Succeeded), converged := true))
  }

  predicate ChildStep(f: Fleet, s: State, id: string, to: Child, w: Write) {
    && id in s.children && id in f.g
    && var from := s.children[id];
       || CreateStep(f, s, id, from, to, w) || MergeStep(f, s, id, from, to, w)
       || DevelopStep(f, s, id, from, to, w) || EnsureStep(f, s, id, from, to, w)
       || ReviewStep(f, s, id, from, to, w)
  }

  function AfterChild(f: Fleet, s: State, id: string, to: Child, w: Write): State {
    State(if w.Keep? then s.branches else s.branches[NodeBranch(f.id, id) := w.history],
          s.children[id := to], s.skipped)
  }

  ghost predicate Next(f: Fleet, s: State, t: State) {
    || t == s
    || (exists id :: CanStart(f, s, id) && t == Started(s, id))
    || (exists id :: CanSkip(f, s, id) && t == Skipped(s, id))
    || (exists id, c, w :: ChildStep(f, s, id, c, w) && t == AfterChild(f, s, id, c, w))
  }

  ghost predicate Init(s: State) {
    s.children == map[] && s.skipped == {}
  }

  /** A run: any interleaving of steps. */
  ghost predicate IsRun(f: Fleet, run: seq<State>) {
    && run != [] && Init(run[0])
    && forall i | 0 <= i < |run| - 1 :: Next(f, run[i], run[i + 1])
  }

  ghost predicate Reachable(f: Fleet, s: State) {
    exists run :: IsRun(f, run) && run[|run| - 1] == s
  }

  ghost predicate ValidFleet(f: Fleet) {
    Closed(f.g) && Acyclic(f.g)
  }

  // ---------------------------------------------------------------- invariants

  /** A node only starts on successful dependencies, and is only skipped behind a fallen
      one. */
  ghost predicate Scheduled(f: Fleet, s: State) {
    && s.children.Keys <= f.g.Keys && s.skipped <= f.g.Keys && s.children.Keys !! s.skipped
    && (forall id, d | id in s.children && d in f.g[id] :: HasSucceeded(s, d))
    && (forall id | id in s.skipped :: exists d :: d in f.g[id] && HasFallen(s, d))
  }

  /** Everything reachable from a branch lies in `h`. */
  predicate Within(s: State, branch: string, h: Commits) {
    branch in s.branches && s.branches[branch] <= h
  }

  /** The agent started from the pinned base and every dependency branch, and the branch
      still holds what it started from. */
  ghost predicate Built(f: Fleet, s: State, id: string)
    requires id in s.children && id in f.g
  {
    var c, b, deps := s.children[id], NodeBranch(f.id, id), DependencyBranches(f.id, f.g[id]);
    && c.agentStarted
    && b in s.branches && f.base <= c.start <= s.branches[b]
    && (forall k | 0 <= k < |deps| :: Within(s, deps[k], c.start))
    && (c.landed ==> s.branches[b] - c.start != {})
  }

  ghost predicate Layered(f: Fleet, s: State, id: string)
    requires id in s.children && id in f.g
  {
    var c, b, deps := s.children[id], NodeBranch(f.id, id), DependencyBranches(f.id, f.g[id]);
    match c.phase
    case Creating => !c.agentStarted && !c.landed
    case Seeding(n) =>
      && !c.agentStarted && !c.landed
      && n <= |deps| && b in s.branches && f.base <= s.branches[b]
      && forall k | 0 <= k < n :: Within(s, deps[k], s.branches[b])
    case Developing => Built(f, s, id)
    case Reviewing => Built(f, s, id) && c.landed
    case Ended(o) =>
      && (c.agentStarted ==> Built(f, s, id))
      && (c.landed ==> c.agentStarted)
      && (o == Succeeded ==> c.agentStarted && c.landed && c.converged)
  }

  ghost predicate Inv(f: Fleet, s: State) {
    Scheduled(f, s) && forall id | id in s.children :: Layered(f, s, id)
  }

  /** Nothing that ended or was skipped changes again: an ended child keeps its state, and
      nobody else writes its branch. */
  ghost predicate Later(f: Fleet, s: State, t: State) {
    && s.skipped <= t.skipped && s.children.Keys <= t.children.Keys
    && forall id | id in s.children && s.children[id].phase.Ended? ::
         t.children[id] == s.children[id] && SameBranch(f, s, t, id)
  }

  ghost predicate SameBranch(f: Fleet, s: State, t: State, id: string) {
    var b := NodeBranch(f.id, id);
    (b in s.branches <==> b in t.branches) && (b in s.branches ==> t.branches[b] == s.branches[b])
  }

  /** A child's step writes no branch but its own. */
  lemma OwnBranchOnly(f: Fleet, s: State, id: string, c: Child, w: Write, other: string)
    requires other != id
    ensures SameBranch(f, s, AfterChild(f, s, id, c, w), other)
  {
    if NodeBranch(f.id, other) == NodeBranch(f.id, id) {
      NodeBranchInjective(f.id, other, id);
    }
  }

  lemma StepIsLater(f: Fleet, s: State, t: State)
    requires Next(f, s, t)
    ensures Later(f, s, t)
  {
    if id, c, w :| ChildStep(f, s, id, c, w) && t == AfterChild(f, s, id, c, w) {
      forall x | x in s.children && s.children[x].phase.Ended? ensures SameBranch(f, s, t, x) {
        OwnBranchOnly(f, s, id, c, w, x);
      }
    }
  }

  lemma SettledStays(f: Fleet, s: State, t: State, id: string)
    requires Later(f, s, t)
    ensures HasSucceeded(s, id) ==> HasSucceeded(t, id)
    ensures HasFallen(s, id) ==> HasFallen(t, id)
  {
  }

  lemma ScheduledStep(f: Fleet, s: State, t: State)
    requires Scheduled(f, s) && Next(f, s, t)
    ensures Scheduled(f, t)
  {
    StepIsLater(f, s, t);
    ScheduledKeys(f, s, t);
    forall id, d | id in t.children && d in f.g[id] ensures HasSucceeded(t, d) {
      assert HasSucceeded(s, d);
      SettledStays(f, s, t, d);
    }
    forall id | id in t.skipped ensures exists d :: d in f.g[id] && HasFallen(t, d) {
      var d :| d in f.g[id] && HasFallen(s, d);
      SettledStays(f, s, t, d);
    }
  }

  lemma ScheduledKeys(f: Fleet, s: State, t: State)
    requires Scheduled(f, s) && Next(f, s, t)
    ensures t.children.Keys <= f.g.Keys && t.skipped <= f.g.Keys && t.children.Keys !! t.skipped
  {
  }

  /** What a node's dependencies hold does not change under a step. */
  lemma DependenciesFrozen(f: Fleet, s: State, t: State, id: string, k: nat, h: Commits)
    requires Scheduled(f, s) && Later(f, s, t) && id in s.children && id in f.g
    requires k < |DependencyBranches(f.id, f.g[id])|
    ensures Within(s, DependencyBranches(f.id, f.g[id])[k], h) ==> Within(t, DependencyBranches(f.id, f.g[id])[k], h)
  {
    DependencyBranchesCover(f.id, f.g[id]);
    var b := DependencyBranches(f.id, f.g[id])[k];
    assert b in DependencyBranches(f.id, f.g[id]);
    var d :| d in f.g[id] && b == NodeBranch(f.id, d);
    assert HasSucceeded(s, d);
    assert SameBranch(f, s, t, d);
  }

  lemma LayeredKept(f: Fleet, s: State, t: State, id: string)
    requires Scheduled(f, s) && Later(f, s, t) && id in s.children && id in f.g
    requires id in t.children && t.children[id] == s.children[id] && SameBranch(f, s, t, id)
    requires Layered(f, s, id)
    ensures Layered(f, t, id)
  {
    forall k: nat, h | k < |DependencyBranches(f.id, f.g[id])|
      ensures Within(s, DependencyBranches(f.id, f.g[id])[k], h) ==> Within(t, DependencyBranches(f.id, f.g[id])[k], h)
    {
      DependenciesFrozen(f, s, t, id, k, h);
    }
  }

  lemma LayeredStep(f: Fleet, s: State, id: string, c: Child, w: Write)
    requires Inv(f, s) && ChildStep(f, s, id, c, w)
    requires Later(f, s, AfterChild(f, s, id, c, w))
    ensures Layered(f, AfterChild(f, s, id, c, w), id)
  {
    var t := AfterChild(f, s, id, c, w);
    var deps := DependencyBranches(f.id, f.g[id]);
    assert Layered(f, s, id);
    forall k: nat, h | k < |deps| ensures Within(s, deps[k], h) ==> Within(t, deps[k], h) {
      DependenciesFrozen(f, s, t, id, k, h);
    }
  }

  lemma InvStep(f: Fleet, s: State, t: State)
    requires Inv(f, s) && Next(f, s, t)
    ensures Inv(f, t)
  {
    ScheduledStep(f, s, t);
    StepIsLater(f, s, t);
    if id, c, w :| ChildStep(f, s, id, c, w) && t == AfterChild(f, s, id, c, w) {
      LayeredStep(f, s, id, c, w);
      forall x | x in t.children && x != id ensures Layered(f, t, x) {
        OwnBranchOnly(f, s, id, c, w, x);
        LayeredKept(f, s, t, x);
      }
    } else {
      forall x | x in t.children ensures Layered(f, t, x) {
        if x in s.children { LayeredKept(f, s, t, x); }
      }
    }
  }

  lemma {:induction false} RunInv(f: Fleet, run: seq<State>, i: nat)
    requires IsRun(f, run) && i < |run|
    ensures Inv(f, run[i])
  {
    if i > 0 {
      RunInv(f, run, i - 1);
      assert Next(f, run[i - 1], run[i - 1 + 1]);
      InvStep(f, run[i - 1], run[i]);
    }
  }

  lemma ReachableInv(f: Fleet, s: State)
    requires Reachable(f, s)
    ensures Inv(f, s)
  {
    var run :| IsRun(f, run) && run[|run| - 1] == s;
    RunInv(f, run, |run| - 1);
  }

  lemma LaterTransitive(f: Fleet, s: State, t: State, u: State)
    requires Later(f, s, t) && Later(f, t, u)
    ensures Later(f, s, u)
  {
  }

  lemma {:induction false} RunLater(f: Fleet, run: seq<State>, i: nat, j: nat)
    requires IsRun(f, run) && i <= j < |run|
    ensures Later(f, run[i], run[j])
    decreases j - i
  {
    if i < j {
      var s, s' := run[j - 1], run[j];
      RunLater(f, run, i, j - 1);
      assert run[j - 1 + 1] == s' && Next(f, s, s');
      StepIsLater(f, s, s');
      LaterTransitive(f, run[i], s, s');
    }
  }

  // ------------------------------------------------------------- code layering

  lemma {:induction false} LayeringAt(f: Fleet, s: State, id: string, dep: string)
    requires ValidFleet(f) && Inv(f, s)
    requires id in s.children && s.children[id].agentStarted && Reaches(f.g, id, dep)
    ensures f.base <= s.children[id].start
    ensures HasSucceeded(s, dep) && s.children[dep].landed && s.children[dep].converged
    ensures Within(s, NodeBranch(f.id, dep), s.children[id].start)
    ensures s.branches[NodeBranch(f.id, dep)] - s.children[dep].start != {}
    decreases Height(f.g, id)
  {
    assert Layered(f, s, id);
    assert Built(f, s, id);
    var b := ReachesFirst(f.g, id, dep);
    assert HasSucceeded(s, b) && Layered(f, s, b);
    var deps := DependencyBranches(f.id, f.g[id]);
    DependencyBranchesCover(f.id, f.g[id]);
    var k :| 0 <= k < |deps| && deps[k] == NodeBranch(f.id, b);
    assert Within(s, deps[k], s.children[id].start);
    if b != dep {
      HeightFalls(f.g, id, b);
      LayeringAt(f, s, b, dep);
    }
  }

  ghost function Height(g: Graph, id: string): nat {
    if exists d: nat :: LongestChain(g, id, d) then ChainLength(g, id) else 0
  }

  lemma HeightFalls(g: Graph, a: string, b: string)
    requires Acyclic(g) && Edge(g, a, b)
    ensures Height(g, b) < Height(g, a)
  {
    AcyclicReachesNone(g, a);
    AcyclicReachesNone(g, b);
    ChainLengthExists(g, a);
    ChainLengthExists(g, b);
    LongestChainDescends(g, a, b, Height(g, a), Height(g, b));
  }

  /** In every interleaving: once a node's develop agent has started, every direct or
      transitive dependency had landed a commit and ended its review converged, and the
      history the agent started from contains the pinned base and the dependency's whole
      final branch. */
  lemma CodeLayering(f: Fleet, run: seq<State>, i: nat, id: string, dep: string)
    requires ValidFleet(f) && IsRun(f, run) && i < |run|
    requires id in run[i].children && run[i].children[id].agentStarted && Reaches(f.g, id, dep)
    ensures var s := run[i];
      && f.base <= s.children[id].start
      && HasSucceeded(s, dep) && s.children[dep].landed && s.children[dep].converged
      && NodeBranch(f.id, dep) in s.branches
      && s.branches[NodeBranch(f.id, dep)] <= s.children[id].start
      && s.branches[NodeBranch(f.id, dep)] - s.children[dep].start != {}
  {
    RunInv(f, run, i);
    LayeringAt(f, run[i], id, dep);
  }

  /** What the agent started from is never lost again, and the dependency's branch never
      moves again: the layering holds in every later state of the run. */
  lemma LayeringLasts(f: Fleet, run: seq<State>, i: nat, j: nat, id: string, dep: string)
    requires ValidFleet(f) && IsRun(f, run) && i <= j < |run|
    requires id in run[i].children && run[i].children[id].agentStarted && Reaches(f.g, id, dep)
    ensures var b, d := NodeBranch(f.id, id), NodeBranch(f.id, dep);
      && d in run[i].branches && d in run[j].branches && run[j].branches[d] == run[i].branches[d]
      && b in run[j].branches && f.base + run[i].branches[d] <= run[j].branches[b]
  {
    RunInv(f, run, i);
    RunInv(f, run, j);
    RunLater(f, run, i, j);
    AgentStartLasts(f, run, i, j, id);
    LayeringAt(f, run[i], id, dep);
    LayeringAt(f, run[j], id, dep);
    assert Layered(f, run[j], id);
  }

  lemma {:induction false} AgentStartLasts(f: Fleet, run: seq<State>, i: nat, j: nat, id: string)
    requires IsRun(f, run) && i <= j < |run|
    requires id in run[i].children && run[i].children[id].agentStarted
    ensures id in run[j].children && run[j].children[id].agentStarted
    decreases j - i
  {
    if i < j {
      AgentStartLasts(f, run, i, j - 1, id);
      RunInv(f, run, j - 1);
      assert Next(f, run[j - 1], run[j - 1 + 1]);
      AgentStartStep(f, run[j - 1], run[j], id);
    }
  }

  lemma AgentStartStep(f: Fleet, s: State, t: State, id: string)
    requires Inv(f, s) && Next(f, s, t) && id in s.children && s.children[id].agentStarted
    ensures id in t.children && t.children[id].agentStarted
  {
    assert Layered(f, s, id);
    if x, c, w :| ChildStep(f, s, x, c, w) && t == AfterChild(f, s, x, c, w) && x == id {
      assert c.agentStarted;
    }
  }
}
