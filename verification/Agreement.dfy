/** The reader's account of a fleet against what the scheduler does, at every reachable state. */
module Agreement {
  /*  nodeExecutions and fleetStatus of internal/agenthub/service.go, and the derivation of
      internal/agenthub/domain.go.  */

  import opened Options
  import opened Ordering
  import opened Graphs
  import opened Plans
  import opened Scheduler
  import W = World
  import R = Reader

  // -------------------------------------------------------------- what is observed

  /** A child execution cannot tell "blocked" from "failed"; the fleet's own record can. */
  predicate ObservedAs(phase: W.Phase, o: R.ExecutionOutcome) {
    match phase
    case Ended(Succeeded) => o == R.OutcomeSucceeded
    case Ended(Failed) => o == R.OutcomeFailed
    case Ended(Blocked) => o == R.OutcomeFailed || o == R.OutcomeBlocked
    case _ => o == R.OutcomeRunning
  }

  /** Every started node has its outcome; a skipped node may have a recorded one. */
  ghost predicate Observed(s: W.State, obs: map<string, R.ExecutionOutcome>) {
    && s.children.Keys <= obs.Keys && obs.Keys <= s.children.Keys + s.skipped
    && (forall id | id in s.children :: ObservedAs(s.children[id].phase, obs[id]))
    && (forall id | id in obs && id !in s.children :: obs[id] == R.OutcomeSkipped)
  }

  datatype NodeOutcome = NodeOutcome(nodeId: string, outcome: R.ExecutionOutcome)

  /** The recorded per-node breakdown, layered over the outcomes of the child executions. */
  function Overlay(outcomes: map<string, R.ExecutionOutcome>, recorded: seq<NodeOutcome>): map<string, R.ExecutionOutcome> {
    if recorded == [] then outcomes else
      var under := Overlay(outcomes, recorded[..|recorded| - 1]);
      var r := recorded[|recorded| - 1];
      if r.nodeId in under && under[r.nodeId] == R.OutcomeRunning then under else under[r.nodeId := r.outcome]
  }

  method NodeOutcomes(outcomes: map<string, R.ExecutionOutcome>, recorded: seq<NodeOutcome>)
    returns (r: map<string, R.ExecutionOutcome>)
    ensures r == Overlay(outcomes, recorded)
  {
    r := outcomes;
    for k := 0 to |recorded|
      invariant r == Overlay(outcomes, recorded[..k])
    {
      TakeNext(recorded, k);
      var e := recorded[k];
      if e.nodeId in r && r[e.nodeId] == R.OutcomeRunning {
        continue;
      }
      r := r[e.nodeId := e.outcome];
    }
    assert recorded[..|recorded|] == recorded;
  }

  /** A breakdown entry that says what the scheduler settled, possibly for an earlier state
      of a node that is running again. */
  ghost predicate Truthful(s: W.State, e: NodeOutcome) {
    || (e.nodeId in s.skipped && e.outcome == R.OutcomeSkipped)
    || (e.nodeId in s.children
        && (s.children[e.nodeId].phase.Ended? ==> ObservedAs(s.children[e.nodeId].phase, e.outcome)))
  }

  lemma {:induction false} OverlayObserved(s: W.State, obs: map<string, R.ExecutionOutcome>, recorded: seq<NodeOutcome>)
    requires Observed(s, obs) && s.children.Keys !! s.skipped
    requires forall e | e in recorded :: Truthful(s, e)
    ensures Observed(s, Overlay(obs, recorded))
  {
    if recorded != [] {
      var k := |recorded| - 1;
      OverlayObserved(s, obs, recorded[..k]);
      assert Truthful(s, recorded[k]);
    }
  }

  // ----------------------------------------------------------- what is derived

  /** Some direct or transitive dependency settled without success. */
  ghost predicate FallenBelow(f: W.Fleet, s: W.State, id: string) {
    exists d :: Reaches(f.g, id, d) && W.HasFallen(s, d)
  }

  /** Everything below a started node has succeeded. */
  lemma {:induction false} StartedClean(f: W.Fleet, s: W.State, id: string, d: string)
    requires W.ValidFleet(f) && W.Scheduled(f, s) && id in s.children && Reaches(f.g, id, d)
    ensures W.HasSucceeded(s, d) && !W.HasFallen(s, d)
    decreases W.Height(f.g, id)
  {
    var b := ReachesFirst(f.g, id, d);
    assert W.HasSucceeded(s, b);
    if b != d {
      W.HeightFalls(f.g, id, b);
      StartedClean(f, s, b, d);
    }
  }

  lemma FallenStep(f: W.Fleet, s: W.State, id: string)
    requires W.ValidFleet(f) && id in f.g
    ensures FallenBelow(f, s, id) <==> exists b :: b in f.g[id] && (W.HasFallen(s, b) || FallenBelow(f, s, b))
  {
    if FallenBelow(f, s, id) {
      var d :| Reaches(f.g, id, d) && W.HasFallen(s, d);
      var b := ReachesFirst(f.g, id, d);
    }
    if b :| b in f.g[id] && (W.HasFallen(s, b) || FallenBelow(f, s, b)) {
      assert Edge(f.g, id, b);
      if W.HasFallen(s, b) {
        ReachesStep(f.g, id, b);
      } else {
        var d :| Reaches(f.g, b, d) && W.HasFallen(s, d);
        ReachesVia(f.g, id, b, d);
      }
    }
  }

  /** A dependency reads as unsuccessful exactly when it fell, or stands behind one that did. */
  ghost predicate ReadsRight(f: W.Fleet, s: W.State, st: map<string, R.WorkStatus>, id: string)
    requires id in st
  {
    && (R.Unsuccessful(st[id]) <==> W.HasFallen(s, id) || FallenBelow(f, s, id))
    && (st[id] == R.Done <==> W.HasSucceeded(s, id))
  }

  lemma StartedReadsRight(f: W.Fleet, s: W.State, obs: map<string, R.ExecutionOutcome>,
                          st: map<string, R.WorkStatus>, id: string)
    requires W.ValidFleet(f) && W.Scheduled(f, s) && Observed(s, obs) && R.IsDerived(f.g, obs, st)
    requires id in f.g && id in s.children
    ensures ReadsRight(f, s, st, id)
  {
    forall d | Reaches(f.g, id, d) ensures !W.HasFallen(s, d) {
      StartedClean(f, s, id, d);
    }
  }

  lemma {:induction false} UnstartedReadsRight(f: W.Fleet, s: W.State, obs: map<string, R.ExecutionOutcome>,
                            st: map<string, R.WorkStatus>, id: string)
    requires W.ValidFleet(f) && W.Scheduled(f, s) && Observed(s, obs) && R.IsDerived(f.g, obs, st)
    requires id in f.g && id !in s.children
    ensures ReadsRight(f, s, st, id)
    ensures st[id] == R.Paused <==> FallenBelow(f, s, id)
    ensures st[id] == R.Todo <==> forall d | d in f.g[id] :: W.HasSucceeded(s, d)
    ensures st[id] == R.Paused || st[id] == R.Todo || st[id] == R.Waiting
    decreases W.Height(f.g, id)
  {
    HeightsFall(f.g, id);
    forall b | b in f.g[id] ensures b in st && ReadsRight(f, s, st, b) {
      if b in s.children { StartedReadsRight(f, s, obs, st, b); }
      else { UnstartedReadsRight(f, s, obs, st, b); }
    }
    ExplainedRight(f, s, obs, st, id);
  }

  /** Without a child, a node reads as skipped or as its dependencies explain it. */
  lemma UnstartedStatus(f: W.Fleet, s: W.State, obs: map<string, R.ExecutionOutcome>, st: map<string, R.WorkStatus>,
                        id: string)
    requires W.ValidFleet(f) && Observed(s, obs) && R.IsDerived(f.g, obs, st) && id in f.g && id !in s.children
    ensures st[id] == if id in obs then R.Paused else R.Explain(f.g[id], st)
    ensures id in obs ==> id in s.skipped
  {
    AcyclicReachesNone(f.g, id);
  }

  /** Dependencies that read right explain a node rightly. */
  lemma ExplainedRight(f: W.Fleet, s: W.State, obs: map<string, R.ExecutionOutcome>, st: map<string, R.WorkStatus>,
                       id: string)
    requires W.ValidFleet(f) && W.Scheduled(f, s) && Observed(s, obs) && R.IsDerived(f.g, obs, st)
    requires id in f.g && id !in s.children
    requires forall b | b in f.g[id] :: b in st && ReadsRight(f, s, st, b)
    ensures ReadsRight(f, s, st, id)
    ensures st[id] == R.Paused <==> FallenBelow(f, s, id)
    ensures st[id] == R.Todo <==> forall d | d in f.g[id] :: W.HasSucceeded(s, d)
    ensures st[id] == R.Paused || st[id] == R.Todo || st[id] == R.Waiting
  {
    UnstartedStatus(f, s, obs, st, id);
    FallenStep(f, s, id);
    if id in s.skipped { SkippedBehindFallen(f, s, id); }
    if FallenBelow(f, s, id) {
      var b :| b in f.g[id] && (W.HasFallen(s, b) || FallenBelow(f, s, b));
      assert R.Unsuccessful(st[b]) && st[b] != R.Done;
    }
  }

  lemma SkippedBehindFallen(f: W.Fleet, s: W.State, id: string)
    requires W.ValidFleet(f) && W.Scheduled(f, s) && id in s.skipped
    ensures FallenBelow(f, s, id) && exists d :: d in f.g[id] && W.HasFallen(s, d)
  {
    FallenStep(f, s, id);
  }

  /** The reader agrees with the scheduler, at every reachable state and from the outcomes of
      the started nodes alone: an unstarted node reads `Paused` exactly when some transitive
      dependency settled without success, `Todo` exactly when all its dependencies succeeded,
      and `Waiting` otherwise. */
  lemma ReaderAgrees(f: W.Fleet, s: W.State, obs: map<string, R.ExecutionOutcome>,
                     st: map<string, R.WorkStatus>, id: string)
    requires W.ValidFleet(f) && W.Reachable(f, s) && Observed(s, obs) && R.IsDerived(f.g, obs, st)
    requires id in f.g && id !in s.children
    ensures st[id] == if exists d :: Reaches(f.g, id, d) && W.HasFallen(s, d) then R.Paused
                      else if forall d | d in f.g[id] :: W.HasSucceeded(s, d) then R.Todo
                      else R.Waiting
  {
    W.ReachableInv(f, s);
    UnstartedReadsRight(f, s, obs, st, id);
  }

  /** And what it says of a started node: in progress exactly while its child is at work, done exactly when the
      child succeeded, and otherwise failed, unless what was observed says that the child is blocked. */
  lemma StartedReads(f: W.Fleet, s: W.State, obs: map<string, R.ExecutionOutcome>,
                     st: map<string, R.WorkStatus>, id: string)
    requires W.ValidFleet(f) && W.Reachable(f, s) && Observed(s, obs) && R.IsDerived(f.g, obs, st)
    requires id in f.g && id in s.children
    ensures st[id] == R.InProgress <==> !s.children[id].phase.Ended?
    ensures st[id] == R.Done <==> W.HasSucceeded(s, id)
    ensures st[id] == R.Failed <==> s.children[id].phase.Ended? && obs[id] == R.OutcomeFailed
    ensures st[id] == R.WaitingInput <==> s.children[id].phase.Ended? && obs[id] == R.OutcomeBlocked
    ensures st[id] == R.Failed || st[id] == R.WaitingInput <==> W.HasFallen(s, id)
  {
    W.ReachableInv(f, s);
    assert ObservedAs(s.children[id].phase, obs[id]);
  }

  /** What reads `Paused` is never started by any continuation, and has been skipped by the
      time everything has settled; what reads `Todo` is never skipped. */
  lemma ReaderForetells(f: W.Fleet, run: seq<W.State>, i: nat, j: nat, obs: map<string, R.ExecutionOutcome>,
                        st: map<string, R.WorkStatus>, id: string)
    requires W.ValidFleet(f) && W.IsRun(f, run) && i <= j < |run|
    requires Observed(run[i], obs) && R.IsDerived(f.g, obs, st)
    requires id in f.g && id !in run[i].children
    ensures st[id] == R.Paused ==> id !in run[j].children
    ensures st[id] == R.Paused && Complete(f, run[j]) ==> id in run[j].skipped
    ensures st[id] == R.Todo ==> id !in run[j].skipped
  {
    W.RunInv(f, run, i);
    W.RunInv(f, run, j);
    W.RunLater(f, run, i, j);
    UnstartedReadsRight(f, run[i], obs, st, id);
    if st[id] == R.Paused {
      var d :| Reaches(f.g, id, d) && W.HasFallen(run[i], d);
      W.SettledStays(f, run[i], run[j], d);
      if id in run[j].children { StartedClean(f, run[j], id, d); }
    }
    if st[id] == R.Todo && id in run[j].skipped {
      var d :| d in f.g[id] && W.HasFallen(run[j], d);
      W.SettledStays(f, run[i], run[j], d);
    }
  }

  /** When everything has settled, the nodes that read `Paused` are the skipped ones. */
  lemma PausedAreSkipped(f: W.Fleet, s: W.State, obs: map<string, R.ExecutionOutcome>, st: map<string, R.WorkStatus>)
    requires W.ValidFleet(f) && W.Reachable(f, s) && Complete(f, s) && Observed(s, obs) && R.IsDerived(f.g, obs, st)
    ensures (set id | id in f.g && st[id] == R.Paused) == s.skipped
  {
    W.ReachableInv(f, s);
    forall id | id in f.g ensures st[id] == R.Paused <==> id in s.skipped {
      if id in s.skipped { SkippedReadsPaused(f, s, obs, st, id); } else { EndedReadsOutcome(f, s, obs, st, id); }
    }
  }

  lemma EndedReadsOutcome(f: W.Fleet, s: W.State, obs: map<string, R.ExecutionOutcome>, st: map<string, R.WorkStatus>,
                          id: string)
    requires Complete(f, s) && Observed(s, obs) && R.IsDerived(f.g, obs, st) && id in f.g && id !in s.skipped
    ensures st[id] != R.Paused
  {
    assert id in s.children && ObservedAs(s.children[id].phase, obs[id]);
  }

  lemma SkippedReadsPaused(f: W.Fleet, s: W.State, obs: map<string, R.ExecutionOutcome>,
                           st: map<string, R.WorkStatus>, id: string)
    requires W.ValidFleet(f) && W.Scheduled(f, s) && Observed(s, obs) && R.IsDerived(f.g, obs, st)
    requires id in f.g && id in s.skipped
    ensures st[id] == R.Paused
  {
    SkippedBehindFallen(f, s, id);
    UnstartedReadsRight(f, s, obs, st, id);
  }

  /** The last thing recorded about a node. */
  ghost function LastRecorded(recorded: seq<NodeOutcome>, id: string): Option<R.ExecutionOutcome> {
    if recorded == [] then None
    else if recorded[|recorded| - 1].nodeId == id then Some(recorded[|recorded| - 1].outcome)
    else LastRecorded(recorded[..|recorded| - 1], id)
  }

  /** Where nothing says the node is running, the last entry about it decides. */
  lemma {:induction false} OverlayAt(outcomes: map<string, R.ExecutionOutcome>, recorded: seq<NodeOutcome>, id: string)
    requires id in outcomes ==> outcomes[id] != R.OutcomeRunning
    requires forall e | e in recorded && e.nodeId == id :: e.outcome != R.OutcomeRunning
    ensures var over, last := Overlay(outcomes, recorded), LastRecorded(recorded, id);
      match last
      case Some(o) => id in over && over[id] == o
      case None => (id in over <==> id in outcomes) && (id in over ==> over[id] == outcomes[id])
  {
    if recorded != [] {
      var k := |recorded| - 1;
      OverlayAt(outcomes, recorded[..k], id);
      LastIsRecorded(recorded[..k], id);
      assert recorded[k] in recorded;
    }
  }

  lemma {:induction false} LastIsRecorded(recorded: seq<NodeOutcome>, id: string)
    ensures LastRecorded(recorded, id).Some? ==>
              exists e :: e in recorded && e.nodeId == id && e.outcome == LastRecorded(recorded, id).value
  {
    if recorded != [] && recorded[|recorded| - 1].nodeId != id {
      LastIsRecorded(recorded[..|recorded| - 1], id);
    }
  }

  /** Layering the recorded breakdown over the child outcomes moves exactly the blocked nodes whose last entry says
      otherwise than their child's own outcome, between failed and waiting for input; every other status stays. */
  lemma RecordMovesOnlyBlocked(f: W.Fleet, s: W.State, obs: map<string, R.ExecutionOutcome>, recorded: seq<NodeOutcome>,
                               st: map<string, R.WorkStatus>, st': map<string, R.WorkStatus>, id: string)
    requires W.ValidFleet(f) && W.Reachable(f, s) && Observed(s, obs) && id in f.g
    requires forall e | e in recorded :: Truthful(s, e)
    requires R.IsDerived(f.g, obs, st) && R.IsDerived(f.g, Overlay(obs, recorded), st')
    ensures st'[id] != st[id] <==>
              && id in s.children && s.children[id].phase == W.Ended(W.Blocked)
              && LastRecorded(recorded, id).Some? && LastRecorded(recorded, id).value != obs[id]
    ensures st'[id] != st[id] ==>
              st'[id] == if LastRecorded(recorded, id) == Some(R.OutcomeBlocked) then R.WaitingInput else R.Failed
    ensures st'[id] != st[id] ==> st[id] == if obs[id] == R.OutcomeBlocked then R.WaitingInput else R.Failed
  {
    W.ReachableInv(f, s);
    OverlayObserved(s, obs, recorded);
    if id !in s.children {
      UnstartedReadsSame(f, s, obs, Overlay(obs, recorded), st, st', id);
    } else {
      StartedMoves(f, s, obs, recorded, st, st', id);
    }
  }

  /** Every observation of one state reads the same for an unstarted node. */
  lemma UnstartedReadsSame(f: W.Fleet, s: W.State, obs: map<string, R.ExecutionOutcome>,
                           obs': map<string, R.ExecutionOutcome>, st: map<string, R.WorkStatus>,
                           st': map<string, R.WorkStatus>, id: string)
    requires W.ValidFleet(f) && W.Scheduled(f, s) && Observed(s, obs) && Observed(s, obs')
    requires R.IsDerived(f.g, obs, st) && R.IsDerived(f.g, obs', st') && id in f.g && id !in s.children
    ensures st'[id] == st[id]
  {
    UnstartedReadsRight(f, s, obs, st, id);
    UnstartedReadsRight(f, s, obs', st', id);
  }

  /** What the overlay says about a child that ended: its last entry, or else its own outcome; both fit how it ended. */
  lemma OverlayOfEnded(s: W.State, obs: map<string, R.ExecutionOutcome>, recorded: seq<NodeOutcome>, id: string)
    requires id in s.children && s.children[id].phase.Ended? && id !in s.skipped
    requires id in obs && ObservedAs(s.children[id].phase, obs[id])
    requires forall e | e in recorded :: Truthful(s, e)
    ensures id in Overlay(obs, recorded)
    ensures Overlay(obs, recorded)[id] == match LastRecorded(recorded, id) case Some(o) => o case None => obs[id]
    ensures ObservedAs(s.children[id].phase, Overlay(obs, recorded)[id])
  {
    LastIsRecorded(recorded, id);
    OverlayAt(obs, recorded, id);
  }

  lemma StartedMoves(f: W.Fleet, s: W.State, obs: map<string, R.ExecutionOutcome>, recorded: seq<NodeOutcome>,
                     st: map<string, R.WorkStatus>, st': map<string, R.WorkStatus>, id: string)
    requires Observed(s, obs) && Observed(s, Overlay(obs, recorded)) && id in f.g && id in s.children
    requires s.children.Keys !! s.skipped && forall e | e in recorded :: Truthful(s, e)
    requires R.IsDerived(f.g, obs, st) && R.IsDerived(f.g, Overlay(obs, recorded), st')
    ensures st'[id] != st[id] <==>
              && s.children[id].phase == W.Ended(W.Blocked)
              && LastRecorded(recorded, id).Some? && LastRecorded(recorded, id).value != obs[id]
    ensures st'[id] != st[id] ==>
              st'[id] == if LastRecorded(recorded, id) == Some(R.OutcomeBlocked) then R.WaitingInput else R.Failed
    ensures st'[id] != st[id] ==> st[id] == if obs[id] == R.OutcomeBlocked then R.WaitingInput else R.Failed
  {
    var over := Overlay(obs, recorded);
    assert ObservedAs(s.children[id].phase, obs[id]) && ObservedAs(s.children[id].phase, over[id]);
    if s.children[id].phase.Ended? { OverlayOfEnded(s, obs, recorded, id); }
    StatusesDiffer(s.children[id].phase, obs[id], over[id]);
  }

  /** Two outcomes that fit one phase read differently only for a blocked child. */
  lemma StatusesDiffer(phase: W.Phase, a: R.ExecutionOutcome, b: R.ExecutionOutcome)
    requires ObservedAs(phase, a) && ObservedAs(phase, b)
    ensures R.StatusOf(a) != R.StatusOf(b) <==> a != b
    ensures a != b ==> phase == W.Ended(W.Blocked)
  {
  }

  /** A fleet of one node whose review did not converge. */
  function OneNode(): W.Fleet {
    W.Fleet("f", map["a" := []], {})
  }

  function OneBlocked(): W.State {
    W.State(map[W.NodeBranch("f", "a") := {0}], map["a" := W.Child(W.Ended(W.Blocked), true, {}, true, false)], {})
  }

  lemma OneBlockedReachable()
    ensures W.ValidFleet(OneNode()) && W.Reachable(OneNode(), OneBlocked())
  {
    var f, b := OneNode(), W.NodeBranch("f", "a");
    var s0 := W.State(map[], map[], {});
    var s1 := W.Started(s0, "a");
    var creating := W.NewChild;
    var seeding := creating.(phase := W.Seeding(0));
    var developing := seeding.(phase := W.Developing, agentStarted := true, start := {});
    var reviewing := developing.(phase := W.Reviewing, landed := true);
    var blocked := reviewing.(phase := W.Ended(W.Blocked));
    var s2, s3 := W.AfterChild(f, s1, "a", seeding, W.Reset({})), W.State(map[b := {}], map["a" := developing], {});
    var s4, s5 := W.State(map[b := {0}], map["a" := reviewing], {}), OneBlocked();
    assert W.CanStart(f, s0, "a");
    assert W.CreateStep(f, s1, "a", creating, seeding, W.Reset({}));
    assert |W.DependencyBranches("f", [])| == 0;
    assert W.DevelopStep(f, s2, "a", seeding, developing, W.Keep) && s3 == W.AfterChild(f, s2, "a", developing, W.Keep);
    assert W.EnsureStep(f, s3, "a", developing, reviewing, W.Reset({0})) by { assert 0 in {0} - developing.start; }
    assert s4 == W.AfterChild(f, s3, "a", reviewing, W.Reset({0}));
    assert W.ReviewStep(f, s4, "a", reviewing, blocked, W.Reset({0})) && s5 == W.AfterChild(f, s4, "a", blocked, W.Reset({0}));
    var run := [s0, s1, s2, s3, s4, s5];
    assert W.IsRun(f, run) && run[|run| - 1] == s5;
    RankedIsAcyclic(f.g, map["a" := 0]);
  }

  /** It happens: the node reads failed from its child alone, and as waiting for input once the breakdown is read. */
  lemma BlockedNodeMoves(st: map<string, R.WorkStatus>, st': map<string, R.WorkStatus>)
    requires R.IsDerived(OneNode().g, map["a" := R.OutcomeFailed], st)
    requires R.IsDerived(OneNode().g, Overlay(map["a" := R.OutcomeFailed], [NodeOutcome("a", R.OutcomeBlocked)]), st')
    ensures W.Reachable(OneNode(), OneBlocked()) && Observed(OneBlocked(), map["a" := R.OutcomeFailed])
    ensures st["a"] == R.Failed && st'["a"] == R.WaitingInput
  {
    OneBlockedReachable();
    var recorded := [NodeOutcome("a", R.OutcomeBlocked)];
    assert recorded[..0] == [];
    assert Truthful(OneBlocked(), recorded[0]);
  }

  // ------------------------------------------------------------- the aggregate

  /** Some child ended without success. */
  ghost predicate SomeChildFell(s: W.State) {
    exists id :: id in s.children && W.HasFallen(s, id)
  }

  lemma {:induction false} FallenChild(f: W.Fleet, s: W.State, id: string)
    requires W.ValidFleet(f) && W.Scheduled(f, s) && W.HasFallen(s, id) && id in f.g
    ensures SomeChildFell(s)
    decreases W.Height(f.g, id)
  {
    if id in s.skipped {
      var d :| d in f.g[id] && W.HasFallen(s, d);
      HeightsFall(f.g, id);
      FallenChild(f, s, d);
    }
  }

  /** Below a node that did not succeed there is one whose dependencies all did. */
  lemma {:induction false} FirstUnsettled(f: W.Fleet, s: W.State, id: string) returns (x: string)
    requires W.ValidFleet(f) && id in f.g && !W.HasSucceeded(s, id)
    ensures x in f.g && !W.HasSucceeded(s, x) && forall d | d in f.g[x] :: W.HasSucceeded(s, d)
    decreases W.Height(f.g, id)
  {
    if d :| d in f.g[id] && !W.HasSucceeded(s, d) {
      HeightsFall(f.g, id);
      x := FirstUnsettled(f, s, d);
    } else {
      x := id;
    }
  }

  /** The statuses of a plan's nodes, in some order of the nodes. */
  ghost predicate StatusesOf(g: Graph, st: map<string, R.WorkStatus>, ids: seq<string>, nodes: seq<R.WorkStatus>) {
    && ids != [] && Elements(ids) == g.Keys && |nodes| == |ids|
    && forall i | 0 <= i < |ids| :: ids[i] in st && nodes[i] == st[ids[i]]
  }

  lemma ListedStatus(g: Graph, st: map<string, R.WorkStatus>, ids: seq<string>, nodes: seq<R.WorkStatus>, n: R.WorkStatus)
    returns (id: string)
    requires StatusesOf(g, st, ids, nodes) && n in nodes
    ensures id in g && id in st && st[id] == n
  {
    var i :| 0 <= i < |nodes| && nodes[i] == n;
    id := ids[i];
    assert id in Elements(ids);
  }

  /** An unsuccessful status anywhere means some child fell, and that child's own status is
      listed as failed or waiting for input. */
  lemma UnsuccessfulMeansFell(f: W.Fleet, s: W.State, obs: map<string, R.ExecutionOutcome>,
                              st: map<string, R.WorkStatus>, id: string)
    requires W.ValidFleet(f) && W.Scheduled(f, s) && Observed(s, obs) && R.IsDerived(f.g, obs, st)
    requires id in f.g && R.Unsuccessful(st[id])
    ensures SomeChildFell(s)
  {
    if id in s.children {
      assert W.HasFallen(s, id);
    } else {
      UnstartedReadsRight(f, s, obs, st, id);
      FallenBelowChild(f, s, id);
    }
  }

  lemma FallenBelowChild(f: W.Fleet, s: W.State, id: string)
    requires W.ValidFleet(f) && W.Scheduled(f, s) && FallenBelow(f, s, id)
    ensures SomeChildFell(s)
  {
    var d :| Reaches(f.g, id, d) && W.HasFallen(s, d);
    ReachesNode(f.g, id, d);
    FallenChild(f, s, d);
  }

  lemma ReachesNode(g: Graph, a: string, b: string)
    requires Reaches(g, a, b)
    ensures b in g
  {
    var w :| WalkFrom(g, a, w) && |w| >= 2 && w[|w| - 1] == b;
    WalkMembers(g, w);
  }

  /** The fleet's own status over reachable states.  A paused node always stands behind a
      failed or blocked one, which takes precedence; `Done` means every node succeeded; and
      while nothing fell and not everything is done, something is ready or running. */
  lemma FleetAggregate(f: W.Fleet, s: W.State, obs: map<string, R.ExecutionOutcome>, st: map<string, R.WorkStatus>,
                       ids: seq<string>, nodes: seq<R.WorkStatus>, agg: R.WorkStatus)
    requires W.ValidFleet(f) && W.Reachable(f, s) && Observed(s, obs) && R.IsDerived(f.g, obs, st)
    requires StatusesOf(f.g, st, ids, nodes) && R.Aggregates(nodes, agg)
    ensures agg != R.Paused
    ensures agg == R.Done <==> forall id | id in f.g :: W.HasSucceeded(s, id)
    ensures agg == R.Failed || agg == R.WaitingInput <==> SomeChildFell(s)
    ensures !SomeChildFell(s) && agg != R.Done ==> R.Todo in nodes || R.InProgress in nodes
  {
    W.ReachableInv(f, s);
    UnsuccessfulListed(f, s, obs, st, ids, nodes);
    DoneListed(f, s, obs, st, ids, nodes);
    assert nodes[0] in nodes;
    R.AggregateMeans(nodes, agg);
    if !SomeChildFell(s) && agg != R.Done { SomethingMoves(f, s, obs, st, ids, nodes); }
  }

  lemma UnsuccessfulListed(f: W.Fleet, s: W.State, obs: map<string, R.ExecutionOutcome>, st: map<string, R.WorkStatus>,
                           ids: seq<string>, nodes: seq<R.WorkStatus>)
    requires W.ValidFleet(f) && W.Scheduled(f, s) && Observed(s, obs) && R.IsDerived(f.g, obs, st)
    requires StatusesOf(f.g, st, ids, nodes)
    ensures R.Failed in nodes || R.WaitingInput in nodes <==> SomeChildFell(s)
    ensures R.Paused in nodes ==> SomeChildFell(s)
  {
    forall n | n in nodes && R.Unsuccessful(n) ensures SomeChildFell(s) {
      var id := ListedStatus(f.g, st, ids, nodes, n);
      UnsuccessfulMeansFell(f, s, obs, st, id);
    }
  }

  lemma DoneListed(f: W.Fleet, s: W.State, obs: map<string, R.ExecutionOutcome>, st: map<string, R.WorkStatus>,
                   ids: seq<string>, nodes: seq<R.WorkStatus>)
    requires W.ValidFleet(f) && W.Scheduled(f, s) && Observed(s, obs) && R.IsDerived(f.g, obs, st)
    requires StatusesOf(f.g, st, ids, nodes)
    ensures (forall n | n in nodes :: n == R.Done) <==> forall id | id in f.g :: W.HasSucceeded(s, id)
  {
    forall id | id in f.g ensures st[id] == R.Done <==> W.HasSucceeded(s, id) {
      if id in s.children { StartedReadsRight(f, s, obs, st, id); } else { UnstartedReadsRight(f, s, obs, st, id); }
    }
    forall id | id in f.g ensures st[id] in nodes { }
    forall n | n in nodes ensures exists id :: id in f.g && st[id] == n {
      var id := ListedStatus(f.g, st, ids, nodes, n);
    }
  }

  lemma SomethingMoves(f: W.Fleet, s: W.State, obs: map<string, R.ExecutionOutcome>, st: map<string, R.WorkStatus>,
                       ids: seq<string>, nodes: seq<R.WorkStatus>)
    requires W.ValidFleet(f) && W.Scheduled(f, s) && Observed(s, obs) && R.IsDerived(f.g, obs, st)
    requires StatusesOf(f.g, st, ids, nodes)
    requires !SomeChildFell(s) && exists n :: n in nodes && n != R.Done
    ensures R.Todo in nodes || R.InProgress in nodes
  {
    DoneListed(f, s, obs, st, ids, nodes);
    var id :| id in f.g && !W.HasSucceeded(s, id);
    var x := FirstUnsettled(f, s, id);
    ReadyOrRunning(f, s, obs, st, x);
  }

  lemma ReadyOrRunning(f: W.Fleet, s: W.State, obs: map<string, R.ExecutionOutcome>, st: map<string, R.WorkStatus>, x: string)
    requires W.ValidFleet(f) && W.Scheduled(f, s) && Observed(s, obs) && R.IsDerived(f.g, obs, st)
    requires x in f.g && !W.HasSucceeded(s, x) && !SomeChildFell(s)
    requires forall d | d in f.g[x] :: W.HasSucceeded(s, d)
    ensures st[x] == R.Todo || st[x] == R.InProgress
  {
    if x in s.children {
      assert !W.HasFallen(s, x);
    } else {
      UnstartedReadsRight(f, s, obs, st, x);
    }
  }

  /** Some child ended without success, and was seen to fail. */
  ghost predicate SomeChildFailed(s: W.State, obs: map<string, R.ExecutionOutcome>) {
    exists id :: id in s.children && id in obs && W.HasFallen(s, id) && obs[id] == R.OutcomeFailed
  }

  /** The fleet's own status, from the scheduler's state alone: failed before blocked, both before anything else;
      done when every node succeeded; and otherwise under way as soon as the first node has started. */
  lemma FleetAggregateIs(f: W.Fleet, s: W.State, obs: map<string, R.ExecutionOutcome>, st: map<string, R.WorkStatus>,
                         ids: seq<string>, nodes: seq<R.WorkStatus>, agg: R.WorkStatus)
    requires W.ValidFleet(f) && W.Reachable(f, s) && Observed(s, obs) && R.IsDerived(f.g, obs, st)
    requires StatusesOf(f.g, st, ids, nodes) && R.Aggregates(nodes, agg)
    ensures agg == if SomeChildFailed(s, obs) then R.Failed
                   else if SomeChildFell(s) then R.WaitingInput
                   else if forall id | id in f.g :: W.HasSucceeded(s, id) then R.Done
                   else if s.children != map[] then R.InProgress
                   else R.Todo
  {
    W.ReachableInv(f, s);
    R.AggregateIs(nodes, agg);
    FailedListed(f, s, obs, st, ids, nodes);
    UnsuccessfulListed(f, s, obs, st, ids, nodes);
    DoneListed(f, s, obs, st, ids, nodes);
    if !SomeChildFell(s) { UnderWayListed(f, s, obs, st, ids, nodes); }
  }

  lemma FailedListed(f: W.Fleet, s: W.State, obs: map<string, R.ExecutionOutcome>, st: map<string, R.WorkStatus>,
                     ids: seq<string>, nodes: seq<R.WorkStatus>)
    requires W.ValidFleet(f) && W.Reachable(f, s) && Observed(s, obs) && R.IsDerived(f.g, obs, st)
    requires StatusesOf(f.g, st, ids, nodes)
    ensures R.Failed in nodes <==> SomeChildFailed(s, obs)
  {
    W.ReachableInv(f, s);
    if R.Failed in nodes {
      var id := ListedStatus(f.g, st, ids, nodes, R.Failed);
      if id in s.children { StartedReads(f, s, obs, st, id); } else { UnstartedReadsRight(f, s, obs, st, id); }
    }
    if id :| id in s.children && id in obs && W.HasFallen(s, id) && obs[id] == R.OutcomeFailed {
      StartedReads(f, s, obs, st, id);
      StatusListed(f.g, st, ids, nodes, id);
    }
  }

  lemma StatusListed(g: Graph, st: map<string, R.WorkStatus>, ids: seq<string>, nodes: seq<R.WorkStatus>, id: string)
    requires StatusesOf(g, st, ids, nodes) && id in g
    ensures id in st && st[id] in nodes
  {
    assert id in Elements(ids);
    var i :| 0 <= i < |ids| && ids[i] == id;
  }

  /** While nothing fell, a fleet lists a done or running node exactly when one has started. */
  lemma UnderWayListed(f: W.Fleet, s: W.State, obs: map<string, R.ExecutionOutcome>, st: map<string, R.WorkStatus>,
                       ids: seq<string>, nodes: seq<R.WorkStatus>)
    requires W.ValidFleet(f) && W.Reachable(f, s) && Observed(s, obs) && R.IsDerived(f.g, obs, st)
    requires StatusesOf(f.g, st, ids, nodes) && !SomeChildFell(s)
    ensures R.Done in nodes || R.InProgress in nodes <==> s.children != map[]
  {
    W.ReachableInv(f, s);
    forall n | n in nodes && (n == R.Done || n == R.InProgress) ensures s.children != map[] {
      var id := ListedStatus(f.g, st, ids, nodes, n);
      if id !in s.children { UnstartedReadsRight(f, s, obs, st, id); }
    }
    if s.children != map[] {
      var id :| id in s.children;
      StartedReads(f, s, obs, st, id);
      StatusListed(f.g, st, ids, nodes, id);
    }
  }

  // ---------------------------------------------------------------- fleetStatus

  /** The two guards the fleet's own execution puts on the aggregate. */
  function FleetStatus(parent: R.ExecutionOutcome, agg: R.WorkStatus): R.WorkStatus {
    if parent == R.OutcomeFailed then R.Failed
    else if parent == R.OutcomeRunning && agg == R.Done then R.InProgress
    else agg
  }

  /** Before the first node has started nothing has fallen and nothing is done. */
  lemma NodesNotDone(f: W.Fleet, s: W.State, ids: seq<string>)
    requires W.ValidFleet(f) && W.Reachable(f, s) && ids != [] && Elements(ids) == f.g.Keys
    ensures s.children == map[] ==> !SomeChildFell(s) && !forall id | id in f.g :: W.HasSucceeded(s, id)
  {
    assert ids[0] in Elements(ids);
  }

  /** A reachable fleet never reads `Paused`, and reads `Done` exactly when every node
      succeeded and its own execution settled without failing. */
  lemma FleetReadsDone(f: W.Fleet, s: W.State, obs: map<string, R.ExecutionOutcome>, st: map<string, R.WorkStatus>,
                       ids: seq<string>, nodes: seq<R.WorkStatus>, agg: R.WorkStatus, parent: R.ExecutionOutcome)
    requires W.ValidFleet(f) && W.Reachable(f, s) && Observed(s, obs) && R.IsDerived(f.g, obs, st)
    requires StatusesOf(f.g, st, ids, nodes) && R.Aggregates(nodes, agg)
    ensures FleetStatus(parent, agg) != R.Paused
    ensures FleetStatus(parent, agg) == R.Done <==>
              parent != R.OutcomeFailed && parent != R.OutcomeRunning && forall id | id in f.g :: W.HasSucceeded(s, id)
    ensures FleetStatus(parent, agg) == R.Failed <==> parent == R.OutcomeFailed || SomeChildFailed(s, obs)
    ensures FleetStatus(parent, agg) == R.WaitingInput <==>
              parent != R.OutcomeFailed && SomeChildFell(s) && !SomeChildFailed(s, obs)
    ensures FleetStatus(parent, agg) == R.Todo <==> parent != R.OutcomeFailed && s.children == map[]
  {
    FleetAggregateIs(f, s, obs, st, ids, nodes, agg);
    FleetAggregate(f, s, obs, st, ids, nodes, agg);
    NodesNotDone(f, s, ids);
  }
}
