/** The layered scheduler makes progress. */
module Progress {
  /*  It is never stuck, it moves only so often, and every run can be finished.  */

  import opened Ordering
  import opened Graphs
  import opened Plans
  import opened World
  import opened Scheduler

  /** A step of the scheduler's own: a launch or a skip, an await that returns, the barrier. */
  ghost predicate Moves(f: Fleet, layers: seq<seq<string>>, c: Sched, d: Sched) {
    Launches(f, layers, c, d) || Collects(layers, c, d) || Advances(layers, c, d)
  }

  /** The scheduler awaits a child that has not ended. */
  ghost predicate Awaits(layers: seq<seq<string>>, c: Sched) {
    && c.layer < |layers| && c.next == |layers[c.layer]| && c.collected < |c.started|
    && c.started[c.collected] in c.w.children && !c.w.children[c.started[c.collected]].phase.Ended?
  }

  lemma StartedHasChild(f: Fleet, layers: seq<seq<string>>, c: Sched, k: nat)
    requires Bounds(layers, c) && Launched(f, layers, c) && k < |c.started|
    ensures c.started[k] in c.w.children
  {
    var launched := Current(layers, c)[..c.next];
    OthersElements(launched, c.w.skipped);
    assert c.started[k] in Elements(c.started);
  }

  lemma CanLaunch(f: Fleet, layers: seq<seq<string>>, c: Sched) returns (d: Sched)
    requires ValidFleet(f) && IsLayering(f.g, layers) && SchedInv(f, layers, c)
    requires c.layer < |layers| && c.next < |layers[c.layer]|
    ensures Launches(f, layers, c, d)
  {
    LaunchFacts(f, layers, c);
    var id := layers[c.layer][c.next];
    if AllOk(f.g[id], c.results) {
      d := c.(w := Started(c.w, id), started := c.started + [id], next := c.next + 1);
    } else {
      d := c.(w := Skipped(c.w, id), results := c.results[id := WasSkipped], order := c.order + [id], next := c.next + 1);
    }
  }

  lemma CanCollect(f: Fleet, layers: seq<seq<string>>, c: Sched) returns (d: Sched)
    requires Bounds(layers, c) && Launched(f, layers, c) && !Awaits(layers, c)
    requires c.layer < |layers| && c.next == |layers[c.layer]| && c.collected < |c.started|
    ensures Collects(layers, c, d)
  {
    var id := c.started[c.collected];
    StartedHasChild(f, layers, c, c.collected);
    d := c.(results := c.results[id := Ran(c.w.children[id].phase.outcome)], order := c.order + [id],
            collected := c.collected + 1);
  }

  lemma CanMove(f: Fleet, layers: seq<seq<string>>, c: Sched) returns (d: Sched)
    requires ValidFleet(f) && IsLayering(f.g, layers) && SchedInv(f, layers, c)
    requires !Finished(layers, c) && !Awaits(layers, c)
    ensures Moves(f, layers, c, d)
  {
    if c.next < |layers[c.layer]| {
      d := CanLaunch(f, layers, c);
    } else if c.collected < |c.started| {
      d := CanCollect(f, layers, c);
    } else {
      d := c.(layer := c.layer + 1, next := 0, started := [], collected := 0);
    }
  }

  /** The scheduler can move exactly when it has not finished and awaits no child that is still at work. */
  lemma NeverStuck(f: Fleet, layers: seq<seq<string>>, run: seq<Sched>)
    requires ValidFleet(f) && IsLayering(f.g, layers) && IsSchedRun(f, layers, run)
    ensures var c := run[|run| - 1];
            (exists d :: Moves(f, layers, c, d)) <==> !Finished(layers, c) && !Awaits(layers, c)
  {
    var c := run[|run| - 1];
    SchedRunInv(f, layers, run, |run| - 1);
    if !Finished(layers, c) && !Awaits(layers, c) {
      var d := CanMove(f, layers, c);
    }
  }

  // -------------------------------------------------------------------- how often it moves

  /** The moves left from a layer on, if every node is started: a launch and an await each, and the barrier. */
  function MovesFrom(layers: seq<seq<string>>, i: nat): nat
    decreases |layers| - i
  {
    if i >= |layers| then 0 else 2 * |layers[i]| + 1 + MovesFrom(layers, i + 1)
  }

  function Left(layers: seq<seq<string>>, c: Sched): int {
    MovesFrom(layers, c.layer) - 2 * c.next + |c.started| - c.collected
  }

  /** Every move brings the end nearer, and nothing else the run does moves it away. */
  lemma StepLowers(f: Fleet, layers: seq<seq<string>>, c: Sched, d: Sched)
    requires Bounds(layers, c) && SchedNext(f, layers, c, d)
    ensures Moves(f, layers, c, d) ==> 0 <= Left(layers, d) < Left(layers, c)
    ensures !Moves(f, layers, c, d) ==> Left(layers, d) == Left(layers, c)
  {
    OthersBound(Current(layers, c)[..c.next], c.w.skipped);
  }

  lemma {:induction false} OthersBound(ids: seq<string>, chosen: set<string>)
    ensures |Others(ids, chosen)| <= |ids|
  {
    if ids != [] { OthersBound(ids[..|ids| - 1], chosen); }
  }

  /** How many of a run's steps are the scheduler's own. */
  ghost function MovesIn(f: Fleet, layers: seq<seq<string>>, run: seq<Sched>): nat {
    if |run| < 2 then 0 else
      var n := |run| - 1;
      MovesIn(f, layers, run[..n]) + if Moves(f, layers, run[n - 1], run[n]) then 1 else 0
  }

  lemma RunBounds(f: Fleet, layers: seq<seq<string>>, run: seq<Sched>, i: nat)
    requires ValidFleet(f) && IsLayering(f.g, layers) && IsSchedRun(f, layers, run) && i < |run|
    ensures Bounds(layers, run[i]) && Left(layers, run[i]) >= 0
  {
    SchedRunInv(f, layers, run, i);
    OthersBound(Current(layers, run[i])[..run[i].next], run[i].w.skipped);
  }

  /** However its children take their time, a run has at most two moves for each node and one for each layer. */
  lemma {:induction false} MovesAreBounded(f: Fleet, layers: seq<seq<string>>, run: seq<Sched>)
    requires ValidFleet(f) && IsLayering(f.g, layers) && IsSchedRun(f, layers, run)
    ensures MovesIn(f, layers, run) + Left(layers, run[|run| - 1]) <= MovesFrom(layers, 0)
    ensures 0 <= Left(layers, run[|run| - 1])
    decreases |run|
  {
    var n := |run| - 1;
    RunBounds(f, layers, run, n);
    if n > 0 {
      var before := run[..n];
      forall i | 0 <= i < |before| - 1 ensures SchedNext(f, layers, before[i], before[i + 1]) {
        assert SchedNext(f, layers, run[i], run[i + 1]);
      }
      MovesAreBounded(f, layers, before);
      RunBounds(f, layers, run, n - 1);
      assert SchedNext(f, layers, run[n - 1], run[n - 1 + 1]);
      StepLowers(f, layers, run[n - 1], run[n]);
    }
  }

  // ------------------------------------------------------------------ a finished run exists

  /** How far the awaited child is from an end it can always come to. */
  ghost function ToEnd(layers: seq<seq<string>>, c: Sched): nat {
    if !Awaits(layers, c) then 0 else if c.w.children[c.started[c.collected]].phase.Seeding? then 2 else 1
  }

  /** How far a finished run is at most: each move may have to wait for two steps of a child. */
  ghost function Distance(layers: seq<seq<string>>, c: Sched): int {
    3 * Left(layers, c) + ToEnd(layers, c)
  }

  /** A child that has not ended can end, by failing: at once, or once it has started developing. */
  lemma ChildCanGo(f: Fleet, layers: seq<seq<string>>, c: Sched) returns (d: Sched)
    requires Inv(f, c.w) && Awaits(layers, c)
    ensures ChildMoves(f, c, d) && ToEnd(layers, d) < ToEnd(layers, c)
    ensures d == c.(w := d.w)
  {
    var id := c.started[c.collected];
    var from := c.w.children[id];
    assert Layered(f, c.w, id);
    var failed := from.(phase := Ended(Failed));
    var b := NodeBranch(f.id, id);
    var to, w := failed, Keep;
    match from.phase {
      case Creating => assert CreateStep(f, c.w, id, from, to, w);
      case Seeding(n) =>
        if n == |DependencyBranches(f.id, f.g[id])| {
          to := from.(phase := Developing, agentStarted := true, start := c.w.branches[b]);
          assert DevelopStep(f, c.w, id, from, to, w);
        } else {
          assert MergeStep(f, c.w, id, from, to, w);
        }
      case Developing =>
        w := Reset(c.w.branches[b]);
        assert EnsureStep(f, c.w, id, from, to, w);
      case Reviewing =>
        w := Reset(c.w.branches[b]);
        assert ReviewStep(f, c.w, id, from, to, w);
    }
    assert ChildStep(f, c.w, id, to, w);
    d := c.(w := AfterChild(f, c.w, id, to, w));
    assert d.w.children[id] == to;
  }

  ghost predicate Steps(f: Fleet, layers: seq<seq<string>>, run: seq<Sched>) {
    forall i | 0 <= i < |run| - 1 :: SchedNext(f, layers, run[i], run[i + 1])
  }

  lemma StepSound(f: Fleet, layers: seq<seq<string>>, c: Sched, d: Sched)
    requires ValidFleet(f) && IsLayering(f.g, layers) && SchedInv(f, layers, c) && Inv(f, c.w)
    requires SchedNext(f, layers, c, d)
    ensures SchedInv(f, layers, d) && Inv(f, d.w)
  {
    SchedStep(f, layers, c, d);
    InvStep(f, c.w, d.w);
  }

  /** A step that brings the end nearer: a move, or one of the awaited child's. */
  lemma StepOn(f: Fleet, layers: seq<seq<string>>, c: Sched) returns (d: Sched)
    requires ValidFleet(f) && IsLayering(f.g, layers) && SchedInv(f, layers, c) && Inv(f, c.w) && !Finished(layers, c)
    ensures SchedNext(f, layers, c, d) && 0 <= Distance(layers, d) < Distance(layers, c)
  {
    if Awaits(layers, c) {
      d := ChildCanGo(f, layers, c);
    } else {
      d := CanMove(f, layers, c);
      StepLowers(f, layers, c, d);
    }
  }

  lemma StepsFrom(f: Fleet, layers: seq<seq<string>>, c: Sched, more: seq<Sched>)
    requires more != [] && SchedNext(f, layers, c, more[0]) && Steps(f, layers, more)
    ensures Steps(f, layers, [c] + more)
  {
    var rest := [c] + more;
    forall i | 0 <= i < |rest| - 1 ensures SchedNext(f, layers, rest[i], rest[i + 1]) {
      if i > 0 { assert rest[i] == more[i - 1] && rest[i + 1] == more[i - 1 + 1]; }
    }
  }

  /** From any state the invariants hold in, the run can go on to a finished one. */
  lemma {:induction false} CanFinish(f: Fleet, layers: seq<seq<string>>, c: Sched) returns (rest: seq<Sched>)
    requires ValidFleet(f) && IsLayering(f.g, layers) && SchedInv(f, layers, c) && Inv(f, c.w)
    ensures rest != [] && rest[0] == c && Steps(f, layers, rest) && Finished(layers, rest[|rest| - 1])
    decreases Distance(layers, c)
  {
    if Finished(layers, c) {
      rest := [c];
    } else {
      var d := StepOn(f, layers, c);
      StepSound(f, layers, c, d);
      var more := CanFinish(f, layers, d);
      StepsFrom(f, layers, c, more);
      rest := [c] + more;
      assert rest[|rest| - 1] == more[|more| - 1];
    }
  }

  lemma JoinRuns(f: Fleet, layers: seq<seq<string>>, run: seq<Sched>, rest: seq<Sched>)
    requires run != [] && rest != [] && Steps(f, layers, run) && Steps(f, layers, rest) && rest[0] == run[|run| - 1]
    ensures Steps(f, layers, run + rest[1..])
  {
    var n, whole := |run| - 1, run + rest[1..];
    forall i | 0 <= i < |whole| - 1 ensures SchedNext(f, layers, whole[i], whole[i + 1]) {
      if i < n {
        assert whole[i] == run[i] && whole[i + 1] == run[i + 1];
      } else {
        assert whole[i] == rest[i - n] && whole[i + 1] == rest[i - n + 1];
      }
    }
  }

  lemma RunSound(f: Fleet, layers: seq<seq<string>>, run: seq<Sched>, i: nat)
    requires ValidFleet(f) && IsLayering(f.g, layers) && IsSchedRun(f, layers, run) && i < |run|
    ensures SchedInv(f, layers, run[i]) && Inv(f, run[i].w)
  {
    SchedRunInv(f, layers, run, i);
    LayeredRefinesGreedy(f, layers, run);
    RunInv(f, Worlds(run), i);
  }

  /** Every run is the beginning of a finished one. */
  lemma FinishedRunExists(f: Fleet, layers: seq<seq<string>>, run: seq<Sched>) returns (whole: seq<Sched>)
    requires ValidFleet(f) && IsLayering(f.g, layers) && IsSchedRun(f, layers, run)
    ensures IsSchedRun(f, layers, whole) && run <= whole && Finished(layers, whole[|whole| - 1])
  {
    var n := |run| - 1;
    RunSound(f, layers, run, n);
    var rest := CanFinish(f, layers, run[n]);
    assert Steps(f, layers, run);
    JoinRuns(f, layers, run, rest);
    whole := run + rest[1..];
    assert whole[|whole| - 1] == rest[|rest| - 1];
  }
}
