/** A fleet node's develop run, as the program carries it out. */
module Development {
  /*  Seeding the branch from the dependencies' branches, the develop agent, and the review that
      has to converge.  The checkout is a history (the commits HEAD reaches) with a merge that may
      be in progress.  What git and the agents did is given by events; agents only add commits.
      Every step taken here is one of module World's.  */

  import opened Options
  import opened Plans
  import opened World
  import R = Review
  import L = ReviewLoops

  /** A run of the conflict-resolution agent, and the state of the merge it left behind. */
  datatype Attempt = Attempt(
    ok: bool, tokens: int, adds: Commits, merging: bool, conflicted: bool, dirty: bool, probed: bool)

  datatype MergeReply = MergedClean | StoppedOnConflict | GitError

  /** What the world answers while one dependency branch is merged; a resolution is tried twice. */
  datatype SeedEvents = SeedEvents(merge: MergeReply, headRead: bool, first: Attempt, second: Attempt, aborted: bool)

  datatype MergeResult = Merged | Conflicted | MergeFailed

  class Checkout {
    var head: Commits
    var merging: bool
    var conflicted: bool
    var dirty: bool

    constructor (head: Commits)
      ensures this.head == head && !merging && !conflicted && !dirty
    {
      this.head, merging, conflicted, dirty := head, false, false, false;
    }

    method MergeDependency(branch: Commits, reply: MergeReply, headRead: bool) returns (r: MergeResult)
      modifies this
      ensures r == Merged <==> reply == MergedClean && headRead
      ensures r == Conflicted <==> reply == StoppedOnConflict
      ensures head == if reply == MergedClean then old(head) + branch else old(head)
      ensures dirty == old(dirty)
      ensures r == Conflicted ==> merging && conflicted
      ensures r != Conflicted ==> merging == old(merging) && conflicted == old(conflicted)
    {
      match reply {
        case GitError => r := MergeFailed;
        case StoppedOnConflict =>
          merging, conflicted := true, true;
          r := Conflicted;
        case MergedClean =>
          head := head + branch;
          r := if headRead then Merged else MergeFailed;
      }
    }

    /** Runs the agent once and accepts what it left only if the merge is provably done. */
    method TryResolve(branch: Commits, attempt: Attempt) returns (resolved: bool)
      modifies this
      ensures head == old(head) + attempt.adds
      ensures merging == attempt.merging && conflicted == attempt.conflicted && dirty == attempt.dirty
      ensures resolved == IsResolved(branch, attempt, head)
    {
      head, merging, conflicted, dirty := head + attempt.adds, attempt.merging, attempt.conflicted, attempt.dirty;
      if !attempt.ok || !attempt.probed { return false; }
      if conflicted || dirty { return false; }
      resolved := branch <= head;
    }

    /** Restores the state before the merge; without a merge in progress there is nothing to do. */
    method AbortMerge(ok: bool) returns (aborted: bool)
      modifies this
      ensures aborted == ok && head == old(head)
      ensures ok ==> !merging
      ensures ok && old(merging) ==> !conflicted && !dirty
      ensures !ok || !old(merging) ==> merging == old(merging) && conflicted == old(conflicted) && dirty == old(dirty)
    {
      if !ok { return false; }
      if merging { merging, conflicted, dirty := false, false, false; }
      aborted := true;
    }
  }

  /** No unmerged path, nothing uncommitted, and the dependency reachable from HEAD. */
  predicate IsResolved(branch: Commits, attempt: Attempt, head: Commits) {
    attempt.ok && attempt.probed && !attempt.conflicted && !attempt.dirty && branch <= head
  }

  datatype SeedResult = Seeded(tokens: int) | SeedBlocked | SeedFailed

  /** How far seeding got, and the history it left. */
  datatype Seed = Seed(result: SeedResult, history: Commits)

  /** What merging one branch comes to: a conflict gets two attempts, each judged on what it leaves. */
  ghost function Merging(head: Commits, branch: Commits, events: SeedEvents): Seed {
    match events.merge
    case GitError => Seed(SeedFailed, head)
    case MergedClean => Seed(if events.headRead then Seeded(0) else SeedFailed, head + branch)
    case StoppedOnConflict =>
      var once := head + events.first.adds;
      var twice := once + events.second.adds;
      if IsResolved(branch, events.first, once) then Seed(Seeded(events.first.tokens), once)
      else if IsResolved(branch, events.second, twice) then Seed(Seeded(events.second.tokens), twice)
      else Seed(if events.aborted then SeedBlocked else SeedFailed, twice)
  }

  /** What merging the branches in order comes to, up to the first that cannot be merged. */
  ghost function SeedAll(head: Commits, branches: seq<Commits>, events: seq<SeedEvents>): Seed
    requires |branches| == |events|
  {
    if branches == [] then Seed(Seeded(0), head) else
      var n := |branches| - 1;
      var before := SeedAll(head, branches[..n], events[..n]);
      if !before.result.Seeded? then before else
        var one := Merging(before.history, branches[n], events[n]);
        if one.result.Seeded? then Seed(Seeded(before.result.tokens + one.result.tokens), one.history) else one
  }

  /** What one merge comes to, over what git and the two attempts answer: it is done if the merge was clean, or if an
      attempt left no unmerged path, nothing uncommitted and the branch reachable from HEAD; it blocks only where a
      conflict outlived both attempts and could be undone. It costs what the attempt that resolved it cost. */
  lemma MergesExactly(head: Commits, branch: Commits, events: SeedEvents)
    ensures var r, a, b := Merging(head, branch, events).result, events.first, events.second;
            var first := a.ok && a.probed && !a.conflicted && !a.dirty && branch <= head + a.adds;
            var second := b.ok && b.probed && !b.conflicted && !b.dirty && branch <= head + a.adds + b.adds;
      && (r.Seeded? <==>
            || (events.merge == MergedClean && events.headRead)
            || (events.merge == StoppedOnConflict && (first || second)))
      && (r.SeedBlocked? <==> events.merge == StoppedOnConflict && !first && !second && events.aborted)
      && (r.Seeded? ==> r.tokens == if events.merge == MergedClean then 0 else if first then a.tokens else b.tokens)
  {
  }

  /** Seeding costs what its merges cost. */
  lemma {:induction false} SeedingCosts(head: Commits, branches: seq<Commits>, events: seq<SeedEvents>)
    requires |branches| == |events| && SeedAll(head, branches, events).result.Seeded?
    ensures SeedAll(head, branches, events).result.tokens == L.Sum(MergeCosts(head, branches, events))
    decreases |branches|
  {
    if branches != [] {
      var n := |branches| - 1;
      SeedingCosts(head, branches[..n], events[..n]);
      var costs := MergeCosts(head, branches, events);
      forall k | 0 <= k < n ensures costs[k] == MergeCosts(head, branches[..n], events[..n])[k] {
        assert branches[..n][..k] == branches[..k] && events[..n][..k] == events[..k];
      }
      assert costs[..n] == MergeCosts(head, branches[..n], events[..n]);
    }
  }

  /** What merging each branch into what was seeded before it cost. */
  ghost function MergeCosts(head: Commits, branches: seq<Commits>, events: seq<SeedEvents>): seq<int>
    requires |branches| == |events|
  {
    seq(|branches|, k requires 0 <= k < |branches| =>
      CostOf(Merging(SeedAll(head, branches[..k], events[..k]).history, branches[k], events[k]).result))
  }

  function CostOf(r: SeedResult): int {
    match r case Seeded(tokens) => tokens case _ => 0
  }

  /** A history only grows, and holds what was merged into it. */
  lemma {:induction false} SeedAllContains(head: Commits, branches: seq<Commits>, events: seq<SeedEvents>)
    requires |branches| == |events|
    ensures var seed := SeedAll(head, branches, events);
      head <= seed.history && (seed.result.Seeded? ==> forall k | 0 <= k < |branches| :: branches[k] <= seed.history)
    decreases |branches|
  {
    if branches != [] {
      var n := |branches| - 1;
      var before := SeedAll(head, branches[..n], events[..n]);
      SeedAllContains(head, branches[..n], events[..n]);
      assert Merging(before.history, branches[n], events[n]).history >= before.history;
      assert forall k | 0 <= k < n :: branches[k] == branches[..n][k];
    }
  }

  /** The branch seeding stopped at, where it stopped. */
  ghost function StopsAt(head: Commits, branches: seq<Commits>, events: seq<SeedEvents>): (k: nat)
    requires |branches| == |events|
    ensures k <= |branches| && (!SeedAll(head, branches, events).result.Seeded? ==> k < |branches|)
  {
    if branches == [] then 0 else
      var n := |branches| - 1;
      if SeedAll(head, branches[..n], events[..n]).result.Seeded? then n else StopsAt(head, branches[..n], events[..n])
  }

  /** Branch k is reached, and merging it comes to `result`. */
  ghost predicate ComesTo(head: Commits, branches: seq<Commits>, events: seq<SeedEvents>, k: nat, result: SeedResult)
    requires |branches| == |events| && k < |branches|
  {
    var before := SeedAll(head, branches[..k], events[..k]);
    before.result.Seeded? && Merging(before.history, branches[k], events[k]).result == result
  }

  lemma {:induction false} StopsThere(head: Commits, branches: seq<Commits>, events: seq<SeedEvents>)
    requires |branches| == |events| && !SeedAll(head, branches, events).result.Seeded?
    ensures ComesTo(head, branches, events, StopsAt(head, branches, events), SeedAll(head, branches, events).result)
    decreases |branches|
  {
    var n := |branches| - 1;
    if !SeedAll(head, branches[..n], events[..n]).result.Seeded? {
      StopsThere(head, branches[..n], events[..n]);
      var k := StopsAt(head, branches[..n], events[..n]);
      assert branches[..n][..k] == branches[..k] && events[..n][..k] == events[..k];
    }
  }

  lemma SeedNext(head: Commits, branches: seq<Commits>, events: seq<SeedEvents>, k: nat)
    requires |branches| == |events| && k < |branches|
    ensures var before := SeedAll(head, branches[..k], events[..k]);
      before.result.Seeded? ==>
        var one := Merging(before.history, branches[k], events[k]);
        && before.history <= one.history && (one.result.Seeded? ==> branches[k] <= one.history)
        && SeedAll(head, branches[..k + 1], events[..k + 1])
           == (if one.result.Seeded? then Seed(Seeded(before.result.tokens + one.result.tokens), one.history) else one)
        && (!one.result.Seeded? ==> StopsAt(head, branches[..k + 1], events[..k + 1]) == k)
  {
    assert branches[..k + 1][..k] == branches[..k] && events[..k + 1][..k] == events[..k];
  }

  /** The first branch that cannot be merged decides: seeding blocks or fails exactly as that branch does, and
      succeeds exactly when there is none. */
  lemma {:induction false} SeedAllExactly(head: Commits, branches: seq<Commits>, events: seq<SeedEvents>, r: SeedResult)
    requires |branches| == |events| && !r.Seeded?
    ensures SeedAll(head, branches, events).result == r <==>
              exists k | 0 <= k < |branches| :: ComesTo(head, branches, events, k, r)
    decreases |branches|
  {
    if branches != [] {
      var n := |branches| - 1;
      SeedAllExactly(head, branches[..n], events[..n], r);
      forall k | 0 <= k < n
        ensures ComesTo(head, branches, events, k, r) <==> ComesTo(head, branches[..n], events[..n], k, r)
      {
        assert branches[..n][..k] == branches[..k] && events[..n][..k] == events[..k];
      }
      if SeedAll(head, branches[..n], events[..n]).result.Seeded? {
        assert ComesTo(head, branches, events, n, r) <==>
               Merging(SeedAll(head, branches[..n], events[..n]).history, branches[n], events[n]).result == r;
        if k :| 0 <= k < n && ComesTo(head, branches[..n], events[..n], k, r) { assert false; }
      } else if SeedAll(head, branches[..n], events[..n]).result == r {
        var k :| 0 <= k < n && ComesTo(head, branches[..n], events[..n], k, r);
        assert ComesTo(head, branches, events, k, r);
      }
    }
  }

  /** Merges one dependency branch.  A conflict the agent cannot resolve blocks the node once the merge is
      aborted; anything else that goes wrong fails it. */
  method SeedBranch(checkout: Checkout, branch: Commits, events: SeedEvents) returns (r: SeedResult)
    modifies checkout
    ensures Seed(r, checkout.head) == Merging(old(checkout.head), branch, events)
    ensures r == SeedBlocked ==> !checkout.merging
    ensures r == SeedBlocked ==>
              && checkout.conflicted == (!events.second.merging && events.second.conflicted)
              && checkout.dirty == (!events.second.merging && events.second.dirty)
              && (!checkout.conflicted && !checkout.dirty <==> AbortCleans(events))
    ensures r.Seeded? && !old(checkout.conflicted) ==> !checkout.conflicted
  {
    var merged := checkout.MergeDependency(branch, events.merge, events.headRead);
    match merged {
      case MergeFailed => r := SeedFailed;
      case Merged => r := Seeded(0);
      case Conflicted =>
        var resolved := checkout.TryResolve(branch, events.first);
        if resolved { return Seeded(events.first.tokens); }
        resolved := checkout.TryResolve(branch, events.second);
        if resolved { return Seeded(events.second.tokens); }
        var aborted := checkout.AbortMerge(events.aborted);
        r := if aborted then SeedBlocked else SeedFailed;
    }
  }

  /** Aborting leaves a clean tree: there was a merge to abort, or the last attempt had left nothing. */
  predicate AbortCleans(events: SeedEvents) {
    events.second.merging || (!events.second.conflicted && !events.second.dirty)
  }

  /** Where seeding is blocked, the abort at the branch it stopped at leaves a clean tree. */
  ghost predicate AbortedCleanly(head: Commits, branches: seq<Commits>, events: seq<SeedEvents>)
    requires |branches| == |events|
  {
    SeedAll(head, branches, events).result.SeedBlocked? ==> AbortCleans(events[StopsAt(head, branches, events)])
  }

  /** A blocked node need not be left clean: an agent that concludes the merge and leaves something uncommitted
      leaves nothing to abort. */
  method BlockedButDirty(head: Commits, branch: Commits) returns (r: SeedResult, checkout: Checkout)
    ensures r == SeedBlocked && checkout.dirty && branch <= checkout.head
  {
    checkout := new Checkout(head);
    var concluded := Attempt(true, 0, branch, false, false, true, true);
    r := SeedBranch(checkout, branch, SeedEvents(StoppedOnConflict, true, concluded, concluded, true));
  }

  // ------------------------------------------------------------------- as World's steps

  /** The node's child and the history of its branch, at one moment. */
  datatype Mark = Mark(child: Child, history: Commits)

  /** The world with this node's child and branch as marked. */
  function At(f: Fleet, s: State, id: string, m: Mark): State {
    s.(branches := s.branches[NodeBranch(f.id, id) := m.history], children := s.children[id := m.child])
  }

  /** The node may run, and its dependencies' branches are those of the world. */
  ghost predicate Ready(f: Fleet, s: State, id: string, branches: seq<Commits>) {
    && id in f.g && id !in f.g[id]
    && |branches| == |DependencyBranches(f.id, f.g[id])|
    && forall k | 0 <= k < |branches| ::
         var b := DependencyBranches(f.id, f.g[id])[k]; b in s.branches && s.branches[b] == branches[k]
  }

  ghost predicate AreSteps(f: Fleet, s: State, id: string, marks: seq<Mark>) {
    forall i | 0 <= i < |marks| - 1 :: Next(f, At(f, s, id, marks[i]), At(f, s, id, marks[i + 1]))
  }

  /** The node's own branch is none of its dependencies'. */
  lemma DependencyElsewhere(f: Fleet, s: State, id: string, branches: seq<Commits>, m: Mark, k: nat)
    requires Ready(f, s, id, branches) && k < |branches|
    ensures var b := DependencyBranches(f.id, f.g[id])[k];
            b in At(f, s, id, m).branches && At(f, s, id, m).branches[b] == branches[k]
  {
    var b := DependencyBranches(f.id, f.g[id])[k];
    DependencyBranchesCover(f.id, f.g[id]);
    assert b in DependencyBranches(f.id, f.g[id]);
    var d :| d in f.g[id] && b == NodeBranch(f.id, d);
    if b == NodeBranch(f.id, id) { NodeBranchInjective(f.id, d, id); }
  }

  lemma ChildStepIsNext(f: Fleet, s: State, id: string, m: Mark, m': Mark, w: Write)
    requires ChildStep(f, At(f, s, id, m), id, m'.child, w)
    requires (w == Keep && m'.history == m.history) || w == Reset(m'.history)
    ensures Next(f, At(f, s, id, m), At(f, s, id, m'))
  {
    var t := AfterChild(f, At(f, s, id, m), id, m'.child, w);
    var t' := At(f, s, id, m');
    assert t.branches == t'.branches && t.children == t'.children && t.skipped == t'.skipped;
  }

  lemma AddStep(f: Fleet, s: State, id: string, marks: seq<Mark>, m: Mark)
    requires marks != [] && AreSteps(f, s, id, marks)
    requires Next(f, At(f, s, id, marks[|marks| - 1]), At(f, s, id, m))
    ensures AreSteps(f, s, id, marks + [m])
  {
    var all := marks + [m];
    forall i | 0 <= i < |all| - 1 ensures Next(f, At(f, s, id, all[i]), At(f, s, id, all[i + 1])) {
      if i < |marks| - 1 { assert all[i] == marks[i] && all[i + 1] == marks[i + 1]; }
    }
  }

  /** What merging the next branch does to the child. */
  function AfterSeed(child: Child, r: SeedResult): Child
    requires child.phase.Seeding?
  {
    match r
    case Seeded(_) => child.(phase := Seeding(child.phase.merged + 1))
    case SeedBlocked => child.(phase := Ended(Blocked))
    case SeedFailed => child.(phase := Ended(Failed))
  }

  lemma SeedIsStep(f: Fleet, s: State, id: string, branches: seq<Commits>, m: Mark, r: SeedResult, history: Commits)
    requires Ready(f, s, id, branches) && m.child.phase.Seeding? && m.child.phase.merged < |branches|
    requires m.history <= history && (r.Seeded? ==> branches[m.child.phase.merged] <= history)
    ensures Next(f, At(f, s, id, m), At(f, s, id, Mark(AfterSeed(m.child, r), history)))
  {
    var t := At(f, s, id, m);
    DependencyElsewhere(f, s, id, branches, m, m.child.phase.merged);
    assert MergeStep(f, t, id, m.child, AfterSeed(m.child, r), Reset(history));
    ChildStepIsNext(f, s, id, m, Mark(AfterSeed(m.child, r), history), Reset(history));
  }

  /** How the child stands once seeding is over. */
  function SeedPhase(r: SeedResult, n: nat): Phase {
    match r case Seeded(_) => Seeding(n) case SeedBlocked => Ended(Blocked) case SeedFailed => Ended(Failed)
  }

  /** Merges the dependency branches in order, up to the first that cannot be. */
  method SeedBranches(checkout: Checkout, branches: seq<Commits>, events: seq<SeedEvents>,
                      ghost f: Fleet, ghost s: State, ghost id: string, ghost marks: seq<Mark>)
    returns (r: SeedResult, ghost marks': seq<Mark>)
    requires |events| == |branches| && Ready(f, s, id, branches)
    requires AreSteps(f, s, id, marks) && marks != []
    requires marks[|marks| - 1] == Mark(NewChild.(phase := Seeding(0)), checkout.head)
    requires !checkout.conflicted
    modifies checkout
    ensures Seed(r, checkout.head) == SeedAll(old(checkout.head), branches, events)
    ensures r == SeedBlocked ==> !checkout.merging
    ensures r == SeedBlocked ==>
              (!checkout.conflicted && !checkout.dirty <==> AbortedCleanly(old(checkout.head), branches, events))
    ensures r.Seeded? ==> !checkout.conflicted
    ensures AreSteps(f, s, id, marks') && marks' != [] && marks <= marks'
    ensures marks'[|marks'| - 1] == Mark(NewChild.(phase := SeedPhase(r, |branches|)), checkout.head)
    ensures Unreviewed(marks) ==> Unreviewed(marks')
  {
    var tokens := 0;
    marks' := marks;
    for k := 0 to |branches|
      invariant Seed(Seeded(tokens), checkout.head) == SeedAll(old(checkout.head), branches[..k], events[..k])
      invariant AreSteps(f, s, id, marks') && marks' != [] && marks <= marks'
      invariant marks'[|marks'| - 1] == Mark(NewChild.(phase := Seeding(k)), checkout.head)
      invariant Unreviewed(marks) ==> Unreviewed(marks')
      invariant !checkout.conflicted
    {
      SeedNext(old(checkout.head), branches, events, k);
      r := SeedBranch(checkout, branches[k], events[k]);
      ghost var last := marks'[|marks'| - 1];
      ghost var next := Mark(AfterSeed(last.child, r), checkout.head);
      SeedIsStep(f, s, id, branches, last, r, checkout.head);
      AddStep(f, s, id, marks', next);
      marks' := marks' + [next];
      match r {
        case Seeded(spent) => tokens := tokens + spent;
        case _ =>
          StopsHere(old(checkout.head), branches, events, k);
          return;
      }
    }
    assert branches[..|branches|] == branches && events[..|branches|] == events;
    r := Seeded(tokens);
  }

  lemma StopsHere(head: Commits, branches: seq<Commits>, events: seq<SeedEvents>, k: nat)
    requires |branches| == |events| && k < |branches|
    requires SeedAll(head, branches[..k], events[..k]).result.Seeded?
    requires !SeedAll(head, branches[..k + 1], events[..k + 1]).result.Seeded?
    ensures SeedAll(head, branches, events) == SeedAll(head, branches[..k + 1], events[..k + 1])
    ensures SeedAll(head, branches, events).result.SeedBlocked? ==>
              (AbortedCleanly(head, branches, events) <==> AbortCleans(events[k]))
  {
    SeedNext(head, branches, events, k);
    SeedingStops(head, branches, events, k + 1);
  }

  lemma {:induction false} SeedingStops(head: Commits, branches: seq<Commits>, events: seq<SeedEvents>, k: nat)
    requires |branches| == |events| && k <= |branches|
    requires !SeedAll(head, branches[..k], events[..k]).result.Seeded?
    ensures SeedAll(head, branches, events) == SeedAll(head, branches[..k], events[..k])
    ensures StopsAt(head, branches, events) == StopsAt(head, branches[..k], events[..k])
    decreases |branches|
  {
    if k == |branches| {
      assert branches[..k] == branches && events[..k] == events;
    } else {
      var n := |branches| - 1;
      assert branches[..n][..k] == branches[..k] && events[..n][..k] == events[..k];
      SeedingStops(head, branches[..n], events[..n], k);
    }
  }

  // -------------------------------------------------------------------- the whole run

  /** What the world answers one develop run, its review's passes included, and the commits those added. */
  datatype NodeEvents = NodeEvents(
    created: bool, baseRead: bool, seeds: seq<SeedEvents>, agent: Attempt, listed: bool, probed: bool,
    summary: bool, cancelled: bool,  // cancelled while it summarises itself
    steering: Option<bool>, stash: seq<R.Changes>, review: seq<R.Events>, reviewAdds: Commits)

  /** The awaited review: a loop over the clean tree the check demands, accounting for the develop step. */
  ghost function ReviewLoopOf(events: NodeEvents, tokens: int): L.LoopState {
    L.Loop(R.CLEAN, events.stash, L.FirstInput(tokens, events.summary, events.steering), events.review)
  }

  ghost function ReviewOf(events: NodeEvents, tokens: int): L.DevelopResult {
    L.ResultOf(ReviewLoopOf(events, tokens).exit, tokens)
  }

  /** What the review leaves uncommitted. */
  ghost function TreeAfter(events: NodeEvents, tokens: int): R.Changes {
    ReviewLoopOf(events, tokens).local
  }

  datatype NodeEnd = Stopped(outcome: Outcome) | Landed(tokens: int) | Unsettled

  /** The develop agent's run. */
  method RunDevelopAgent(checkout: Checkout, agent: Attempt)
    modifies checkout
    ensures checkout.head == old(checkout.head) + agent.adds && checkout.dirty == agent.dirty
    ensures checkout.conflicted == old(checkout.conflicted)
  {
    checkout.head, checkout.dirty := checkout.head + agent.adds, agent.dirty;
  }

  /** New commits beyond what the agent started from, and nothing uncommitted. */
  method EnsureDeveloped(checkout: Checkout, base: Commits, listed: bool, probed: bool) returns (developed: bool)
    ensures developed <==> listed && checkout.head - base != {} && probed && !checkout.dirty
  {
    if !listed { return false; }
    if checkout.head - base == {} { return false; }
    developed := probed && !checkout.dirty;
  }

  lemma DevelopIsStep(f: Fleet, s: State, id: string, branches: seq<Commits>, history: Commits)
    requires Ready(f, s, id, branches)
    ensures var m := Mark(NewChild.(phase := Seeding(|branches|)), history);
            Next(f, At(f, s, id, m), At(f, s, id, Mark(AgentStarted(history), history)))
  {
    var m := Mark(NewChild.(phase := Seeding(|branches|)), history);
    assert DevelopStep(f, At(f, s, id, m), id, m.child, AgentStarted(history), Keep);
    ChildStepIsNext(f, s, id, m, Mark(AgentStarted(history), history), Keep);
  }

  /** A child whose develop agent has started from `start`. */
  function AgentStarted(start: Commits): Child {
    NewChild.(phase := Developing, agentStarted := true, start := start)
  }

  lemma EnsureIsStep(f: Fleet, s: State, id: string, m: Mark, m': Mark)
    requires id in f.g && m.child.phase == Developing && m.history <= m'.history
    requires || m'.child == m.child.(phase := Ended(Failed))
             || (m'.history - m.child.start != {} && m'.child == m.child.(phase := Reviewing, landed := true))
    ensures Next(f, At(f, s, id, m), At(f, s, id, m'))
  {
    assert EnsureStep(f, At(f, s, id, m), id, m.child, m'.child, Reset(m'.history));
    ChildStepIsNext(f, s, id, m, m', Reset(m'.history));
  }

  function Reviewed(child: Child, review: L.DevelopResult): Child {
    match review
    case Succeeded(_) => child.(phase := Ended(World.Succeeded), converged := true)
    case NotConverged => child.(phase := Ended(Blocked))
    case ReviewFailed => child.(phase := Ended(Failed))
    case Reviewing => child
  }

  lemma ReviewIsStep(f: Fleet, s: State, id: string, m: Mark, review: L.DevelopResult, history: Commits)
    requires id in f.g && m.child.phase == Phase.Reviewing && m.history <= history
    ensures Next(f, At(f, s, id, m), At(f, s, id, Mark(Reviewed(m.child, review), history)))
  {
    assert ReviewStep(f, At(f, s, id, m), id, m.child, Reviewed(m.child, review), Reset(history));
    ChildStepIsNext(f, s, id, m, Mark(Reviewed(m.child, review), history), Reset(history));
  }

  lemma CreateIsStep(f: Fleet, s: State, id: string, created: bool)
    requires id in f.g && id in s.children && s.children[id] == NewChild && NodeBranch(f.id, id) !in s.branches
    ensures created ==> Next(f, s, At(f, s, id, Mark(NewChild.(phase := Seeding(0)), f.base)))
    ensures created ==> Next(f, s, At(f, s, id, Mark(NewChild.(phase := Ended(Failed)), f.base)))
    ensures Next(f, s, s.(children := s.children[id := NewChild.(phase := Ended(Failed))]))
  {
    var b := NodeBranch(f.id, id);
    var seeding, failed := NewChild.(phase := Seeding(0)), NewChild.(phase := Ended(Failed));
    assert CreateStep(f, s, id, NewChild, seeding, Reset(f.base)) && CreateStep(f, s, id, NewChild, failed, Reset(f.base));
    assert CreateStep(f, s, id, NewChild, failed, Keep);
    assert AfterChild(f, s, id, seeding, Reset(f.base)) == At(f, s, id, Mark(seeding, f.base));
    assert AfterChild(f, s, id, failed, Reset(f.base)) == At(f, s, id, Mark(failed, f.base));
    assert AfterChild(f, s, id, failed, Keep) == s.(children := s.children[id := failed]);
  }

  /** A run cancelled while it summarises what it developed fails, and no review follows. */
  predicate ToldOfLanding(events: NodeEvents) {
    !(events.summary && events.cancelled)
  }

  /** The agent lands its work and the review that follows is awaited. */
  ghost predicate Lands(events: NodeEvents, start: Commits) {
    && events.agent.ok && events.listed && events.agent.adds - start != {} && events.probed && !events.agent.dirty
    && ToldOfLanding(events)
  }

  /** No child of these was ever reviewed. */
  ghost predicate Unreviewed(marks: seq<Mark>) {
    forall i | 0 <= i < |marks| :: !marks[i].child.phase.Reviewing? && !marks[i].child.landed
  }

  /** What a finished run leaves behind: a child that landed and converged on everything it was seeded with. */
  ghost predicate LandedOn(m: Mark, base: Commits, branches: seq<Commits>) {
    && m.child == Child(Ended(World.Succeeded), true, m.child.start, true, true)
    && base <= m.child.start <= m.history && m.history - m.child.start != {}
    && forall k | 0 <= k < |branches| :: branches[k] <= m.child.start
  }

  /** A child whose work has landed, and one whose run failed before it did. */
  function WorkLanded(start: Commits): Child {
    AgentStarted(start).(phase := Phase.Reviewing, landed := true)
  }

  function WorkFailed(start: Commits): Child {
    AgentStarted(start).(phase := Ended(Failed))
  }

  /** The agent, and the check of what it landed. */
  method LandWork(checkout: Checkout, branches: seq<Commits>, events: NodeEvents,
                  ghost f: Fleet, ghost s: State, ghost id: string, ghost marks: seq<Mark>)
    returns (lands: bool, ghost marks': seq<Mark>)
    requires Ready(f, s, id, branches) && AreSteps(f, s, id, marks) && marks != []
    requires marks[|marks| - 1] == Mark(NewChild.(phase := Seeding(|branches|)), checkout.head)
    modifies checkout
    ensures lands <==> Lands(events, old(checkout.head))
    ensures checkout.head == old(checkout.head) + events.agent.adds && checkout.conflicted == old(checkout.conflicted)
    ensures lands ==> !checkout.dirty
    ensures AreSteps(f, s, id, marks') && |marks'| > |marks| && marks <= marks'
    ensures var start := old(checkout.head);
            marks'[|marks'| - 1] == Mark(if lands then WorkLanded(start) else WorkFailed(start), checkout.head)
    ensures Unreviewed(marks) && !lands ==> Unreviewed(marks')
  {
    var base := checkout.head;
    ghost var started := Mark(AgentStarted(base), base);
    DevelopIsStep(f, s, id, branches, base);
    AddStep(f, s, id, marks, started);
    RunDevelopAgent(checkout, events.agent);
    lands := events.agent.ok;
    if lands { lands := EnsureDeveloped(checkout, base, events.listed, events.probed); }
    if events.summary && events.cancelled { lands := false; }
    assert checkout.head - base == events.agent.adds - base;
    ghost var ended := Mark(if lands then WorkLanded(base) else WorkFailed(base), checkout.head);
    EnsureIsStep(f, s, id, started, ended);
    AddStep(f, s, id, marks + [started], ended);
    marks' := marks + [started] + [ended];
  }

  /** From a seeded branch on: the agent, the check, and the awaited review. */
  method DevelopAndReview(checkout: Checkout, branches: seq<Commits>, events: NodeEvents, tokens: int,
                          ghost f: Fleet, ghost s: State, ghost id: string, ghost marks: seq<Mark>)
    returns (end: NodeEnd, ghost marks': seq<Mark>)
    requires Ready(f, s, id, branches) && AreSteps(f, s, id, marks) && marks != []
    requires marks[|marks| - 1] == Mark(NewChild.(phase := Seeding(|branches|)), checkout.head)
    requires !checkout.conflicted
    modifies checkout
    ensures !checkout.conflicted
    ensures end == Stopped(Blocked) ==> (!checkout.dirty <==> TreeAfter(events, tokens + events.agent.tokens) == R.CLEAN)
    ensures AreSteps(f, s, id, marks') && |marks'| > |marks| && marks <= marks'
    ensures var m, start := marks'[|marks'| - 1], old(checkout.head);
            && end == EndFrom(events, start, tokens)
            && m.history == checkout.head && m.child.start == start <= m.history
            && (end.Stopped? ==> m.child.phase == Ended(end.outcome))
            && (end.Landed? ==> m.child == Child(Ended(World.Succeeded), true, start, true, true) && m.history - start != {})
    ensures Unreviewed(marks) && !events.agent.ok ==> Unreviewed(marks')
  {
    ghost var start := checkout.head;
    var lands;
    lands, marks' := LandWork(checkout, branches, events, f, s, id, marks);
    if !lands { return Stopped(Failed), marks'; }
    assert checkout.head - start == events.agent.adds - start;
    end, marks' := AwaitReview(checkout, events, tokens + events.agent.tokens, f, s, id, marks');
  }

  /** Awaits the review of what landed; it works in the checkout's tree, and what it leaves there stays. */
  method AwaitReview(checkout: Checkout, events: NodeEvents, tokens: int,
                     ghost f: Fleet, ghost s: State, ghost id: string, ghost marks: seq<Mark>)
    returns (end: NodeEnd, ghost marks': seq<Mark>)
    requires id in f.g && AreSteps(f, s, id, marks) && marks != []
    requires marks[|marks| - 1].child.phase == Phase.Reviewing && marks[|marks| - 1].history == checkout.head
    requires !checkout.dirty
    modifies checkout
    ensures checkout.conflicted == old(checkout.conflicted)
    ensures !checkout.dirty <==> TreeAfter(events, tokens) == R.CLEAN
    ensures AreSteps(f, s, id, marks') && |marks'| > |marks| && marks <= marks'
    ensures checkout.head == old(checkout.head) + events.reviewAdds
    ensures marks'[|marks'| - 1] == Mark(Reviewed(marks[|marks| - 1].child, ReviewOf(events, tokens)), checkout.head)
    ensures end == EndOf(ReviewOf(events, tokens))
  {
    ghost var landed := marks[|marks| - 1];
    var git := new R.Worktree(0, R.CLEAN, events.stash);
    var review, rows := L.DevelopAndAwaitReview(git, tokens, events.summary, events.steering, events.review);
    checkout.head, checkout.dirty := checkout.head + events.reviewAdds, git.local != R.CLEAN;
    ghost var reviewed := Mark(Reviewed(landed.child, review), checkout.head);
    ReviewIsStep(f, s, id, landed, review, checkout.head);
    AddStep(f, s, id, marks, reviewed);
    marks' := marks + [reviewed];
    end := EndOf(review);
  }

  function EndOf(review: L.DevelopResult): NodeEnd {
    match review
    case Succeeded(tokens) => Landed(tokens)
    case NotConverged => Stopped(Blocked)
    case ReviewFailed => Stopped(Failed)
    case Reviewing => Unsettled
  }

  /** How a run ends whose agent starts from `start`. */
  ghost function EndFrom(events: NodeEvents, start: Commits, tokens: int): NodeEnd {
    if Lands(events, start) then EndOf(ReviewOf(events, tokens + events.agent.tokens)) else Stopped(Failed)
  }

  /** How a run ends by how its seeding did. */
  ghost function AfterSeeding(seed: Seed, events: NodeEvents): NodeEnd {
    match seed.result
    case SeedBlocked => Stopped(Blocked)
    case SeedFailed => Stopped(Failed)
    case Seeded(tokens) => EndFrom(events, seed.history, tokens)
  }

  /** Whether a blocked run is left clean, by how its seeding ended and whether the abort cleaned up. */
  ghost predicate CleanAfter(seed: Seed, aborted: bool, events: NodeEvents) {
    match seed.result
    case SeedBlocked => aborted
    case SeedFailed => false
    case Seeded(tokens) => TreeAfter(events, tokens + events.agent.tokens) == R.CLEAN
  }

  /** How a whole run ends, by what the world answers it. */
  ghost function NodeEndOf(branches: seq<Commits>, base: Commits, events: NodeEvents): NodeEnd
    requires |events.seeds| == |branches|
  {
    if !events.created || !events.baseRead then Stopped(Failed)
    else AfterSeeding(SeedAll(base, branches, events.seeds), events)
  }

  /** Some pass of the awaited review converges. */
  ghost predicate ReviewConverges(events: NodeEvents, tokens: int) {
    L.Converges(R.CLEAN, events.stash, L.FirstInput(tokens, events.summary, events.steering), events.review)
  }

  /** The awaited review succeeds exactly when some pass of it converges, and then reports what it was seeded with. */
  lemma ReviewLands(events: NodeEvents, tokens: int)
    ensures ReviewOf(events, tokens).Succeeded? <==> ReviewConverges(events, tokens)
    ensures ReviewOf(events, tokens).Succeeded? ==> ReviewOf(events, tokens).tokens == tokens
  {
    L.DevelopAccounts(R.CLEAN, events.stash, tokens, events.summary, events.steering, events.review);
  }

  lemma EndsAsReviewed(exit: R.Exit, tokens: int)
    requires exit.Ended? ==> exit.outcome.converged == (exit.outcome.ending == R.Converged)
    ensures var end := EndOf(L.ResultOf(exit, tokens));
      && (end.Landed? <==> R.Ends(exit, R.Converged)) && (end.Landed? ==> end.tokens == tokens)
      && (end == Stopped(Blocked) <==> exit.Ended? && exit.outcome.ending != R.Converged)
      && (end == Stopped(Failed) <==> exit.Failed?)
  {
  }

  /** How a run ends that was seeded, over what the agent, the check and the review loop came to. */
  lemma EndsAfter(seed: Seed, events: NodeEvents)
    requires seed.result.Seeded?
    ensures var end, exit := AfterSeeding(seed, events), ReviewLoopOf(events, seed.result.tokens + events.agent.tokens).exit;
            var lands := events.agent.ok && events.listed && events.agent.adds - seed.history != {} && events.probed
                         && !events.agent.dirty && !(events.summary && events.cancelled);
      && (end.Landed? <==> lands && R.Ends(exit, R.Converged))
      && (end == Stopped(Blocked) <==> lands && exit.Ended? && exit.outcome.ending != R.Converged)
      && (end == Stopped(Failed) <==> !lands || exit.Failed?)
      && (end.Landed? ==> end.tokens == seed.result.tokens + events.agent.tokens)
  {
    hide ReviewLoopOf;
    var tokens := seed.result.tokens + events.agent.tokens;
    ReviewEnds(events, tokens);
    EndsIf(events, seed.history, seed.result.tokens);
    FinishSeeded(seed, true, events);
    EndsBy(events.agent.ok && events.listed && events.agent.adds - seed.history != {} && events.probed
           && !events.agent.dirty && !(events.summary && events.cancelled),
           EndOf(ReviewOf(events, tokens)), AfterSeeding(seed, events), ReviewLoopOf(events, tokens).exit, tokens);
  }

  lemma EndsBy(lands: bool, reviewed: NodeEnd, end: NodeEnd, exit: R.Exit, tokens: int)
    requires end == if lands then reviewed else Stopped(Failed)
    requires reviewed.Landed? <==> R.Ends(exit, R.Converged)
    requires reviewed.Landed? ==> reviewed.tokens == tokens
    requires reviewed == Stopped(Blocked) <==> exit.Ended? && exit.outcome.ending != R.Converged
    requires reviewed == Stopped(Failed) <==> exit.Failed?
    ensures end.Landed? <==> lands && R.Ends(exit, R.Converged)
    ensures end == Stopped(Blocked) <==> lands && exit.Ended? && exit.outcome.ending != R.Converged
    ensures end == Stopped(Failed) <==> !lands || exit.Failed?
    ensures end.Landed? ==> end.tokens == tokens
  {
  }

  lemma ReviewEnds(events: NodeEvents, tokens: int)
    ensures var end, exit := EndOf(ReviewOf(events, tokens)), ReviewLoopOf(events, tokens).exit;
      && (end.Landed? <==> R.Ends(exit, R.Converged)) && (end.Landed? ==> end.tokens == tokens)
      && (end == Stopped(Blocked) <==> exit.Ended? && exit.outcome.ending != R.Converged)
      && (end == Stopped(Failed) <==> exit.Failed?)
  {
    L.ConvergedIsSaid(R.CLEAN, events.stash, L.FirstInput(tokens, events.summary, events.steering), events.review);
    EndsAsReviewed(ReviewLoopOf(events, tokens).exit, tokens);
  }

  lemma EndsIf(events: NodeEvents, start: Commits, tokens: int)
    ensures EndFrom(events, start, tokens) ==
            if events.agent.ok && events.listed && events.agent.adds - start != {} && events.probed
               && !events.agent.dirty && !(events.summary && events.cancelled)
            then EndOf(ReviewOf(events, tokens + events.agent.tokens)) else Stopped(Failed)
  {
    hide ReviewLoopOf;
  }

  /** A run lands exactly when every dependency is merged, the agent answers, lands a commit of its own on top of
      them and leaves nothing behind, the run is not cancelled while it says so, and the review converges; what it
      reports is what seeding and developing cost. */
  lemma LandsExactly(branches: seq<Commits>, base: Commits, events: NodeEvents)
    requires |events.seeds| == |branches|
    ensures var end, seed := NodeEndOf(branches, base, events), SeedAll(base, branches, events.seeds);
      && (end.Landed? <==>
            && events.created && events.baseRead && seed.result.Seeded? && events.agent.ok
            && events.listed && events.agent.adds - seed.history != {} && events.probed && !events.agent.dirty
            && !(events.summary && events.cancelled)
            && R.Ends(ReviewLoopOf(events, seed.result.tokens + events.agent.tokens).exit, R.Converged))
      && (end.Landed? ==> end.tokens == seed.result.tokens + events.agent.tokens)
  {
    hide ReviewLoopOf;
    var seed := SeedAll(base, branches, events.seeds);
    if seed.result.Seeded? { EndsAfter(seed, events); }
  }

  /** A run blocks exactly when seeding does, or when what landed is reviewed to an end other than convergence. */
  lemma BlocksExactly(branches: seq<Commits>, base: Commits, events: NodeEvents)
    requires |events.seeds| == |branches|
    ensures var end, seed := NodeEndOf(branches, base, events), SeedAll(base, branches, events.seeds);
            end == Stopped(Blocked) <==>
              && events.created && events.baseRead
              && (seed.result.SeedBlocked?
                  || (&& seed.result.Seeded? && events.agent.ok
                      && events.listed && events.agent.adds - seed.history != {} && events.probed && !events.agent.dirty
                      && !(events.summary && events.cancelled)
                      && var exit := ReviewLoopOf(events, seed.result.tokens + events.agent.tokens).exit;
                         exit.Ended? && exit.outcome.ending != R.Converged))
  {
    hide ReviewLoopOf;
    var seed := SeedAll(base, branches, events.seeds);
    if seed.result.Seeded? { EndsAfter(seed, events); }
  }

  /** A run whose agent errs, or whose work does not stand up to the check, fails whatever a review would have said. */
  lemma FailsUnreviewed(branches: seq<Commits>, base: Commits, events: NodeEvents)
    requires |events.seeds| == |branches| && SeedAll(base, branches, events.seeds).result.Seeded?
    requires !events.agent.ok || !events.listed || !events.probed || events.agent.dirty
             || events.agent.adds <= SeedAll(base, branches, events.seeds).history
    ensures NodeEndOf(branches, base, events) == Stopped(Failed)
  {
  }

  /** What a blocked run leaves is a clean tree. */
  ghost predicate LeftClean(branches: seq<Commits>, base: Commits, events: NodeEvents)
    requires |events.seeds| == |branches|
  {
    CleanAfter(SeedAll(base, branches, events.seeds), AbortedCleanly(base, branches, events.seeds), events)
  }

  /** A run blocked by seeding is left clean exactly when, at the branch it stopped at, there was a merge to abort
      or the last attempt had left nothing. */
  lemma SeedBlockedIsClean(branches: seq<Commits>, base: Commits, events: NodeEvents)
    requires |events.seeds| == |branches| && SeedAll(base, branches, events.seeds).result.SeedBlocked?
    ensures var k := StopsAt(base, branches, events.seeds);
      && ComesTo(base, branches, events.seeds, k, SeedBlocked)
      && (LeftClean(branches, base, events) <==> AbortCleans(events.seeds[k]))
  {
    StopsThere(base, branches, events.seeds);
  }

  /** A run blocked by its review is left clean exactly when neither an agent nor a failed pop left anything in the
      tree since the review began, or since a pass that moved everything into the stash and left it there. */
  lemma ReviewBlockedIsClean(branches: seq<Commits>, base: Commits, events: NodeEvents)
    requires |events.seeds| == |branches| && SeedAll(base, branches, events.seeds).result.Seeded?
    ensures var tokens := SeedAll(base, branches, events.seeds).result.tokens + events.agent.tokens;
            LeftClean(branches, base, events) <==> L.QuietSinceClean(R.CLEAN, ReviewLoopOf(events, tokens).traces)
  {
    var seed, aborted := SeedAll(base, branches, events.seeds), AbortedCleanly(base, branches, events.seeds);
    assert LeftClean(branches, base, events) == CleanAfter(seed, aborted, events);
    CleanByReview(seed, aborted, events);
  }

  lemma CleanByReview(seed: Seed, aborted: bool, events: NodeEvents)
    requires seed.result.Seeded?
    ensures CleanAfter(seed, aborted, events) <==>
              L.QuietSinceClean(R.CLEAN, ReviewLoopOf(events, seed.result.tokens + events.agent.tokens).traces)
  {
    hide ReviewLoopOf;
    ReviewIsClean(events, seed.result.tokens + events.agent.tokens);
  }

  lemma ReviewIsClean(events: NodeEvents, tokens: int)
    ensures TreeAfter(events, tokens) == R.CLEAN <==> L.QuietSinceClean(R.CLEAN, ReviewLoopOf(events, tokens).traces)
  {
    L.TreeIsClean(R.CLEAN, events.stash, L.FirstInput(tokens, events.summary, events.steering), events.review);
  }

  /** A run blocked by its review need not be left clean either: nobody steers it, no pass converges, and the last
      reviewer leaves something uncommitted. */
  lemma ReviewedButDirty(base: Commits, commit: nat, leaves: R.Changes)
    requires commit !in base && leaves != R.CLEAN
    ensures var events := NodeEvents(true, true, [], Attempt(true, 0, {commit}, false, false, false, true), true, true,
                                     false, false, Some(false), [], L.CapWithLeftovers(leaves), {});
            NodeEndOf([], base, events) == Stopped(Blocked) && !LeftClean([], base, events)
  {
    var events := NodeEvents(true, true, [], Attempt(true, 0, {commit}, false, false, false, true), true, true,
                             false, false, Some(false), [], L.CapWithLeftovers(leaves), {});
    L.CappedButDirty(0, leaves);
    L.TreeIsClean(R.CLEAN, [], L.FirstInput(0, false, Some(false)), events.review);
    assert commit in events.agent.adds - base;
  }

  /** A node's whole develop run is a run of module World: it creates the branch from the pinned base, seeds it,
      lets the agent work, and ends landed, blocked or failed. */
  method DevelopWorkflow(branches: seq<Commits>, base: Commits, events: NodeEvents,
                         ghost f: Fleet, ghost s: State, ghost id: string)
    returns (end: NodeEnd, clean: bool, ghost marks: seq<Mark>)
    requires Ready(f, s, id, branches) && |events.seeds| == |branches| && base == f.base
    requires id in s.children && s.children[id] == NewChild && NodeBranch(f.id, id) !in s.branches
    ensures end == NodeEndOf(branches, base, events)
    ensures end == Stopped(Blocked) ==> (clean <==> LeftClean(branches, base, events))
    ensures marks == [] <==> !events.created
    ensures marks != [] ==> Next(f, s, At(f, s, id, marks[0])) && AreSteps(f, s, id, marks)
    ensures end.Stopped? && marks != [] ==> marks[|marks| - 1].child.phase == Ended(end.outcome)
    ensures end.Landed? ==> LandedOn(marks[|marks| - 1], f.base, branches)
    ensures !events.agent.ok ==> Unreviewed(marks)
  {
    marks := [];
    CreateIsStep(f, s, id, events.created);
    if !events.created { return Stopped(Failed), true, []; }
    if !events.baseRead {
      marks := [Mark(NewChild.(phase := Ended(Failed)), base)];
      return Stopped(Failed), true, marks;
    }
    var checkout := new Checkout(base);
    end, clean, marks := SeedAndDevelop(checkout, branches, events, f, s, id,
                                        [Mark(NewChild.(phase := Seeding(0)), base)]);
  }

  /** The run from its fresh branch on. */
  method SeedAndDevelop(checkout: Checkout, branches: seq<Commits>, events: NodeEvents,
                        ghost f: Fleet, ghost s: State, ghost id: string, ghost marks: seq<Mark>)
    returns (end: NodeEnd, clean: bool, ghost marks': seq<Mark>)
    requires Ready(f, s, id, branches) && |events.seeds| == |branches| && AreSteps(f, s, id, marks) && marks != []
    requires marks[|marks| - 1] == Mark(NewChild.(phase := Seeding(0)), checkout.head)
    requires !checkout.conflicted
    modifies checkout
    ensures end == AfterSeeding(SeedAll(old(checkout.head), branches, events.seeds), events)
    ensures end == Stopped(Blocked) ==> (clean <==> LeftClean(branches, old(checkout.head), events))
    ensures AreSteps(f, s, id, marks') && marks <= marks'
    ensures end.Stopped? ==> marks'[|marks'| - 1].child.phase == Ended(end.outcome)
    ensures end.Landed? ==> LandedOn(marks'[|marks'| - 1], old(checkout.head), branches)
    ensures Unreviewed(marks) && !events.agent.ok ==> Unreviewed(marks')
  {
    var seeded;
    seeded, marks' := SeedBranches(checkout, branches, events.seeds, f, s, id, marks);
    assert seeded.SeedBlocked? ==>
             (!checkout.conflicted && !checkout.dirty <==> AbortedCleanly(old(checkout.head), branches, events.seeds));
    end, clean, marks' := FinishRun(checkout, seeded, branches, events, f, s, id, marks');
    if end.Landed? { LandsOnAll(old(checkout.head), branches, events.seeds, marks'[|marks'| - 1]); }
  }

  /** What follows seeding, if anything. */
  method FinishRun(checkout: Checkout, seeded: SeedResult, branches: seq<Commits>, events: NodeEvents,
                   ghost f: Fleet, ghost s: State, ghost id: string, ghost marks: seq<Mark>)
    returns (end: NodeEnd, clean: bool, ghost marks': seq<Mark>)
    requires Ready(f, s, id, branches) && AreSteps(f, s, id, marks) && marks != []
    requires marks[|marks| - 1] == Mark(NewChild.(phase := SeedPhase(seeded, |branches|)), checkout.head)
    requires seeded.Seeded? ==> !checkout.conflicted
    modifies checkout
    ensures end == AfterSeeding(Seed(seeded, old(checkout.head)), events)
    ensures end == Stopped(Blocked) ==>
              (clean <==> CleanAfter(Seed(seeded, old(checkout.head)), old(!checkout.conflicted && !checkout.dirty), events))
    ensures AreSteps(f, s, id, marks') && marks <= marks'
    ensures end.Stopped? ==> marks'[|marks'| - 1].child.phase == Ended(end.outcome)
    ensures end.Landed? ==>
              var m, start := marks'[|marks'| - 1], old(checkout.head);
              && m.child == Child(Ended(World.Succeeded), true, start, true, true)
              && start <= m.history && m.history - start != {}
    ensures Unreviewed(marks) && !events.agent.ok ==> Unreviewed(marks')
  {
    ghost var start, wasClean := checkout.head, !checkout.conflicted && !checkout.dirty;
    match seeded {
      case SeedBlocked => return Stopped(Blocked), !checkout.conflicted && !checkout.dirty, marks;
      case SeedFailed => return Stopped(Failed), !checkout.conflicted && !checkout.dirty, marks;
      case Seeded(tokens) =>
        end, marks' := DevelopAndReview(checkout, branches, events, tokens, f, s, id, marks);
        clean := !checkout.conflicted && !checkout.dirty;
        FinishSeeded(Seed(seeded, start), wasClean, events);
    }
  }

  lemma FinishSeeded(seed: Seed, aborted: bool, events: NodeEvents)
    requires seed.result.Seeded?
    ensures AfterSeeding(seed, events) == EndFrom(events, seed.history, seed.result.tokens)
    ensures CleanAfter(seed, aborted, events) <==> TreeAfter(events, seed.result.tokens + events.agent.tokens) == R.CLEAN
  {
    hide ReviewLoopOf;
  }

  lemma LandsOnAll(base: Commits, branches: seq<Commits>, seeds: seq<SeedEvents>, m: Mark)
    requires |branches| == |seeds| && SeedAll(base, branches, seeds).result.Seeded?
    requires m.child == Child(Ended(World.Succeeded), true, SeedAll(base, branches, seeds).history, true, true)
    requires m.child.start <= m.history && m.history - m.child.start != {}
    ensures LandedOn(m, base, branches)
  {
    SeedAllContains(base, branches, seeds);
  }
}
