/** The whole review loop: passes that continue as new until one ends the loop or fails. */
module ReviewLoops {
  /*  What a loop comes to is a function of the tree it starts in, its input, and what the world
      answers each pass; the loop as it runs computes that function, and the lemmas are about it.  */

  import opened Options
  import opened Steering
  import opened Text
  import opened Review

  /** Where a loop stands: how its last pass ended, the tree, and a row and a trace for every pass. */
  datatype LoopState = LoopState(
    exit: Exit, local: Changes, stash: seq<Changes>, rows: seq<Row>, traces: seq<Trace>)

  /** What a loop is started with: no findings yet, and the usage to account for. */
  function FirstInput(seed: int, summary: bool, steering: Option<bool>): ReviewInput {
    ReviewInput("", 0, 0, seed, summary, steering)
  }

  function Fresh(local: Changes, stash: seq<Changes>, input: ReviewInput): LoopState {
    LoopState(ContinueAsNew(input), local, stash, [], [])
  }

  ghost function OnePass(s: LoopState, events: Events): LoopState
    requires s.exit.ContinueAsNew?
  {
    var input, dirty := s.exit.next, s.local != CLEAN;
    LoopState(ExitOf(input, events, dirty), LocalAfter(input, events, s.local),
              s.stash + LeftBy(input, events, s.local), s.rows + [RowOf(input, events, dirty)],
              s.traces + [TraceOf(input, events, s.local, s.stash)])
  }

  /** The loop once the world has answered `world`; a settled loop stays settled. */
  ghost function Loop(local: Changes, stash: seq<Changes>, input: ReviewInput, world: seq<Events>): (s: LoopState)
    ensures |s.rows| == |s.traces| <= |world| && (s.exit.ContinueAsNew? ==> |s.rows| == |world|)
  {
    if world == [] then Fresh(local, stash, input) else
      var before := Loop(local, stash, input, world[..|world| - 1]);
      if before.exit.ContinueAsNew? then OnePass(before, world[|world| - 1]) else before
  }

  /** One more pass, taken by a loop that goes on. */
  method TakePass(git: Worktree, input: ReviewInput, events: Events, rows: seq<Row>, traces: seq<Trace>)
    returns (exit: Exit, rows': seq<Row>, traces': seq<Trace>)
    modifies git
    ensures LoopState(exit, git.local, git.stash, rows', traces')
         == OnePass(LoopState(ContinueAsNew(input), old(git.local), old(git.stash), rows, traces), events)
  {
    var row, trace;
    exit, row, trace := ReviewPass(git, input, events);
    rows', traces' := rows + [row], traces + [trace];
  }

  lemma LoopNext(local: Changes, stash: seq<Changes>, input: ReviewInput, world: seq<Events>, k: nat)
    requires k < |world| && Loop(local, stash, input, world[..k]).exit.ContinueAsNew?
    ensures Loop(local, stash, input, world[..k + 1]) == OnePass(Loop(local, stash, input, world[..k]), world[k])
  {
    assert world[..k + 1][..k] == world[..k];
  }

  /** The loop as it runs. */
  method ReviewLoop(git: Worktree, input: ReviewInput, world: seq<Events>)
    returns (exit: Exit, rows: seq<Row>, traces: seq<Trace>)
    modifies git
    ensures LoopState(exit, git.local, git.stash, rows, traces) == Loop(old(git.local), old(git.stash), input, world)
  {
    exit, rows, traces := ContinueAsNew(input), [], [];
    var k := 0;
    while k < |world| && exit.ContinueAsNew?
      invariant 0 <= k <= |world|
      invariant LoopState(exit, git.local, git.stash, rows, traces)
             == Loop(old(git.local), old(git.stash), input, world[..k])
    {
      LoopNext(old(git.local), old(git.stash), input, world, k);
      exit, rows, traces := TakePass(git, exit.next, world[k], rows, traces);
      k := k + 1;
    }
    SettledStays(old(git.local), old(git.stash), input, world, k);
    assert world[..|world|] == world;
  }

  lemma {:induction false} SettledStays(local: Changes, stash: seq<Changes>, input: ReviewInput, world: seq<Events>, k: nat)
    requires k <= |world| && (k == |world| || !Loop(local, stash, input, world[..k]).exit.ContinueAsNew?)
    ensures Loop(local, stash, input, world) == Loop(local, stash, input, world[..k])
    decreases |world|
  {
    if k == |world| {
      assert world[..k] == world;
    } else {
      var n := |world| - 1;
      assert world[..n][..k] == world[..k];
      SettledStays(local, stash, input, world[..n], k);
    }
  }

  lemma PrefixThrough<T>(a: seq<T>, b: seq<T>, c: seq<T>)
    requires a <= b <= c
    ensures a <= c
  {
  }

  lemma GrowsByOne(local: Changes, stash: seq<Changes>, input: ReviewInput, world: seq<Events>)
    requires world != []
    ensures var before, after := Loop(local, stash, input, world[..|world| - 1]), Loop(local, stash, input, world);
            before.rows <= after.rows && before.traces <= after.traces
  {
  }

  lemma {:induction false} RowsOnlyGrow(local: Changes, stash: seq<Changes>, input: ReviewInput, world: seq<Events>, k: nat)
    requires k <= |world|
    ensures Loop(local, stash, input, world[..k]).rows <= Loop(local, stash, input, world).rows
    ensures Loop(local, stash, input, world[..k]).traces <= Loop(local, stash, input, world).traces
    decreases |world|
  {
    if k == |world| {
      assert world[..k] == world;
    } else {
      var n := |world| - 1;
      assert world[..n][..k] == world[..k];
      RowsOnlyGrow(local, stash, input, world[..n], k);
      GrowsByOne(local, stash, input, world);
      PrefixThrough(Loop(local, stash, input, world[..k]).rows, Loop(local, stash, input, world[..n]).rows,
                    Loop(local, stash, input, world).rows);
      PrefixThrough(Loop(local, stash, input, world[..k]).traces, Loop(local, stash, input, world[..n]).traces,
                    Loop(local, stash, input, world).traces);
    }
  }

  lemma Reached(local: Changes, stash: seq<Changes>, input: ReviewInput, world: seq<Events>, k: nat)
    requires k < |Loop(local, stash, input, world).rows|
    ensures Loop(local, stash, input, world[..k]).exit.ContinueAsNew?
  {
    if !Loop(local, stash, input, world[..k]).exit.ContinueAsNew? { SettledStays(local, stash, input, world, k); }
  }

  /** Pass k is the pass its input and its answers make it. */
  lemma PassOfLoop(local: Changes, stash: seq<Changes>, input: ReviewInput, world: seq<Events>, k: nat)
    requires k < |Loop(local, stash, input, world).rows|
    ensures var s, before := Loop(local, stash, input, world), Loop(local, stash, input, world[..k]);
      && before.exit.ContinueAsNew?
      && s.rows[k] == RowOf(before.exit.next, world[k], before.local != CLEAN)
      && s.traces[k] == TraceOf(before.exit.next, world[k], before.local, before.stash)
  {
    Reached(local, stash, input, world, k);
    LoopNext(local, stash, input, world, k);
    RowsOnlyGrow(local, stash, input, world, k + 1);
    var before, after := Loop(local, stash, input, world[..k]), Loop(local, stash, input, world[..k + 1]);
    assert after.rows[k] == RowOf(before.exit.next, world[k], before.local != CLEAN);
  }

  /** Every pass after the first is handed exactly what the reviewer of the pass before it said, across an
      operator's renewals too; the first what the loop was started with; and nothing else of the input changes. */
  lemma FindingsHandedOn(local: Changes, stash: seq<Changes>, input: ReviewInput, world: seq<Events>, k: nat)
    requires k <= |world| && Loop(local, stash, input, world[..k]).exit.ContinueAsNew?
    ensures var next := Loop(local, stash, input, world[..k]).exit.next;
      && next.payload == (if k == 0 then input.payload else world[k - 1].review.output)
      && next.summary == input.summary
      && (k == 0 || next.steering == Some(AsksOperator(input.steering, world)))
    decreases k
  {
    if k > 0 {
      assert world[..k][..k - 1] == world[..k - 1];
      FindingsHandedOn(local, stash, input, world, k - 1);
      LoopNext(local, stash, input, world, k - 1);
      var before := Loop(local, stash, input, world[..k - 1]);
      PassHandsOn(before.exit.next, world[k - 1], before.local != CLEAN);
    }
  }

  // ------------------------------------------------------------------ bound and tokens

  /** Whether the loop asks: what it was started with, or what its first pass finds. */
  function AsksOperator(steering: Option<bool>, world: seq<Events>): bool {
    match steering case Some(on) => on case None => world != [] && world[0].steering
  }

  ghost predicate Renews(world: seq<Events>, j: nat) {
    0 < j <= |world| && Chosen(PassLimit, world[j - 1].limit) == Some(Continue)
  }

  /** Passes are numbered from the start, five to a budget, and a new budget is an operator's. */
  ghost predicate PassesCounted(world: seq<Events>, s: LoopState) {
    && (forall k | 0 <= k < |s.rows| ::
          0 <= s.rows[k].pass < MAX_REVIEW_PASSES && MAX_REVIEW_PASSES * s.rows[k].resets + s.rows[k].pass == k)
    && (s.exit.ContinueAsNew? ==>
          && 0 <= s.exit.next.pass < MAX_REVIEW_PASSES
          && MAX_REVIEW_PASSES * s.exit.next.resets + s.exit.next.pass == |s.rows|)
    && (forall k | 0 < k < |s.rows| + (if s.exit.ContinueAsNew? then 1 else 0) && k % MAX_REVIEW_PASSES == 0 ::
          Renews(world, k))
  }

  lemma CountPass(world: seq<Events>, s: LoopState, events: Events)
    requires s.exit.ContinueAsNew? && PassesCounted(world, s) && |s.rows| == |world|
    ensures PassesCounted(world + [events], OnePass(s, events))
  {
    var world', s' := world + [events], OnePass(s, events);
    forall k | 0 < k < |s'.rows| + (if s'.exit.ContinueAsNew? then 1 else 0) && k % MAX_REVIEW_PASSES == 0
      ensures Renews(world', k)
    {
      if k <= |s.rows| {
        assert Renews(world, k) && world'[k - 1] == world[k - 1];
      } else {
        assert s.exit.next.pass + 1 == MAX_REVIEW_PASSES;
        assert LimitAnswered(s.exit.next, events, Continue);
      }
    }
  }

  lemma {:induction false} LoopIsBounded(local: Changes, stash: seq<Changes>, seed: int, summary: bool,
                                         steering: Option<bool>, world: seq<Events>)
    ensures PassesCounted(world, Loop(local, stash, FirstInput(seed, summary, steering), world))
    decreases |world|
  {
    if world != [] {
      var n := |world| - 1;
      var before := Loop(local, stash, FirstInput(seed, summary, steering), world[..n]);
      LoopIsBounded(local, stash, seed, summary, steering, world[..n]);
      assert world == world[..n] + [world[n]];
      if before.exit.ContinueAsNew? {
        CountPass(world[..n], before, world[n]);
      } else {
        assert forall k | Renews(world[..n], k) :: Renews(world, k);
      }
    }
  }

  /** Between any pass and the fifth after it the operator renewed the budget. */
  lemma FivePassesPerBudget(world: seq<Events>, s: LoopState, k: nat)
    requires PassesCounted(world, s) && k + MAX_REVIEW_PASSES < |s.rows|
    ensures exists j | k < j <= k + MAX_REVIEW_PASSES :: Renews(world, j)
    ensures s.rows[k + MAX_REVIEW_PASSES].resets == s.rows[k].resets + 1
  {
    var j := (k / MAX_REVIEW_PASSES + 1) * MAX_REVIEW_PASSES;
    assert k < j <= k + MAX_REVIEW_PASSES && j % MAX_REVIEW_PASSES == 0;
    assert Renews(world, j);
  }

  ghost function Sum(usage: seq<int>): int {
    if usage == [] then 0 else Sum(usage[..|usage| - 1]) + usage[|usage| - 1]
  }

  function Usage(rows: seq<Row>): seq<int> {
    seq(|rows|, i requires 0 <= i < |rows| => rows[i].tokens)
  }

  lemma UsageGrows(rows: seq<Row>, row: Row)
    ensures Sum(Usage(rows + [row])) == Sum(Usage(rows)) + row.tokens
  {
    var u := Usage(rows + [row]);
    assert u[..|u| - 1] == Usage(rows);
  }

  lemma {:induction false} SumOfParts(a: seq<int>, b: seq<int>)
    ensures Sum(a + b) == Sum(a) + Sum(b)
  {
    if b == [] {
      assert a + b == a;
    } else {
      var n := |b| - 1;
      assert (a + b)[..|a + b| - 1] == a + b[..n];
      SumOfParts(a, b[..n]);
    }
  }

  /** The total carried or reported is the seed and every row's own usage; only the last row can name an ending. */
  ghost predicate Accounted(seed: int, s: LoopState) {
    && (s.exit.ContinueAsNew? ==> s.exit.next.tokensSoFar == seed + Sum(Usage(s.rows)))
    && (s.exit.Ended? ==> s.exit.outcome.total == seed + Sum(Usage(s.rows)))
    && (forall k | 0 <= k < |s.rows| - (if s.exit.ContinueAsNew? then 0 else 1) ::
          s.rows[k].ending == None && s.rows[k].converged == None)
    && (s.exit.Ended? ==> s.rows != [] && s.rows[|s.rows| - 1].ending == Some(s.exit.outcome.ending)
                          && s.rows[|s.rows| - 1].converged == Some(s.exit.outcome.converged))
  }

  lemma AccountPass(seed: int, s: LoopState, events: Events)
    requires s.exit.ContinueAsNew? && Accounted(seed, s)
    ensures Accounted(seed, OnePass(s, events))
  {
    var input, dirty := s.exit.next, s.local != CLEAN;
    var exit, row := ExitOf(input, events, dirty), RowOf(input, events, dirty);
    UsageGrows(s.rows, row);
    var s' := OnePass(s, events);
    assert s'.rows == s.rows + [row] && s'.exit == exit;
  }

  lemma {:induction false} LoopAccounts(local: Changes, stash: seq<Changes>, seed: int, summary: bool,
                                        steering: Option<bool>, world: seq<Events>)
    ensures Accounted(seed, Loop(local, stash, FirstInput(seed, summary, steering), world))
    decreases |world|
  {
    if world != [] {
      var n := |world| - 1;
      var before := Loop(local, stash, FirstInput(seed, summary, steering), world[..n]);
      LoopAccounts(local, stash, seed, summary, steering, world[..n]);
      if before.exit.ContinueAsNew? { AccountPass(seed, before, world[n]); }
    }
  }

  /** Steering cannot be switched while a loop runs: a loop that asks nobody pauses nowhere and has at most one
      budget, and who ended a loop shows whether it asked. */
  ghost predicate SteeringFixed(steered: bool, s: LoopState) {
    && (s.exit.ContinueAsNew? && s.rows != [] ==> s.exit.next.steering == Some(steered))
    && (!steered ==> forall k | 0 <= k < |s.traces| :: s.traces[k].pauses == [])
    && (!steered ==> |s.rows| <= MAX_REVIEW_PASSES && (s.exit.ContinueAsNew? ==> |s.rows| < MAX_REVIEW_PASSES))
    && (Ends(s.exit, PassCap) ==> !steered)
    && (Ends(s.exit, OperatorStopped) || Ends(s.exit, OperatorAccepted) ==> steered)
  }

  lemma {:induction false} LoopKeepsSteering(local: Changes, stash: seq<Changes>, seed: int, summary: bool,
                                             steering: Option<bool>, world: seq<Events>)
    ensures SteeringFixed(AsksOperator(steering, world), Loop(local, stash, FirstInput(seed, summary, steering), world))
    decreases |world|
  {
    if world != [] {
      var n := |world| - 1;
      var input := FirstInput(seed, summary, steering);
      var before := Loop(local, stash, input, world[..n]);
      LoopKeepsSteering(local, stash, seed, summary, steering, world[..n]);
      LoopIsBounded(local, stash, seed, summary, steering, world[..n]);
      if n > 0 { assert world[..n][0] == world[0]; }
      if before.exit.ContinueAsNew? {
        if n == 0 { assert before == Fresh(local, stash, input); }
        KeepSteering(AsksOperator(steering, world), world[..n], before, world[n]);
      }
    }
  }

  lemma KeepSteering(steered: bool, world: seq<Events>, s: LoopState, events: Events)
    requires s.exit.ContinueAsNew? && SteeringFixed(steered, s) && PassesCounted(world, s)
    requires Steered(s.exit.next, events) == steered
    ensures SteeringFixed(steered, OnePass(s, events))
  {
    PassEndsExactly(s.exit.next, events, s.local != CLEAN);
  }

  // -------------------------------------------------------------------------- the stash

  /** What the passes left in the stash, oldest first. */
  ghost function LeftBehind(traces: seq<Trace>): seq<Changes> {
    if traces == [] then [] else LeftBehind(traces[..|traces| - 1]) + traces[|traces| - 1].left
  }

  /** All the changes held in a run of stash entries. */
  ghost function Held(entries: seq<Changes>): Changes {
    if entries == [] then CLEAN else Held(entries[..|entries| - 1]) + entries[|entries| - 1]
  }

  /** What a run of passes left uncommitted in the tree. */
  ghost function LeftUncommitted(traces: seq<Trace>): Changes {
    if traces == [] then CLEAN else LeftUncommitted(traces[..|traces| - 1]) + traces[|traces| - 1].leaves
  }

  /** What is not in the tree is in an entry that was left behind. */
  ghost predicate NothingLost(local: Changes, stash: seq<Changes>, local': Changes, stash': seq<Changes>,
                              left: seq<Changes>, leaves: Changes) {
    stash' == stash + left && local' + Held(left) == local + leaves
  }

  lemma HeldGrows(entries: seq<Changes>, more: seq<Changes>, own: Changes)
    requires (more == [] && own == CLEAN) || more == [own]
    ensures Held(entries + more) == Held(entries) + own
  {
    if more == [] {
      assert entries + more == entries;
    } else {
      assert (entries + more)[..|entries + more| - 1] == entries;
    }
  }

  lemma MoveChanges(local: Changes, local1: Changes, local2: Changes, held: Changes, own: Changes,
                    uncommitted: Changes, leaves: Changes)
    requires local1 + held == local + uncommitted && local2 + own == local1 + leaves
    ensures local2 + (held + own) == local + (uncommitted + leaves)
  {
    forall x ensures (local2 + (held + own))[x] == (local + (uncommitted + leaves))[x] {
      assert (local1 + held)[x] == (local + uncommitted)[x] && (local2 + own)[x] == (local1 + leaves)[x];
    }
  }

  /** In every loop, failing ones included, no local change is lost and no entry from before is touched. */
  lemma {:induction false} LoopLosesNothing(local: Changes, stash: seq<Changes>, input: ReviewInput, world: seq<Events>)
    ensures var s := Loop(local, stash, input, world);
            NothingLost(local, stash, s.local, s.stash, LeftBehind(s.traces), LeftUncommitted(s.traces))
    decreases |world|
  {
    if world != [] {
      var n := |world| - 1;
      var before := Loop(local, stash, input, world[..n]);
      LoopLosesNothing(local, stash, input, world[..n]);
      if before.exit.ContinueAsNew? { KeepsAll(local, stash, before, world[n]); }
    }
  }

  lemma KeepsAll(local: Changes, stash: seq<Changes>, s: LoopState, events: Events)
    requires s.exit.ContinueAsNew?
    requires NothingLost(local, stash, s.local, s.stash, LeftBehind(s.traces), LeftUncommitted(s.traces))
    ensures var s' := OnePass(s, events);
            NothingLost(local, stash, s'.local, s'.stash, LeftBehind(s'.traces), LeftUncommitted(s'.traces))
  {
    var input := s.exit.next;
    PassLosesNothing(input, events, s.local);
    KeepsMore(local, stash, s.local, s.stash, LeftBehind(s.traces), LeftUncommitted(s.traces),
              LocalAfter(input, events, s.local), LeftBy(input, events, s.local),
              LeavesOf(input, events, s.local != CLEAN));
  }

  lemma KeepsMore(local: Changes, stash: seq<Changes>, local1: Changes, stash1: seq<Changes>, left: seq<Changes>,
                  leaves: Changes, local2: Changes, more: seq<Changes>, uncommitted: Changes)
    requires NothingLost(local, stash, local1, stash1, left, leaves)
    requires more == [] || more == [local1]
    requires local2 + (if more == [] then CLEAN else local1) == local1 + uncommitted
    ensures NothingLost(local, stash, local2, stash1 + more, left + more, leaves + uncommitted)
  {
    var own := if more == [] then CLEAN else local1;
    HeldGrows(left, more, own);
    MoveChanges(local, local1, local2, Held(left), own, leaves, uncommitted);
    assert stash + (left + more) == stash + left + more;
  }

  /** Neither an agent nor a failed pop of these passes, from the j-th on, left anything in the tree. */
  ghost predicate Quiet(traces: seq<Trace>, j: nat) {
    forall i | j <= i < |traces| :: traces[i].leaves == CLEAN
  }

  /** Nothing got into the tree since the loop began, if it began clean, or since a pass that moved everything it
      found into the stash and left it there. */
  ghost predicate QuietSinceClean(local: Changes, traces: seq<Trace>) {
    || (local == CLEAN && Quiet(traces, 0))
    || exists j: nat | j < |traces| :: traces[j].left != [] && Quiet(traces, j)
  }

  /** However it stands, a loop's tree is clean exactly then. */
  lemma {:induction false} TreeIsClean(local: Changes, stash: seq<Changes>, input: ReviewInput, world: seq<Events>)
    ensures var s := Loop(local, stash, input, world); s.local == CLEAN <==> QuietSinceClean(local, s.traces)
    decreases |world|
  {
    if world != [] {
      var n := |world| - 1;
      var before := Loop(local, stash, input, world[..n]);
      TreeIsClean(local, stash, input, world[..n]);
      if before.exit.ContinueAsNew? { QuietPass(local, before, world[n]); }
    }
  }

  lemma QuietPass(local: Changes, s: LoopState, events: Events)
    requires s.exit.ContinueAsNew? && (s.local == CLEAN <==> QuietSinceClean(local, s.traces))
    ensures var s' := OnePass(s, events); s'.local == CLEAN <==> QuietSinceClean(local, s'.traces)
  {
    var s', n := OnePass(s, events), |s.traces|;
    var t := s'.traces[n];
    assert s'.local == (if t.left != [] then CLEAN else s.local) + t.leaves;
    assert s'.local == CLEAN <==> t.leaves == CLEAN && (t.left != [] || s.local == CLEAN);
    assert forall i | 0 <= i < n :: s'.traces[i] == s.traces[i];
    forall j: nat | j <= n ensures Quiet(s'.traces, j) <==> Quiet(s.traces, j) && t.leaves == CLEAN {
      if Quiet(s'.traces, j) { assert forall i | j <= i < n :: s.traces[i] == s'.traces[i]; }
    }
    if t.left != [] && t.leaves == CLEAN { assert Quiet(s'.traces, n); }
    if j: nat :| j < n && s.traces[j].left != [] && Quiet(s.traces, j) && t.leaves == CLEAN {
      assert s'.traces[j].left != [] && Quiet(s'.traces, j);
    }
    if j: nat :| j < |s'.traces| && s'.traces[j].left != [] && Quiet(s'.traces, j) && j < n {
      assert s.traces[j].left != [] && Quiet(s.traces, j);
    }
  }

  /** A pass that lands a commit, has findings left, and whose reviewer leaves `leaves` uncommitted. */
  function FindsMore(leaves: Changes): Events {
    Events(true, true, false, [], true, Session(true, 0, 1, CLEAN, ""), true, true,
           Session(true, 0, 0, leaves, "more"), true, CLEAN, [], false)
  }

  /** A loop that nobody steers and that never converges; its last reviewer leaves something uncommitted. */
  function CapWithLeftovers(leaves: Changes): seq<Events> {
    seq(MAX_REVIEW_PASSES, i => FindsMore(if i + 1 < MAX_REVIEW_PASSES then CLEAN else leaves))
  }

  function CapInput(seed: int, k: nat): ReviewInput {
    ReviewInput(if k == 0 then "" else "more", 0, k, seed, false, Some(false))
  }

  lemma PassFindsMore(seed: int, k: nat, leaves: Changes)
    requires k < MAX_REVIEW_PASSES
    ensures var input, events := CapInput(seed, k), FindsMore(leaves);
      && LocalAfter(input, events, CLEAN) == leaves && LeftBy(input, events, CLEAN) == []
      && ExitOf(input, events, false) == if k + 1 < MAX_REVIEW_PASSES then ContinueAsNew(CapInput(seed, k + 1))
                                         else Ended(EndedBy(PassCap, seed))
  {
    var input, events := CapInput(seed, k), FindsMore(leaves);
    assert Blank("") && "more"[0] in "more" && !Blank("more");
    assert Reviews(input, events) && Spent(input, events) == 0 && !FindsNothing(input, events, false);
  }

  lemma LoopFindsMore(s: LoopState, seed: int, k: nat, leaves: Changes)
    requires k < MAX_REVIEW_PASSES && s.exit == ContinueAsNew(CapInput(seed, k)) && s.local == CLEAN
    ensures var s' := OnePass(s, FindsMore(leaves));
      && s'.local == leaves && s'.stash == s.stash
      && s'.exit == if k + 1 < MAX_REVIEW_PASSES then ContinueAsNew(CapInput(seed, k + 1))
                    else Ended(EndedBy(PassCap, seed))
  {
    PassFindsMore(seed, k, leaves);
  }

  lemma {:induction false} GoesOnClean(seed: int, world: seq<Events>, k: nat)
    requires k < MAX_REVIEW_PASSES && k <= |world| && forall i | 0 <= i < k :: world[i] == FindsMore(CLEAN)
    ensures var s := Loop(CLEAN, [], CapInput(seed, 0), world[..k]);
            s.local == CLEAN && s.stash == [] && s.exit == ContinueAsNew(CapInput(seed, k))
  {
    if k > 0 {
      GoesOnClean(seed, world, k - 1);
      LoopFindsMore(Loop(CLEAN, [], CapInput(seed, 0), world[..k - 1]), seed, k - 1, CLEAN);
      LoopNext(CLEAN, [], CapInput(seed, 0), world, k - 1);
    }
  }

  /** Such a loop does end at the pass limit over a tree that is not clean. */
  lemma CappedButDirty(seed: int, leaves: Changes)
    ensures var s := Loop(CLEAN, [], FirstInput(seed, false, Some(false)), CapWithLeftovers(leaves));
            Ends(s.exit, PassCap) && ResultOf(s.exit, seed) == NotConverged && s.local == leaves
  {
    var world, last := CapWithLeftovers(leaves), MAX_REVIEW_PASSES - 1;
    GoesOnClean(seed, world, last);
    LoopFindsMore(Loop(CLEAN, [], CapInput(seed, 0), world[..last]), seed, last, leaves);
    LoopNext(CLEAN, [], CapInput(seed, 0), world, last);
    assert world[..last + 1] == world;
  }

  /** How many passes pushed an entry and failed to pop it after their review. */
  ghost function FailedPops(local: Changes, stash: seq<Changes>, input: ReviewInput, world: seq<Events>): nat {
    if world == [] then 0 else
      var n := |world| - 1;
      var before := Loop(local, stash, input, world[..n]);
      FailedPops(local, stash, input, world[..n])
      + if before.exit.ContinueAsNew? && PopFails(before.exit.next, world[n], before.local != CLEAN) then 1 else 0
  }

  /** However a loop ends, short of failing, the stash is as deep as it was and one deeper for every failed pop. */
  lemma {:induction false} StashDepth(local: Changes, stash: seq<Changes>, input: ReviewInput, world: seq<Events>)
    ensures var s := Loop(local, stash, input, world);
      && (!s.exit.Failed? ==> |s.stash| == |stash| + FailedPops(local, stash, input, world))
      && |stash| + FailedPops(local, stash, input, world) <= |s.stash| <= |stash| + FailedPops(local, stash, input, world) + 1
    decreases |world|
  {
    if world != [] {
      var n := |world| - 1;
      var before := Loop(local, stash, input, world[..n]);
      StashDepth(local, stash, input, world[..n]);
      if before.exit.ContinueAsNew? { LeftExactly(before.exit.next, world[n], before.local); }
    }
  }

  /** Where every pop succeeds, a loop that does not fail leaves the stash as it found it and every change in the tree. */
  lemma CleanLoopRestoresAll(local: Changes, stash: seq<Changes>, input: ReviewInput, world: seq<Events>)
    requires !Loop(local, stash, input, world).exit.Failed?
    requires forall k | 0 <= k < |world| :: world[k].restored
    ensures var s := Loop(local, stash, input, world);
            s.stash == stash && s.local == local + LeftUncommitted(s.traces)
  {
    var s := Loop(local, stash, input, world);
    NoFailedPops(local, stash, input, world);
    StashDepth(local, stash, input, world);
    LoopLosesNothing(local, stash, input, world);
    assert LeftBehind(s.traces) == [];
  }

  lemma {:induction false} NoFailedPops(local: Changes, stash: seq<Changes>, input: ReviewInput, world: seq<Events>)
    requires forall k | 0 <= k < |world| :: world[k].restored
    ensures FailedPops(local, stash, input, world) == 0
    decreases |world|
  {
    if world != [] { NoFailedPops(local, stash, input, world[..|world| - 1]); }
  }

  /** Whenever the operator is asked, the only entries out are those an earlier pass failed to pop, and at the pass
      limit this pass's own if its pop failed: nobody thinks while a developer's changes wait in the stash. */
  lemma PausesAreClean(local: Changes, stash: seq<Changes>, input: ReviewInput, world: seq<Events>, k: nat, i: nat)
    requires k < |Loop(local, stash, input, world).traces|
    requires i < |Loop(local, stash, input, world).traces[k].pauses|
    ensures var before, pause := Loop(local, stash, input, world[..k]), Loop(local, stash, input, world).traces[k].pauses[i];
      && before.exit.ContinueAsNew? && |before.stash| == |stash| + FailedPops(local, stash, input, world[..k])
      && (pause.round == LocalReview ==> pause.stash == before.stash)
      && (pause.round != LocalReview ==>
            && |pause.stash| == |stash| + FailedPops(local, stash, input, world[..k + 1])
            && before.stash <= pause.stash)
  {
    PassOfLoop(local, stash, input, world, k);
    var before := Loop(local, stash, input, world[..k]);
    StashDepth(local, stash, input, world[..k]);
    PauseStash(before.exit.next, world[k], before.local, before.stash, i);
    assert world[..k + 1][..k] == world[..k];
  }

  lemma PauseStash(input: ReviewInput, events: Events, local: Changes, stash: seq<Changes>, i: nat)
    requires i < |PausesOf(input, events, local, stash)|
    ensures var pause := PausesOf(input, events, local, stash)[i];
      && (pause.round == LocalReview ==> pause.stash == stash)
      && (pause.round != LocalReview ==>
            && pause.stash == stash + LeftBy(input, events, local)
            && (LeftBy(input, events, local) != [] <==> PopFails(input, events, local != CLEAN)))
  {
  }

  // --------------------------------------------------------- develop, then its review

  datatype DevelopResult = Succeeded(tokens: int) | NotConverged | ReviewFailed | Reviewing

  /** Only a converged review is a success. */
  function ResultOf(exit: Exit, tokens: int): DevelopResult {
    match exit
    case ContinueAsNew(_) => Reviewing
    case Failed => ReviewFailed
    case Ended(outcome) => if outcome.converged then Succeeded(tokens) else NotConverged
  }

  /** Adds up the usage of recorded executions. */
  method SumTokens(usage: seq<int>) returns (total: int)
    ensures total == Sum(usage)
  {
    total := 0;
    for k := 0 to |usage|
      invariant total == Sum(usage[..k])
    {
      assert usage[..k + 1][..k] == usage[..k];
      total := total + usage[k];
    }
    assert usage[..|usage|] == usage;
  }

  /** Development has landed: the review loop runs supervised. */
  method DevelopAndAwaitReview(git: Worktree, tokens: int, summary: bool, steering: Option<bool>, world: seq<Events>)
    returns (result: DevelopResult, rows: seq<Row>)
    modifies git
    ensures var s := Loop(old(git.local), old(git.stash), FirstInput(tokens, summary, steering), world);
      && result == ResultOf(s.exit, tokens) && rows == s.rows
      && git.local == s.local && git.stash == s.stash
  {
    var exit, traces;
    exit, rows, traces := ReviewLoop(git, FirstInput(tokens, summary, steering), world);
    match exit {
      case ContinueAsNew(_) => result := Reviewing;
      case Failed => result := ReviewFailed;
      case Ended(outcome) => result := if outcome.converged then Succeeded(tokens) else NotConverged;
    }
  }

  /** A develop run succeeds exactly when some pass of its review finds nothing left to change and says so, and no
      pass before it ends the loop; its own row and its review's rows add up to the total the review reports. */
  lemma DevelopAccounts(local: Changes, stash: seq<Changes>, tokens: int, summary: bool, steering: Option<bool>,
                        world: seq<Events>)
    ensures var s := Loop(local, stash, FirstInput(tokens, summary, steering), world);
      && (s.exit.Ended? ==> s.exit.outcome.total == Sum([tokens] + Usage(s.rows)))
      && (ResultOf(s.exit, tokens).Succeeded? <==>
            Converges(local, stash, FirstInput(tokens, summary, steering), world))
  {
    var input := FirstInput(tokens, summary, steering);
    var s := Loop(local, stash, input, world);
    LoopAccounts(local, stash, tokens, summary, steering, world);
    SumOfParts([tokens], Usage(s.rows));
    assert Sum([tokens]) == tokens;
    ConvergedSomewhere(local, stash, input, world);
    if k: nat :| k < |world| && ConvergesAt(local, stash, input, world, k) {
      ConvergedStays(local, stash, input, world, k);
    }
  }

  /** A loop's outcome says converged exactly when its ending is convergence. */
  lemma {:induction false} ConvergedIsSaid(local: Changes, stash: seq<Changes>, input: ReviewInput, world: seq<Events>)
    ensures var exit := Loop(local, stash, input, world).exit;
            exit.Ended? ==> exit.outcome.converged == (exit.outcome.ending == Converged)
    decreases |world|
  {
    if world != [] { ConvergedIsSaid(local, stash, input, world[..|world| - 1]); }
  }

  lemma ConvergedStays(local: Changes, stash: seq<Changes>, input: ReviewInput, world: seq<Events>, k: nat)
    requires k < |world| && ConvergesAt(local, stash, input, world, k)
    ensures Ends(Loop(local, stash, input, world).exit, Converged)
    ensures Loop(local, stash, input, world).exit.outcome.converged
  {
    var before := Loop(local, stash, input, world[..k]);
    assert world[..k + 1][..k] == world[..k];
    PassEndsExactly(before.exit.next, world[k], before.local != CLEAN);
    SettledStays(local, stash, input, world, k + 1);
  }

  /** Pass k is reached, finds nothing left to change, and is not cancelled while it says so. */
  ghost predicate ConvergesAt(local: Changes, stash: seq<Changes>, input: ReviewInput, world: seq<Events>, k: nat)
    requires k < |world|
  {
    var before := Loop(local, stash, input, world[..k]);
    && before.exit.ContinueAsNew?
    && FindsNothing(before.exit.next, world[k], before.local != CLEAN)
    && Completes(before.exit.next, world[k], Converged)
  }

  /** Some pass converges. */
  ghost predicate Converges(local: Changes, stash: seq<Changes>, input: ReviewInput, world: seq<Events>) {
    exists k: nat | k < |world| :: ConvergesAt(local, stash, input, world, k)
  }

  lemma {:induction false} ConvergedSomewhere(local: Changes, stash: seq<Changes>, input: ReviewInput, world: seq<Events>)
    ensures var s := Loop(local, stash, input, world);
            s.exit.Ended? && s.exit.outcome.converged ==> Converges(local, stash, input, world)
    decreases |world|
  {
    if world != [] {
      var n := |world| - 1;
      var before := Loop(local, stash, input, world[..n]);
      if before.exit.ContinueAsNew? {
        PassEndsExactly(before.exit.next, world[n], before.local != CLEAN);
        if Ends(Loop(local, stash, input, world).exit, Converged) { assert ConvergesAt(local, stash, input, world, n); }
      } else {
        ConvergedSomewhere(local, stash, input, world[..n]);
        if k: nat :| k < n && ConvergesAt(local, stash, input, world[..n], k) {
          assert world[..n][..k] == world[..k];
          assert ConvergesAt(local, stash, input, world, k);
        }
      }
    }
  }
}
