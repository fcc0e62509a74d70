/** The pilot: passes that address a pull request's unresolved comments, each as a run of its own.

    The developer's own changes wait in the stash until what the agent did has been published.
 */
module Pilot {
  import opened Options
  import opened Steering
  import opened Review
  import L = ReviewLoops

  /** What the world answers a pass over a pull request's comments. */
  datatype PilotEvents = PilotEvents(
    recorded: bool,           // the pass's row could be written
    resolved: bool,           // its instructions and settings could be read
    steering: bool,           // what the settings say now
    loaded: bool,             // the pull request, its settled review and its comments could be read
    threads: nat,
    guidance: seq<Decision>,
    marked: bool,
    agent: Session,
    listed: bool,
    restoredEarly: bool,
    published: bool,          // pushed, answered, and a fresh review requested
    restored: bool,
    markers: Changes,         // what a pop leaves in the tree if it fails
    cancelled: bool)          // the run is cancelled while it summarises itself

  datatype PilotResult = PilotFailed | NothingToAddress | PilotStopped | Addressed(tokens: int, commits: nat)

  ghost predicate Asks(steered: bool, events: PilotEvents) {
    events.loaded && events.threads > 0 && steered
  }

  /** There is something to address, and nobody objects. */
  ghost predicate Proceeds(steered: bool, events: PilotEvents) {
    && events.loaded && events.threads > 0
    && (steered ==> Chosen(RemoteComments, events.guidance) in {Some(Guide), Some(Skip)})
  }

  /** The tree was checkpointed, the agent answered, and what it landed is known. */
  predicate Worked(events: PilotEvents) {
    events.marked && events.agent.ok && events.listed
  }

  predicate LandedNothing(events: PilotEvents) {
    Worked(events) && events.agent.commits == 0
  }

  predicate Published(events: PilotEvents) {
    Worked(events) && events.agent.commits > 0 && events.published
  }

  /** The entry a pass pushed is put back: it published its work and the pop succeeds, or it landed nothing. */
  predicate PutsBack(events: PilotEvents) {
    (Published(events) && events.restored) || (LandedNothing(events) && events.restoredEarly)
  }

  /** A pop was tried and failed: of a pass that landed nothing, or of one that published. */
  predicate PilotPopFails(events: PilotEvents) {
    (LandedNothing(events) && !events.restoredEarly) || (Published(events) && !events.restored)
  }

  function AddressLeft(events: PilotEvents, local: Changes): seq<Changes> {
    if local != CLEAN && events.marked && !PutsBack(events) then [local] else []
  }

  function AddressLeaves(events: PilotEvents, dirty: bool): Changes {
    (if events.marked then events.agent.leaves else CLEAN)
    + (if dirty && PilotPopFails(events) then events.markers else CLEAN)
  }

  ghost function Outcome(steered: bool, events: PilotEvents): PilotResult {
    if events.loaded && events.threads == 0 then NothingToAddress
    else if Asks(steered, events) && Chosen(RemoteComments, events.guidance) == Some(Stop) then PilotStopped
    else if Proceeds(steered, events) && Published(events) then Addressed(events.agent.tokens, events.agent.commits)
    else PilotFailed
  }

  ghost function PilotLeft(steered: bool, events: PilotEvents, local: Changes): seq<Changes> {
    if Proceeds(steered, events) then AddressLeft(events, local) else []
  }

  ghost function PilotTrace(steered: bool, events: PilotEvents, local: Changes, stash: seq<Changes>): Trace {
    Trace(PilotLeft(steered, events, local),
          if Proceeds(steered, events) then AddressLeaves(events, local != CLEAN) else CLEAN,
          if Asks(steered, events) then [Pause(RemoteComments, stash)] else [])
  }

  /** One pass over the comments.  Unlike the review loop's, a pass that lands nothing fails. */
  method PilotPass(git: Worktree, steered: bool, events: PilotEvents) returns (result: PilotResult, trace: Trace)
    modifies git
    ensures result == Outcome(steered, events)
    ensures trace == PilotTrace(steered, events, old(git.local), old(git.stash))
    ensures git.stash == old(git.stash) + trace.left
    ensures git.local == (if trace.left != [] then CLEAN else old(git.local)) + trace.leaves
  {
    trace := Trace([], CLEAN, []);
    if !events.loaded { return PilotFailed, trace; }
    if events.threads == 0 { return NothingToAddress, trace; }
    if steered {
      trace := trace.(pauses := [Pause(RemoteComments, git.stash)]);
      var decision := Ask(RemoteComments, events.guidance);
      match decision {
        case None => return PilotFailed, trace;
        case Some(d) => if d.choice !in {Guide, Skip} { return PilotStopped, trace; }
      }
    }
    var left, leaves;
    result, left, leaves := AddressComments(git, events);
    trace := trace.(left := left, leaves := leaves);
  }

  /** Sets local changes aside, runs the agent, publishes, and puts them back where it gets that far. */
  method AddressComments(git: Worktree, events: PilotEvents)
    returns (result: PilotResult, left: seq<Changes>, leaves: Changes)
    modifies git
    ensures result == if Published(events) then Addressed(events.agent.tokens, events.agent.commits) else PilotFailed
    ensures left == AddressLeft(events, old(git.local)) && leaves == AddressLeaves(events, old(git.local) != CLEAN)
    ensures git.stash == old(git.stash) + left
    ensures git.local == (if left != [] then CLEAN else old(git.local)) + leaves
  {
    result, left, leaves := PilotFailed, [], CLEAN;
    var cp := git.MarkHeadAndStash(events.marked);
    if cp == None { return; }
    if cp.value.stashed { left := [git.stash[|git.stash| - 1]]; }
    git.RunAgent(events.agent);
    leaves := events.agent.leaves;
    if !events.agent.ok { return; }
    var kept, more;
    result, kept, more := PublishAndRestore(git, cp.value, events);
    leaves := leaves + more;
    if !kept { left := []; }
  }

  /** What follows an agent that answered: seeing what landed, publishing it, and the restore. */
  method PublishAndRestore(git: Worktree, cp: Checkpoint, events: PilotEvents)
    returns (result: PilotResult, kept: bool, more: Changes)
    requires events.marked && events.agent.ok
    requires git.head == cp.head + events.agent.commits && (cp.stashed ==> git.stash != [])
    modifies git
    ensures result == if Published(events) then Addressed(events.agent.tokens, events.agent.commits) else PilotFailed
    ensures kept <==> cp.stashed && !PutsBack(events)
    ensures more == if cp.stashed && PilotPopFails(events) then events.markers else CLEAN
    ensures kept || !cp.stashed ==> git.stash == old(git.stash) && git.local == old(git.local) + more
    ensures cp.stashed && !kept ==>
              && git.stash == old(git.stash)[..|old(git.stash)| - 1]
              && git.local == old(git.local) + old(git.stash)[|old(git.stash)| - 1]
  {
    result, kept, more := PilotFailed, cp.stashed, CLEAN;
    var advance := git.EnsureHeadAdvanced(cp, events.listed, events.restoredEarly, events.markers);
    match advance {
      case NoAdvance => kept := false;
      case AdvanceUnknown =>
        if events.listed { more := events.markers; }
      case Advanced =>
        if !events.published { return; }
        if cp.stashed {
          var popped := git.StashPop(events.restored, events.markers);
          kept := !popped;
          if kept { more := events.markers; }
        }
        result := Addressed(events.agent.tokens, events.agent.commits);
    }
  }

  /** A failed pass leaves the developer's changes in the stash unless its agent landed nothing and the pop that
      follows then succeeds; an addressed one, only if its last pop fails. */
  lemma PilotLeavesExactly(steered: bool, events: PilotEvents, local: Changes)
    requires local != CLEAN
    ensures PilotLeft(steered, events, local) != [] ==>
              && events.loaded && events.threads > 0 && events.marked
              && (steered ==> Chosen(RemoteComments, events.guidance) in {Some(Guide), Some(Skip)})
    ensures Outcome(steered, events).Addressed? ==> (PilotLeft(steered, events, local) != [] <==> !events.restored)
    ensures Proceeds(steered, events) && events.marked && !Outcome(steered, events).Addressed? ==>
              (PilotLeft(steered, events, local) == [] <==>
                 events.agent.ok && events.listed && events.agent.commits == 0 && events.restoredEarly)
  {
  }

  // ------------------------------------------------------------------- the recorded pass

  /** What one pass is started with; continue-as-new hands the next pass its own. */
  datatype PilotInput = PilotInput(chain: bool, tokensSoFar: int, summary: bool, steering: Option<bool>)

  /** `addressed` stays open where the pass never got to decide. */
  datatype PilotRow = PilotRow(tokens: int, addressed: Option<bool>, ending: Option<Ending>)

  datatype PilotExit = PilotFails | Chains(next: PilotInput) | PilotEnds(total: int)

  predicate PilotBegins(events: PilotEvents) {
    events.recorded && events.resolved
  }

  /** Steering is settled by a chain's first pass and carried from there. */
  function PilotSteered(input: PilotInput, events: PilotEvents): bool {
    match input.steering case None => events.steering case Some(on) => on
  }

  /** What the pass's agent cost: a session that answered, whatever became of its work. */
  ghost function PilotSpent(input: PilotInput, events: PilotEvents): int {
    if PilotBegins(events) && Proceeds(PilotSteered(input, events), events) && events.marked && events.agent.ok
    then events.agent.tokens else 0
  }

  ghost function PilotRowOf(input: PilotInput, events: PilotEvents): PilotRow {
    if !PilotBegins(events) then PilotRow(0, None, None) else
      match Outcome(PilotSteered(input, events), events)
      case PilotFailed => PilotRow(0, None, None)
      case NothingToAddress => PilotRow(0, Some(false), None)
      case PilotStopped => PilotRow(0, Some(false), Some(OperatorStopped))
      case Addressed(tokens, _) => PilotRow(tokens, Some(true), None)
  }

  /** Only a pass whose agent ran summarises itself, and only then can it be cancelled doing so. */
  ghost function PilotExitOf(input: PilotInput, events: PilotEvents): PilotExit {
    if !PilotBegins(events) then PilotFails else
      match Outcome(PilotSteered(input, events), events)
      case PilotFailed => PilotFails
      case NothingToAddress => PilotEnds(input.tokensSoFar)
      case PilotStopped => PilotEnds(input.tokensSoFar)
      case Addressed(tokens, _) =>
        var total := input.tokensSoFar + tokens;
        if input.summary && events.cancelled then PilotFails
        else if input.chain then
          Chains(input.(tokensSoFar := total, steering := Some(PilotSteered(input, events))))
        else PilotEnds(total)
  }

  /** What the recorded pass leaves behind; one that could not begin does nothing. */
  ghost function RunTrace(input: PilotInput, events: PilotEvents, local: Changes, stash: seq<Changes>): Trace {
    if PilotBegins(events) then PilotTrace(PilotSteered(input, events), events, local, stash) else Trace([], CLEAN, [])
  }

  /** One pass as its run carries it out, recorded in a row of its own. */
  method PilotWorkflow(git: Worktree, input: PilotInput, events: PilotEvents)
    returns (exit: PilotExit, row: PilotRow, trace: Trace)
    modifies git
    ensures exit == PilotExitOf(input, events) && row == PilotRowOf(input, events)
    ensures trace == RunTrace(input, events, old(git.local), old(git.stash))
    ensures git.stash == old(git.stash) + trace.left
    ensures git.local == (if trace.left != [] then CLEAN else old(git.local)) + trace.leaves
  {
    exit, row, trace := PilotFails, PilotRow(0, None, None), Trace([], CLEAN, []);
    if !events.recorded || !events.resolved { return; }
    var steered := PilotSteered(input, events);
    var result;
    result, trace := PilotPass(git, steered, events);
    match result {
      case PilotFailed =>
      case NothingToAddress =>
        exit, row := PilotEnds(input.tokensSoFar), row.(addressed := Some(false));
      case PilotStopped =>
        exit, row := PilotEnds(input.tokensSoFar), row.(addressed := Some(false), ending := Some(OperatorStopped));
      case Addressed(tokens, _) =>
        row := row.(tokens := tokens, addressed := Some(true));
        var total := input.tokensSoFar + tokens;
        if input.summary && events.cancelled { return; }
        exit := if input.chain then Chains(input.(tokensSoFar := total, steering := Some(steered))) else PilotEnds(total);
    }
  }

  /** How a pass ends, over what the world answers it: a pull request with nothing left to address, or an operator's
      stop, ends the chain with what was spent; published work goes on, in a chain; everything else fails. */
  lemma PassExitsExactly(input: PilotInput, events: PilotEvents)
    ensures var exit, told := PilotExitOf(input, events), !(input.summary && events.cancelled);
            var loaded := events.recorded && events.resolved && events.loaded;
            var steered := if input.steering == None then events.steering else input.steering == Some(true);
            var choice := Chosen(RemoteComments, events.guidance);
            var idle := loaded && (events.threads == 0 || (steered && choice == Some(Stop)));
            var published := loaded && events.threads > 0 && (steered ==> choice == Some(Guide) || choice == Some(Skip))
                             && events.marked && events.agent.ok && events.listed && events.agent.commits > 0
                             && events.published;
      && (exit.PilotEnds? <==> idle || (published && told && !input.chain))
      && (exit.Chains? <==> published && told && input.chain)
      && (exit.PilotEnds? ==> exit.total == input.tokensSoFar + if idle then 0 else events.agent.tokens)
      && (exit.Chains? ==> exit.next == PilotInput(true, input.tokensSoFar + events.agent.tokens, input.summary, Some(steered)))
  {
  }

  /** What the row tells, and when the operator is asked. */
  lemma PassTellsExactly(input: PilotInput, events: PilotEvents, local: Changes, stash: seq<Changes>)
    ensures var row := PilotRowOf(input, events);
            var loaded := events.recorded && events.resolved && events.loaded;
            var steered := if input.steering == None then events.steering else input.steering == Some(true);
            var asked := loaded && events.threads > 0 && steered;
            var choice := Chosen(RemoteComments, events.guidance);
      && (row.addressed == Some(true) <==>
            && loaded && events.threads > 0 && (steered ==> choice == Some(Guide) || choice == Some(Skip))
            && events.marked && events.agent.ok && events.listed && events.agent.commits > 0 && events.published)
      && (row.addressed == Some(false) <==> (loaded && events.threads == 0) || (asked && choice == Some(Stop)))
      && (row.ending == None <==> !(asked && choice == Some(Stop))) && row.ending in {None, Some(OperatorStopped)}
      && RunTrace(input, events, local, stash).pauses == if asked then [Pause(RemoteComments, stash)] else []
  {
  }

  /** The row carries the pass's own usage exactly when the pass publishes its work, its agent never answered, or
      the session was free; the row of any other pass carries none of it. */
  lemma UsageReportedExactly(input: PilotInput, events: PilotEvents)
    ensures PilotRowOf(input, events).tokens == PilotSpent(input, events) <==>
              || !PilotBegins(events) || !Proceeds(PilotSteered(input, events), events)
              || Published(events) || !(events.marked && events.agent.ok) || events.agent.tokens == 0
    ensures PilotRowOf(input, events).tokens != PilotSpent(input, events) ==>
              PilotRowOf(input, events) == PilotRow(0, None, None) && PilotExitOf(input, events).PilotFails?
  {
  }

  /** Work that was done and paid for: landed but not published, on a tree with changes.  The row reports nothing,
      and the changes stay in the stash. */
  lemma UnpublishedWorkStrandsChanges(input: PilotInput, local: Changes, tokens: int)
    requires local != CLEAN && input.steering == Some(false)
    ensures var events := PilotEvents(true, true, false, true, 1, [], true, Session(true, tokens, 1, CLEAN, ""),
                                      true, true, false, true, CLEAN, false);
      && PilotExitOf(input, events) == PilotFails && PilotLeft(false, events, local) == [local]
      && PilotSpent(input, events) == tokens && PilotRowOf(input, events).tokens == 0
  {
  }

  // ------------------------------------------------------------------------------ the chain

  /** Where a chain stands: how its last pass ended, the tree, and a row and a trace for every pass. */
  datatype ChainState = ChainState(
    exit: PilotExit, local: Changes, stash: seq<Changes>, rows: seq<PilotRow>, traces: seq<Trace>)

  ghost function AnotherPass(s: ChainState, events: PilotEvents): ChainState
    requires s.exit.Chains?
  {
    var trace := RunTrace(s.exit.next, events, s.local, s.stash);
    ChainState(PilotExitOf(s.exit.next, events), (if trace.left != [] then CLEAN else s.local) + trace.leaves,
               s.stash + trace.left, s.rows + [PilotRowOf(s.exit.next, events)], s.traces + [trace])
  }

  /** The chain once the world has answered `world`; a settled chain stays settled. */
  ghost function Chain(local: Changes, stash: seq<Changes>, input: PilotInput, world: seq<PilotEvents>): ChainState {
    if world == [] then ChainState(Chains(input), local, stash, [], []) else
      var before := Chain(local, stash, input, world[..|world| - 1]);
      if before.exit.Chains? then AnotherPass(before, world[|world| - 1]) else before
  }

  /** The chain as it runs. */
  method PilotChain(git: Worktree, input: PilotInput, world: seq<PilotEvents>)
    returns (exit: PilotExit, rows: seq<PilotRow>, traces: seq<Trace>)
    modifies git
    ensures ChainState(exit, git.local, git.stash, rows, traces) == Chain(old(git.local), old(git.stash), input, world)
  {
    exit, rows, traces := Chains(input), [], [];
    for k := 0 to |world|
      invariant ChainState(exit, git.local, git.stash, rows, traces)
             == Chain(old(git.local), old(git.stash), input, world[..k])
    {
      assert world[..k + 1][..k] == world[..k];
      if exit.Chains? {
        var row, trace;
        exit, row, trace := PilotWorkflow(git, exit.next, world[k]);
        rows, traces := rows + [row], traces + [trace];
      }
    }
    assert world[..|world|] == world;
  }

  ghost function Reported(rows: seq<PilotRow>): int {
    if rows == [] then 0 else Reported(rows[..|rows| - 1]) + rows[|rows| - 1].tokens
  }

  /** What the agents of a chain's passes cost. */
  ghost function ChainSpent(local: Changes, stash: seq<Changes>, input: PilotInput, world: seq<PilotEvents>): int {
    if world == [] then 0 else
      var n := |world| - 1;
      var before := Chain(local, stash, input, world[..n]);
      ChainSpent(local, stash, input, world[..n])
      + if before.exit.Chains? then PilotSpent(before.exit.next, world[n]) else 0
  }

  /** The total carried or reported is the seed and every row; it covers everything the agents cost, unless the
      chain failed, and then the rows lack at most the last pass's usage. */
  ghost predicate ChainAccounted(seed: int, s: ChainState, spent: int) {
    && (s.exit.Chains? ==> s.exit.next.tokensSoFar == seed + Reported(s.rows))
    && (s.exit.PilotEnds? ==> s.exit.total == seed + Reported(s.rows))
    && (!s.exit.PilotFails? ==> Reported(s.rows) == spent)
    && (Reported(s.rows) != spent ==> s.rows != [] && s.rows[|s.rows| - 1] == PilotRow(0, None, None))
  }

  lemma AccountOnePass(seed: int, s: ChainState, spent: int, events: PilotEvents)
    requires s.exit.Chains? && ChainAccounted(seed, s, spent)
    ensures ChainAccounted(seed, AnotherPass(s, events), spent + PilotSpent(s.exit.next, events))
  {
    UsageReportedExactly(s.exit.next, events);
    var row := PilotRowOf(s.exit.next, events);
    var rows := s.rows + [row];
    assert rows[..|rows| - 1] == s.rows && Reported(rows) == Reported(s.rows) + row.tokens;
    assert AnotherPass(s, events).rows == rows && AnotherPass(s, events).exit == PilotExitOf(s.exit.next, events);
  }

  lemma {:induction false} ChainAccounts(local: Changes, stash: seq<Changes>, input: PilotInput, world: seq<PilotEvents>)
    ensures ChainAccounted(input.tokensSoFar, Chain(local, stash, input, world), ChainSpent(local, stash, input, world))
    decreases |world|
  {
    if world != [] {
      var n := |world| - 1;
      var before := Chain(local, stash, input, world[..n]);
      ChainAccounts(local, stash, input, world[..n]);
      if before.exit.Chains? {
        AccountOnePass(input.tokensSoFar, before, ChainSpent(local, stash, input, world[..n]), world[n]);
      }
    }
  }

  /** In every chain, failing ones included, no local change is lost and no entry from before is touched. */
  lemma {:induction false} ChainLosesNothing(local: Changes, stash: seq<Changes>, input: PilotInput,
                                             world: seq<PilotEvents>)
    ensures var s := Chain(local, stash, input, world);
            L.NothingLost(local, stash, s.local, s.stash, L.LeftBehind(s.traces), L.LeftUncommitted(s.traces))
    decreases |world|
  {
    if world != [] {
      var n := |world| - 1;
      var s := Chain(local, stash, input, world[..n]);
      ChainLosesNothing(local, stash, input, world[..n]);
      if s.exit.Chains? {
        var trace, s' := RunTrace(s.exit.next, world[n], s.local, s.stash), AnotherPass(s, world[n]);
        L.KeepsMore(local, stash, s.local, s.stash, L.LeftBehind(s.traces), L.LeftUncommitted(s.traces),
                    s'.local, trace.left, trace.leaves);
        assert s'.traces[..|s.traces|] == s.traces;
      }
    }
  }
}
