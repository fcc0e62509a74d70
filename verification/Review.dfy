/** One pass of the local review loop, and the stash that holds the developer's own changes. */
module Review {
  /*  A pass implements the previous pass's findings and reviews again; the operator may be asked
      before the first and at the pass limit.  What an activity or a child session answered is
      given by the pass's `Events`; an activity's answer is the one left after its retries.  The
      functions below say what a pass comes to; the methods are the pass as the program runs it.  */

  import opened Options
  import opened Steering
  import opened Text

  const MAX_REVIEW_PASSES := 5

  datatype Ending = Converged | OperatorAccepted | OperatorStopped | PassCap

  datatype Outcome = Outcome(converged: bool, ending: Ending, total: int)

  /** The older flag is written with the ending, so that the two never disagree. */
  function EndedBy(ending: Ending, total: int): Outcome {
    Outcome(ending == Converged, ending, total)
  }

  // -------------------------------------------------------------------- working tree

  type Changes = multiset<string>

  const CLEAN: Changes := multiset{}

  datatype Checkpoint = Checkpoint(head: nat, stashed: bool)

  datatype Advance = Advanced | NoAdvance | AdvanceUnknown

  /** An agent's session: what it spent and said, the commits it added, what it left uncommitted. */
  datatype Session = Session(ok: bool, tokens: int, commits: nat, leaves: Changes, output: string)

  /** A branch checked out: commits on it, local changes, and the stash, whose last entry is its top. */
  class Worktree {
    var head: nat
    var local: Changes
    var stash: seq<Changes>

    constructor (head: nat, local: Changes, stash: seq<Changes>)
      ensures this.head == head && this.local == local && this.stash == stash
    {
      this.head, this.local, this.stash := head, local, stash;
    }

    /** Checkpoints HEAD and sets local changes aside, if there are any. */
    method MarkHeadAndStash(ok: bool) returns (cp: Option<Checkpoint>)
      modifies this`local, this`stash
      ensures cp.Some? <==> ok
      ensures !ok || old(local) == CLEAN ==> local == old(local) && stash == old(stash)
      ensures ok && old(local) != CLEAN ==> local == CLEAN && stash == old(stash) + [old(local)]
      ensures ok ==> cp == Some(Checkpoint(head, old(local) != CLEAN))
    {
      if !ok { return None; }
      cp := Some(Checkpoint(head, local != CLEAN));
      if local != CLEAN {
        stash, local := stash + [local], CLEAN;
      }
    }

    /** Puts the top of the stash back; a conflict keeps the entry and may leave conflict markers in the tree. */
    method StashPop(clean: bool, markers: Changes) returns (popped: bool)
      requires stash != []
      modifies this`local, this`stash
      ensures popped <==> clean
      ensures popped ==> local == old(local) + old(stash)[|old(stash)| - 1] && stash == old(stash)[..|old(stash)| - 1]
      ensures !popped ==> local == old(local) + markers && stash == old(stash)
    {
      if !clean {
        local := local + markers;
        return false;
      }
      local, stash := local + stash[|stash| - 1], stash[..|stash| - 1];
      popped := true;
    }

    /** Agents only add commits; they may leave changes uncommitted. */
    method RunAgent(session: Session)
      modifies this`head, this`local
      ensures head == old(head) + session.commits && local == old(local) + session.leaves
    {
      head, local := head + session.commits, local + session.leaves;
    }

    /** Did commits land since the checkpoint?  If not, what was set aside is put back first. */
    method EnsureHeadAdvanced(cp: Checkpoint, listed: bool, clean: bool, markers: Changes) returns (advance: Advance)
      requires cp.head <= head && (cp.stashed ==> stash != [])
      modifies this`local, this`stash
      ensures advance == Advanced <==> listed && head > cp.head
      ensures advance == NoAdvance <==> listed && head == cp.head && (cp.stashed ==> clean)
      ensures advance == NoAdvance && cp.stashed ==>
                local == old(local) + old(stash)[|old(stash)| - 1] && stash == old(stash)[..|old(stash)| - 1]
      ensures advance != NoAdvance || !cp.stashed ==> stash == old(stash)
      ensures advance != NoAdvance || !cp.stashed ==>
                local == if listed && head == cp.head && cp.stashed then old(local) + markers else old(local)
    {
      if !listed { return AdvanceUnknown; }
      if head > cp.head { return Advanced; }
      if cp.stashed {
        var popped := StashPop(clean, markers);
        if !popped { return AdvanceUnknown; }
      }
      return NoAdvance;
    }
  }

  // ------------------------------------------------------------- what a pass comes to

  /** What one pass is started with; continue-as-new hands the next pass its own. */
  datatype ReviewInput = ReviewInput(
    payload: string, resets: nat, pass: nat, tokensSoFar: int, summary: bool, steering: Option<bool>)

  /** What the world answers during one pass. */
  datatype Events = Events(
    recorded: bool,           // the pass's row could be written
    resolved: bool,           // its instructions and settings could be read
    steering: bool,           // what the settings say now
    guidance: seq<Decision>,  // decisions sent at the review pause
    marked: bool,
    implement: Session,
    listed: bool,
    restoredEarly: bool,      // the pop of a pass that landed nothing
    review: Session,
    restored: bool,           // the pop of a pass that landed commits
    markers: Changes,         // what that pop leaves in the tree if it fails
    limit: seq<Decision>,     // decisions sent at the pass limit
    cancelled: bool)          // the run is cancelled while it summarises itself

  datatype Row = Row(pass: nat, resets: nat, tokens: int, ending: Option<Ending>, converged: Option<bool>)

  datatype Exit = Failed | ContinueAsNew(next: ReviewInput) | Ended(outcome: Outcome)

  /** What was in the stash when the operator was asked. */
  datatype Pause = Pause(round: Round, stash: seq<Changes>)

  /** What a pass left in the stash, what its agents and a failed pop left in the tree, and its pauses. */
  datatype Trace = Trace(left: seq<Changes>, leaves: Changes, pauses: seq<Pause>)

  predicate Begins(events: Events) {
    events.recorded && events.resolved
  }

  /** Steering is settled by a loop's first pass and carried from there. */
  function Steered(input: ReviewInput, events: Events): bool {
    match input.steering case None => events.steering case Some(on) => on
  }

  /** The findings are asked about, where anybody is. */
  ghost predicate AsksFirst(input: ReviewInput, events: Events) {
    Begins(events) && !Blank(input.payload) && Steered(input, events)
  }

  ghost predicate StopsFirst(input: ReviewInput, events: Events) {
    AsksFirst(input, events) && Chosen(LocalReview, events.guidance) == Some(Stop)
  }

  /** Nobody is asked, or the operator lets the pass go ahead, and the tree is checkpointed. */
  ghost predicate ImplementStarts(input: ReviewInput, events: Events) {
    && Begins(events) && !Blank(input.payload) && events.marked
    && (Steered(input, events) ==> Chosen(LocalReview, events.guidance) in {Some(Guide), Some(Skip)})
  }

  ghost predicate ImplementRan(input: ReviewInput, events: Events) {
    ImplementStarts(input, events) && events.implement.ok
  }

  /** Nothing was left to change, and the developer's changes are back. */
  ghost predicate FindsNothing(input: ReviewInput, events: Events, dirty: bool) {
    && ImplementRan(input, events) && events.listed && events.implement.commits == 0
    && (dirty ==> events.restoredEarly)
  }

  ghost predicate Lands(input: ReviewInput, events: Events) {
    ImplementRan(input, events) && events.listed && events.implement.commits > 0
  }

  ghost predicate ReviewStarts(input: ReviewInput, events: Events) {
    Begins(events) && (!Blank(input.payload) ==> Lands(input, events))
  }

  ghost predicate Reviews(input: ReviewInput, events: Events) {
    ReviewStarts(input, events) && events.review.ok
  }

  /** The pass budget is used up. */
  ghost predicate AtLimit(input: ReviewInput, events: Events) {
    Reviews(input, events) && input.pass + 1 >= MAX_REVIEW_PASSES
  }

  ghost predicate LimitAnswered(input: ReviewInput, events: Events, choice: Choice) {
    AtLimit(input, events) && Steered(input, events) && Chosen(PassLimit, events.limit) == Some(choice)
  }

  /** The reason for ending that the pass comes to, if it comes to one. */
  ghost function Reason(input: ReviewInput, events: Events, dirty: bool): Option<Ending> {
    if FindsNothing(input, events, dirty) then Some(Converged)
    else if StopsFirst(input, events) || LimitAnswered(input, events, Stop) then Some(OperatorStopped)
    else if LimitAnswered(input, events, Accept) then Some(OperatorAccepted)
    else if AtLimit(input, events) && !Steered(input, events) then Some(PassCap)
    else None
  }

  /** A run cancelled while it summarises itself fails.  A stopped loop summarises nothing: before the
      findings were implemented no agent had run, and at the limit no notice is sent. */
  predicate Completes(input: ReviewInput, events: Events, ending: Ending) {
    ending == OperatorStopped || !(input.summary && events.cancelled)
  }

  ghost predicate GoesOn(input: ReviewInput, events: Events) {
    Reviews(input, events) && (!AtLimit(input, events) || LimitAnswered(input, events, Continue))
  }

  /** This pass's own usage: the sessions that answered. */
  ghost function Spent(input: ReviewInput, events: Events): int {
    (if ImplementRan(input, events) then events.implement.tokens else 0)
    + (if Reviews(input, events) then events.review.tokens else 0)
  }

  /** The next pass: one more, or the first of a fresh budget the operator granted. */
  ghost function Next(input: ReviewInput, events: Events): ReviewInput {
    ReviewInput(
      events.review.output,
      if AtLimit(input, events) then input.resets + 1 else input.resets,
      if AtLimit(input, events) then 0 else input.pass + 1,
      input.tokensSoFar + Spent(input, events), input.summary, Some(Steered(input, events)))
  }

  ghost function ExitOf(input: ReviewInput, events: Events, dirty: bool): Exit {
    match Reason(input, events, dirty)
    case Some(ending) =>
      if Completes(input, events, ending) then Ended(EndedBy(ending, input.tokensSoFar + Spent(input, events)))
      else Failed
    case None => if GoesOn(input, events) then ContinueAsNew(Next(input, events)) else Failed
  }

  /** The row names the reason even where the run then fails. */
  ghost function RowOf(input: ReviewInput, events: Events, dirty: bool): Row {
    var reason := Reason(input, events, dirty);
    Row(input.pass, input.resets, Spent(input, events), reason,
        match reason case None => None case Some(ending) => Some(ending == Converged))
  }

  /** The entry the pass pushed is put back: it found nothing, or it reviewed what it landed and the pop succeeds. */
  ghost predicate Restores(input: ReviewInput, events: Events, dirty: bool) {
    FindsNothing(input, events, dirty) || (Reviews(input, events) && events.restored)
  }

  ghost function LeftBy(input: ReviewInput, events: Events, local: Changes): seq<Changes> {
    if local != CLEAN && ImplementStarts(input, events) && !Restores(input, events, true) then [local] else []
  }

  /** The pop of a pass that landed nothing was tried and failed. */
  ghost predicate EarlyPopFails(input: ReviewInput, events: Events, dirty: bool) {
    dirty && ImplementRan(input, events) && events.listed && events.implement.commits == 0 && !events.restoredEarly
  }

  /** The pass pushed an entry, and the pop after its review was tried and failed. */
  ghost predicate PopFails(input: ReviewInput, events: Events, dirty: bool) {
    dirty && !Blank(input.payload) && Reviews(input, events) && !events.restored
  }

  ghost function LeavesOf(input: ReviewInput, events: Events, dirty: bool): Changes {
    (if ImplementStarts(input, events) then events.implement.leaves else CLEAN)
    + (if ReviewStarts(input, events) then events.review.leaves else CLEAN)
    + (if EarlyPopFails(input, events, dirty) || PopFails(input, events, dirty) then events.markers else CLEAN)
  }

  ghost function PausesOf(input: ReviewInput, events: Events, local: Changes, stash: seq<Changes>): seq<Pause> {
    (if AsksFirst(input, events) then [Pause(LocalReview, stash)] else [])
    + (if AtLimit(input, events) && Steered(input, events)
       then [Pause(PassLimit, stash + LeftBy(input, events, local))] else [])
  }

  ghost function TraceOf(input: ReviewInput, events: Events, local: Changes, stash: seq<Changes>): Trace {
    Trace(LeftBy(input, events, local), LeavesOf(input, events, local != CLEAN), PausesOf(input, events, local, stash))
  }

  /** The tree afterwards: what was there and what the pass left in it, less an entry that stayed behind. */
  ghost function LocalAfter(input: ReviewInput, events: Events, local: Changes): Changes {
    (if LeftBy(input, events, local) != [] then CLEAN else local) + LeavesOf(input, events, local != CLEAN)
  }

  // ----------------------------------------------------------------- what that means

  predicate Ends(exit: Exit, ending: Ending) {
    exit.Ended? && exit.outcome.ending == ending
  }

  /** Each way a pass can end, exactly when it does, over what the world answers it. */
  lemma PassEndsExactly(input: ReviewInput, events: Events, dirty: bool)
    ensures var exit, told := ExitOf(input, events, dirty), !(input.summary && events.cancelled);
            var steered := if input.steering == None then events.steering else input.steering == Some(true);
            var first, last := Chosen(LocalReview, events.guidance), Chosen(PassLimit, events.limit);
            var begun := events.recorded && events.resolved;
            var implemented := !Blank(input.payload) && (steered ==> first == Some(Guide) || first == Some(Skip))
                               && events.marked && events.implement.ok && events.listed;
            var reviewed := events.review.ok && (Blank(input.payload) || (implemented && events.implement.commits > 0));
            var limit := begun && reviewed && input.pass + 1 >= 5;
      && (Ends(exit, Converged) <==>
            begun && implemented && events.implement.commits == 0 && (dirty ==> events.restoredEarly) && told)
      && (Ends(exit, OperatorStopped) <==>
            || (begun && !Blank(input.payload) && steered && first == Some(Stop))
            || (limit && steered && last == Some(Stop)))
      && (Ends(exit, OperatorAccepted) <==> limit && steered && last == Some(Accept) && told)
      && (Ends(exit, PassCap) <==> limit && !steered && told)
      && (exit.ContinueAsNew? <==>
            begun && reviewed && (input.pass + 1 < 5 || (steered && last == Some(Continue))))
      && (exit.Ended? ==> exit.outcome.converged == (exit.outcome.ending == Converged))
  {
  }

  /** What a pass that goes on hands to the next: what its own reviewer said, the next number or a fresh budget, and
      everything spent so far; the rest as it was. */
  lemma PassHandsOn(input: ReviewInput, events: Events, dirty: bool)
    requires ExitOf(input, events, dirty).ContinueAsNew?
    ensures var next, row := ExitOf(input, events, dirty).next, RowOf(input, events, dirty);
      && next.payload == events.review.output
      && (if input.pass + 1 < 5 then next.pass == input.pass + 1 && next.resets == input.resets
          else next.pass == 0 && next.resets == input.resets + 1)
      && next.tokensSoFar == input.tokensSoFar + row.tokens && next.summary == input.summary
      && next.steering == Some(if input.steering == None then events.steering else input.steering == Some(true))
      && row.tokens == events.review.tokens + (if Blank(input.payload) then 0 else events.implement.tokens)
  {
  }

  /** The row tells which pass it was and what its sessions cost, each one that answered, whatever came of the pass. */
  lemma PassCostsExactly(input: ReviewInput, events: Events, dirty: bool)
    ensures var row := RowOf(input, events, dirty);
            var steered := if input.steering == None then events.steering else input.steering == Some(true);
            var ran := !Blank(input.payload) && (steered ==> Chosen(LocalReview, events.guidance) in {Some(Guide), Some(Skip)})
                       && events.marked && events.implement.ok;
            var begun := events.recorded && events.resolved;
      && row.pass == input.pass && row.resets == input.resets
      && row.tokens == (if begun && ran then events.implement.tokens else 0)
                       + (if begun && events.review.ok
                             && (Blank(input.payload) || (ran && events.listed && events.implement.commits > 0))
                          then events.review.tokens else 0)
  {
  }

  /** A pass asks before it implements findings, and at the limit, where it asks at all. */
  lemma PassAsksExactly(input: ReviewInput, events: Events, local: Changes, stash: seq<Changes>)
    ensures var pauses := TraceOf(input, events, local, stash).pauses;
            var steered := if input.steering == None then events.steering else input.steering == Some(true);
            var implemented := (steered ==> Chosen(LocalReview, events.guidance) in {Some(Guide), Some(Skip)})
                               && events.marked && events.implement.ok && events.listed && events.implement.commits > 0;
      && (!steered ==> pauses == [])
      && (pauses != [] && pauses[0] == Pause(LocalReview, stash) <==>
            steered && events.recorded && events.resolved && !Blank(input.payload))
      && (forall i | 0 <= i < |pauses| :: pauses[i].round == LocalReview <==> i == 0 && !Blank(input.payload))
      && ((exists p :: p in pauses && p.round == PassLimit) <==>
            && steered && events.recorded && events.resolved && (Blank(input.payload) || implemented)
            && events.review.ok && input.pass + 1 >= 5)
  {
  }

  /** The row of a failed pass names an ending exactly when the pass came to one other than a stop and was
      cancelled while it summarised itself. */
  lemma FailedRowNamesEnding(input: ReviewInput, events: Events, dirty: bool, ending: Ending)
    ensures ExitOf(input, events, dirty).Failed? && RowOf(input, events, dirty).ending == Some(ending) <==>
            && Reason(input, events, dirty) == Some(ending) && ending != OperatorStopped
            && input.summary && events.cancelled
    ensures ExitOf(input, events, dirty).Ended? ==>
            RowOf(input, events, dirty).ending == Some(ExitOf(input, events, dirty).outcome.ending)
    ensures ExitOf(input, events, dirty).ContinueAsNew? ==> RowOf(input, events, dirty).ending == None
  {
  }

  /** That does happen: an unsteered pass at the limit whose run is cancelled while it summarises. */
  lemma CancelledRowNamesPassCap(input: ReviewInput, events: Events, dirty: bool)
    requires Begins(events) && Blank(input.payload) && events.review.ok
    requires input.pass + 1 == MAX_REVIEW_PASSES && input.steering == Some(false) && input.summary && events.cancelled
    ensures ExitOf(input, events, dirty).Failed?
    ensures RowOf(input, events, dirty).ending == Some(PassCap) && RowOf(input, events, dirty).converged == Some(false)
  {
  }

  /** Nothing is lost: what is not in the tree any more is in the entry left behind, and that holds only the
      pass's own changes. */
  lemma PassLosesNothing(input: ReviewInput, events: Events, local: Changes)
    ensures var left := LeftBy(input, events, local);
      && LocalAfter(input, events, local) + (if left == [] then CLEAN else left[0])
         == local + LeavesOf(input, events, local != CLEAN)
      && (left != [] ==> left == [local] && local != CLEAN)
  {
  }

  /** A pass that does not fail leaves its entry behind exactly when it pushed one and the pop after its review
      was tried and failed. */
  lemma LeftExactly(input: ReviewInput, events: Events, local: Changes)
    ensures ExitOf(input, events, local != CLEAN).Failed?
            || (LeftBy(input, events, local) != [] <==> PopFails(input, events, local != CLEAN))
    ensures LeftBy(input, events, local) == [] ==> !PopFails(input, events, local != CLEAN)
    ensures PopFails(input, events, local != CLEAN) ==>
              && local != CLEAN && !Blank(input.payload) && !events.restored
              && events.marked && events.implement.ok && events.implement.commits > 0 && events.review.ok
    ensures !ExitOf(input, events, local != CLEAN).Failed? && LeftBy(input, events, local) == [] ==>
              || local == CLEAN || Blank(input.payload) || events.restored
              || Chosen(LocalReview, events.guidance) == Some(Stop) || Ends(ExitOf(input, events, true), Converged)
  {
  }

  // --------------------------------------------------------------------- the pass itself

  datatype Step = StepFailed | StepStopped | StepConverged | StepDone(stashed: bool)

  /** Asks the operator, where steering is on, and says whether the pass goes ahead. */
  method AskBeforeImplementing(git: Worktree, input: ReviewInput, events: Events)
    returns (step: Step, pauses: seq<Pause>)
    requires Begins(events) && !Blank(input.payload)
    ensures step == if !Steered(input, events) || Chosen(LocalReview, events.guidance) in {Some(Guide), Some(Skip)}
                    then StepDone(false)
                    else if StopsFirst(input, events) then StepStopped else StepFailed
    ensures pauses == if AsksFirst(input, events) then [Pause(LocalReview, git.stash)] else []
  {
    if !Steered(input, events) { return StepDone(false), []; }
    pauses := [Pause(LocalReview, git.stash)];
    var decision := Ask(LocalReview, events.guidance);
    match decision {
      case None => step := StepFailed;
      case Some(d) => step := if d.choice in {Guide, Skip} then StepDone(false) else StepStopped;
    }
  }

  /** What is in the stash once the implement step is over. */
  ghost function HeldAfterImplement(input: ReviewInput, events: Events, local: Changes): seq<Changes> {
    if local != CLEAN && ImplementStarts(input, events) && !FindsNothing(input, events, true) then [local] else []
  }

  /** Sets local changes aside, runs the implement agent, and sees what landed. */
  method RunImplement(git: Worktree, events: Events) returns (step: Step, tokens: int, left: seq<Changes>, leaves: Changes)
    modifies git
    ensures var dirty, ran := old(git.local) != CLEAN, events.marked && events.implement.ok;
      && (step == StepConverged <==>
            ran && events.listed && events.implement.commits == 0 && (dirty ==> events.restoredEarly))
      && (step.StepDone? <==> ran && events.listed && events.implement.commits > 0)
      && (step.StepDone? ==> step.stashed == dirty) && step != StepStopped
      && tokens == (if ran then events.implement.tokens else 0)
      && left == (if dirty && events.marked && step != StepConverged then [old(git.local)] else [])
      && leaves == (if events.marked then events.implement.leaves else CLEAN)
                   + (if dirty && ran && events.listed && events.implement.commits == 0 && !events.restoredEarly
                      then events.markers else CLEAN)
    ensures git.stash == old(git.stash) + left
    ensures git.local == (if left != [] then CLEAN else old(git.local)) + leaves
  {
    step, tokens, left, leaves := StepFailed, 0, [], CLEAN;
    var cp := git.MarkHeadAndStash(events.marked);
    if cp == None { return; }
    if cp.value.stashed { left := [git.stash[|git.stash| - 1]]; }
    git.RunAgent(events.implement);
    leaves := events.implement.leaves;
    if !events.implement.ok { return; }
    tokens := events.implement.tokens;
    var advance := git.EnsureHeadAdvanced(cp.value, events.listed, events.restoredEarly, events.markers);
    match advance {
      case AdvanceUnknown =>
        if cp.value.stashed && events.listed { leaves := leaves + events.markers; }
      case Advanced => step := StepDone(cp.value.stashed);
      case NoAdvance => step, left := StepConverged, [];
    }
  }

  /** Implements the previous pass's findings. */
  method ImplementFindings(git: Worktree, input: ReviewInput, events: Events)
    returns (step: Step, tokens: int, trace: Trace)
    requires Begins(events) && !Blank(input.payload)
    modifies git
    ensures trace.left == HeldAfterImplement(input, events, old(git.local))
    ensures trace.leaves == (if ImplementStarts(input, events) then events.implement.leaves else CLEAN)
                            + (if EarlyPopFails(input, events, old(git.local) != CLEAN) then events.markers else CLEAN)
    ensures trace.pauses == if AsksFirst(input, events) then [Pause(LocalReview, old(git.stash))] else []
    ensures git.stash == old(git.stash) + trace.left
    ensures git.local == (if trace.left != [] then CLEAN else old(git.local)) + trace.leaves
    ensures step == StepStopped <==> StopsFirst(input, events)
    ensures step == StepConverged <==> FindsNothing(input, events, old(git.local) != CLEAN)
    ensures step.StepDone? <==> Lands(input, events)
    ensures step.StepDone? ==> step.stashed == (trace.left != [])
    ensures tokens == if ImplementRan(input, events) then events.implement.tokens else 0
  {
    var pauses;
    step, pauses := AskBeforeImplementing(git, input, events);
    if step != StepDone(false) { return step, 0, Trace([], CLEAN, pauses); }
    var left, leaves;
    step, tokens, left, leaves := RunImplement(git, events);
    trace := Trace(left, leaves, pauses);
  }

  /** What the pass limit decides. */
  datatype Verdict = Renewed | Over(ending: Ending) | Unanswered

  method AskAtLimit(git: Worktree, input: ReviewInput, events: Events)
    returns (verdict: Verdict, pauses: seq<Pause>)
    ensures pauses == if Steered(input, events) then [Pause(PassLimit, git.stash)] else []
    ensures verdict == if !Steered(input, events) then Over(PassCap)
                       else match Chosen(PassLimit, events.limit)
                            case Some(Continue) => Renewed
                            case Some(Accept) => Over(OperatorAccepted)
                            case Some(Stop) => Over(OperatorStopped)
                            case _ => Unanswered
  {
    if !Steered(input, events) { return Over(PassCap), []; }
    pauses := [Pause(PassLimit, git.stash)];
    var decision := Ask(PassLimit, events.limit);
    match decision {
      case None => verdict := Unanswered;
      case Some(d) =>
        verdict := if d.choice == Continue then Renewed
                   else if d.choice == Accept then Over(OperatorAccepted) else Over(OperatorStopped);
    }
  }

  /** Ends the pass after its review: another pass, a renewed budget, or the end of the loop. */
  method EndPass(git: Worktree, input: ReviewInput, events: Events, row: Row)
    returns (exit: Exit, row': Row, pauses: seq<Pause>)
    requires Reviews(input, events)
    requires row == Row(input.pass, input.resets, Spent(input, events), None, None)
    ensures forall dirty :: exit == ExitOf(input, events, dirty) && row' == RowOf(input, events, dirty)
    ensures pauses == if AtLimit(input, events) && Steered(input, events) then [Pause(PassLimit, git.stash)] else []
  {
    row', pauses := row, [];
    var total := input.tokensSoFar + row.tokens;
    var next := input.(payload := events.review.output, tokensSoFar := total, steering := Some(Steered(input, events)));
    if input.pass + 1 < MAX_REVIEW_PASSES {
      exit := ContinueAsNew(next.(pass := input.pass + 1));
      return;
    }
    var verdict;
    verdict, pauses := AskAtLimit(git, input, events);
    match verdict {
      case Unanswered =>
        exit := Failed;
      case Renewed =>
        exit := ContinueAsNew(next.(pass := 0, resets := input.resets + 1));
      case Over(ending) =>
        row' := row.(ending := Some(ending), converged := Some(false));
        exit := if Completes(input, events, ending) then Ended(EndedBy(ending, total)) else Failed;
    }
  }

  /** Reviews the branch and then puts back what this pass set aside, as far as that succeeds. */
  method ReviewAndRestore(git: Worktree, stashed: bool, events: Events) returns (kept: bool, leaves: Changes)
    requires stashed ==> git.stash != []
    modifies git
    ensures kept <==> stashed && (!events.review.ok || !events.restored)
    ensures leaves == events.review.leaves + (if kept && events.review.ok then events.markers else CLEAN)
    ensures kept || !stashed ==> git.stash == old(git.stash) && git.local == old(git.local) + leaves
    ensures stashed && !kept ==>
              && git.stash == old(git.stash)[..|old(git.stash)| - 1]
              && git.local == old(git.local) + leaves + old(git.stash)[|old(git.stash)| - 1]
  {
    git.RunAgent(events.review);
    leaves := events.review.leaves;
    if !events.review.ok { return stashed, leaves; }
    if !stashed { return false, leaves; }
    var popped := git.StashPop(events.restored, events.markers);
    if !popped { leaves := leaves + events.markers; }
    kept := !popped;
  }

  /** What the second half of a pass adds to what the first left behind. */
  lemma ReviewLeaves(input: ReviewInput, events: Events, local: Changes, kept: bool)
    requires ReviewStarts(input, events)
    requires kept <==> HeldAfterImplement(input, events, local) != [] && (!events.review.ok || !events.restored)
    ensures LeftBy(input, events, local) == if kept then HeldAfterImplement(input, events, local) else []
    ensures LeavesOf(input, events, local != CLEAN)
         == (if Blank(input.payload) then CLEAN else events.implement.leaves)
            + (events.review.leaves + (if kept && events.review.ok then events.markers else CLEAN))
    ensures LocalAfter(input, events, local)
         == (if kept then CLEAN else local) + LeavesOf(input, events, local != CLEAN)
  {
  }

  /** The review and the restore, with what they leave behind. */
  method ReviewTree(git: Worktree, input: ReviewInput, events: Events, trace: Trace,
                    ghost local: Changes, ghost stash: seq<Changes>)
    returns (trace': Trace)
    requires ReviewStarts(input, events)
    requires trace.left == HeldAfterImplement(input, events, local)
    requires trace.leaves == if Blank(input.payload) then CLEAN else events.implement.leaves
    requires git.stash == stash + trace.left
    requires git.local == (if trace.left != [] then CLEAN else local) + trace.leaves
    modifies git
    ensures trace' == Trace(LeftBy(input, events, local), LeavesOf(input, events, local != CLEAN), trace.pauses)
    ensures git.local == LocalAfter(input, events, local) && git.stash == stash + LeftBy(input, events, local)
  {
    var kept, leaves := ReviewAndRestore(git, trace.left != [], events);
    trace' := trace.(leaves := trace.leaves + leaves, left := if kept then trace.left else []);
    ReviewLeaves(input, events, local, kept);
  }

  /** The second half of a pass: the review, the restore, and what comes next. */
  method FinishPass(git: Worktree, input: ReviewInput, events: Events, row: Row, trace: Trace,
                    ghost local: Changes, ghost stash: seq<Changes>)
    returns (exit: Exit, row': Row, trace': Trace)
    requires ReviewStarts(input, events)
    requires row == Row(input.pass, input.resets, if Blank(input.payload) then 0 else events.implement.tokens, None, None)
    requires trace.left == HeldAfterImplement(input, events, local)
    requires trace.leaves == if Blank(input.payload) then CLEAN else events.implement.leaves
    requires trace.pauses == if AsksFirst(input, events) then [Pause(LocalReview, stash)] else []
    requires git.stash == stash + trace.left
    requires git.local == (if trace.left != [] then CLEAN else local) + trace.leaves
    modifies git
    ensures exit == ExitOf(input, events, local != CLEAN) && row' == RowOf(input, events, local != CLEAN)
    ensures trace' == TraceOf(input, events, local, stash)
    ensures git.local == LocalAfter(input, events, local) && git.stash == stash + LeftBy(input, events, local)
  {
    exit, row' := Failed, row;
    trace' := ReviewTree(git, input, events, trace, local, stash);
    if !events.review.ok { return; }
    row' := row.(tokens := row.tokens + events.review.tokens);
    var pauses;
    exit, row', pauses := EndPass(git, input, events, row');
    trace' := trace'.(pauses := trace.pauses + pauses);
  }

  /** A pass whose implement step landed nothing leaves behind what that step did. */
  lemma NoReviewLeaves(input: ReviewInput, events: Events, local: Changes, stash: seq<Changes>)
    requires Begins(events) && !Blank(input.payload) && !Lands(input, events)
    ensures LeftBy(input, events, local) == HeldAfterImplement(input, events, local)
    ensures LeavesOf(input, events, local != CLEAN)
         == (if ImplementStarts(input, events) then events.implement.leaves else CLEAN)
            + (if EarlyPopFails(input, events, local != CLEAN) then events.markers else CLEAN)
    ensures PausesOf(input, events, local, stash) == if AsksFirst(input, events) then [Pause(LocalReview, stash)] else []
  {
  }

  /** Settles a pass whose implement step landed nothing. */
  method SettleEarly(input: ReviewInput, events: Events, step: Step, tokens: int, ghost dirty: bool)
    returns (exit: Exit, row: Row)
    requires Begins(events) && !Blank(input.payload) && !Lands(input, events) && !step.StepDone?
    requires step == StepStopped <==> StopsFirst(input, events)
    requires step == StepConverged <==> FindsNothing(input, events, dirty)
    requires tokens == if ImplementRan(input, events) then events.implement.tokens else 0
    ensures exit == ExitOf(input, events, dirty) && row == RowOf(input, events, dirty)
  {
    exit, row := Failed, Row(input.pass, input.resets, tokens, None, None);
    var total := input.tokensSoFar + tokens;
    match step {
      case StepStopped =>
        row := row.(ending := Some(OperatorStopped), converged := Some(false));
        exit := Ended(EndedBy(OperatorStopped, total));
      case StepConverged =>
        row := row.(ending := Some(Converged), converged := Some(true));
        if Completes(input, events, Converged) { exit := Ended(EndedBy(Converged, total)); }
      case _ =>
    }
  }

  /** The pass once it is recorded and has findings to implement. */
  method ImplementAndReview(git: Worktree, input: ReviewInput, events: Events)
    returns (exit: Exit, row: Row, trace: Trace)
    requires Begins(events) && !Blank(input.payload)
    modifies git
    ensures exit == ExitOf(input, events, old(git.local) != CLEAN)
    ensures row == RowOf(input, events, old(git.local) != CLEAN)
    ensures trace == TraceOf(input, events, old(git.local), old(git.stash))
    ensures git.local == LocalAfter(input, events, old(git.local))
    ensures git.stash == old(git.stash) + LeftBy(input, events, old(git.local))
  {
    var step, tokens;
    step, tokens, trace := ImplementFindings(git, input, events);
    if step.StepDone? {
      row := Row(input.pass, input.resets, tokens, None, None);
      exit, row, trace := FinishPass(git, input, events, row, trace, old(git.local), old(git.stash));
    } else {
      NoReviewLeaves(input, events, old(git.local), old(git.stash));
      exit, row := SettleEarly(input, events, step, tokens, old(git.local) != CLEAN);
    }
  }

  /** One pass of the loop. */
  method ReviewPass(git: Worktree, input: ReviewInput, events: Events)
    returns (exit: Exit, row: Row, trace: Trace)
    modifies git
    ensures exit == ExitOf(input, events, old(git.local) != CLEAN)
    ensures row == RowOf(input, events, old(git.local) != CLEAN)
    ensures trace == TraceOf(input, events, old(git.local), old(git.stash))
    ensures git.local == LocalAfter(input, events, old(git.local))
    ensures git.stash == old(git.stash) + LeftBy(input, events, old(git.local))
  {
    row, trace := Row(input.pass, input.resets, 0, None, None), Trace([], CLEAN, []);
    if !events.recorded || !events.resolved {
      exit := Failed;
    } else if Blank(input.payload) {
      exit, row, trace := FinishPass(git, input, events, row, trace, git.local, git.stash);
    } else {
      exit, row, trace := ImplementAndReview(git, input, events);
    }
  }
}
