/** Starting work from the hub: one request identity, one execution. */
module Launching {
  /*  Calls of StartWork run side by side and may be cut short anywhere.  Their steps are the
      reads and writes they make of the launch store and the orchestrator; each is one event of
      a run below, and so is everything the outside decides: what a place reference resolves to,
      whether a reply is lost, when an execution closes.  */

  import opened Options
  import opened Text
  import opened Ordering
  import L = Locations

  datatype Kind = Develop | Review | Unoffered(name: string)

  datatype StartRequest = StartRequest(
    requestId: string, kind: Kind, placeId: string, prompt: string, worktree: bool, startedBy: string)

  const MAX_REQUEST_ID_LENGTH := 200
  const MAX_PROMPT_LENGTH := 10000

  predicate ValidRequestId(id: string) {
    id != "" && |id| <= MAX_REQUEST_ID_LENGTH && !Padded(id) && forall i | 0 <= i < |id| :: !IsControl(id[i])
  }

  /** What is checked before anything is resolved, started or recorded. */
  predicate ValidRequest(request: StartRequest) {
    && ValidRequestId(request.requestId)
    && (match request.kind
        case Develop => !Blank(request.prompt)
        case Review => request.prompt == "" && !request.worktree
        case Unoffered(_) => false)
    && |request.prompt| <= MAX_PROMPT_LENGTH
    && request.placeId != ""
  }

  /** The digest a request identity is turned into, under a namespace of its own. */
  type Digest = (Kind, string) -> string

  function Prefix(kind: Kind): string {
    match kind case Develop => "develop-" case Review => "review-" case Unoffered(_) => ""
  }

  /** The workflow a request maps to. */
  function ForRequest(digest: Digest, kind: Kind, requestId: string): string {
    Prefix(kind) + digest(kind, requestId)
  }

  /** Asking for different work names different work, whatever the digest. */
  lemma KindsDiffer(digest: Digest, a: Kind, b: Kind, r: string, q: string)
    requires a in {Develop, Review} && b in {Develop, Review}
    requires ForRequest(digest, a, r) == ForRequest(digest, b, q)
    ensures a == b
  {
    assert ForRequest(digest, a, r)[0] == Prefix(a)[0] && ForRequest(digest, b, q)[0] == Prefix(b)[0];
  }

  datatype StartSpec = StartSpec(
    workflowId: string, kind: Kind, directory: string, prompt: string, worktree: bool, startedBy: string)

  datatype Launch = Launch(
    requestId: string, workflowId: string, kind: Kind, directory: string, prompt: string, startedAt: nat, startedBy: string)

  datatype StartedWork = StartedWork(
    runId: string, kind: Kind, location: L.Location, prompt: string, startedAt: nat, startedBy: string)

  function StartedFrom(launch: Launch, place: L.Location): StartedWork {
    StartedWork(launch.workflowId, launch.kind, place, launch.prompt, launch.startedAt, launch.startedBy)
  }

  /** The place of a recorded launch, derived from the directory recorded. */
  function PlaceOf(launch: Launch): L.Location {
    L.Directory(launch.directory, None)
  }

  function SpecOf(digest: Digest, request: StartRequest, directory: string): StartSpec {
    StartSpec(ForRequest(digest, request.kind, request.requestId), request.kind, directory,
              request.prompt, request.worktree, request.startedBy)
  }

  function NewLaunch(digest: Digest, request: StartRequest, directory: string, now: nat): Launch {
    Launch(request.requestId, ForRequest(digest, request.kind, request.requestId), request.kind, directory,
           request.prompt, now, request.startedBy)
  }

  // --------------------------------------------------------------------------- steps

  /** How far a call has got. */
  datatype Phase =
    | Asked
    | Cleared                       // the store knows no launch of this request
    | Ready(place: L.Location)      // resolved to a working tree that nothing runs in
    | Submitted(place: L.Location)
    | Answered(work: StartedWork)
    | Refused
    | Crashed

  datatype Call = Call(request: StartRequest, phase: Phase)

  /** An execution that began, and the request it was submitted for. */
  datatype Run = Run(spec: StartSpec, requestId: string)

  datatype State = State(
    calls: seq<Call>, launches: map<string, Launch>, runs: seq<Run>, running: set<string>, finished: seq<string>, now: nat)

  const NOTHING := State([], map[], [], {}, [], 0)

  datatype Event =
    | Arrive(request: StartRequest)
    | Look(i: nat, ok: bool)
    | Resolve(i: nat, place: Option<L.Location>)
    | Submit(i: nat, took: bool, ok: bool)  // a lost reply may leave the work submitted
    | Record(i: nat, took: bool, ok: bool)  // and the launch recorded
    | Crash(i: nat)
    | Finish(workflowId: string)
    | Tick

  predicate Is(s: State, i: nat, phase: Phase) {
    i < |s.calls| && s.calls[i].phase == phase
  }

  function Moved(s: State, i: nat, phase: Phase): State
    requires i < |s.calls|
  {
    s.(calls := s.calls[i := s.calls[i].(phase := phase)])
  }

  /** The orchestrator: an execution running under this identity is the work. */
  function Starting(s: State, spec: StartSpec, requestId: string): State {
    if spec.workflowId in s.running then s
    else s.(runs := s.runs + [Run(spec, requestId)], running := s.running + {spec.workflowId})
  }

  /** The launch store: the first record of a request identity is kept. */
  function Recording(s: State, launch: Launch): State {
    if launch.requestId in s.launches then s
    else s.(launches := s.launches[launch.requestId := launch])
  }

  function Looking(s: State, i: nat, ok: bool): State
    requires i < |s.calls|
  {
    var r := s.calls[i].request.requestId;
    Moved(s, i, if !ok then Refused
                else if r in s.launches then Answered(StartedFrom(s.launches[r], PlaceOf(s.launches[r])))
                else Cleared)
  }

  function Resolving(s: State, i: nat, place: Option<L.Location>): State
    requires i < |s.calls|
  {
    Moved(s, i, if place.Some? && place.value.Directory? then Ready(place.value) else Refused)
  }

  function Submitting(digest: Digest, s: State, i: nat, took: bool, ok: bool): State
    requires i < |s.calls| && s.calls[i].phase.Ready? && s.calls[i].phase.place.Directory?
  {
    var request, place := s.calls[i].request, s.calls[i].phase.place;
    var s' := if took || ok then Starting(s, SpecOf(digest, request, place.path), request.requestId) else s;
    Moved(s', i, if ok then Submitted(place) else Refused)
  }

  function Storing(digest: Digest, s: State, i: nat, took: bool, ok: bool): State
    requires i < |s.calls| && s.calls[i].phase.Submitted? && s.calls[i].phase.place.Directory?
  {
    var request, place := s.calls[i].request, s.calls[i].phase.place;
    var launch := NewLaunch(digest, request, place.path, s.now);
    var s' := if took || ok then Recording(s, launch) else s;
    Moved(s', i, if ok then Answered(StartedFrom(s'.launches[request.requestId], place)) else Refused)
  }

  predicate AtPlace(phase: Phase) {
    phase.Ready? || phase.Submitted? ==> phase.place.Directory?
  }

  ghost predicate WellPlaced(s: State) {
    forall c | c in s.calls :: AtPlace(c.phase)
  }

  /** One event; an event whose turn it is not changes nothing. */
  function Apply(digest: Digest, s: State, e: Event): (s': State)
    requires WellPlaced(s)
    ensures WellPlaced(s')
  {
    match e
    case Arrive(request) =>
      s.(calls := s.calls + [Call(request, if ValidRequest(request) then Asked else Refused)])
    case Look(i, ok) => if Is(s, i, Asked) then Looking(s, i, ok) else s
    case Resolve(i, place) => if Is(s, i, Cleared) then Resolving(s, i, place) else s
    case Submit(i, took, ok) =>
      if i < |s.calls| && s.calls[i].phase.Ready? then Submitting(digest, s, i, took, ok) else s
    case Record(i, took, ok) =>
      if i < |s.calls| && s.calls[i].phase.Submitted? then Storing(digest, s, i, took, ok) else s
    case Crash(i) =>
      if i < |s.calls| && !s.calls[i].phase.Answered? && !s.calls[i].phase.Refused? then Moved(s, i, Crashed) else s
    case Finish(w) =>
      if w in s.running then s.(running := s.running - {w}, finished := s.finished + [w]) else s
    case Tick => s.(now := s.now + 1)
  }

  function After(digest: Digest, s: State, events: seq<Event>): (s': State)
    requires WellPlaced(s)
    ensures WellPlaced(s')
  {
    if events == [] then s
    else Apply(digest, After(digest, s, events[..|events| - 1]), events[|events| - 1])
  }

  // ---------------------------------------------------------------------- invariants

  /** The workflow identities of the executions that began, in order. */
  function Identities(runs: seq<Run>): seq<string> {
    seq(|runs|, i requires 0 <= i < |runs| => runs[i].spec.workflowId)
  }

  predicate WasSubmitted(s: State, workflowId: string) {
    workflowId in Identities(s.runs)
  }

  /** Some call under this request identity asked for just this work: its kind, prompt, principal, and worktree. */
  ghost predicate AskedToRun(s: State, run: Run) {
    exists i :: 0 <= i < |s.calls| && Asks(s.calls[i].request, run.requestId, run.spec.kind, run.spec.prompt, run.spec.startedBy)
                && s.calls[i].request.worktree == run.spec.worktree
  }

  predicate Asks(request: StartRequest, requestId: string, kind: Kind, prompt: string, startedBy: string) {
    request.requestId == requestId && request.kind == kind && request.prompt == prompt && request.startedBy == startedBy
  }

  ghost predicate AskedToRecord(s: State, launch: Launch) {
    exists i :: 0 <= i < |s.calls| && Asks(s.calls[i].request, launch.requestId, launch.kind, launch.prompt, launch.startedBy)
  }

  /** What is run is work of a kind the hub offers, told as that kind is told, under a request identity of the
      required form. */
  predicate Sound(run: Run) {
    var r, spec := run.requestId, run.spec;
    && (spec.kind == Develop || spec.kind == Review) && |spec.prompt| <= 10000
    && (spec.kind == Develop ==> !Blank(spec.prompt))
    && (spec.kind == Review ==> spec.prompt == "" && !spec.worktree)
    && 0 < |r| <= 200 && !IsSpace(r[0]) && !IsSpace(r[|r| - 1]) && forall c | c in r :: !IsControl(c)
  }

  /** Every execution was asked for, under the identity its request maps to. */
  ghost predicate RunRight(digest: Digest, s: State, run: Run) {
    && Sound(run)
    && run.spec.workflowId == ForRequest(digest, run.spec.kind, run.requestId)
    && AskedToRun(s, run)
  }

  /** Nothing is recorded as started that was not. */
  ghost predicate LaunchRight(digest: Digest, s: State, r: string)
    requires r in s.launches
  {
    var launch := s.launches[r];
    && launch.requestId == r && launch.kind in {Develop, Review}
    && launch.workflowId == ForRequest(digest, launch.kind, r)
    && AskedToRecord(s, launch)
    && WasSubmitted(s, launch.workflowId)
  }

  ghost predicate CallRight(digest: Digest, s: State, c: Call) {
    match c.phase
    case Submitted(_) =>
      ValidRequest(c.request) && WasSubmitted(s, ForRequest(digest, c.request.kind, c.request.requestId))
    case Answered(work) =>
      c.request.requestId in s.launches && work == StartedFrom(s.launches[c.request.requestId], work.location)
    case Refused => true
    case _ => c.phase == Crashed || ValidRequest(c.request)
  }

  /** An execution is running exactly when it began once more than it closed. */
  ghost predicate CountRight(s: State, w: string) {
    multiset(Identities(s.runs))[w] == multiset(s.finished)[w] + (if w in s.running then 1 else 0)
  }

  ghost predicate Inv(digest: Digest, s: State) {
    && WellPlaced(s)
    && (forall k | 0 <= k < |s.runs| :: RunRight(digest, s, s.runs[k]))
    && (forall r | r in s.launches :: LaunchRight(digest, s, r))
    && (forall i | 0 <= i < |s.calls| :: CallRight(digest, s, s.calls[i]))
    && (forall w :: CountRight(s, w))
  }

  /** What never changes: requests, launches, and the executions that began. */
  ghost predicate Later(s: State, s': State) {
    && |s.calls| <= |s'.calls| && (forall i | 0 <= i < |s.calls| :: s'.calls[i].request == s.calls[i].request)
    && (forall r | r in s.launches :: r in s'.launches && s'.launches[r] == s.launches[r])
    && s.runs <= s'.runs
    && (forall i | 0 <= i < |s.calls| && s.calls[i].phase.Answered? :: s'.calls[i] == s.calls[i])
  }

  lemma SubmittedStays(s: State, s': State, w: string)
    requires s.runs <= s'.runs && WasSubmitted(s, w)
    ensures WasSubmitted(s', w)
  {
    var k :| 0 <= k < |s.runs| && Identities(s.runs)[k] == w;
    assert Identities(s'.runs)[k] == w;
  }

  lemma LaterKeeps(digest: Digest, s: State, s': State)
    requires Inv(digest, s) && Later(s, s')
    ensures forall k | 0 <= k < |s.runs| :: RunRight(digest, s', s'.runs[k])
    ensures forall r | r in s.launches :: LaunchRight(digest, s', r)
    ensures forall i | 0 <= i < |s.calls| && s'.calls[i] == s.calls[i] :: CallRight(digest, s', s'.calls[i])
  {
    forall k | 0 <= k < |s.runs| ensures RunRight(digest, s', s'.runs[k]) {
      assert RunRight(digest, s, s.runs[k]);
    }
    forall r | r in s.launches ensures LaunchRight(digest, s', r) {
      assert LaunchRight(digest, s, r);
      SubmittedStays(s, s', s.launches[r].workflowId);
    }
    forall i | 0 <= i < |s.calls| && s'.calls[i] == s.calls[i] ensures CallRight(digest, s', s'.calls[i]) {
      assert CallRight(digest, s, s.calls[i]);
      var w := ForRequest(digest, s.calls[i].request.kind, s.calls[i].request.requestId);
      if s.calls[i].phase.Submitted? { SubmittedStays(s, s', w); }
    }
  }

  lemma MovedLater(s: State, i: nat, phase: Phase)
    requires i < |s.calls| && !s.calls[i].phase.Answered?
    ensures Later(s, Moved(s, i, phase))
  {
  }

  lemma MovedInv(digest: Digest, s: State, i: nat, phase: Phase)
    requires Inv(digest, s) && i < |s.calls| && !s.calls[i].phase.Answered?
    requires AtPlace(phase) && CallRight(digest, s, Call(s.calls[i].request, phase))
    ensures Inv(digest, Moved(s, i, phase))
  {
    var s' := Moved(s, i, phase);
    MovedLater(s, i, phase);
    LaterKeeps(digest, s, s');
    forall j | 0 <= j < |s'.calls| ensures CallRight(digest, s', s'.calls[j]) {
    }
    forall w ensures CountRight(s', w) {
      assert CountRight(s, w);
    }
  }

  lemma IdentitiesGrow(runs: seq<Run>, run: Run)
    ensures Identities(runs + [run]) == Identities(runs) + [run.spec.workflowId]
  {
  }

  lemma AsksSoundly(digest: Digest, s: State, i: nat, directory: string)
    requires i < |s.calls| && ValidRequest(s.calls[i].request)
    ensures var request := s.calls[i].request;
            RunRight(digest, s, Run(SpecOf(digest, request, directory), request.requestId))
  {
    var request := s.calls[i].request;
    assert Asks(request, request.requestId, request.kind, request.prompt, request.startedBy);
  }

  lemma StartingInv(digest: Digest, s: State, i: nat, directory: string)
    requires Inv(digest, s) && i < |s.calls| && ValidRequest(s.calls[i].request)
    ensures var request := s.calls[i].request;
            var s' := Starting(s, SpecOf(digest, request, directory), request.requestId);
            Inv(digest, s') && Later(s, s') && s'.calls == s.calls
            && WasSubmitted(s', ForRequest(digest, request.kind, request.requestId))
  {
    var request := s.calls[i].request;
    var spec := SpecOf(digest, request, directory);
    var s' := Starting(s, spec, request.requestId);
    LaterKeeps(digest, s, s');
    assert CountRight(s, spec.workflowId);
    AsksSoundly(digest, s', i, directory);
    if spec.workflowId !in s.running {
      IdentitiesGrow(s.runs, Run(spec, request.requestId));
      CountsOneMore(s, Run(spec, request.requestId));
      forall k | 0 <= k < |s'.runs| ensures RunRight(digest, s', s'.runs[k]) {}
    }
  }

  lemma CountsOneMore(s: State, run: Run)
    requires (forall w :: CountRight(s, w)) && run.spec.workflowId !in s.running
    ensures forall w :: CountRight(s.(runs := s.runs + [run], running := s.running + {run.spec.workflowId}), w)
  {
    IdentitiesGrow(s.runs, run);
    forall w ensures CountRight(s.(runs := s.runs + [run], running := s.running + {run.spec.workflowId}), w) {
      assert CountRight(s, w);
    }
  }

  lemma RecordingInv(digest: Digest, s: State, i: nat, directory: string)
    requires Inv(digest, s) && i < |s.calls| && s.calls[i].phase.Submitted?
    ensures var request := s.calls[i].request;
            var s' := Recording(s, NewLaunch(digest, request, directory, s.now));
            Inv(digest, s') && Later(s, s') && s'.calls == s.calls && request.requestId in s'.launches
  {
    var request := s.calls[i].request;
    var s' := Recording(s, NewLaunch(digest, request, directory, s.now));
    assert CallRight(digest, s, s.calls[i]);
    assert Asks(s.calls[i].request, request.requestId, request.kind, request.prompt, request.startedBy);
    if request.requestId !in s.launches {
      assert LaunchRight(digest, s', request.requestId);
    }
    LaterKeeps(digest, s, s');
    forall w ensures CountRight(s', w) {
      assert CountRight(s, w);
    }
  }

  lemma ApplyInv(digest: Digest, s: State, e: Event)
    requires Inv(digest, s)
    ensures Inv(digest, Apply(digest, s, e)) && Later(s, Apply(digest, s, e))
  {
    match e
    case Arrive(request) => ArriveInv(digest, s, request);
    case Look(i, ok) => LookInv(digest, s, i, ok);
    case Resolve(i, place) => ResolveInv(digest, s, i, place);
    case Submit(i, took, ok) => SubmitInv(digest, s, i, took, ok);
    case Record(i, took, ok) => RecordInv(digest, s, i, took, ok);
    case Crash(i) => CrashInv(digest, s, i);
    case Finish(w) => FinishInv(digest, s, w);
    case Tick => TickInv(digest, s);
  }

  lemma TickInv(digest: Digest, s: State)
    requires Inv(digest, s)
    ensures var s' := Apply(digest, s, Tick); Inv(digest, s') && Later(s, s')
  {
    var s' := s.(now := s.now + 1);
    ClockInv(digest, s, s.now + 1);
    assert Apply(digest, s, Tick) == s';
  }

  lemma ClockInv(digest: Digest, s: State, now: nat)
    requires Inv(digest, s)
    ensures Inv(digest, s.(now := now)) && Later(s, s.(now := now))
  {
    var s' := s.(now := now);
    assert s'.calls == s.calls && s'.runs == s.runs && s'.launches == s.launches;
    LaterKeeps(digest, s, s');
    forall w ensures CountRight(s', w) { assert CountRight(s, w); }
  }

  lemma ResolveInv(digest: Digest, s: State, i: nat, place: Option<L.Location>)
    requires Inv(digest, s)
    ensures var s' := Apply(digest, s, Resolve(i, place)); Inv(digest, s') && Later(s, s')
  {
    if Is(s, i, Cleared) {
      assert CallRight(digest, s, s.calls[i]);
      var phase := if place.Some? && place.value.Directory? then Ready(place.value) else Refused;
      MovedInv(digest, s, i, phase);
      MovedLater(s, i, phase);
    }
  }

  lemma CrashInv(digest: Digest, s: State, i: nat)
    requires Inv(digest, s)
    ensures var s' := Apply(digest, s, Crash(i)); Inv(digest, s') && Later(s, s')
  {
    if i < |s.calls| && !s.calls[i].phase.Answered? && !s.calls[i].phase.Refused? {
      MovedInv(digest, s, i, Crashed);
      MovedLater(s, i, Crashed);
    }
  }

  lemma ArriveInv(digest: Digest, s: State, request: StartRequest)
    requires Inv(digest, s)
    ensures var s' := Apply(digest, s, Arrive(request)); Inv(digest, s') && Later(s, s')
  {
    var s' := Apply(digest, s, Arrive(request));
    LaterKeeps(digest, s, s');
    forall w ensures CountRight(s', w) { assert CountRight(s, w); }
  }

  lemma LookInv(digest: Digest, s: State, i: nat, ok: bool)
    requires Inv(digest, s)
    ensures var s' := Apply(digest, s, Look(i, ok)); Inv(digest, s') && Later(s, s')
  {
    if Is(s, i, Asked) {
      var r := s.calls[i].request.requestId;
      var phase := if !ok then Refused
                   else if r in s.launches then Answered(StartedFrom(s.launches[r], PlaceOf(s.launches[r])))
                   else Cleared;
      assert CallRight(digest, s, s.calls[i]);
      MovedInv(digest, s, i, phase);
      MovedLater(s, i, phase);
    }
  }

  lemma SubmitInv(digest: Digest, s: State, i: nat, took: bool, ok: bool)
    requires Inv(digest, s)
    ensures var s' := Apply(digest, s, Submit(i, took, ok)); Inv(digest, s') && Later(s, s')
  {
    if i < |s.calls| && s.calls[i].phase.Ready? {
      var request, place := s.calls[i].request, s.calls[i].phase.place;
      assert CallRight(digest, s, s.calls[i]);
      StartingInv(digest, s, i, place.path);
      var s' := if took || ok then Starting(s, SpecOf(digest, request, place.path), request.requestId) else s;
      var phase := if ok then Submitted(place) else Refused;
      MovedInv(digest, s', i, phase);
      MovedLater(s', i, phase);
    }
  }

  lemma RecordInv(digest: Digest, s: State, i: nat, took: bool, ok: bool)
    requires Inv(digest, s)
    ensures var s' := Apply(digest, s, Record(i, took, ok)); Inv(digest, s') && Later(s, s')
  {
    if i < |s.calls| && s.calls[i].phase.Submitted? {
      var request, place := s.calls[i].request, s.calls[i].phase.place;
      RecordingInv(digest, s, i, place.path);
      var s' := if took || ok then Recording(s, NewLaunch(digest, request, place.path, s.now)) else s;
      var phase := if ok then Answered(StartedFrom(s'.launches[request.requestId], place)) else Refused;
      MovedInv(digest, s', i, phase);
      MovedLater(s', i, phase);
    }
  }

  lemma FinishInv(digest: Digest, s: State, w: string)
    requires Inv(digest, s)
    ensures var s' := Apply(digest, s, Finish(w)); Inv(digest, s') && Later(s, s')
  {
    var s' := Apply(digest, s, Finish(w));
    assert s'.calls == s.calls && s'.runs == s.runs && s'.launches == s.launches;
    LaterKeeps(digest, s, s');
    forall v ensures CountRight(s', v) {
      assert CountRight(s, v);
    }
  }

  lemma {:induction false} AfterInv(digest: Digest, s: State, events: seq<Event>)
    requires Inv(digest, s)
    ensures Inv(digest, After(digest, s, events)) && Later(s, After(digest, s, events))
  {
    if events != [] {
      var before := events[..|events| - 1];
      AfterInv(digest, s, before);
      ApplyInv(digest, After(digest, s, before), events[|events| - 1]);
    }
  }

  // ----------------------------------------------------------------------- theorems

  /** A state some run leads to. */
  ghost predicate Reachable(digest: Digest, s: State) {
    exists events :: After(digest, NOTHING, events) == s
  }

  lemma ReachableInv(digest: Digest, s: State)
    requires Reachable(digest, s)
    ensures Inv(digest, s)
  {
    var events :| After(digest, NOTHING, events) == s;
    AfterInv(digest, NOTHING, events);
  }

  /** Two successful answers to one request describe one launch; only where it runs may be told differently. */
  lemma AnswersAgree(digest: Digest, s: State, i: nat, j: nat)
    requires Reachable(digest, s) && i < |s.calls| && j < |s.calls|
    requires s.calls[i].phase.Answered? && s.calls[j].phase.Answered?
    requires s.calls[i].request.requestId == s.calls[j].request.requestId
    ensures var a, b := s.calls[i].phase.work, s.calls[j].phase.work;
            a == b.(location := a.location)
    ensures var r, work := s.calls[i].request.requestId, s.calls[i].phase.work;
            && r in s.launches && WasSubmitted(s, work.runId) && work.runId == ForRequest(digest, work.kind, r)
            && var launch := s.launches[r];
               && work.runId == launch.workflowId && work.kind == launch.kind && work.prompt == launch.prompt
               && work.startedAt == launch.startedAt && work.startedBy == launch.startedBy
  {
    ReachableInv(digest, s);
    assert CallRight(digest, s, s.calls[i]) && CallRight(digest, s, s.calls[j]);
    assert LaunchRight(digest, s, s.calls[i].request.requestId);
  }

  /** Answers stand, and so does what they describe, whatever happens afterwards. */
  lemma AnswersStand(digest: Digest, s: State, events: seq<Event>, i: nat)
    requires Reachable(digest, s) && i < |s.calls| && s.calls[i].phase.Answered?
    ensures var s' := After(digest, s, events);
            && i < |s'.calls| && s'.calls[i] == s.calls[i]
            && var r, work := s.calls[i].request.requestId, s.calls[i].phase.work;
               r in s'.launches && work == StartedFrom(s'.launches[r], work.location)
  {
    ReachableInv(digest, s);
    assert CallRight(digest, s, s.calls[i]);
    AfterInv(digest, s, events);
  }

  /** Nothing is recorded as started that was not submitted first. */
  lemma RecordedWasSubmitted(digest: Digest, s: State, r: string)
    requires Reachable(digest, s) && r in s.launches
    ensures WasSubmitted(s, s.launches[r].workflowId)
    ensures s.launches[r].workflowId == ForRequest(digest, s.launches[r].kind, r)
  {
    ReachableInv(digest, s);
    assert LaunchRight(digest, s, r);
  }

  /** Every execution, and every launch recorded, carries the kind, prompt and principal one call under its request
      identity asked for; so where every call under an identity asks for the same, what its answers tell is what runs. */
  lemma NothingUnasked(digest: Digest, s: State, r: string)
    requires Reachable(digest, s)
    ensures forall k | 0 <= k < |s.runs| && s.runs[k].requestId == r :: AskedToRun(s, s.runs[k]) && Sound(s.runs[k])
    ensures r in s.launches ==> s.launches[r].requestId == r && AskedToRecord(s, s.launches[r])
    ensures r in s.launches && AlwaysAsksTheSame(s, r) ==>
              forall k | 0 <= k < |s.runs| && s.runs[k].requestId == r ::
                && s.runs[k].spec.workflowId == s.launches[r].workflowId && s.runs[k].spec.kind == s.launches[r].kind
                && s.runs[k].spec.prompt == s.launches[r].prompt && s.runs[k].spec.startedBy == s.launches[r].startedBy
  {
    ReachableInv(digest, s);
    forall k | 0 <= k < |s.runs| && s.runs[k].requestId == r ensures RunRight(digest, s, s.runs[k]) {}
    if r in s.launches { assert LaunchRight(digest, s, r); }
  }

  /** No two calls under this request identity differ in kind, prompt or principal. */
  ghost predicate AlwaysAsksTheSame(s: State, r: string) {
    forall i, j | 0 <= i < |s.calls| && 0 <= j < |s.calls| && s.calls[i].request.requestId == r
                  && s.calls[j].request.requestId == r ::
      var a, b := s.calls[i].request, s.calls[j].request; Asks(b, r, a.kind, a.prompt, a.startedBy)
  }

  /** Two submissions for one request name one workflow exactly when they are of one kind. */
  lemma OneWorkflowPerKind(digest: Digest, s: State, a: nat, b: nat)
    requires Reachable(digest, s) && a < |s.runs| && b < |s.runs|
    requires s.runs[a].requestId == s.runs[b].requestId
    ensures s.runs[a].spec.workflowId == s.runs[b].spec.workflowId <==> s.runs[a].spec.kind == s.runs[b].spec.kind
  {
    ReachableInv(digest, s);
    assert RunRight(digest, s, s.runs[a]) && RunRight(digest, s, s.runs[b]);
    if s.runs[a].spec.workflowId == s.runs[b].spec.workflowId {
      var r := s.runs[a].requestId;
      KindsDiffer(digest, s.runs[a].spec.kind, s.runs[b].spec.kind, r, r);
    }
  }

  /** A request always sent with one kind only ever submits one workflow. */
  lemma OneWorkflowPerRequest(digest: Digest, s: State, r: string, kind: Kind, k: nat)
    requires Reachable(digest, s) && k < |s.runs| && s.runs[k].requestId == r
    requires forall i | 0 <= i < |s.calls| && s.calls[i].request.requestId == r :: s.calls[i].request.kind == kind
    ensures s.runs[k].spec.workflowId == ForRequest(digest, kind, r)
  {
    ReachableInv(digest, s);
    assert RunRight(digest, s, s.runs[k]);
  }

  /** Executions under one identity never overlap: one has closed for every one but the last. */
  lemma RunsAreCounted(digest: Digest, s: State, w: string)
    requires Reachable(digest, s)
    ensures multiset(Identities(s.runs))[w] == multiset(s.finished)[w] + (if w in s.running then 1 else 0)
    ensures w !in s.finished ==> multiset(Identities(s.runs))[w] <= 1
  {
    ReachableInv(digest, s);
    assert CountRight(s, w);
  }

  /** More than one execution has begun for the request. */
  ghost predicate BegunTwice(s: State, requestId: string) {
    exists a: nat, b: nat :: a < b < |s.runs| && s.runs[a].requestId == s.runs[b].requestId == requestId
  }

  ghost predicate HasBegun(s: State, requestId: string) {
    exists k: nat :: k < |s.runs| && s.runs[k].requestId == requestId
  }

  /** The event submits a call of this request, the submission takes effect, and nothing runs under the identity
      the call's kind gives it. */
  predicate Begins(digest: Digest, s: State, e: Event, requestId: string) {
    && e.Submit? && (e.took || e.ok)
    && e.i < |s.calls| && s.calls[e.i].phase.Ready? && s.calls[e.i].request.requestId == requestId
    && ForRequest(digest, s.calls[e.i].request.kind, requestId) !in s.running
  }

  /** Event k submits a request for which an execution has begun already, and begins another. */
  ghost predicate BeginsAgain(digest: Digest, events: seq<Event>, k: nat, requestId: string)
    requires k < |events|
  {
    var s := After(digest, NOTHING, events[..k]);
    Begins(digest, s, events[k], requestId) && HasBegun(s, requestId)
  }

  lemma OneMoreRun(digest: Digest, s: State, e: Event, r: string)
    requires WellPlaced(s)
    ensures var s' := Apply(digest, s, e);
      && (HasBegun(s', r) <==> HasBegun(s, r) || Begins(digest, s, e, r))
      && (BegunTwice(s', r) <==> BegunTwice(s, r) || (Begins(digest, s, e, r) && HasBegun(s, r)))
  {
    var s' := Apply(digest, s, e);
    if s'.runs != s.runs {
      var n := |s.runs|;
      assert e.Submit? && s'.runs == s.runs + [s'.runs[n]] && s'.runs[n].requestId == s.calls[e.i].request.requestId;
      assert s'.runs[n].requestId == r <==> Begins(digest, s, e, r);
      if HasBegun(s, r) {
        var k: nat :| k < n && s.runs[k].requestId == r;
        assert s'.runs[k].requestId == r;
      }
      if BegunTwice(s, r) {
        var a: nat, b: nat :| a < b < n && s.runs[a].requestId == s.runs[b].requestId == r;
        assert s'.runs[a].requestId == s'.runs[b].requestId == r;
      }
    }
  }

  ghost predicate SomeBeginsAgain(digest: Digest, events: seq<Event>, requestId: string) {
    exists k: nat | k < |events| :: BeginsAgain(digest, events, k, requestId)
  }

  lemma SameBefore(digest: Digest, events: seq<Event>, k: nat, r: string)
    requires k + 1 < |events|
    ensures BeginsAgain(digest, events, k, r) <==> BeginsAgain(digest, events[..|events| - 1], k, r)
  {
    assert events[..|events| - 1][..k] == events[..k];
  }

  lemma AgainWithLast(digest: Digest, events: seq<Event>, r: string)
    requires events != []
    ensures var n := |events| - 1;
            SomeBeginsAgain(digest, events, r) <==>
              SomeBeginsAgain(digest, events[..n], r) || BeginsAgain(digest, events, n, r)
  {
    var n := |events| - 1;
    if k: nat :| k < n && BeginsAgain(digest, events, k, r) { SameBefore(digest, events, k, r); }
    if k: nat :| k < n && BeginsAgain(digest, events[..n], k, r) { SameBefore(digest, events, k, r); }
  }

  /** When a request begins a second execution, for every run of events and whatever the digest: when a submission
      of it takes effect after one has begun, and nothing runs under the submitted kind's identity. */
  lemma {:induction false} SecondExecution(digest: Digest, events: seq<Event>, r: string)
    ensures BegunTwice(After(digest, NOTHING, events), r) <==> SomeBeginsAgain(digest, events, r)
    decreases |events|
  {
    if events != [] {
      var n := |events| - 1;
      SecondExecution(digest, events[..n], r);
      OneMoreRun(digest, After(digest, NOTHING, events[..n]), events[n], r);
      AgainWithLast(digest, events, r);
    }
  }

  /** What a submission begins is what its call asked for, in the place it resolved to. */
  lemma BegunAsAsked(digest: Digest, s: State, e: Event, r: string)
    requires WellPlaced(s) && Begins(digest, s, e, r)
    ensures var s', q, spec := Apply(digest, s, e), s.calls[e.i].request, Apply(digest, s, e).runs[|s.runs|].spec;
      && s'.runs == s.runs + [Run(spec, r)] && s'.running == s.running + {spec.workflowId}
      && spec.directory == s.calls[e.i].phase.place.path && spec.prompt == q.prompt && spec.kind == q.kind
      && spec.worktree == q.worktree && spec.startedBy == q.startedBy
  {
    assert s.calls[e.i] in s.calls && AtPlace(s.calls[e.i].phase);
  }

  /** What the first record of a request tells is what its call asked for, where it was to run, and when it was
      recorded; a later one tells nothing. */
  lemma RecordedAsAsked(digest: Digest, s: State, i: nat, ok: bool)
    requires WellPlaced(s) && i < |s.calls| && s.calls[i].phase.Submitted?
    ensures var s', q := Apply(digest, s, Record(i, true, ok)), s.calls[i].request;
      && q.requestId in s'.launches && s'.runs == s.runs
      && if q.requestId in s.launches then s'.launches == s.launches
         else && s'.launches == s.launches[q.requestId := s'.launches[q.requestId]]
              && var launch := s'.launches[q.requestId];
                 && launch.directory == s.calls[i].phase.place.path && launch.startedAt == s.now
                 && launch.prompt == q.prompt && launch.kind == q.kind && launch.startedBy == q.startedBy
  {
    assert s.calls[i] in s.calls && AtPlace(s.calls[i].phase);
  }

  /** A submission that begins an execution finds every earlier one of its request closed, or of the other kind. */
  lemma BeginsAfterClosing(digest: Digest, s: State, e: Event, r: string, k: nat)
    requires Reachable(digest, s) && Begins(digest, s, e, r) && k < |s.runs| && s.runs[k].requestId == r
    ensures s.runs[k].spec.kind != s.calls[e.i].request.kind || s.runs[k].spec.workflowId in s.finished
  {
    ReachableInv(digest, s);
    var w := s.runs[k].spec.workflowId;
    assert RunRight(digest, s, s.runs[k]) && CountRight(s, w);
    assert Identities(s.runs)[k] == w;
  }

  /** No two requests share a digest. */
  ghost predicate Separates(digest: Digest, s: State) {
    forall a, b, c, d | a in s.launches && b in s.launches && c == s.launches[a].kind && d == s.launches[b].kind ::
      ForRequest(digest, c, a) == ForRequest(digest, d, b) ==> a == b
  }

  /** An execution has one launch, so it is attributed to one principal. */
  lemma OneLaunchPerRun(digest: Digest, s: State, a: string, b: string)
    requires Reachable(digest, s) && Separates(digest, s) && a in s.launches && b in s.launches
    requires s.launches[a].workflowId == s.launches[b].workflowId
    ensures a == b
  {
    RecordedWasSubmitted(digest, s, a);
    RecordedWasSubmitted(digest, s, b);
  }

  /** The call has not been let past the launch store. */
  ghost predicate HeldBack(phase: Phase) {
    phase == Asked || phase.Answered? || phase == Refused || phase == Crashed
  }

  /** A call made once the launch is recorded is never let past the store, whatever else happens. */
  lemma {:induction false} RepeatStartsNothing(digest: Digest, s: State, events: seq<Event>, i: nat)
    requires Reachable(digest, s) && Is(s, i, Asked) && s.calls[i].request.requestId in s.launches
    ensures var s' := After(digest, s, events); i < |s'.calls| && HeldBack(s'.calls[i].phase)
    decreases |events|
  {
    ReachableInv(digest, s);
    if events != [] {
      var before := events[..|events| - 1];
      AfterInv(digest, s, before);
      RepeatStartsNothing(digest, s, before, i);
      HeldBackStays(digest, After(digest, s, before), events[|events| - 1], i);
    }
  }

  predicate Concerns(e: Event, i: nat) {
    match e
    case Look(j, _) => i == j
    case Resolve(j, _) => i == j
    case Submit(j, _, _) => i == j
    case Record(j, _, _) => i == j
    case Crash(j) => i == j
    case _ => false
  }

  lemma HeldBackStays(digest: Digest, s: State, e: Event, i: nat)
    requires WellPlaced(s) && i < |s.calls| && HeldBack(s.calls[i].phase)
    requires s.calls[i].request.requestId in s.launches
    ensures var s' := Apply(digest, s, e); i < |s'.calls| && HeldBack(s'.calls[i].phase)
  {
    if !Concerns(e, i) {
    } else if e.Look? {
      assert Apply(digest, s, e) == if Is(s, i, Asked) then Looking(s, i, e.ok) else s;
    } else if e.Crash? {
      assert Apply(digest, s, e) == s || Apply(digest, s, e) == Moved(s, i, Crashed);
    } else {
      assert Apply(digest, s, e) == s;
    }
  }

  // ------------------------------------------------------------------ what can differ

  lemma Then(digest: Digest, s: State, events: seq<Event>, e: Event)
    requires WellPlaced(s)
    ensures After(digest, s, events + [e]) == Apply(digest, After(digest, s, events), e)
  {
    assert (events + [e])[..|events|] == events;
  }

  /** Two calls that both look before either has submitted, and both find their place. */
  function BothReady(a: StartRequest, b: StartRequest, p: L.Location, q: L.Location): seq<Event> {
    [Arrive(a), Arrive(b), Look(0, true), Look(1, true), Resolve(0, Some(p)), Resolve(1, Some(q))]
  }

  lemma BothGetReady(digest: Digest, a: StartRequest, b: StartRequest, p: L.Location, q: L.Location)
    requires ValidRequest(a) && ValidRequest(b) && p.Directory? && q.Directory?
    ensures After(digest, NOTHING, BothReady(a, b, p, q)) ==
            NOTHING.(calls := [Call(a, Ready(p)), Call(b, Ready(q))])
  {
    var s0, e := NOTHING, BothReady(a, b, p, q);
    assert e == [] + [e[0]] + [e[1]] + [e[2]] + [e[3]] + [e[4]] + [e[5]];
    Then(digest, s0, [], e[0]);
    Then(digest, s0, [e[0]], e[1]);
    assert After(digest, s0, [e[0]] + [e[1]]) == s0.(calls := [Call(a, Asked), Call(b, Asked)]);
    Then(digest, s0, [e[0]] + [e[1]], e[2]);
    Then(digest, s0, [e[0]] + [e[1]] + [e[2]], e[3]);
    assert After(digest, s0, [e[0]] + [e[1]] + [e[2]] + [e[3]]) == s0.(calls := [Call(a, Cleared), Call(b, Cleared)]);
    Then(digest, s0, [e[0]] + [e[1]] + [e[2]] + [e[3]], e[4]);
    Then(digest, s0, [e[0]] + [e[1]] + [e[2]] + [e[3]] + [e[4]], e[5]);
  }

  /** The first call goes through; its execution may close; then the second goes through. */
  function Race(digest: Digest, a: StartRequest, b: StartRequest, p: L.Location, q: L.Location, closes: bool): seq<Event> {
    BothReady(a, b, p, q) + [Submit(0, true, true)] + [Record(0, true, true)]
    + [if closes then Finish(ForRequest(digest, a.kind, a.requestId)) else Tick]
    + [Submit(1, true, true)] + [Record(1, true, true)]
  }

  /** What a race of two calls under one request identity can come to.  The answers describe one
      launch, but the second names the place it asked for, wherever the work runs; and a second
      execution begins if the calls are of different kinds, or if the first has closed meanwhile. */
  lemma RaceOutcome(digest: Digest, a: StartRequest, b: StartRequest, p: L.Location, q: L.Location, closes: bool)
    requires ValidRequest(a) && ValidRequest(b) && a.requestId == b.requestId && p.Directory? && q.Directory?
    ensures var s := After(digest, NOTHING, Race(digest, a, b, p, q, closes));
            var launch := NewLaunch(digest, a, p.path, 0);
            var first, second := Run(SpecOf(digest, a, p.path), a.requestId), Run(SpecOf(digest, b, q.path), a.requestId);
            && s.calls == [Call(a, Answered(StartedFrom(launch, p))), Call(b, Answered(StartedFrom(launch, q)))]
            && s.runs == if a.kind == b.kind && !closes then [first] else [first, second]
  {
    var events := BothReady(a, b, p, q);
    BothGetReady(digest, a, b, p, q);
    var s0 := NOTHING.(calls := [Call(a, Ready(p)), Call(b, Ready(q))]);
    var end := if closes then Finish(ForRequest(digest, a.kind, a.requestId)) else Tick;
    var e1 := events + [Submit(0, true, true)];
    var e2 := e1 + [Record(0, true, true)];
    var e3 := e2 + [end];
    var e4 := e3 + [Submit(1, true, true)];
    Then(digest, NOTHING, events, Submit(0, true, true));
    Then(digest, NOTHING, e1, Record(0, true, true));
    Then(digest, NOTHING, e2, end);
    Then(digest, NOTHING, e3, Submit(1, true, true));
    Then(digest, NOTHING, e4, Record(1, true, true));
    FirstThrough(digest, a, b, p, q);
    SecondThrough(digest, a, b, p, q, closes);
  }

  function Halfway(digest: Digest, a: StartRequest, b: StartRequest, p: L.Location, q: L.Location): State
    requires p.Directory?
  {
    var launch, w := NewLaunch(digest, a, p.path, 0), ForRequest(digest, a.kind, a.requestId);
    State([Call(a, Answered(StartedFrom(launch, p))), Call(b, Ready(q))], map[a.requestId := launch],
          [Run(SpecOf(digest, a, p.path), a.requestId)], {w}, [], 0)
  }

  lemma FirstThrough(digest: Digest, a: StartRequest, b: StartRequest, p: L.Location, q: L.Location)
    requires p.Directory? && q.Directory?
    ensures var s0 := NOTHING.(calls := [Call(a, Ready(p)), Call(b, Ready(q))]);
            WellPlaced(s0) &&
            Apply(digest, Apply(digest, s0, Submit(0, true, true)), Record(0, true, true)) == Halfway(digest, a, b, p, q)
  {
    var s0 := NOTHING.(calls := [Call(a, Ready(p)), Call(b, Ready(q))]);
    var s1 := Apply(digest, s0, Submit(0, true, true));
    assert s1.calls == [Call(a, Submitted(p)), Call(b, Ready(q))];
    assert s1.runs == [Run(SpecOf(digest, a, p.path), a.requestId)];
  }

  lemma SecondThrough(digest: Digest, a: StartRequest, b: StartRequest, p: L.Location, q: L.Location, closes: bool)
    requires ValidRequest(a) && ValidRequest(b) && a.requestId == b.requestId && p.Directory? && q.Directory?
    ensures var s0 := Halfway(digest, a, b, p, q);
            var w := ForRequest(digest, a.kind, a.requestId);
            var s := Apply(digest, Apply(digest, Apply(digest, s0, if closes then Finish(w) else Tick),
                                         Submit(1, true, true)), Record(1, true, true));
            && s.calls == [s0.calls[0], Call(b, Answered(StartedFrom(NewLaunch(digest, a, p.path, 0), q)))]
            && s.runs == if a.kind == b.kind && !closes then s0.runs
                         else s0.runs + [Run(SpecOf(digest, b, q.path), b.requestId)]
  {
    var s0, w := Halfway(digest, a, b, p, q), ForRequest(digest, a.kind, a.requestId);
    var s1 := Apply(digest, s0, if closes then Finish(w) else Tick);
    if ForRequest(digest, b.kind, b.requestId) == w { KindsDiffer(digest, a.kind, b.kind, a.requestId, b.requestId); }
    assert s1.running == if closes then {} else {w};
    var s2 := Apply(digest, s1, Submit(1, true, true));
    assert s2.calls == [s0.calls[0], Call(b, Submitted(q))] && s2.launches == s0.launches;
  }

  /** A call up to the point where it is ready to submit. */
  function Prepare(a: StartRequest, p: L.Location, i: nat): seq<Event> {
    [Arrive(a), Look(i, true), Resolve(i, Some(p))]
  }

  lemma Prepared(digest: Digest, s: State, a: StartRequest, p: L.Location, i: nat)
    requires WellPlaced(s)
    ensures After(digest, s, Prepare(a, p, i)) ==
            Apply(digest, Apply(digest, Apply(digest, s, Arrive(a)), Look(i, true)), Resolve(i, Some(p)))
  {
    var e := Prepare(a, p, i);
    assert e == [] + [e[0]] + [e[1]] + [e[2]];
    Then(digest, s, [], e[0]);
    Then(digest, s, [e[0]], e[1]);
    Then(digest, s, [e[0]] + [e[1]], e[2]);
  }

  lemma GetsReady(digest: Digest, s: State, a: StartRequest, p: L.Location)
    requires WellPlaced(s) && ValidRequest(a) && p.Directory? && a.requestId !in s.launches
    ensures After(digest, s, Prepare(a, p, |s.calls|)) == s.(calls := s.calls + [Call(a, Ready(p))])
  {
    var i := |s.calls|;
    var s1, s2 := s.(calls := s.calls + [Call(a, Asked)]), s.(calls := s.calls + [Call(a, Cleared)]);
    assert Apply(digest, s, Arrive(a)) == s1;
    LooksNew(digest, s1, i);
    assert s1.calls[i := Call(a, Cleared)] == s2.calls;
    assert Apply(digest, s2, Resolve(i, Some(p))) == Resolving(s2, i, Some(p));
    assert s2.calls[i := Call(a, Ready(p))] == s.calls + [Call(a, Ready(p))];
    Prepared(digest, s, a, p, i);
  }

  lemma LooksNew(digest: Digest, s: State, i: nat)
    requires WellPlaced(s) && Is(s, i, Asked) && s.calls[i].request.requestId !in s.launches
    ensures Apply(digest, s, Look(i, true)) == s.(calls := s.calls[i := Call(s.calls[i].request, Cleared)])
  {
  }

  /** A crash between submitting and recording, the execution closing, and a retry. */
  function CrashAndRetry(digest: Digest, a: StartRequest, p: L.Location): seq<Event> {
    Prepare(a, p, 0) + [Submit(0, true, true)] + [Crash(0)] + [Finish(ForRequest(digest, a.kind, a.requestId))]
    + Prepare(a, p, 1) + [Submit(1, true, true)]
  }

  /** One request, one kind, never two calls at once, and still two executions. */
  lemma CrashAndRetryRunsTwice(digest: Digest, a: StartRequest, p: L.Location)
    requires ValidRequest(a) && p.Directory?
    ensures var s := After(digest, NOTHING, CrashAndRetry(digest, a, p));
            var run := Run(SpecOf(digest, a, p.path), a.requestId);
            s.runs == [run, run] && s.launches == map[]
  {
    var w, run := ForRequest(digest, a.kind, a.requestId), Run(SpecOf(digest, a, p.path), a.requestId);
    var e0 := Prepare(a, p, 0);
    var e1 := e0 + [Submit(0, true, true)];
    var e2 := e1 + [Crash(0)];
    var e3 := e2 + [Finish(w)];
    GetsReady(digest, NOTHING, a, p);
    Then(digest, NOTHING, e0, Submit(0, true, true));
    assert After(digest, NOTHING, e1) == State([Call(a, Submitted(p))], map[], [run], {w}, [], 0);
    Then(digest, NOTHING, e1, Crash(0));
    assert After(digest, NOTHING, e2) == State([Call(a, Crashed)], map[], [run], {w}, [], 0);
    Then(digest, NOTHING, e2, Finish(w));
    var s := State([Call(a, Crashed)], map[], [run], {}, [w], 0);
    assert After(digest, NOTHING, e3) == s;
    AfterParts(digest, NOTHING, e3, Prepare(a, p, 1));
    GetsReady(digest, s, a, p);
    Then(digest, NOTHING, e3 + Prepare(a, p, 1), Submit(1, true, true));
  }

  lemma {:induction false} AfterParts(digest: Digest, s: State, a: seq<Event>, b: seq<Event>)
    requires WellPlaced(s)
    ensures After(digest, s, a + b) == After(digest, After(digest, s, a), b)
    decreases |b|
  {
    if b == [] {
      assert a + b == a;
    } else {
      var n := |b| - 1;
      assert (a + b)[..|a + b| - 1] == a + b[..n];
      AfterParts(digest, s, a, b[..n]);
    }
  }

  /** A call's own answer names the place the work runs in exactly when it resolved to the recorded directory,
      and reads the same as a repeat's only if, besides, that place is a root. */
  lemma AnsweredPlace(digest: Digest, s: State, i: nat, took: bool)
    requires Reachable(digest, s) && i < |s.calls| && s.calls[i].phase.Submitted? && s.calls[i].phase.place.Directory?
    ensures var s' := Storing(digest, s, i, took, true);
            var r, place := s.calls[i].request.requestId, s.calls[i].phase.place;
            && s'.calls[i].phase.Answered? && r in s'.launches
            && var answer, repeat := s'.calls[i].phase.work.location, PlaceOf(s'.launches[r]);
               && (answer.Key() == repeat.Key() <==> r !in s.launches || s.launches[r].directory == place.path)
               && (answer == repeat <==>
                     (r !in s.launches || s.launches[r].directory == place.path) && place.inside == None)
  {
    ReachableInv(digest, s);
    RecordInv(digest, s, i, took, true);
  }

  // ----------------------------------------------------------------------- StartWork

  datatype Reply<T> = Reply(value: T) | Unavailable

  /** The launch store, keyed by request identity. */
  class LaunchStore {
    var launches: map<string, Launch>

    constructor (launches: map<string, Launch>)
      ensures this.launches == launches
    {
      this.launches := launches;
    }

    method LaunchOf(requestId: string, ok: bool) returns (found: Reply<Option<Launch>>)
      ensures found == if !ok then Unavailable
                       else Reply(if requestId in launches then Some(launches[requestId]) else None)
    {
      if !ok { return Unavailable; }
      found := Reply(if requestId in launches then Some(launches[requestId]) else None);
    }

    /** Keeps what the first launch of a request recorded, and answers with it. */
    method Keep(launch: Launch, took: bool, ok: bool) returns (stored: Reply<Launch>)
      modifies this
      ensures ok || took ==> launch.requestId in launches
                             && launches == if launch.requestId in old(launches) then old(launches)
                                            else old(launches)[launch.requestId := launch]
      ensures !ok && !took ==> launches == old(launches)
      ensures stored == if ok then Reply(launches[launch.requestId]) else Unavailable
    {
      if (ok || took) && launch.requestId !in launches {
        launches := launches[launch.requestId := launch];
      }
      if !ok { return Unavailable; }
      stored := Reply(launches[launch.requestId]);
    }
  }

  /** The orchestrator, and which execution each submission began. */
  class Orchestrator {
    ghost var runs: seq<Run>
    var running: set<string>

    constructor (ghost runs: seq<Run>, running: set<string>)
      ensures this.runs == runs && this.running == running
    {
      this.runs, this.running := runs, running;
    }

    method Start(spec: StartSpec, ghost requestId: string, took: bool, ok: bool) returns (accepted: bool)
      modifies this
      ensures accepted == ok
      ensures (ok || took) && spec.workflowId !in old(running) ==>
                runs == old(runs) + [Run(spec, requestId)] && running == old(running) + {spec.workflowId}
      ensures (!ok && !took) || spec.workflowId in old(running) ==> runs == old(runs) && running == old(running)
    {
      if (ok || took) && spec.workflowId !in running {
        runs, running := runs + [Run(spec, requestId)], running + {spec.workflowId};
      }
      accepted := ok;
    }
  }

  /** What the world answers one call. */
  datatype World = World(
    looked: bool, place: Option<L.Location>, submitTook: bool, submitted: bool, recordTook: bool, recorded: bool)

  /** The steps of one call that nothing interrupts. */
  function Uninterrupted(i: nat, request: StartRequest, world: World): seq<Event> {
    [Arrive(request), Look(i, world.looked), Resolve(i, world.place),
     Submit(i, world.submitTook, world.submitted), Record(i, world.recordTook, world.recorded)]
  }

  predicate Settled(phase: Phase) {
    phase.Answered? || phase.Refused?
  }

  /** What is left of an uninterrupted call that is ready to submit; a settled one is left as it is. */
  ghost function FromSubmit(digest: Digest, s: State, i: nat, world: World): State
    requires WellPlaced(s) && i < |s.calls|
  {
    if !s.calls[i].phase.Ready? then s else
    var s' := Submitting(digest, s, i, world.submitTook, world.submitted);
    if s'.calls[i].phase.Submitted? then Storing(digest, s', i, world.recordTook, world.recorded) else s'
  }

  ghost function FromResolve(digest: Digest, s: State, i: nat, world: World): State
    requires WellPlaced(s) && i < |s.calls|
  {
    if s.calls[i].phase != Cleared then s else FromSubmit(digest, Resolving(s, i, world.place), i, world)
  }

  ghost function FromLook(digest: Digest, s: State, i: nat, world: World): State
    requires WellPlaced(s) && i < |s.calls|
  {
    if s.calls[i].phase != Asked then s else FromResolve(digest, Looking(s, i, world.looked), i, world)
  }

  lemma LookServes(digest: Digest, s: State, i: nat, world: World)
    requires WellPlaced(s) && i < |s.calls| && (s.calls[i].phase == Asked || Settled(s.calls[i].phase))
    ensures Apply(digest, Apply(digest, Apply(digest, Apply(digest, s, Look(i, world.looked)), Resolve(i, world.place)),
                                Submit(i, world.submitTook, world.submitted)), Record(i, world.recordTook, world.recorded))
         == FromLook(digest, s, i, world)
  {
    var s' := Apply(digest, s, Look(i, world.looked));
    assert s' == if s.calls[i].phase == Asked then Looking(s, i, world.looked) else s;
  }

  lemma FiveSteps(digest: Digest, s: State, e: seq<Event>)
    requires WellPlaced(s) && |e| == 5
    ensures After(digest, s, e) ==
            Apply(digest, Apply(digest, Apply(digest, Apply(digest, Apply(digest, s, e[0]), e[1]), e[2]), e[3]), e[4])
  {
    assert e == [] + [e[0]] + [e[1]] + [e[2]] + [e[3]] + [e[4]];
    Then(digest, s, [], e[0]);
    Then(digest, s, [e[0]], e[1]);
    Then(digest, s, [e[0]] + [e[1]], e[2]);
    Then(digest, s, [e[0]] + [e[1]] + [e[2]], e[3]);
    Then(digest, s, [e[0]] + [e[1]] + [e[2]] + [e[3]], e[4]);
  }

  lemma UninterruptedServes(digest: Digest, s: State, request: StartRequest, world: World)
    requires WellPlaced(s)
    ensures var s' := Apply(digest, s, Arrive(request));
            && |s'.calls| == |s.calls| + 1
            && After(digest, s, Uninterrupted(|s.calls|, request, world)) == FromLook(digest, s', |s.calls|, world)
  {
    FiveSteps(digest, s, Uninterrupted(|s.calls|, request, world));
    LookServes(digest, Apply(digest, s, Arrive(request)), |s.calls|, world);
  }

  ghost function StateOf(store: LaunchStore, orchestrator: Orchestrator, others: State, calls: seq<Call>): State
    reads store, orchestrator
  {
    others.(calls := calls, launches := store.launches, runs := orchestrator.runs, running := orchestrator.running)
  }

  method StartWork(store: LaunchStore, orchestrator: Orchestrator, digest: Digest, request: StartRequest,
                   now: nat, world: World, ghost others: State)
    returns (answer: Option<StartedWork>)
    requires WellPlaced(others) && others.now == now
    modifies store, orchestrator
    ensures StateOf(store, orchestrator, others,
                    others.calls + [Call(request, match answer case None => Refused case Some(work) => Answered(work))])
         == After(digest, old(StateOf(store, orchestrator, others, others.calls)),
                  Uninterrupted(|others.calls|, request, world))
    ensures answer.Some? <==>
              && ValidRequest(request) && world.looked
              && (request.requestId in old(store.launches)
                  || (&& world.place.Some? && world.place.value.Directory? && world.submitted && world.recorded))
  {
    UninterruptedServes(digest, StateOf(store, orchestrator, others, others.calls), request, world);
    if !ValidRequest(request) { return None; }
    var launch := store.LaunchOf(request.requestId, world.looked);
    match launch {
      case Unavailable => return None;
      case Reply(Some(repeated)) => return Some(StartedFrom(repeated, PlaceOf(repeated)));
      case Reply(None) =>
    }
    match world.place {
      case None => return None;
      case Some(place) =>
        if !place.Directory? { return None; }
        var accepted := orchestrator.Start(SpecOf(digest, request, place.path), request.requestId,
                                           world.submitTook, world.submitted);
        if !accepted { return None; }
        var stored := store.Keep(NewLaunch(digest, request, place.path, now), world.recordTook, world.recorded);
        match stored {
          case Unavailable => return None;
          case Reply(kept) => return Some(StartedFrom(kept, place));
        }
    }
  }
}
