/** Dismissals: hiding an item from one viewer's overview, in one exact state. */
module Dismissals {
  /*  DismissFor, dismissedIDs and dismissalSet.has of internal/agenthub/service.go, and the
      dismissal table of internal/agenthub/hubpg/hubpg.go.  Work changes, viewers look, dismissals
      are checked and only then stored, and all of that interleaves; the theorems are about every
      state a run leads to.  */

  import opened Options
  import opened Ordering
  import opened Tokens
  import opened Revisions

  datatype ItemKind = KindFleet | KindRun | KindSchedule

  datatype Work = FleetWork(fleet: Fleet) | RunWork(run: Run)

  datatype Item = Item(kind: ItemKind, itemId: string)

  function ItemOf(w: Work): Item {
    match w case FleetWork(f) => Item(KindFleet, f.id) case RunWork(r) => Item(KindRun, r.id)
  }

  /** How instants are rendered and how a stream is digested. */
  datatype Format = Format(render: int -> string, digest: string -> string)

  function StreamOf(w: Work, format: Format): string {
    match w
    case FleetWork(f) => Stream(FleetParts(f, format.render))
    case RunWork(r) => Stream(RunParts(r, format.render))
  }

  function RevisionOf(w: Work, format: Format): string {
    format.digest(StreamOf(w, format))
  }

  /** The same published state: a run's revision leaves out who started it and its instructions. */
  ghost predicate Same(a: Work, b: Work) {
    match a
    case FleetWork(f) => b == a
    case RunWork(r) => b.RunWork? && r == b.run.(startedBy := r.startedBy, instructions := r.instructions)
  }

  lemma SameExactly(a: Work, b: Work, format: Format)
    requires GoodRender(format.render) && ItemOf(a) == ItemOf(b)
    requires NoCollision(format.digest, StreamOf(a, format), StreamOf(b, format))
    ensures RevisionOf(a, format) == RevisionOf(b, format) <==> Same(a, b)
  {
    match a
    case FleetWork(f) => FleetRevisionExact(f, b.fleet, format.render, format.digest);
    case RunWork(r) => RunRevisionExact(r, b.run, format.render, format.digest);
  }

  // ------------------------------------------------------------------------- steps

  /** One viewer's row for one item. */
  datatype Slot = Slot(viewer: string, item: Item)

  /** A revision, and the state it was accepted for. */
  datatype Accepted = Accepted(slot: Slot, revision: string, work: Work)

  /** The work there is, what each viewer was shown, the dismissals accepted but not stored yet, and the table. */
  datatype State = State(
    work: map<Item, Work>, shown: set<(string, Work)>, pending: seq<Accepted>, stored: map<Slot, Accepted>)

  const NOTHING := State(map[], {}, [], map[])

  datatype Event =
    | Change(work: Work)
    | Show(viewer: string, item: Item)
    | Dismiss(slot: Slot, expected: string)
    | Store(i: nat)
    | Lose(i: nat)
    | Undismiss(slot: Slot)

  /** A dismissal is accepted for the state it names, if that is the current one. */
  predicate Accepts(s: State, format: Format, slot: Slot, expected: string) {
    && slot.item.kind != KindSchedule && expected != "" && slot.item in s.work
    && RevisionOf(s.work[slot.item], format) == expected
  }

  function Without<T>(s: seq<T>, i: nat): seq<T>
    requires i < |s|
  {
    s[..i] + s[i + 1..]
  }

  function Apply(format: Format, s: State, e: Event): State {
    match e
    case Change(w) => s.(work := s.work[ItemOf(w) := w])
    case Show(viewer, item) => if item in s.work then s.(shown := s.shown + {(viewer, s.work[item])}) else s
    case Dismiss(slot, expected) =>
      if Accepts(s, format, slot, expected)
      then s.(pending := s.pending + [Accepted(slot, expected, s.work[slot.item])]) else s
    case Store(i) =>
      if i < |s.pending|
      then s.(pending := Without(s.pending, i), stored := s.stored[s.pending[i].slot := s.pending[i]]) else s
    case Lose(i) => if i < |s.pending| then s.(pending := Without(s.pending, i)) else s
    case Undismiss(slot) => s.(stored := s.stored - {slot})
  }

  function After(format: Format, events: seq<Event>): State {
    if events == [] then NOTHING else Apply(format, After(format, events[..|events| - 1]), events[|events| - 1])
  }

  /** The overview leaves an item out exactly when the viewer's row holds its current revision. */
  predicate Hides(s: State, format: Format, slot: Slot) {
    slot.item in s.work && slot in s.stored && s.stored[slot].revision == RevisionOf(s.work[slot.item], format)
  }

  // -------------------------------------------------------------------- invariants

  ghost predicate AcceptedRight(format: Format, a: Accepted) {
    ItemOf(a.work) == a.slot.item && a.revision == RevisionOf(a.work, format)
  }

  ghost predicate Inv(format: Format, s: State) {
    && (forall item | item in s.work :: ItemOf(s.work[item]) == item)
    && (forall i | 0 <= i < |s.pending| :: AcceptedRight(format, s.pending[i]))
    && (forall slot | slot in s.stored :: s.stored[slot].slot == slot && AcceptedRight(format, s.stored[slot]))
  }

  lemma ApplyInv(format: Format, s: State, e: Event)
    requires Inv(format, s)
    ensures Inv(format, Apply(format, s, e))
  {
  }

  lemma {:induction false} AfterInv(format: Format, events: seq<Event>)
    ensures Inv(format, After(format, events))
  {
    if events != [] {
      AfterInv(format, events[..|events| - 1]);
      ApplyInv(format, After(format, events[..|events| - 1]), events[|events| - 1]);
    }
  }

  // ---------------------------------------------------------------------- theorems

  ghost predicate Reachable(format: Format, s: State) {
    exists events :: After(format, events) == s
  }

  /** A dismissal cannot hide changed work: in every reachable state an item is hidden from a viewer exactly when it
      is, field by field, in the state that viewer's last stored dismissal was accepted for. */
  lemma HiddenExactly(format: Format, s: State, slot: Slot)
    requires GoodRender(format.render) && Reachable(format, s) && slot.item in s.work
    requires slot in s.stored ==>
               NoCollision(format.digest, StreamOf(s.stored[slot].work, format), StreamOf(s.work[slot.item], format))
    ensures Hides(s, format, slot) <==> slot in s.stored && Same(s.stored[slot].work, s.work[slot.item])
  {
    var events :| After(format, events) == s;
    AfterInv(format, events);
    if slot in s.stored { SameExactly(s.stored[slot].work, s.work[slot.item], format); }
  }

  /** Dismissing what is there hides it, for a fleet and a run alike: named by its current revision and stored, it is
      left out for that viewer until it changes. Naming any other revision changes nothing. */
  lemma DismissHides(format: Format, s: State, slot: Slot, expected: string)
    requires Reachable(format, s) && slot.item in s.work && RevisionOf(s.work[slot.item], format) != ""
    ensures var s' := Apply(format, Apply(format, s, Dismiss(slot, expected)), Store(|s.pending|));
            if expected == RevisionOf(s.work[slot.item], format)
            then Hides(s', format, slot) && s'.stored.Keys == s.stored.Keys + {slot} && s'.work == s.work
            else Apply(format, s, Dismiss(slot, expected)) == s
  {
    var events :| After(format, events) == s;
    AfterInv(format, events);
    assert ItemOf(s.work[slot.item]) == slot.item;
  }

  /** A row is one viewer's and one item's: only a dismissal of its own is stored in it, only its own withdrawal takes
      it out, and then the item shows. */
  lemma RowIsItsOwn(format: Format, s: State, e: Event, slot: Slot)
    ensures var s' := Apply(format, s, e);
            var stores := e.Store? && e.i < |s.pending| && s.pending[e.i].slot == slot;
      && (if stores then slot in s'.stored && s'.stored[slot] == s.pending[e.i]
          else if e == Undismiss(slot) then !Hides(s', format, slot) && s'.work == s.work
          else (slot in s'.stored <==> slot in s.stored) && (slot in s.stored ==> s'.stored[slot] == s.stored[slot]))
  {
  }

  /** The revision asked for is one of a state the viewer was shown. */
  ghost predicate Reviewed(format: Format, s: State, e: Event) {
    e.Dismiss? ==> exists w :: (e.slot.viewer, w) in s.shown && ItemOf(w) == e.slot.item && RevisionOf(w, format) == e.expected
  }

  ghost predicate AllReviewed(format: Format, events: seq<Event>) {
    forall k | 0 <= k < |events| :: Reviewed(format, After(format, events[..k]), events[k])
  }

  /** Every dismissal names a revision its viewer was shown. */
  ghost predicate ShownRight(format: Format, s: State, a: Accepted) {
    exists w :: (a.slot.viewer, w) in s.shown && ItemOf(w) == a.slot.item && RevisionOf(w, format) == a.revision
  }

  lemma ShownStays(format: Format, s: State, s': State, a: Accepted)
    requires ShownRight(format, s, a) && s.shown <= s'.shown
    ensures ShownRight(format, s', a)
  {
    var w :| (a.slot.viewer, w) in s.shown && ItemOf(w) == a.slot.item && RevisionOf(w, format) == a.revision;
    assert (a.slot.viewer, w) in s'.shown;
  }

  ghost predicate AllShown(format: Format, s: State) {
    && (forall i | 0 <= i < |s.pending| :: ShownRight(format, s, s.pending[i]))
    && (forall slot | slot in s.stored :: ShownRight(format, s, s.stored[slot]))
  }

  lemma ApplyShown(format: Format, s: State, e: Event)
    requires AllShown(format, s) && Reviewed(format, s, e)
    ensures AllShown(format, Apply(format, s, e))
  {
    var s' := Apply(format, s, e);
    forall i | 0 <= i < |s'.pending| ensures ShownRight(format, s', s'.pending[i]) {
      if s'.pending[i] in s.pending { ShownStays(format, s, s', s'.pending[i]); }
    }
    forall slot | slot in s'.stored ensures ShownRight(format, s', s'.stored[slot]) {
      if slot in s.stored && s'.stored[slot] == s.stored[slot] {
        ShownStays(format, s, s', s.stored[slot]);
      } else {
        ShownStays(format, s, s', s.pending[e.i]);
      }
    }
  }

  lemma {:induction false} AfterShown(format: Format, events: seq<Event>)
    requires AllReviewed(format, events)
    ensures AllShown(format, After(format, events))
  {
    if events != [] {
      var n := |events| - 1;
      assert forall k | 0 <= k < n :: events[..n][..k] == events[..k];
      AfterShown(format, events[..n]);
      assert Reviewed(format, After(format, events[..n]), events[n]);
      ApplyShown(format, After(format, events[..n]), events[n]);
    }
  }

  /** Where viewers only dismiss what they were shown, whatever is hidden from a viewer is, field by field, a state
      that viewer was shown. */
  lemma HiddenWasReviewed(format: Format, events: seq<Event>, slot: Slot)
    requires GoodRender(format.render) && AllReviewed(format, events)
    requires Hides(After(format, events), format, slot)
    requires var s := After(format, events);
             forall w | (slot.viewer, w) in s.shown ::
               NoCollision(format.digest, StreamOf(w, format), StreamOf(s.work[slot.item], format))
    ensures var s := After(format, events);
            exists w :: (slot.viewer, w) in s.shown && ItemOf(w) == slot.item && Same(w, s.work[slot.item])
  {
    var s := After(format, events);
    AfterInv(format, events);
    AfterShown(format, events);
    assert ShownRight(format, s, s.stored[slot]);
    var w :| (slot.viewer, w) in s.shown && ItemOf(w) == slot.item && RevisionOf(w, format) == s.stored[slot].revision;
    SameExactly(w, s.work[slot.item], format);
  }

  // ------------------------------------------------------------- the service's own code

  /** What the table holds of the stored dismissals. */
  function Rows(stored: map<Slot, Accepted>): map<Slot, string> {
    map slot | slot in stored :: stored[slot].revision
  }

  class DismissalTable {
    var rows: map<Slot, string>

    constructor (rows: map<Slot, string>)
      ensures this.rows == rows
    {
      this.rows := rows;
    }

    /** One row per viewer and item; a later dismissal replaces its revision. */
    method Upsert(slot: Slot, revision: string)
      modifies this
      ensures rows == old(rows)[slot := revision]
    {
      rows := rows[slot := revision];
    }

    method Delete(slot: Slot) returns (found: bool)
      modifies this
      ensures rows == old(rows) - {slot} && found == (slot in old(rows))
    {
      found := slot in rows;
      rows := rows - {slot};
    }
  }

  datatype DismissResult = Dismissed | Refused | RevisionRequired | NoSuchWork | StateChanged | Unavailable

  method CurrentRevision(w: Work, format: Format) returns (revision: string)
    ensures revision == RevisionOf(w, format)
  {
    var parts;
    match w {
      case FleetWork(f) => parts := CollectFleetParts(f, format.render);
      case RunWork(r) => parts := RunParts(r, format.render);
    }
    revision := StateRevision(parts, format.digest);
  }

  /** A dismissal, if nothing interrupts it, is the two events of the run above: accepted, then stored. */
  method DismissFor(table: DismissalTable, format: Format, slot: Slot, expected: string, current: Option<Work>,
                    answers: bool, ghost s: State)
    returns (result: DismissResult)
    requires table.rows == Rows(s.stored)
    requires current == if slot.item in s.work then Some(s.work[slot.item]) else None
    modifies table
    ensures result == Dismissed <==> Accepts(s, format, slot, expected) && answers
    ensures var accepted := Apply(format, s, Dismiss(slot, expected));
            table.rows == Rows((if result == Dismissed then Apply(format, accepted, Store(|s.pending|)) else s).stored)
    ensures result == StateChanged <==>
              && slot.item.kind != KindSchedule && expected != ""
              && current.Some? && RevisionOf(current.value, format) != expected
    ensures result == NoSuchWork ==> slot.item !in s.work
  {
    if slot.item.kind == KindSchedule { return Refused; }
    if expected == "" { return RevisionRequired; }
    if current == None { return NoSuchWork; }
    var revision := CurrentRevision(current.value, format);
    if revision != expected { return StateChanged; }
    if !answers { return Unavailable; }
    table.Upsert(slot, revision);
    return Dismissed;
  }

  method UndismissFor(table: DismissalTable, slot: Slot, ghost format: Format, ghost s: State) returns (found: bool)
    requires table.rows == Rows(s.stored)
    modifies table
    ensures table.rows == Rows(Apply(format, s, Undismiss(slot)).stored) && found == (slot in s.stored)
  {
    found := table.Delete(slot);
  }

  // ----------------------------------------------------------------------- reading them

  function KindText(k: ItemKind): string {
    match k
    case KindFleet => "fleet"
    case KindRun => "run"
    case KindSchedule => "schedule"
  }

  function DismissalId(item: Item): string {
    KindText(item.kind) + (":" + item.itemId)
  }

  /** An identity names one kind and one item. */
  lemma DismissalIdInjective(a: Item, b: Item)
    requires DismissalId(a) == DismissalId(b)
    ensures a == b
  {
    assert |KindText(KindFleet)| == 5 && |KindText(KindRun)| == 3 && |KindText(KindSchedule)| == 8;
    assert ':' !in KindText(a.kind) && ':' !in KindText(b.kind);
    SpanBlock(KindText(a.kind), ":" + a.itemId, NotColon);
    SpanBlock(KindText(b.kind), ":" + b.itemId, NotColon);
    assert (":" + a.itemId)[1..] == a.itemId && (":" + b.itemId)[1..] == b.itemId;
  }

  datatype Dismissal = Dismissal(item: Item, revision: string)

  /** The last dismissal read for an item, if there is one. */
  ghost function LastFor(ds: seq<Dismissal>, item: Item): Option<string> {
    if ds == [] then None
    else if ds[|ds| - 1].item == item then Some(ds[|ds| - 1].revision)
    else LastFor(ds[..|ds| - 1], item)
  }

  /** The dismissals read for one viewer, by identity: for every item the last one read. */
  method DismissedIds(ds: seq<Dismissal>) returns (hidden: map<string, string>)
    ensures forall item :: DismissalId(item) in hidden <==> LastFor(ds, item).Some?
    ensures forall item :: DismissalId(item) in hidden ==> LastFor(ds, item) == Some(hidden[DismissalId(item)])
  {
    hidden := map[];
    for k := 0 to |ds|
      invariant forall item :: DismissalId(item) in hidden <==> LastFor(ds[..k], item).Some?
      invariant forall item :: DismissalId(item) in hidden ==> LastFor(ds[..k], item) == Some(hidden[DismissalId(item)])
    {
      TakeNext(ds, k);
      ghost var before := hidden;
      hidden := hidden[DismissalId(ds[k].item) := ds[k].revision];
      forall item
        ensures DismissalId(item) in hidden <==> LastFor(ds[..k + 1], item).Some?
        ensures DismissalId(item) in hidden ==> LastFor(ds[..k + 1], item) == Some(hidden[DismissalId(item)])
      {
        if DismissalId(item) == DismissalId(ds[k].item) { DismissalIdInjective(item, ds[k].item); }
      }
    }
    assert ds[..|ds|] == ds;
  }

  predicate Has(hidden: map<string, string>, item: Item, revision: string) {
    DismissalId(item) in hidden && hidden[DismissalId(item)] == revision
  }

  /** One viewer's rows of the table, in some order, each once. */
  ghost predicate ListsRows(ds: seq<Dismissal>, rows: map<Slot, string>, viewer: string) {
    && (forall i | 0 <= i < |ds| :: Slot(viewer, ds[i].item) in rows && rows[Slot(viewer, ds[i].item)] == ds[i].revision)
    && (forall item :: Slot(viewer, item) in rows ==> exists i :: 0 <= i < |ds| && ds[i].item == item)
  }

  lemma {:induction false} LastIsThere(ds: seq<Dismissal>, item: Item)
    ensures LastFor(ds, item).Some? <==> exists i :: 0 <= i < |ds| && ds[i].item == item
    ensures LastFor(ds, item).Some? ==>
              exists i :: 0 <= i < |ds| && ds[i].item == item && ds[i].revision == LastFor(ds, item).value
  {
    if ds != [] {
      var n := |ds| - 1;
      LastIsThere(ds[..n], item);
      if i :| 0 <= i < n && ds[..n][i].item == item { assert ds[i].item == item; }
    }
  }

  /** The overview leaves a piece of work out exactly when the model hides it. */
  method LeavesOut(ds: seq<Dismissal>, w: Work, format: Format, ghost s: State, ghost viewer: string) returns (out: bool)
    requires ListsRows(ds, Rows(s.stored), viewer) && ItemOf(w) in s.work && s.work[ItemOf(w)] == w
    ensures out <==> Hides(s, format, Slot(viewer, ItemOf(w)))
  {
    var hidden := DismissedIds(ds);
    var revision := CurrentRevision(w, format);
    LastIsThere(ds, ItemOf(w));
    out := Has(hidden, ItemOf(w), revision);
  }
}
