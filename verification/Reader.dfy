/** The overview's reader of a plan (internal/agenthub/domain.go). */
module Reader {
  /*  dependencyOrder, DeriveNodeStatuses and AggregateStatus.  It shares no code with the scheduler.  */

  import opened Ordering
  import opened Graphs
  import opened Plans

  datatype WorkStatus = Todo | InProgress | Paused | WaitingInput | Waiting | Done | Failed

  /** `OtherOutcome` stands for any outcome text outside the vocabulary. */
  datatype ExecutionOutcome =
    | OutcomeRunning | OutcomeSucceeded | OutcomeFailed | OutcomeBlocked | OutcomeSkipped
    | OtherOutcome

  function StatusOf(o: ExecutionOutcome): WorkStatus {
    match o
    case OutcomeRunning => InProgress
    case OutcomeSucceeded => Done
    case OutcomeBlocked => WaitingInput
    case OutcomeSkipped => Paused
    case _ => Failed
  }

  // ----------------------------------------------------------- dependencyOrder

  /** The nodes a round may place: not placed yet, every known dependency placed. */
  ghost function Ready(g: Graph, placed: set<string>): set<string> {
    set id | id in g && id !in placed && forall b | Edge(g, id, b) :: b in placed
  }

  /** The rounds from a given set of placed nodes on. */
  ghost function Rounds(g: Graph, placed: set<string>): seq<string>
    requires placed <= g.Keys
    decreases g.Keys - placed
  {
    var ready := Ready(g, placed);
    if ready == {} then [] else
      Listing(ready) + Rounds(g, placed + ready)
  }

  /** Whether every known dependency is placed. */
  method Satisfied(deps: seq<string>, known: Graph, placed: set<string>) returns (ok: bool)
    ensures ok <==> forall b | b in deps && b in known :: b in placed
  {
    for k := 0 to |deps|
      invariant forall b | b in deps[..k] && b in known :: b in placed
    {
      TakeNext(deps, k);
      if deps[k] in known && deps[k] !in placed {
        assert deps[k] in deps;
        return false;
      }
    }
    assert deps[..|deps|] == deps;
    return true;
  }

  /** Collects one round, ranging over the map in an arbitrary order. */
  method CollectReady(remaining: Graph, placed: set<string>) returns (ready: seq<string>)
    ensures Distinct(ready) && Elements(ready) == Ready(remaining, placed)
  {
    ready := [];
    var rest := remaining.Keys;
    while rest != {}
      invariant rest <= remaining.Keys
      invariant Distinct(ready) && forall id :: id in ready <==> id in Ready(remaining, placed) - rest
      decreases rest
    {
      var id :| id in rest;
      if id !in placed {
        var ok := Satisfied(remaining[id], remaining, placed);
        assert ok <==> id in Ready(remaining, placed);
        if ok {
          DistinctAppend(ready, id);
          ready := ready + [id];
        }
      }
      rest := rest - {id};
    }
  }

  /** The result does not depend on map iteration order. */
  method DependencyOrder(plan: Plan) returns (order: seq<string>)
    ensures order == Rounds(DepsOf(plan.nodes), {})
  {
    var remaining := DependencyMap(plan.nodes);
    var placed: set<string> := {};
    order := [];
    while |placed| < |remaining|
      invariant placed <= remaining.Keys
      invariant order + Rounds(remaining, placed) == Rounds(remaining, {})
      decreases remaining.Keys - placed
    {
      var ready := CollectReady(remaining, placed);
      NonemptyElements(ready);
      if |ready| == 0 {
        assert Ready(remaining, placed) == {};
        return;
      }
      RoundsUnfold(remaining, placed, ready, order);
      placed, order := PlaceAll(SortBy(Less, ready), placed, order);
    }
    AllPlaced(remaining, placed);
  }

  lemma RoundsUnfold(g: Graph, placed: set<string>, ready: seq<string>, order: seq<string>)
    requires placed <= g.Keys && ready != []
    requires Distinct(ready) && Elements(ready) == Ready(g, placed)
    ensures
      var sorted := SortBy(Less, ready);
      var placed' := placed + Elements(sorted);
      && placed' <= g.Keys && g.Keys - placed' < g.Keys - placed
      && (order + sorted) + Rounds(g, placed') == order + Rounds(g, placed)
  {
    SortedListing(ready);
    assert ready[0] in Elements(ready);
    var sorted := SortBy(Less, ready);
    assert Rounds(g, placed) == sorted + Rounds(g, placed + Elements(sorted));
  }

  method PlaceAll(ready: seq<string>, placed: set<string>, order: seq<string>)
    returns (placed': set<string>, order': seq<string>)
    ensures placed' == placed + Elements(ready) && order' == order + ready
  {
    placed', order' := placed, order;
    for k := 0 to |ready|
      invariant placed' == placed + Elements(ready[..k]) && order' == order + ready[..k]
    {
      TakeNext(ready, k);
      placed', order' := placed' + {ready[k]}, order' + [ready[k]];
    }
    assert ready[..|ready|] == ready;
  }

  lemma AllPlaced(g: Graph, placed: set<string>)
    requires placed <= g.Keys && |placed| >= |g|
    ensures Rounds(g, placed) == []
  {
    CardinalityProper(placed, g.Keys);
    assert |g.Keys| == |g|;
  }

  /** Every listed node comes after the dependencies the graph knows, none twice. */
  ghost predicate DependenciesFirst(g: Graph, placed: set<string>, order: seq<string>) {
    forall i, b | 0 <= i < |order| && Edge(g, order[i], b) :: b in placed || b in order[..i]
  }

  lemma {:induction false} RoundsOrdered(g: Graph, placed: set<string>)
    requires placed <= g.Keys
    ensures Distinct(Rounds(g, placed)) && Elements(Rounds(g, placed)) <= g.Keys - placed
    ensures DependenciesFirst(g, placed, Rounds(g, placed))
    decreases g.Keys - placed
  {
    var ready := Ready(g, placed);
    if ready != {} {
      RoundsOrdered(g, placed + ready);
      OrderedJoin(g, placed, Listing(ready), Rounds(g, placed + ready));
    }
  }

  lemma OrderedJoin(g: Graph, placed: set<string>, front: seq<string>, rest: seq<string>)
    requires placed <= g.Keys && Ascending(Less, front) && Elements(front) == Ready(g, placed)
    requires Distinct(rest) && Elements(rest) <= g.Keys - (placed + Elements(front))
    requires DependenciesFirst(g, placed + Elements(front), rest)
    ensures Distinct(front + rest) && Elements(front + rest) <= g.Keys - placed
    ensures DependenciesFirst(g, placed, front + rest)
  {
    AscendingDistinct(front);
    var order := front + rest;
    assert Elements(order) == Elements(front) + Elements(rest);
    forall i, j | 0 <= i < j < |order| ensures order[i] != order[j] {
      if i < |front| <= j {
        assert order[i] in Elements(front) && rest[j - |front|] in Elements(rest);
      }
    }
    forall i, b | 0 <= i < |order| && Edge(g, order[i], b) ensures b in placed || b in order[..i] {
      if i < |front| {
        assert order[i] in Elements(front);
      } else {
        var k := i - |front|;
        assert rest[k] == order[i];
        assert b in placed + Elements(front) || b in rest[..k];
        assert order[..i] == front + rest[..k];
      }
    }
  }

  /** Round `k` places exactly the nodes of chain length `k`. */
  lemma RoundIsChainClass(g: Graph, k: nat)
    ensures Ready(g, Below(g, k)) == ChainClass(g, k)
    ensures Below(g, k) + ChainClass(g, k) == Below(g, k + 1)
  {
    forall id | id in Ready(g, Below(g, k)) ensures id in ChainClass(g, k) {
      forall b | Edge(g, id, b) ensures exists d: nat :: LongestChain(g, b, d) {
        assert b in Below(g, k);
      }
      var depth := map b | b in g && Edge(g, id, b) :: ChainLength(g, b);
      forall b | b in depth ensures depth[b] < k {
        assert b in Below(g, k);
        var e: nat :| e < k && LongestChain(g, b, e);
        LongestChainUnique(g, b, e, depth[b]);
      }
      var top := Largest(depth);
      LongestChainStep(g, id, depth, top);
    }
    forall id | id in ChainClass(g, k) ensures id in Ready(g, Below(g, k)) {
      forall d: nat | d < k && LongestChain(g, id, d) ensures false {
        LongestChainUnique(g, id, d, k);
      }
      forall b | Edge(g, id, b) ensures b in Below(g, k) {
        var e := DependencyHasChain(g, id, k, b);
      }
    }
  }

  lemma {:induction false} Largest(m: map<string, nat>) returns (top: int)
    ensures forall b | b in m :: m[b] <= top
    ensures top == -1 || exists b :: b in m && m[b] == top
    decreases m.Keys
  {
    if m.Keys == {} {
      top := -1;
    } else {
      var x :| x in m;
      var rest := m - {x};
      top := Largest(rest);
      assert forall b | b in m :: b == x || (b in rest && rest[b] == m[b]);
      if top < m[x] {
        top := m[x];
      } else {
        var b :| b in rest && rest[b] == top;
        assert b in m && m[b] == top;
      }
    }
  }

  lemma RoundUnfolds(g: Graph, k: nat)
    ensures ChainClass(g, k) == {} ==> Rounds(g, Below(g, k)) == []
    ensures ChainClass(g, k) != {} ==>
      && Rounds(g, Below(g, k)) == Listing(ChainClass(g, k)) + Rounds(g, Below(g, k + 1))
      && g.Keys - Below(g, k + 1) < g.Keys - Below(g, k)
  {
    RoundIsChainClass(g, k);
    if ChainClass(g, k) != {} {
    }
  }

  /** From round `k` on, exactly the nodes of chain length `k` and more are listed. */
  lemma {:induction false} RoundsList(g: Graph, k: nat, id: string)
    ensures id in Rounds(g, Below(g, k)) <==> id in g && exists d: nat :: d >= k && LongestChain(g, id, d)
    decreases g.Keys - Below(g, k)
  {
    RoundUnfolds(g, k);
    if ChainClass(g, k) == {} {
      forall d: nat | d >= k && id in g ensures !LongestChain(g, id, d) {
        if LongestChain(g, id, d) { NoLengthGap(g, id, d, k); }
      }
    } else {
      RoundsList(g, k + 1, id);
      assert id in Listing(ChainClass(g, k)) <==> id in Elements(Listing(ChainClass(g, k)));
      assert id in ChainClass(g, k) <==> id in g && LongestChain(g, id, k);
    }
  }

  /** On any graph: each node from which no cycle is reachable is listed once, after its
      dependencies, and no other node is listed. */
  lemma DependencyOrderExact(g: Graph)
    ensures Distinct(Rounds(g, {})) && DependenciesFirst(g, {}, Rounds(g, {}))
    ensures forall id :: id in Rounds(g, {}) <==> id in g && !ReachesCycle(g, id)
  {
    RoundsOrdered(g, {});
    assert Below(g, 0) == {};
    forall id ensures id in Rounds(g, {}) <==> id in g && !ReachesCycle(g, id) {
      RoundsList(g, 0, id);
      if id in g { ChainLengthExists(g, id); }
    }
  }

  ghost function Concat(layers: seq<seq<string>>): seq<string> {
    if layers == [] then [] else layers[0] + Concat(layers[1..])
  }

  ghost predicate LayersFrom(g: Graph, k: nat, rest: seq<seq<string>>)
    decreases |rest|
  {
    if rest == [] then ChainClass(g, k) == {}
    else rest[0] == Listing(ChainClass(g, k)) && rest[0] != [] && LayersFrom(g, k + 1, rest[1..])
  }

  lemma {:induction false} LayeringFrom(g: Graph, layers: seq<seq<string>>, k: nat)
    requires IsLayering(g, layers) && k <= |layers|
    ensures LayersFrom(g, k, layers[k..])
    decreases |layers| - k
  {
    if k == |layers| {
    } else {
      LayeringFrom(g, layers, k + 1);
      assert layers[k..][1..] == layers[k + 1..];
    }
  }

  lemma {:induction false} RoundsAreLayers(g: Graph, k: nat, rest: seq<seq<string>>)
    requires LayersFrom(g, k, rest)
    ensures Rounds(g, Below(g, k)) == Concat(rest)
    decreases |rest|
  {
    RoundUnfolds(g, k);
    if rest != [] {
      NonemptyElements(rest[0]);
      RoundsAreLayers(g, k + 1, rest[1..]);
    }
  }

  /** The two graph algorithms agree: the reader's order is the scheduler's layers, in
      sequence. */
  lemma OrderIsLayers(g: Graph, layers: seq<seq<string>>)
    requires IsLayering(g, layers)
    ensures Rounds(g, {}) == Concat(layers)
  {
    LayeringFrom(g, layers, 0);
    assert layers[0..] == layers && Below(g, 0) == {};
    RoundsAreLayers(g, 0, layers);
  }

  // -------------------------------------------------------- DeriveNodeStatuses

  predicate Unsuccessful(s: WorkStatus) {
    s.Failed? || s.Paused? || s.WaitingInput?
  }

  /** How an unstarted node is explained by its dependencies. */
  ghost function Explain(deps: seq<string>, st: map<string, WorkStatus>): WorkStatus {
    if exists b :: b in deps && b in st && Unsuccessful(st[b]) then Paused
    else if forall b | b in deps :: b in st && st[b].Done? then Todo
    else Waiting
  }

  method StatusFromDependencies(deps: seq<string>, st: map<string, WorkStatus>) returns (s: WorkStatus)
    ensures s == Explain(deps, st)
  {
    var ready := true;
    for k := 0 to |deps|
      invariant forall b | b in deps[..k] && b in st :: !Unsuccessful(st[b])
      invariant ready <==> forall b | b in deps[..k] :: b in st && st[b].Done?
    {
      TakeNext(deps, k);
      if deps[k] in st && Unsuccessful(st[deps[k]]) {
        assert deps[k] in deps;
        return Paused;
      }
      if deps[k] !in st || !st[deps[k]].Done? {
        ready := false;
      }
    }
    assert deps[..|deps|] == deps;
    return if ready then Todo else Waiting;
  }

  /** What the derived statuses are: the outcome where there is one, else the explanation by
      the dependencies' own statuses, and `Waiting` where a cycle is in the way. */
  ghost predicate IsDerived(g: Graph, outcomes: map<string, ExecutionOutcome>, st: map<string, WorkStatus>) {
    && st.Keys == g.Keys
    && forall id | id in g ::
         st[id] == if id in outcomes then StatusOf(outcomes[id])
                   else if ReachesCycle(g, id) then Waiting
                   else Explain(g[id], st)
  }

  /** A status fixed while its dependencies are known stays the right one. */
  lemma ExplainStable(g: Graph, id: string, st: map<string, WorkStatus>, later: map<string, WorkStatus>)
    requires id in g && later.Keys <= g.Keys
    requires forall x | x in st :: x in later && later[x] == st[x]
    requires forall b | Edge(g, id, b) :: b in st
    ensures Explain(g[id], later) == Explain(g[id], st)
  {
    forall b | b in g[id] ensures b in later <==> b in st {
      if b in later { assert Edge(g, id, b); }
    }
  }

  ghost predicate DerivedSoFar(g: Graph, outcomes: map<string, ExecutionOutcome>,
                               st: map<string, WorkStatus>, order: seq<string>) {
    && st.Keys == g.Keys * (outcomes.Keys + Elements(order))
    && forall id | id in st ::
         st[id] == if id in outcomes then StatusOf(outcomes[id]) else Explain(g[id], st)
  }

  lemma DeriveNext(g: Graph, outcomes: map<string, ExecutionOutcome>, st: map<string, WorkStatus>,
                   order: seq<string>, k: nat)
    requires k < |order| && Elements(order) <= g.Keys && Distinct(order) && DependenciesFirst(g, {}, order)
    requires DerivedSoFar(g, outcomes, st, order[..k])
    ensures
      var id := order[k];
      var later := if id in st then st else st[id := Explain(g[id], st)];
      id in g && DerivedSoFar(g, outcomes, later, order[..k + 1])
  {
    var id := order[k];
    TakeNext(order, k);
    assert id in Elements(order);
    assert Elements(order[..k + 1]) == Elements(order[..k]) + {id};
    if id !in st {
      var later := st[id := Explain(g[id], st)];
      forall x | x in later && x !in outcomes ensures later[x] == Explain(g[x], later) {
        assert x in order[..k + 1];
        var m :| 0 <= m < k + 1 && order[m] == x;
        forall b | Edge(g, x, b) ensures b in st {
          assert b in order[..m];
          assert b in order[..k];
        }
        ExplainStable(g, x, st, later);
      }
    }
  }

  method DeriveNodeStatuses(plan: Plan, outcomes: map<string, ExecutionOutcome>)
    returns (st: map<string, WorkStatus>)
    ensures IsDerived(DepsOf(plan.nodes), outcomes, st)
  {
    ghost var g := DepsOf(plan.nodes);
    var nodes := DependencyMap(plan.nodes);
    DepsOfKeys(plan.nodes);
    st := Decided(Ids(plan.nodes), outcomes);
    var order := DependencyOrder(plan);
    DependencyOrderExact(g);
    assert Elements(order) <= g.Keys;
    st := ExplainInOrder(nodes, outcomes, st, order);
    ghost var ordered := st;
    st := FillWaiting(Ids(plan.nodes), st);
    CycleNodesWait(g, outcomes, ordered, st, order);
  }

  method ExplainInOrder(nodes: Graph, ghost outcomes: map<string, ExecutionOutcome>,
                        decided: map<string, WorkStatus>, order: seq<string>)
    returns (st: map<string, WorkStatus>)
    requires Elements(order) <= nodes.Keys && Distinct(order) && DependenciesFirst(nodes, {}, order)
    requires DerivedSoFar(nodes, outcomes, decided, [])
    ensures DerivedSoFar(nodes, outcomes, st, order)
  {
    st := decided;
    for k := 0 to |order|
      invariant DerivedSoFar(nodes, outcomes, st, order[..k])
    {
      DeriveNext(nodes, outcomes, st, order, k);
      if order[k] !in st {
        var s := StatusFromDependencies(nodes[order[k]], st);
        st := st[order[k] := s];
      }
    }
    assert order[..|order|] == order;
  }

  method FillWaiting(ids: seq<string>, ordered: map<string, WorkStatus>) returns (st: map<string, WorkStatus>)
    ensures st.Keys == ordered.Keys + Elements(ids)
    ensures forall id | id in st :: st[id] == if id in ordered then ordered[id] else Waiting
  {
    st := ordered;
    for k := 0 to |ids|
      invariant st.Keys == ordered.Keys + Elements(ids[..k])
      invariant forall id | id in st :: st[id] == if id in ordered then ordered[id] else Waiting
    {
      TakeNext(ids, k);
      if ids[k] !in st {
        st := st[ids[k] := Waiting];
      }
    }
    assert ids[..|ids|] == ids;
  }

  method Decided(ids: seq<string>, outcomes: map<string, ExecutionOutcome>) returns (st: map<string, WorkStatus>)
    ensures st.Keys == Elements(ids) * outcomes.Keys
    ensures forall id | id in st :: st[id] == StatusOf(outcomes[id])
  {
    st := map[];
    for k := 0 to |ids|
      invariant st.Keys == Elements(ids[..k]) * outcomes.Keys
      invariant forall id | id in st :: st[id] == StatusOf(outcomes[id])
    {
      TakeNext(ids, k);
      if ids[k] in outcomes {
        st := st[ids[k] := StatusOf(outcomes[ids[k]])];
      }
    }
    assert ids[..|ids|] == ids;
  }

  lemma EarlierDependency(g: Graph, order: seq<string>, id: string, b: string)
    requires DependenciesFirst(g, {}, order) && id in order && Edge(g, id, b)
    ensures b in order
  {
    var m :| 0 <= m < |order| && order[m] == id;
    var none: set<string> := {};
    assert b in none || b in order[..m];
  }

  lemma CycleNodesWait(g: Graph, outcomes: map<string, ExecutionOutcome>,
                       ordered: map<string, WorkStatus>, st: map<string, WorkStatus>, order: seq<string>)
    requires DerivedSoFar(g, outcomes, ordered, order) && DependenciesFirst(g, {}, order)
    requires forall id :: id in order <==> id in g && !ReachesCycle(g, id)
    requires st.Keys == g.Keys
    requires forall id | id in st :: st[id] == if id in ordered then ordered[id] else Waiting
    ensures IsDerived(g, outcomes, st)
  {
    forall id | id in g && id !in outcomes && !ReachesCycle(g, id) ensures st[id] == Explain(g[id], st) {
      assert id in Elements(order);
      forall b | Edge(g, id, b) ensures b in ordered {
        EarlierDependency(g, order, id, b);
        assert b in Elements(order);
      }
      ExplainStable(g, id, ordered, st);
    }
    forall id | id in g && id !in outcomes && ReachesCycle(g, id) ensures st[id] == Waiting {
      assert id !in Elements(order);
    }
  }

  /** The derived statuses are determined by the graph and the outcomes. */
  lemma DerivedUnique(g: Graph, outcomes: map<string, ExecutionOutcome>,
                      s: map<string, WorkStatus>, t: map<string, WorkStatus>)
    requires IsDerived(g, outcomes, s) && IsDerived(g, outcomes, t)
    ensures s == t
  {
    forall id | id in g ensures s[id] == t[id] {
      if !ReachesCycle(g, id) {
        ChainLengthExists(g, id);
        var d: nat :| LongestChain(g, id, d);
        DerivedUniqueAt(g, outcomes, s, t, id, d);
      }
    }
  }

  lemma {:induction false} DerivedUniqueAt(g: Graph, outcomes: map<string, ExecutionOutcome>,
                        s: map<string, WorkStatus>, t: map<string, WorkStatus>, id: string, d: nat)
    requires IsDerived(g, outcomes, s) && IsDerived(g, outcomes, t)
    requires id in g && LongestChain(g, id, d)
    ensures s[id] == t[id]
    decreases d
  {
    forall b | b in g[id] && b in g ensures s[b] == t[b] {
      assert Edge(g, id, b);
      var e := DependencyHasChain(g, id, d, b);
      DerivedUniqueAt(g, outcomes, s, t, b, e);
    }
    ChainLengthExists(g, id);
  }

  /** Whatever is known of a node decides, and claims no more than is known: an outcome outside the vocabulary
      reads as failed. A node that nothing is known of waits behind a cycle. */
  lemma OutcomeDecides(g: Graph, outcomes: map<string, ExecutionOutcome>, st: map<string, WorkStatus>, id: string)
    requires IsDerived(g, outcomes, st) && id in g
    ensures id in outcomes ==>
      && (st[id] == InProgress <==> outcomes[id] == OutcomeRunning)
      && (st[id] == Done <==> outcomes[id] == OutcomeSucceeded)
      && (st[id] == WaitingInput <==> outcomes[id] == OutcomeBlocked)
      && (st[id] == Paused <==> outcomes[id] == OutcomeSkipped)
      && (st[id] == Failed <==> outcomes[id] == OutcomeFailed || outcomes[id] == OtherOutcome)
    ensures id !in outcomes && ReachesCycle(g, id) ==> st[id] == Waiting
    ensures id !in outcomes ==> st[id] == Paused || st[id] == Todo || st[id] == Waiting
  {
  }

  /** The walk passes nodes of which nothing is known, and ends at one known not to have succeeded. */
  ghost predicate BlockedAlong(outcomes: map<string, ExecutionOutcome>, w: seq<string>) {
    && |w| >= 2 && (forall i | 0 < i < |w| - 1 :: w[i] !in outcomes)
    && var last := w[|w| - 1];
       last in outcomes && outcomes[last] != OutcomeRunning && outcomes[last] != OutcomeSucceeded
  }

  ghost predicate BlockedBelow(g: Graph, outcomes: map<string, ExecutionOutcome>, id: string) {
    exists w :: WalkFrom(g, id, w) && BlockedAlong(outcomes, w)
  }

  /** Directly below, or further down behind nodes of which nothing is known. */
  lemma BlockedStep(g: Graph, outcomes: map<string, ExecutionOutcome>, id: string)
    ensures BlockedBelow(g, outcomes, id) <==>
              exists b :: Edge(g, id, b) &&
                if b in outcomes then outcomes[b] != OutcomeRunning && outcomes[b] != OutcomeSucceeded
                else BlockedBelow(g, outcomes, b)
  {
    if w :| WalkFrom(g, id, w) && BlockedAlong(outcomes, w) {
      assert Edge(g, w[0], w[0 + 1]);
      if |w| > 2 {
        WalkPart(g, w, 1, |w|);
        assert BlockedAlong(outcomes, w[1..|w|]);
      }
    }
    if b :| Edge(g, id, b) && (b in outcomes && outcomes[b] != OutcomeRunning && outcomes[b] != OutcomeSucceeded) {
      assert WalkFrom(g, id, [id, b]) && BlockedAlong(outcomes, [id, b]);
    }
    if b :| Edge(g, id, b) && b !in outcomes && BlockedBelow(g, outcomes, b) {
      var w :| WalkFrom(g, b, w) && BlockedAlong(outcomes, w);
      assert WalkFrom(g, id, [id] + w) && BlockedAlong(outcomes, [id] + w);
    }
  }

  /** What an unstarted node reads as, on any plan and whatever is known: paused exactly behind something known not
      to have succeeded, todo exactly when every dependency is known to have. */
  lemma DerivedMeans(g: Graph, outcomes: map<string, ExecutionOutcome>, st: map<string, WorkStatus>, id: string)
    requires IsDerived(g, outcomes, st) && id in g && id !in outcomes && !ReachesCycle(g, id)
    ensures st[id] == Paused <==> BlockedBelow(g, outcomes, id)
    ensures st[id] == Todo <==> forall b | b in g[id] :: b in g && b in outcomes && outcomes[b] == OutcomeSucceeded
  {
    ChainLengthExists(g, id);
    var d: nat :| LongestChain(g, id, d);
    DerivedMeansAt(g, outcomes, st, id, d);
  }

  lemma {:induction false} DerivedMeansAt(g: Graph, outcomes: map<string, ExecutionOutcome>, st: map<string, WorkStatus>,
                                          id: string, d: nat)
    requires IsDerived(g, outcomes, st) && id in g && id !in outcomes && LongestChain(g, id, d)
    ensures st[id] == Paused <==> BlockedBelow(g, outcomes, id)
    ensures st[id] == Todo <==> forall b | b in g[id] :: b in g && b in outcomes && outcomes[b] == OutcomeSucceeded
    decreases d
  {
    ChainLengthExists(g, id);
    BlockedStep(g, outcomes, id);
    forall b | b in g[id] && b in g && b !in outcomes
      ensures st[b] == Paused <==> BlockedBelow(g, outcomes, b)
      ensures st[b] != Done
    {
      assert Edge(g, id, b);
      var e := DependencyHasChain(g, id, d, b);
      ChainLengthExists(g, b);
      DerivedMeansAt(g, outcomes, st, b, e);
    }
    forall b | b in g[id] && b in g && b in outcomes
      ensures Unsuccessful(st[b]) <==> outcomes[b] != OutcomeRunning && outcomes[b] != OutcomeSucceeded
      ensures st[b] == Done <==> outcomes[b] == OutcomeSucceeded
    {
      OutcomeDecides(g, outcomes, st, b);
    }
    if b :| b in g[id] && b in st && Unsuccessful(st[b]) { assert Edge(g, id, b); }
  }

  // ----------------------------------------------------------- AggregateStatus

  /** The published precedence. */
  ghost predicate Aggregates(nodes: seq<WorkStatus>, s: WorkStatus) {
    match s
    case Failed => Failed in nodes
    case WaitingInput => Failed !in nodes && WaitingInput in nodes
    case InProgress =>
      && Failed !in nodes && WaitingInput !in nodes
      && (InProgress in nodes || (Paused !in nodes && Done in nodes && exists n :: n in nodes && n != Done))
    case Paused =>
      Failed !in nodes && WaitingInput !in nodes && InProgress !in nodes && Paused in nodes
    case Done => nodes != [] && forall n | n in nodes :: n == Done
    case Todo => forall n | n in nodes :: n == Todo || n == Waiting
    case Waiting => false
  }

  method AggregateStatus(nodes: seq<WorkStatus>) returns (s: WorkStatus)
    ensures Aggregates(nodes, s)
  {
    if |nodes| == 0 {
      return Todo;
    }
    var anyDone, anyOther := false, false;
    var seen: set<WorkStatus> := {};
    for k := 0 to |nodes|
      invariant seen == Elements(nodes[..k])
      invariant anyDone <==> Done in nodes[..k]
      invariant anyOther <==> exists n :: n in nodes[..k] && n != Done
    {
      TakeNext(nodes, k);
      assert forall n :: n in nodes[..k + 1] <==> n in nodes[..k] || n == nodes[k];
      seen := seen + {nodes[k]};
      if nodes[k] == Done {
        anyDone := true;
      } else {
        anyOther := true;
      }
    }
    assert nodes[..|nodes|] == nodes;
    assert forall n :: n in seen <==> n in nodes;
    if Failed in seen {
      return Failed;
    } else if WaitingInput in seen {
      return WaitingInput;
    } else if InProgress in seen {
      return InProgress;
    } else if Paused in seen {
      return Paused;
    } else if !anyOther {
      return Done;
    } else if anyDone {
      return InProgress;
    }
    return Todo;
  }

  /** What the aggregate tells about the nodes: which statuses are there decides, and never how often or in what
      order. What needs an operator comes first, then what is running, then what was skipped. */
  lemma AggregateMeans(nodes: seq<WorkStatus>, s: WorkStatus)
    requires Aggregates(nodes, s)
    ensures s == Failed <==> Failed in nodes
    ensures s == Failed || s == WaitingInput <==> Failed in nodes || WaitingInput in nodes
    ensures s == Paused <==> Paused in nodes && {Failed, WaitingInput, InProgress} !! Elements(nodes)
    ensures s == Done <==> nodes != [] && forall n | n in nodes :: n == Done
    ensures s == Todo <==> forall n | n in nodes :: n == Todo || n == Waiting
    ensures s != Waiting
  {
    if nodes != [] { assert nodes[0] in nodes; }
  }

  /** The precedence as the service tells it. */
  lemma AggregateIs(nodes: seq<WorkStatus>, s: WorkStatus)
    requires Aggregates(nodes, s)
    ensures s == if Failed in nodes then Failed
                 else if WaitingInput in nodes then WaitingInput
                 else if InProgress in nodes then InProgress
                 else if Paused in nodes then Paused
                 else if nodes != [] && forall n | n in nodes :: n == Done then Done
                 else if Done in nodes then InProgress
                 else Todo
  {
    if nodes != [] { assert nodes[0] in nodes; }
  }

  /** The precedence leaves exactly one answer. */
  lemma AggregateUnique(nodes: seq<WorkStatus>, s: WorkStatus, t: WorkStatus)
    requires Aggregates(nodes, s) && Aggregates(nodes, t)
    ensures s == t
  {
    if nodes != [] { assert nodes[0] in nodes; }
  }
}
