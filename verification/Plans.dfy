/** Fleet plans: acceptance (ValidatePlan, findCycle) and layering (TopoLayers) of
    internal/fleet/domain.go. */
module Plans {
  import opened Ordering
  import opened Graphs
  import opened Text

  datatype Node = Node(id: string, prompt: string, dependsOn: seq<string>)
  datatype Plan = Plan(goal: string, nodes: seq<Node>)

  datatype Verdict =
    | Accepted
    | NoNodes
    | EmptyId
    | BadId(id: string)
    | DuplicateId(id: string)
    | EmptyPrompt(id: string)
    | SelfDependency(id: string)
    | UnknownDependency(id: string, dep: string)
    | CyclicPlan(cycle: seq<string>)

  predicate SlugChar(c: char) {
    'A' <= c <= 'Z' || 'a' <= c <= 'z' || '0' <= c <= '9' || c == '_' || c == '-'
  }

  predicate Slug(s: string) {
    s != "" && forall c | c in s :: SlugChar(c)
  }

  function Ids(nodes: seq<Node>): seq<string> {
    seq(|nodes|, i requires 0 <= i < |nodes| => nodes[i].id)
  }

  /** The id-to-dependencies map every traversal starts by filling; a repeated id keeps its
      last entry. */
  function DepsOf(nodes: seq<Node>): Graph {
    if nodes == [] then map[] else
      var last := nodes[|nodes| - 1];
      DepsOf(nodes[..|nodes| - 1])[last.id := last.dependsOn]
  }

  method DependencyMap(nodes: seq<Node>) returns (deps: Graph)
    ensures deps == DepsOf(nodes)
  {
    deps := map[];
    for i := 0 to |nodes|
      invariant deps == DepsOf(nodes[..i])
    {
      deps := deps[nodes[i].id := nodes[i].dependsOn];
      TakeNext(nodes, i);
    }
    assert nodes[..|nodes|] == nodes;
  }

  lemma {:induction false} DepsOfKeys(nodes: seq<Node>)
    ensures DepsOf(nodes).Keys == Elements(Ids(nodes))
  {
    if nodes != [] {
      var k := |nodes| - 1;
      DepsOfKeys(nodes[..k]);
      assert Ids(nodes) == Ids(nodes[..k]) + [nodes[k].id];
    } else {
      assert Ids(nodes) == [];
    }
  }

  lemma {:induction false} DepsOfNode(nodes: seq<Node>, i: nat)
    requires i < |nodes| && Distinct(Ids(nodes))
    ensures nodes[i].id in DepsOf(nodes) && DepsOf(nodes)[nodes[i].id] == nodes[i].dependsOn
  {
    var k := |nodes| - 1;
    if i < k {
      assert Ids(nodes)[i] != Ids(nodes)[k];
      assert forall a | 0 <= a < k :: Ids(nodes[..k])[a] == Ids(nodes)[a];
      DepsOfNode(nodes[..k], i);
    }
  }

  ghost predicate GoodEdges(n: Node, ids: set<string>) {
    forall dep | dep in n.dependsOn :: dep != n.id && dep in ids
  }

  /** Everything ValidatePlan asks of a plan short of acyclicity. */
  ghost predicate WellFormed(plan: Plan) {
    && plan.nodes != []
    && Distinct(Ids(plan.nodes))
    && (forall n | n in plan.nodes :: Slug(n.id) && !Blank(n.prompt))
    && (forall n | n in plan.nodes :: GoodEdges(n, Elements(Ids(plan.nodes))))
  }

  ghost predicate Valid(plan: Plan) {
    WellFormed(plan) && Acyclic(DepsOf(plan.nodes))
  }

  /** In a well-formed plan every dependency is a node. */
  ghost predicate Closed(g: Graph) {
    forall a, b | a in g && b in g[a] :: b in g
  }

  lemma WellFormedClosed(plan: Plan)
    requires WellFormed(plan)
    ensures Closed(DepsOf(plan.nodes))
  {
    var g := DepsOf(plan.nodes);
    DepsOfKeys(plan.nodes);
    forall a, b | a in g && b in g[a] ensures b in g {
      assert a in Ids(plan.nodes);
      var i :| 0 <= i < |plan.nodes| && Ids(plan.nodes)[i] == a;
      DepsOfNode(plan.nodes, i);
      assert GoodEdges(plan.nodes[i], Elements(Ids(plan.nodes)));
    }
  }

  // ---------------------------------------------------------------- findCycle

  datatype Color = Gray | Black

  function DepsAt(g: Graph, id: string): seq<string> {
    if id in g then g[id] else []
  }

  /** Every id a traversal can meet. */
  ghost function Universe(g: Graph): set<string> {
    g.Keys + (set a, b | a in g && b in g[a] :: b)
  }

  ghost predicate Covers(all: set<string>, g: Graph) {
    forall a, b | b in DepsAt(g, a) :: b in all
  }

  /** The path is grey, without repeats, and follows edges. */
  ghost predicate PathOk(deps: Graph, color: map<string, Color>, stack: seq<string>) {
    && (forall id | id in stack :: id in color && color[id] == Gray)
    && (forall id | id in color && color[id] == Gray :: id in stack)
    && Distinct(stack)
    && (forall i | 0 <= i < |stack| - 1 :: stack[i + 1] in DepsAt(deps, stack[i]))
  }

  /** Black nodes are numbered in the order of turning black, every dependency earlier. */
  ghost predicate RankOk(deps: Graph, color: map<string, Color>, rank: map<string, nat>, clock: nat) {
    && (forall id | id in rank :: id in color && color[id] == Black && rank[id] < clock)
    && (forall id | id in color && color[id] == Black :: id in rank)
    && (forall a, b | a in rank && b in DepsAt(deps, a) :: b in rank && rank[b] < rank[a])
  }

  lemma PushKeeps(deps: Graph, color: map<string, Color>, stack: seq<string>,
                  rank: map<string, nat>, clock: nat, id: string)
    requires PathOk(deps, color, stack) && RankOk(deps, color, rank, clock) && id !in color
    requires stack == [] || id in DepsAt(deps, stack[|stack| - 1])
    ensures PathOk(deps, color[id := Gray], stack + [id])
    ensures RankOk(deps, color[id := Gray], rank, clock)
  {
  }

  lemma PopKeeps(deps: Graph, color: map<string, Color>, stack: seq<string>,
                 rank: map<string, nat>, clock: nat, id: string)
    requires PathOk(deps, color, stack + [id]) && RankOk(deps, color, rank, clock)
    requires forall b | b in DepsAt(deps, id) :: b in rank
    ensures PathOk(deps, color[id := Black], stack)
    ensures RankOk(deps, color[id := Black], rank[id := clock], clock + 1)
  {
    var path := stack + [id];
    assert path[|stack|] == id;
    assert forall k | 0 <= k < |stack| :: path[k] == stack[k];
    assert id in path && id !in rank;
  }

  /** An edge from the top of the path back into the path closes a cycle. */
  lemma BackEdgeCloses(deps: Graph, stack: seq<string>, i: nat, dep: string)
    requires forall k | 0 <= k < |stack| - 1 :: stack[k + 1] in DepsAt(deps, stack[k])
    requires i < |stack| && stack[i] == dep && dep in DepsAt(deps, stack[|stack| - 1])
    ensures Cycle(deps, stack[i..] + [dep])
  {
    var w := stack[i..] + [dep];
    forall k | 0 <= k < |w| - 1 ensures w[k + 1] in DepsAt(deps, w[k]) {
      if k < |w| - 2 { assert w[k] == stack[i + k] && w[k + 1] == stack[i + k + 1]; }
    }
    assert w[0 + 1] in DepsAt(deps, w[0]);
    forall k | 0 <= k < |w| - 1 ensures Edge(deps, w[k], w[k + 1]) {
      if k + 1 < |w| - 1 { assert w[k + 1 + 1] in DepsAt(deps, w[k + 1]); }
    }
  }

  /** When every node is black, no cycle exists. */
  lemma AllBlackIsAcyclic(g: Graph, color: map<string, Color>, rank: map<string, nat>, clock: nat)
    requires RankOk(g, color, rank, clock) && g.Keys <= rank.Keys
    ensures Acyclic(g)
  {
    var onNodes := map id | id in g :: rank[id];
    assert Ranks(g, onNodes);
    RankedIsAcyclic(g, onNodes);
  }

  /** The depth-first search of findCycle.  An id without a colour is white. */
  class CycleSearch {
    const deps: Graph
    var color: map<string, Color>
    var stack: seq<string>
    ghost const all: set<string>
    ghost var rank: map<string, nat>
    ghost var clock: nat

    ghost predicate Consistent()
      reads this
    {
      && PathOk(deps, color, stack)
      && RankOk(deps, color, rank, clock)
      && color.Keys <= all && Covers(all, deps)
    }

    constructor (deps: Graph)
      ensures this.deps == deps && Consistent()
      ensures stack == [] && rank == map[] && deps.Keys <= all
    {
      this.deps := deps;
      color, stack, rank, clock := map[], [], map[], 0;
      all := Universe(deps);
      new;
      forall a, b | b in DepsAt(deps, a) ensures b in all {
        assert a in deps && b in deps[a];
      }
    }

    /** Renders the cycle from where `dep` first appears on the path. */
    method CycleFrom(dep: string) returns (cycle: seq<string>)
      requires PathOk(deps, color, stack)
      requires dep in stack && dep in DepsAt(deps, stack[|stack| - 1])
      ensures cycle != [] && Cycle(deps, cycle)
    {
      var i := 0;
      while stack[i] != dep
        invariant 0 <= i < |stack| && dep in stack[i..]
        decreases |stack| - i
      {
        i := i + 1;
      }
      BackEdgeCloses(deps, stack, i, dep);
      return stack[i..] + [dep];
    }

    /** Explores `id`: either reports a cycle, or leaves `id` and everything below it black
        and the path as it was. */
    method Visit(id: string) returns (cycle: seq<string>)
      requires Consistent() && id !in color && id in all
      requires stack == [] || id in DepsAt(deps, stack[|stack| - 1])
      modifies this
      ensures cycle != [] ==> Cycle(deps, cycle)
      ensures cycle == [] ==> Consistent() && stack == old(stack) && id in rank
      ensures cycle == [] ==> old(rank).Keys <= rank.Keys && |old(color)| <= |color|
      decreases |all| - |color|, 0
    {
      CardinalitySubset(color.Keys, all);
      Enter(id);
      cycle := VisitDependencies(id);
      if cycle == [] {
        Leave(id);
      }
    }

    /** Puts `id` on the path. */
    method Enter(id: string)
      requires Consistent() && id !in color && id in all
      requires stack == [] || id in DepsAt(deps, stack[|stack| - 1])
      modifies this`color, this`stack
      ensures Consistent() && stack == old(stack) + [id] && color == old(color)[id := Gray]
      ensures |color| <= |all|
    {
      PushKeeps(deps, color, stack, rank, clock, id);
      color := color[id := Gray];
      stack := stack + [id];
      CardinalitySubset(color.Keys, all);
    }

    /** Takes the fully explored top of the path off and makes it black. */
    method Leave(id: string)
      requires Consistent() && stack != [] && stack[|stack| - 1] == id && id in color
      requires forall b | b in DepsAt(deps, id) :: b in rank
      modifies this
      ensures Consistent() && stack == old(stack)[..|old(stack)| - 1]
      ensures rank.Keys == old(rank).Keys + {id} && |color| == |old(color)|
    {
      assert stack == stack[..|stack| - 1] + [id];
      PopKeeps(deps, color, stack[..|stack| - 1], rank, clock, id);
      rank, clock := rank[id := clock], clock + 1;
      stack := stack[..|stack| - 1];
      color := color[id := Black];
    }

    /** The loop over the dependencies of the node on top of the path. */
    method VisitDependencies(id: string) returns (cycle: seq<string>)
      requires Consistent() && stack != [] && stack[|stack| - 1] == id && id in all
      modifies this
      ensures cycle != [] ==> Cycle(deps, cycle)
      ensures cycle == [] ==> Consistent() && stack == old(stack) && id in color
      ensures cycle == [] ==> old(rank).Keys <= rank.Keys && |old(color)| <= |color|
      ensures cycle == [] ==> forall b | b in DepsAt(deps, id) :: b in rank
      decreases |all| - |color|, 1
    {
      CardinalitySubset(color.Keys, all);
      var ds := DepsAt(deps, id);
      for k := 0 to |ds|
        invariant Consistent() && stack == old(stack)
        invariant old(rank).Keys <= rank.Keys && |old(color)| <= |color|
        invariant forall b | b in ds[..k] :: b in rank
      {
        TakeNext(ds, k);
        assert ds[k] in all;
        if ds[k] !in color {
          cycle := Visit(ds[k]);
          if cycle != [] {
            return;
          }
        } else if color[ds[k]] == Gray {
          cycle := CycleFrom(ds[k]);
          return;
        }
      }
      return [];
    }
  }

  /** Sound and complete: an answer is a closed walk, no answer is an acyclic graph. */
  method FindCycle(plan: Plan) returns (cycle: seq<string>)
    ensures cycle != [] ==> Cycle(DepsOf(plan.nodes), cycle)
    ensures cycle == [] ==> Acyclic(DepsOf(plan.nodes))
  {
    var deps := DependencyMap(plan.nodes);
    DepsOfKeys(plan.nodes);
    var ids := Ids(plan.nodes);
    var search := new CycleSearch(deps);
    for k := 0 to |ids|
      invariant search.Consistent() && search.deps == deps && search.stack == []
      invariant forall id | id in ids[..k] :: id in search.rank
    {
      TakeNext(ids, k);
      assert ids[k] in Elements(ids);
      if ids[k] !in search.color {
        var c := search.Visit(ids[k]);
        if c != [] {
          return c;
        }
      }
    }
    forall id | id in deps ensures id in search.rank { assert id in ids[..|ids|]; }
    AllBlackIsAcyclic(deps, search.color, search.rank, search.clock);
    return [];
  }

  // -------------------------------------------------------------- ValidatePlan

  ghost predicate RefusalHolds(plan: Plan, v: Verdict) {
    match v
    case Accepted => Valid(plan)
    case NoNodes => plan.nodes == []
    case EmptyId => exists n :: n in plan.nodes && Blank(n.id)
    case BadId(id) => id in Ids(plan.nodes) && !Slug(id)
    case DuplicateId(id) =>
      exists i, j :: 0 <= i < j < |plan.nodes| && plan.nodes[i].id == plan.nodes[j].id == id
    case EmptyPrompt(id) => exists n :: n in plan.nodes && n.id == id && Blank(n.prompt)
    case SelfDependency(id) => exists n :: n in plan.nodes && n.id == id && id in n.dependsOn
    case UnknownDependency(id, dep) =>
      dep !in Ids(plan.nodes) && exists n :: n in plan.nodes && n.id == id && dep in n.dependsOn
    case CyclicPlan(cycle) => WellFormed(plan) && Cycle(DepsOf(plan.nodes), cycle)
  }

  /** A node, taken alone and against the ones before it. */
  predicate NodeFine(nodes: seq<Node>, i: nat)
    requires i < |nodes|
  {
    Slug(nodes[i].id) && nodes[i].id !in Ids(nodes[..i]) && !Blank(nodes[i].prompt)
  }

  /** What is said of a node that is not fine: the first of its own defects. */
  function NodeDefect(nodes: seq<Node>, i: nat): Verdict
    requires i < |nodes|
  {
    var n := nodes[i];
    if Blank(n.id) then EmptyId
    else if !Slug(n.id) then BadId(n.id)
    else if n.id in Ids(nodes[..i]) then DuplicateId(n.id)
    else EmptyPrompt(n.id)
  }

  predicate EdgeFine(nodes: seq<Node>, i: nat, k: nat)
    requires i < |nodes| && k < |nodes[i].dependsOn|
  {
    nodes[i].dependsOn[k] != nodes[i].id && nodes[i].dependsOn[k] in Ids(nodes)
  }

  function EdgeDefect(nodes: seq<Node>, i: nat, k: nat): Verdict
    requires i < |nodes| && k < |nodes[i].dependsOn|
  {
    if nodes[i].dependsOn[k] == nodes[i].id then SelfDependency(nodes[i].id)
    else UnknownDependency(nodes[i].id, nodes[i].dependsOn[k])
  }

  ghost predicate FirstBadNode(nodes: seq<Node>, i: nat) {
    i < |nodes| && !NodeFine(nodes, i) && forall j | 0 <= j < i :: NodeFine(nodes, j)
  }

  ghost predicate FirstBadEdge(nodes: seq<Node>, i: nat, k: nat) {
    && i < |nodes| && k < |nodes[i].dependsOn| && !EdgeFine(nodes, i, k)
    && (forall m | 0 <= m < k :: EdgeFine(nodes, i, m))
    && (forall j, m | 0 <= j < i && 0 <= m < |nodes[j].dependsOn| :: EdgeFine(nodes, j, m))
  }

  /** The refusal is for the first defect: of the first bad node, or, where all nodes are fine, of the first bad edge;
      a cycle is only reported of a plan that is fine otherwise. */
  ghost predicate FirstDefect(plan: Plan, v: Verdict) {
    var nodes := plan.nodes;
    match v
    case Accepted => true
    case NoNodes => nodes == []
    case CyclicPlan(_) => WellFormed(plan)
    case SelfDependency(_) => NodesFine(nodes) && exists i: nat, k: nat :: FirstBadEdge(nodes, i, k) && v == EdgeDefect(nodes, i, k)
    case UnknownDependency(_, _) =>
      NodesFine(nodes) && exists i: nat, k: nat :: FirstBadEdge(nodes, i, k) && v == EdgeDefect(nodes, i, k)
    case _ => exists i: nat :: FirstBadNode(nodes, i) && v == NodeDefect(nodes, i)
  }

  ghost predicate NodesFine(nodes: seq<Node>) {
    forall j | 0 <= j < |nodes| :: NodeFine(nodes, j)
  }

  /** What is said of a node is true of it, and nothing that is looked for before is. */
  ghost predicate NodeRefused(nodes: seq<Node>, i: nat, v: Verdict)
    requires i < |nodes|
  {
    var n := nodes[i];
    match v
    case EmptyId => Blank(n.id)
    case BadId(id) => n.id == id && !Blank(id) && !Slug(id)
    case DuplicateId(id) => n.id == id && Slug(id) && exists j :: 0 <= j < i && nodes[j].id == id
    case EmptyPrompt(id) => n.id == id && Slug(id) && Blank(n.prompt) && forall j | 0 <= j < i :: nodes[j].id != id
    case _ => false
  }

  ghost predicate EdgeRefused(nodes: seq<Node>, i: nat, k: nat, v: Verdict)
    requires i < |nodes| && k < |nodes[i].dependsOn|
  {
    var n, dep := nodes[i], nodes[i].dependsOn[k];
    match v
    case SelfDependency(id) => n.id == id == dep
    case UnknownDependency(id, unknown) => n.id == id != dep && unknown == dep
    case _ => false
  }

  /** A plan is refused for having no nodes, for a node's or an edge's first defect, or for a cycle. */
  lemma DefectsInOrder(plan: Plan, v: Verdict)
    requires FirstDefect(plan, v)
    ensures || v.Accepted? || v.NoNodes? || v.CyclicPlan?
            || (exists i: nat :: FirstBadNode(plan.nodes, i) && NodeRefused(plan.nodes, i, v))
            || (exists i: nat, k: nat :: FirstBadEdge(plan.nodes, i, k) && EdgeRefused(plan.nodes, i, k, v))
  {
    if i: nat :| FirstBadNode(plan.nodes, i) && v == NodeDefect(plan.nodes, i) {
      assert forall j | 0 <= j < i :: Ids(plan.nodes[..i])[j] == plan.nodes[j].id;
      assert NodeRefused(plan.nodes, i, v);
    }
    if i: nat, k: nat :| FirstBadEdge(plan.nodes, i, k) && v == EdgeDefect(plan.nodes, i, k) {
      assert EdgeRefused(plan.nodes, i, k, v);
    }
  }

  lemma {:induction false} FineIdsDistinct(nodes: seq<Node>)
    requires NodesFine(nodes)
    ensures Distinct(Ids(nodes))
  {
    forall i, j | 0 <= i < j < |nodes| ensures Ids(nodes)[i] != Ids(nodes)[j] {
      assert NodeFine(nodes, j);
      assert Ids(nodes[..j])[i] == nodes[i].id;
    }
  }

  /** A plan is well formed exactly when no node and no edge is bad. */
  lemma WellFormedIsFine(plan: Plan)
    ensures WellFormed(plan) <==>
            && plan.nodes != [] && NodesFine(plan.nodes)
            && forall i, k | 0 <= i < |plan.nodes| && 0 <= k < |plan.nodes[i].dependsOn| :: EdgeFine(plan.nodes, i, k)
  {
    var nodes := plan.nodes;
    if NodesFine(nodes) {
      FineIdsDistinct(nodes);
      forall n | n in nodes ensures Slug(n.id) && !Blank(n.prompt) {
        var i :| 0 <= i < |nodes| && nodes[i] == n;
        assert NodeFine(nodes, i);
      }
      if forall i, k | 0 <= i < |nodes| && 0 <= k < |nodes[i].dependsOn| :: EdgeFine(nodes, i, k) {
        FineEdgesAreGood(nodes);
      } else {
        var i, k :| 0 <= i < |nodes| && 0 <= k < |nodes[i].dependsOn| && !EdgeFine(nodes, i, k);
        assert nodes[i] in nodes && nodes[i].dependsOn[k] in nodes[i].dependsOn;
      }
    } else {
      var j :| 0 <= j < |nodes| && !NodeFine(nodes, j);
      BadNodeIsBad(plan, j);
    }
  }

  lemma FineEdgesAreGood(nodes: seq<Node>)
    requires forall i, k | 0 <= i < |nodes| && 0 <= k < |nodes[i].dependsOn| :: EdgeFine(nodes, i, k)
    ensures forall n | n in nodes :: GoodEdges(n, Elements(Ids(nodes)))
  {
    forall n | n in nodes ensures GoodEdges(n, Elements(Ids(nodes))) {
      var i :| 0 <= i < |nodes| && nodes[i] == n;
      forall dep | dep in n.dependsOn ensures dep != n.id && dep in Elements(Ids(nodes)) {
        var k :| 0 <= k < |n.dependsOn| && n.dependsOn[k] == dep;
        assert EdgeFine(nodes, i, k);
      }
    }
  }

  /** A bad node has the defect it is refused for, and no plan with it is well formed. */
  lemma BadNodeIsBad(plan: Plan, i: nat)
    requires i < |plan.nodes| && !NodeFine(plan.nodes, i)
    ensures RefusalHolds(plan, NodeDefect(plan.nodes, i)) && !WellFormed(plan)
  {
    var nodes := plan.nodes;
    var n := nodes[i];
    assert n in nodes && Ids(nodes)[i] == n.id;
    if Blank(n.id) {
      if n.id != "" { assert n.id[0] in n.id; }
    } else if Slug(n.id) && n.id in Ids(nodes[..i]) {
      var j :| 0 <= j < i && Ids(nodes[..i])[j] == n.id;
      assert Ids(nodes)[j] == Ids(nodes)[i];
      assert nodes[j].id == nodes[i].id == n.id;
    }
  }

  lemma BadEdgeIsBad(plan: Plan, i: nat, k: nat)
    requires FirstBadEdge(plan.nodes, i, k)
    ensures RefusalHolds(plan, EdgeDefect(plan.nodes, i, k)) && !WellFormed(plan)
  {
    var n := plan.nodes[i];
    assert n in plan.nodes && n.dependsOn[k] in n.dependsOn;
    assert n.dependsOn[k] in Elements(Ids(plan.nodes)) <==> n.dependsOn[k] in Ids(plan.nodes);
    assert !GoodEdges(n, Elements(Ids(plan.nodes)));
  }

  /** Apart from which cycle is shown, a plan is refused in one way. */
  lemma RefusalUnique(plan: Plan, v: Verdict, w: Verdict)
    requires FirstDefect(plan, v) && FirstDefect(plan, w) && RefusalHolds(plan, v) && RefusalHolds(plan, w)
    ensures v == w || (v.CyclicPlan? && w.CyclicPlan?)
  {
    WellFormedIsFine(plan);
    RefusalKind(plan, v);
    RefusalKind(plan, w);
    var nodes := plan.nodes;
    if nodes != [] && !WellFormed(plan) {
      if NodesFine(nodes) {
        var i: nat, k: nat :| FirstBadEdge(nodes, i, k) && v == EdgeDefect(nodes, i, k);
        var j: nat, m: nat :| FirstBadEdge(nodes, j, m) && w == EdgeDefect(nodes, j, m);
        assert i == j && k == m;
      } else {
        var i: nat :| FirstBadNode(nodes, i) && v == NodeDefect(nodes, i);
        var j: nat :| FirstBadNode(nodes, j) && w == NodeDefect(nodes, j);
        assert i == j;
      }
    }
  }

  /** Which kind of refusal a plan gets, by what is wrong with it. */
  lemma RefusalKind(plan: Plan, v: Verdict)
    requires FirstDefect(plan, v) && RefusalHolds(plan, v)
    ensures WellFormed(plan) <==> v.Accepted? || v.CyclicPlan?
    ensures plan.nodes == [] <==> v.NoNodes?
    ensures plan.nodes != [] && !WellFormed(plan) && NodesFine(plan.nodes) <==> v.SelfDependency? || v.UnknownDependency?
  {
    WellFormedIsFine(plan);
  }

  /** Accepts exactly the well-formed acyclic plans, and refuses every other one for its first defect. */
  method ValidatePlan(plan: Plan) returns (v: Verdict)
    ensures v.Accepted? <==> Valid(plan)
    ensures RefusalHolds(plan, v) && FirstDefect(plan, v)
  {
    if |plan.nodes| == 0 { return NoNodes; }
    WellFormedIsFine(plan);
    var seen;
    v, seen := CheckNodes(plan);
    if !v.Accepted? { return; }
    v := CheckEdges(plan, seen);
    if !v.Accepted? { return; }
    var cycle := FindCycle(plan);
    if cycle != [] { return CyclicPlan(cycle); }
    return Accepted;
  }

  /** The node check stops at the first bad node. */
  method CheckNodes(plan: Plan) returns (v: Verdict, seen: set<string>)
    ensures v.Accepted? <==> NodesFine(plan.nodes)
    ensures v.Accepted? ==> seen == Elements(Ids(plan.nodes))
    ensures v.Accepted? || (exists i: nat :: FirstBadNode(plan.nodes, i) && v == NodeDefect(plan.nodes, i))
    ensures v.Accepted? || (RefusalHolds(plan, v) && FirstDefect(plan, v) && !WellFormed(plan))
  {
    var nodes := plan.nodes;
    v, seen := Accepted, {};
    for i := 0 to |nodes|
      invariant v == Accepted && seen == Elements(Ids(nodes[..i]))
      invariant forall j | 0 <= j < i :: NodeFine(nodes, j)
    {
      var n := nodes[i];
      assert n.id in seen <==> n.id in Ids(nodes[..i]);
      if Blank(n.id) {
        v := EmptyId;
      } else if !Slug(n.id) {
        v := BadId(n.id);
      } else if n.id in seen {
        v := DuplicateId(n.id);
      } else if Blank(n.prompt) {
        v := EmptyPrompt(n.id);
      }
      if v != Accepted {
        BlankIsNoSlug(n.id);
        assert FirstBadNode(nodes, i) && v == NodeDefect(nodes, i);
        BadNodeIsBad(plan, i);
        return;
      }
      seen := seen + {n.id};
      assert Ids(nodes[..i + 1]) == Ids(nodes[..i]) + [n.id];
    }
    assert nodes[..|nodes|] == nodes;
  }

  lemma BlankIsNoSlug(id: string)
    ensures Blank(id) ==> !Slug(id)
  {
    if id != "" { assert id[0] in id; }
  }

  /** The edge check stops at the first bad edge. */
  method CheckEdges(plan: Plan, ids: set<string>) returns (v: Verdict)
    requires ids == Elements(Ids(plan.nodes)) && NodesFine(plan.nodes)
    ensures v.Accepted? <==>
            forall i, k | 0 <= i < |plan.nodes| && 0 <= k < |plan.nodes[i].dependsOn| :: EdgeFine(plan.nodes, i, k)
    ensures v.Accepted? || (RefusalHolds(plan, v) && FirstDefect(plan, v) && !WellFormed(plan))
  {
    var nodes := plan.nodes;
    for i := 0 to |nodes|
      invariant forall j, m | 0 <= j < i && 0 <= m < |nodes[j].dependsOn| :: EdgeFine(nodes, j, m)
    {
      for k := 0 to |nodes[i].dependsOn|
        invariant forall m | 0 <= m < k :: EdgeFine(nodes, i, m)
      {
        var dep := nodes[i].dependsOn[k];
        assert dep in ids <==> dep in Ids(nodes);
        if dep == nodes[i].id || dep !in ids {
          assert FirstBadEdge(nodes, i, k);
          BadEdgeIsBad(plan, i, k);
          v := if dep == nodes[i].id then SelfDependency(nodes[i].id) else UnknownDependency(nodes[i].id, dep);
          assert v == EdgeDefect(nodes, i, k);
          return;
        }
      }
    }
    return Accepted;
  }

  // ---------------------------------------------------------------- TopoLayers

  ghost function ChainClass(g: Graph, d: nat): set<string> {
    set id | id in g && LongestChain(g, id, d)
  }

  /** Layer `i` lists, ascending, exactly the nodes whose longest dependency chain has `i`
      edges; every node is in a layer and no layer is empty. */
  ghost predicate IsLayering(g: Graph, layers: seq<seq<string>>) {
    && (forall i | 0 <= i < |layers| :: layers[i] == Listing(ChainClass(g, i)) && layers[i] != [])
    && (forall id | id in g :: exists i: nat :: i < |layers| && LongestChain(g, id, i))
  }

  ghost predicate Extends(before: map<string, nat>, after: map<string, nat>) {
    forall x | x in before :: x in after && after[x] == before[x]
  }

  /** `top` is the largest recorded depth among `ds`, or -1 when there is none. */
  ghost predicate IsTop(ds: seq<string>, depth: map<string, nat>, top: int) {
    && (forall b | b in ds :: b in depth && depth[b] <= top)
    && (top == -1 || exists b :: b in ds && b in depth && depth[b] == top)
  }

  lemma TopExtends(ds: seq<string>, k: nat, before: map<string, nat>, after: map<string, nat>, top: int)
    requires k < |ds| && IsTop(ds[..k], before, top) && Extends(before, after) && ds[k] in after
    ensures IsTop(ds[..k + 1], after, if after[ds[k]] > top then after[ds[k]] else top)
  {
    TakeNext(ds, k);
    var t := if after[ds[k]] > top then after[ds[k]] else top;
    if t == after[ds[k]] {
      assert ds[k] in ds[..k + 1];
    } else {
      var b :| b in ds[..k] && b in before && before[b] == top;
      assert b in ds[..k + 1];
    }
  }

  /** The memoised recursion of TopoLayers. */
  class ChainMemo {
    const deps: Graph
    var depth: map<string, nat>

    ghost predicate Consistent()
      reads this
    {
      forall id | id in depth :: id in deps && LongestChain(deps, id, depth[id])
    }

    constructor (deps: Graph)
      ensures this.deps == deps && Consistent() && depth == map[]
    {
      this.deps := deps;
      depth := map[];
    }

    /** Terminates by the rank an acyclic graph has. */
    method Compute(id: string, ghost rank: map<string, nat>) returns (d: nat)
      requires Consistent() && id in deps
      requires Closed(deps) && Ranks(deps, rank)
      modifies this
      ensures Consistent() && id in depth && depth[id] == d
      ensures Extends(old(depth), depth)
      decreases rank[id]
    {
      if id in depth {
        return depth[id];
      }
      var top: int := -1;
      var ds := deps[id];
      for k := 0 to |ds|
        invariant Consistent() && top >= -1 && Extends(old(depth), depth)
        invariant IsTop(ds[..k], depth, top)
      {
        assert Edge(deps, id, ds[k]);
        ghost var before := depth;
        var e := Compute(ds[k], rank);
        TopExtends(ds, k, before, depth, top);
        if e > top {
          top := e;
        }
      }
      assert ds[..|ds|] == ds;
      MemoStep(deps, id, depth, top);
      d := top + 1;
      depth := depth[id := d];
    }
  }

  lemma MemoStep(deps: Graph, id: string, depth: map<string, nat>, top: int)
    requires id in deps && Closed(deps)
    requires forall x | x in depth :: x in deps && LongestChain(deps, x, depth[x])
    requires IsTop(deps[id], depth, top)
    ensures top >= -1 && LongestChain(deps, id, top + 1)
  {
    if top != -1 {
      var b :| b in deps[id] && depth[b] == top;
      assert Edge(deps, id, b);
    }
    LongestChainStep(deps, id, depth, top);
  }

  /** The ids at one depth, in plan order. */
  function AtDepth(ids: seq<string>, depth: map<string, nat>, d: nat): seq<string>
    requires forall id | id in ids :: id in depth
  {
    if ids == [] then [] else
      var k := |ids| - 1;
      AtDepth(ids[..k], depth, d) + (if depth[ids[k]] == d then [ids[k]] else [])
  }

  lemma {:induction false} AtDepthElements(ids: seq<string>, depth: map<string, nat>, d: nat)
    requires forall id | id in ids :: id in depth
    requires Distinct(ids)
    ensures forall id :: id in AtDepth(ids, depth, d) <==> id in ids && depth[id] == d
    ensures Distinct(AtDepth(ids, depth, d))
  {
    if ids != [] {
      var k := |ids| - 1;
      AtDepthElements(ids[..k], depth, d);
      assert ids == ids[..k] + [ids[k]];
      assert ids[k] !in ids[..k];
      assert ids[k] !in AtDepth(ids[..k], depth, d);
    }
  }

  /** A layer of the program is a chain class in ascending order. */
  lemma LayerListing(g: Graph, ids: seq<string>, depth: map<string, nat>, d: nat)
    requires Distinct(ids) && Elements(ids) == g.Keys
    requires forall id | id in ids :: id in depth && LongestChain(g, id, depth[id])
    ensures SortBy(Less, AtDepth(ids, depth, d)) == Listing(ChainClass(g, d))
  {
    AtDepthElements(ids, depth, d);
    SortedListing(AtDepth(ids, depth, d));
    forall id ensures id in AtDepth(ids, depth, d) <==> id in ChainClass(g, d) {
      assert id in ids <==> id in Elements(ids);
      if id in ChainClass(g, d) { LongestChainUnique(g, id, d, depth[id]); }
    }
    assert Elements(AtDepth(ids, depth, d)) == ChainClass(g, d);
  }

  /** Below a node of chain length `d` every smaller length occurs. */
  lemma {:induction false} NoLengthGap(g: Graph, id: string, d: nat, i: nat)
    requires id in g && LongestChain(g, id, d) && i <= d
    ensures ChainClass(g, i) != {}
    decreases d
  {
    if i == d {
      assert id in ChainClass(g, i);
    } else {
      var b := LongestChainPredecessor(g, id, d);
      NoLengthGap(g, b, d - 1, i);
    }
  }

  method ComputeDepths(ids: seq<string>, deps: Graph) returns (depth: map<string, nat>, maxDepth: nat)
    requires Elements(ids) == deps.Keys && Closed(deps) && Acyclic(deps)
    ensures forall id | id in ids :: id in depth && LongestChain(deps, id, depth[id]) && depth[id] <= maxDepth
    ensures maxDepth == 0 || exists id :: id in ids && id in depth && depth[id] == maxDepth
  {
    ghost var rank := AcyclicHasRank(deps);
    var memo := new ChainMemo(deps);
    maxDepth := 0;
    ghost var top: int := -1;
    for k := 0 to |ids|
      invariant memo.Consistent() && memo.deps == deps
      invariant IsTop(ids[..k], memo.depth, top) && maxDepth == if top > 0 then top else 0
    {
      assert ids[k] in Elements(ids);
      ghost var before := memo.depth;
      var d := memo.Compute(ids[k], rank);
      TopExtends(ids, k, before, memo.depth, top);
      top := if d > top then d else top;
      if d > maxDepth {
        maxDepth := d;
      }
    }
    assert ids[..|ids|] == ids;
    depth := memo.depth;
  }

  datatype Layering = Layers(layers: seq<seq<string>>) | Refused(verdict: Verdict)

  method TopoLayers(plan: Plan) returns (r: Layering)
    ensures r.Layers? <==> Valid(plan)
    ensures r.Layers? ==> IsLayering(DepsOf(plan.nodes), r.layers)
    ensures r.Refused? ==> RefusalHolds(plan, r.verdict) && FirstDefect(plan, r.verdict)
  {
    var v := ValidatePlan(plan);
    if !v.Accepted? {
      return Refused(v);
    }
    var deps := DependencyMap(plan.nodes);
    DepsOfKeys(plan.nodes);
    WellFormedClosed(plan);
    var ids := Ids(plan.nodes);
    var depth, maxDepth := ComputeDepths(ids, deps);
    var layers := FillLayers(ids, depth, maxDepth);
    forall i: nat | i < |layers| ensures layers[i] == Listing(ChainClass(deps, i)) && layers[i] != [] {
      LayerListing(deps, ids, depth, i);
      SomeNodeAt(deps, ids, depth, maxDepth, i);
      assert Elements(layers[i]) != {};
    }
    forall id | id in deps ensures exists i: nat :: i < |layers| && LongestChain(deps, id, i) {
      assert id in ids;
      assert depth[id] < |layers|;
    }
    return Layers(layers);
  }

  lemma SomeNodeAt(g: Graph, ids: seq<string>, depth: map<string, nat>, maxDepth: nat, i: nat)
    requires ids != [] && Elements(ids) == g.Keys && i <= maxDepth
    requires forall id | id in ids :: id in depth && LongestChain(g, id, depth[id])
    requires maxDepth == 0 || exists id :: id in ids && depth[id] == maxDepth
    ensures ChainClass(g, i) != {}
  {
    var id := ids[0];
    if maxDepth > 0 { id :| id in ids && depth[id] == maxDepth; }
    assert id in Elements(ids);
    NoLengthGap(g, id, depth[id], i);
  }

  /** Buckets the ids by depth and sorts each bucket. */
  method FillLayers(ids: seq<string>, depth: map<string, nat>, maxDepth: nat) returns (r: seq<seq<string>>)
    requires forall id | id in ids :: id in depth && depth[id] <= maxDepth
    ensures |r| == maxDepth + 1
    ensures forall i: nat | i < |r| :: r[i] == SortBy(Less, AtDepth(ids, depth, i))
  {
    var layers := new seq<string>[maxDepth + 1](_ => []);
    for k := 0 to |ids|
      invariant forall id | id in ids[..k] :: id in depth
      invariant forall i: nat | i <= maxDepth :: layers[i] == AtDepth(ids[..k], depth, i)
    {
      var d := depth[ids[k]];
      layers[d] := layers[d] + [ids[k]];
      assert ids[..k + 1][..k] == ids[..k];
    }
    assert ids[..|ids|] == ids;
    for i := 0 to layers.Length
      invariant forall j: nat | j < i :: layers[j] == SortBy(Less, AtDepth(ids, depth, j))
      invariant forall j: nat | i <= j <= maxDepth :: layers[j] == AtDepth(ids, depth, j)
    {
      layers[i] := SortBy(Less, layers[i]);
    }
    return layers[..];
  }

  /** The layering is determined by the graph. */
  lemma LayeringUnique(g: Graph, a: seq<seq<string>>, b: seq<seq<string>>)
    requires IsLayering(g, a) && IsLayering(g, b)
    ensures a == b
  {
    LayeringNotLonger(g, a, b);
    LayeringNotLonger(g, b, a);
  }

  lemma LayeringNotLonger(g: Graph, a: seq<seq<string>>, b: seq<seq<string>>)
    requires IsLayering(g, a) && IsLayering(g, b)
    ensures |a| <= |b|
  {
    if |b| < |a| {
      var i := |b|;
      var id := a[i][0];
      assert id in Elements(a[i]);
      assert id in ChainClass(g, i);
      var j: nat :| j < |b| && LongestChain(g, id, j);
      LongestChainUnique(g, id, i, j);
    }
  }

  /** The same nodes with the same dependency sets, in any order and with any repeats among
      the dependencies. */
  ghost predicate SameGraph(g: Graph, h: Graph) {
    g.Keys == h.Keys && forall a | a in g :: Elements(g[a]) == Elements(h[a])
  }

  lemma SameGraphSameEdges(g: Graph, h: Graph, a: string, b: string)
    requires SameGraph(g, h)
    ensures Edge(g, a, b) <==> Edge(h, a, b)
  {
    if a in g {
      assert b in g[a] <==> b in Elements(g[a]);
      assert b in h[a] <==> b in Elements(h[a]);
    }
  }

  lemma SameGraphSameWalks(g: Graph, h: Graph, w: seq<string>)
    requires SameGraph(g, h) && Walk(g, w)
    ensures Walk(h, w)
  {
    forall i | 0 <= i < |w| - 1 ensures Edge(h, w[i], w[i + 1]) {
      SameGraphSameEdges(g, h, w[i], w[i + 1]);
    }
  }

  lemma SameGraphSameChains(g: Graph, h: Graph, a: string, d: nat)
    requires SameGraph(g, h) && LongestChain(g, a, d)
    ensures LongestChain(h, a, d)
  {
    var w :| WalkFrom(g, a, w) && |w| == d + 1;
    SameGraphSameWalks(g, h, w);
    forall v | WalkFrom(h, a, v) ensures |v| <= d + 1 {
      SameGraphSameWalks(h, g, v);
    }
  }

  /** Reordering the nodes of a plan, or the dependencies of a node, changes no layer. */
  lemma LayersIgnoreOrder(g: Graph, h: Graph, a: seq<seq<string>>, b: seq<seq<string>>)
    requires SameGraph(g, h) && IsLayering(g, a) && IsLayering(h, b)
    ensures a == b
  {
    forall id, i: nat ensures LongestChain(g, id, i) <==> LongestChain(h, id, i) {
      if LongestChain(g, id, i) { SameGraphSameChains(g, h, id, i); }
      if LongestChain(h, id, i) { SameGraphSameChains(h, g, id, i); }
    }
    forall i: nat ensures ChainClass(g, i) == ChainClass(h, i) {
    }
    assert IsLayering(g, b);
    LayeringUnique(g, a, b);
  }

  // ------------------------------------------------------- what comes before a layer

  /** The nodes with chains shorter than `k`. */
  ghost function Below(g: Graph, k: nat): set<string> {
    set id | id in g && exists d: nat :: d < k && LongestChain(g, id, d)
  }

  lemma DependencyHasChain(g: Graph, a: string, d: nat, b: string) returns (e: nat)
    requires LongestChain(g, a, d) && Edge(g, a, b)
    ensures LongestChain(g, b, e) && e < d
  {
    forall w | WalkFrom(g, b, w) ensures |w| <= d + 1 {
      assert |[a] + w| <= d + 1;
    }
    e := BoundedWalks(g, b, d);
    LongestChainDescends(g, a, b, d, e);
  }

  /** Every dependency of a node of layer `k` lies in an earlier layer. */
  lemma DependenciesBelow(g: Graph, k: nat, id: string)
    requires Closed(g) && id in ChainClass(g, k)
    ensures Elements(g[id]) <= Below(g, k)
  {
    forall b | b in g[id] ensures b in Below(g, k) {
      assert Edge(g, id, b);
      var e := DependencyHasChain(g, id, k, b);
    }
  }
}
