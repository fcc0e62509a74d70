/** State revisions of fleets and runs (internal/agenthub/domain.go). */
module Revisions {
  /*  A string here is a sequence of bytes.  The rendering of an instant and the digest are
      parameters: the rendering is injective and starts with a digit, and the digest does not
      collide on the two streams compared.  */

  import opened Options
  import opened Ordering
  import opened Tokens
  import opened Reader

  datatype Stamp = Never | At(instant: int)

  ghost predicate GoodRender(render: int -> string) {
    && (forall m, n | render(m) == render(n) :: m == n)
    && (forall n :: render(n) != "" && IsDigit(render(n)[0]))
  }

  function TimeText(t: Stamp, render: int -> string): string {
    if t.Never? then "" else render(t.instant)
  }

  function BoolText(b: bool): string {
    if b then "true" else "false"
  }

  function StatusText(s: WorkStatus): string {
    match s
    case Todo => "todo"
    case InProgress => "in-progress"
    case Paused => "paused"
    case WaitingInput => "waiting-input"
    case Waiting => "waiting"
    case Done => "done"
    case Failed => "failed"
  }

  datatype Execution = Execution(workflowId: string, runId: string, startedAt: Stamp, endedAt: Stamp, tokens: int)

  datatype FleetNode = FleetNode(id: string, prompt: string, dependsOn: seq<string>, status: WorkStatus,
                                 execution: Option<Execution>, locationId: string)

  datatype Fleet = Fleet(
    id: string, running: bool, goal: string, planId: string, status: WorkStatus, done: int, total: int,
    startedAt: Stamp, endedAt: Stamp, nodes: seq<FleetNode>, locationId: string)

  datatype Run = Run(
    id: string, running: bool, kind: string, title: string, status: WorkStatus, startedAt: Stamp, endedAt: Stamp,
    iterations: int, tokens: int, locationId: string, startedBy: string, instructions: seq<string>)

  // -------------------------------------------------------------- the flattening

  function ExecutionParts(e: Option<Execution>, render: int -> string): seq<string> {
    if e.None? then [""] else
      [e.value.workflowId, e.value.runId, TimeText(e.value.startedAt, render), TimeText(e.value.endedAt, render),
       Itoa(e.value.tokens)]
  }

  function NodeParts(n: FleetNode, render: int -> string): seq<string> {
    [n.id, n.prompt, StatusText(n.status), n.locationId, Decimal(|n.dependsOn|)]
    + (n.dependsOn + ExecutionParts(n.execution, render))
  }

  function NodesParts(nodes: seq<FleetNode>, render: int -> string): seq<string> {
    if nodes == [] then [] else NodeParts(nodes[0], render) + NodesParts(nodes[1..], render)
  }

  function FleetHead(f: Fleet, render: int -> string): seq<string> {
    [f.id, BoolText(f.running), f.goal, f.planId, StatusText(f.status), Itoa(f.done), Itoa(f.total),
     TimeText(f.startedAt, render), TimeText(f.endedAt, render), f.locationId]
  }

  function FleetParts(f: Fleet, render: int -> string): seq<string> {
    FleetHead(f, render) + NodesParts(f.nodes, render)
  }

  function RunParts(r: Run, render: int -> string): seq<string> {
    [r.id, BoolText(r.running), r.kind, r.title, StatusText(r.status),
     TimeText(r.startedAt, render), TimeText(r.endedAt, render), Itoa(r.iterations), Itoa(r.tokens), r.locationId]
  }

  // ------------------------------------------------------------------ the stream

  function Frame(part: string): string {
    Decimal(|part|) + (":" + part)
  }

  /** What is fed to the digest: each part behind its length. */
  function Stream(parts: seq<string>): string {
    if parts == [] then "" else Frame(parts[0]) + Stream(parts[1..])
  }

  /** Collects the parts of a fleet. */
  method CollectFleetParts(f: Fleet, render: int -> string) returns (parts: seq<string>)
    ensures parts == FleetParts(f, render)
  {
    parts := FleetHead(f, render);
    for k := 0 to |f.nodes|
      invariant parts + NodesParts(f.nodes[k..], render) == FleetParts(f, render)
    {
      var n := f.nodes[k];
      CollectStep(parts, f.nodes, k, render);
      parts := parts + [n.id, n.prompt, StatusText(n.status), n.locationId, Decimal(|n.dependsOn|)];
      parts := parts + n.dependsOn;
      if n.execution.None? {
        parts := parts + [""];
        continue;
      }
      var e := n.execution.value;
      parts := parts + [e.workflowId, e.runId, TimeText(e.startedAt, render), TimeText(e.endedAt, render), Itoa(e.tokens)];
    }
    assert parts + [] == parts;
  }

  lemma CollectStep(parts: seq<string>, nodes: seq<FleetNode>, k: nat, render: int -> string)
    requires k < |nodes|
    ensures ((parts + NodeHead(nodes[k])) + nodes[k].dependsOn) + ExecutionParts(nodes[k].execution, render)
              + NodesParts(nodes[k + 1..], render) == parts + NodesParts(nodes[k..], render)
  {
    assert nodes[k..][1..] == nodes[k + 1..];
  }

  method StateRevision(parts: seq<string>, digest: string -> string) returns (r: string)
    ensures r == digest(Stream(parts))
  {
    var written := "";
    for k := 0 to |parts|
      invariant written + Stream(parts[k..]) == Stream(parts)
    {
      written := written + Decimal(|parts[k]|) + ":" + parts[k];
    }
    assert written + Stream([]) == written;
    return digest(written);
  }

  lemma DecimalNoColon(n: nat)
    ensures ':' !in Decimal(n) && Decimal(n) != ""
  {
    DecimalValue(n);
  }

  /** A frame at the head of a stream is recovered from it. */
  lemma FrameUnique(a: string, b: string, s: string, t: string)
    requires Frame(a) + s == Frame(b) + t
    ensures a == b && s == t
  {
    var m, n := Decimal(|a|), Decimal(|b|);
    DecimalNoColon(|a|);
    DecimalNoColon(|b|);
    FrameSplit(a, s);
    FrameSplit(b, t);
    DecimalInjective(|a|, |b|);
    assert a + s == b + t;
    assert (a + s)[..|a|] == a && (b + t)[..|b|] == b;
    assert (a + s)[|a|..] == s && (b + t)[|b|..] == t;
  }

  lemma FrameSplit(a: string, s: string)
    ensures var whole := Frame(a) + s;
      && Span(whole, NotColon) == |Decimal(|a|)| && whole[..Span(whole, NotColon)] == Decimal(|a|)
      && |whole| > |Decimal(|a|)| && whole[Span(whole, NotColon) + 1..] == a + s
  {
    var d := Decimal(|a|);
    DecimalNoColon(|a|);
    assert Frame(a) + s == d + (":" + (a + s));
    SpanBlock(d, ":" + (a + s), NotColon);
    assert (d + (":" + (a + s)))[|d| + 1..] == a + s;
  }

  /** The length-prefixed stream is uniquely decodable. */
  lemma {:induction false} StreamInjective(a: seq<string>, b: seq<string>)
    requires Stream(a) == Stream(b)
    ensures a == b
  {
    if a != [] && b != [] {
      FrameUnique(a[0], b[0], Stream(a[1..]), Stream(b[1..]));
      StreamInjective(a[1..], b[1..]);
      assert a == [a[0]] + a[1..] && b == [b[0]] + b[1..];
    }
  }

  // --------------------------------------------------- the flattening is injective

  lemma ItoaShape(n: int)
    ensures n < 0 ==> Itoa(n)[0] == '-' && Itoa(n)[1..] == Decimal(-n)
    ensures n >= 0 ==> Itoa(n) == Decimal(n) && Itoa(n) != "" && Itoa(n)[0] != '-'
  {
    DecimalValue(if n < 0 then -n else n);
    if n < 0 {
      assert Itoa(n)[1..] == Decimal(-n);
    } else {
      assert Decimal(n)[0] in Decimal(n);
    }
  }

  lemma ItoaInjective(m: int, n: int)
    requires Itoa(m) == Itoa(n)
    ensures m == n
  {
    ItoaShape(m);
    ItoaShape(n);
    if m < 0 { DecimalInjective(-m, -n); } else { DecimalInjective(m, n); }
  }

  function SampleRender(n: int): string {
    if n < 0 then "0" + Decimal(-n) else "1" + Decimal(n)
  }

  lemma SampleIsInjective(m: int, n: int)
    requires SampleRender(m) == SampleRender(n)
    ensures m == n
  {
    var a, b := if m < 0 then -m else m, if n < 0 then -n else n;
    assert SampleRender(m)[0] == SampleRender(n)[0];
    assert SampleRender(m)[1..] == Decimal(a) && SampleRender(n)[1..] == Decimal(b);
    DecimalInjective(a, b);
  }

  /** Renderings of the required kind exist. */
  lemma SomeRenderIsGood()
    ensures GoodRender(SampleRender)
  {
    forall m: int, n: int | SampleRender(m) == SampleRender(n) ensures m == n {
      SampleIsInjective(m, n);
    }
  }

  /** Whether a node carries an execution can be read back: where it does not, the third part
      of the following node is a status, and where it does, that part is a time. */
  lemma ExecutionUnique(a: Option<Execution>, b: Option<Execution>, s: seq<FleetNode>, t: seq<FleetNode>, render: int -> string)
    requires GoodRender(render)
    requires ExecutionParts(a, render) + NodesParts(s, render) == ExecutionParts(b, render) + NodesParts(t, render)
    ensures a == b && NodesParts(s, render) == NodesParts(t, render)
  {
    var p, q := ExecutionParts(a, render), ExecutionParts(b, render);
    if a.None? && b.Some? {
      NoExecutionClash(b.value, s, NodesParts(t, render), render);
    } else if a.Some? && b.None? {
      NoExecutionClash(a.value, t, NodesParts(s, render), render);
    } else {
      assert |p| == |q|;
      Halves(p, NodesParts(s, render), q, NodesParts(t, render));
      if a.Some? {
        ExecutionPartsInjective(a.value, b.value, render);
      }
    }
  }

  lemma Halves(a: seq<string>, s: seq<string>, b: seq<string>, t: seq<string>)
    requires a + s == b + t && |a| == |b|
    ensures a == b && s == t
  {
    assert (a + s)[..|a|] == a && (b + t)[..|b|] == b;
    assert (a + s)[|a|..] == s && (b + t)[|b|..] == t;
  }

  lemma NoExecutionClash(e: Execution, s: seq<FleetNode>, rest: seq<string>, render: int -> string)
    requires GoodRender(render)
    ensures [""] + NodesParts(s, render) != ExecutionParts(Some(e), render) + rest
  {
    var left, right := [""] + NodesParts(s, render), ExecutionParts(Some(e), render) + rest;
    assert right[3] == TimeText(e.endedAt, render);
    if s != [] {
      assert left[3] == NodeParts(s[0], render)[2] == StatusText(s[0].status);
    }
  }

  lemma ExecutionPartsInjective(a: Execution, b: Execution, render: int -> string)
    requires GoodRender(render) && ExecutionParts(Some(a), render) == ExecutionParts(Some(b), render)
    ensures a == b
  {
    var p, q := ExecutionParts(Some(a), render), ExecutionParts(Some(b), render);
    assert p[0] == q[0] && p[1] == q[1] && p[2] == q[2] && p[3] == q[3] && p[4] == q[4];
    ItoaInjective(a.tokens, b.tokens);
  }

  function NodeHead(n: FleetNode): seq<string> {
    [n.id, n.prompt, StatusText(n.status), n.locationId, Decimal(|n.dependsOn|)]
  }

  lemma NodeHeadInjective(a: FleetNode, b: FleetNode)
    requires NodeHead(a) == NodeHead(b)
    ensures a.id == b.id && a.prompt == b.prompt && a.status == b.status && a.locationId == b.locationId
    ensures |a.dependsOn| == |b.dependsOn|
  {
    var p, q := NodeHead(a), NodeHead(b);
    assert p[0] == q[0] && p[1] == q[1] && p[2] == q[2] && p[3] == q[3] && p[4] == q[4];
    DecimalInjective(|a.dependsOn|, |b.dependsOn|);
  }

  lemma {:induction false} NodesInjective(a: seq<FleetNode>, b: seq<FleetNode>, render: int -> string)
    requires GoodRender(render) && NodesParts(a, render) == NodesParts(b, render)
    ensures a == b
  {
    if a != [] && b != [] {
      var m, n, s, t := a[0], b[0], NodesParts(a[1..], render), NodesParts(b[1..], render);
      Unnest(m, s, render);
      Unnest(n, t, render);
      Halves(NodeHead(m), m.dependsOn + (ExecutionParts(m.execution, render) + s),
             NodeHead(n), n.dependsOn + (ExecutionParts(n.execution, render) + t));
      NodeHeadInjective(m, n);
      Halves(m.dependsOn, ExecutionParts(m.execution, render) + s,
             n.dependsOn, ExecutionParts(n.execution, render) + t);
      ExecutionUnique(m.execution, n.execution, a[1..], b[1..], render);
      NodesInjective(a[1..], b[1..], render);
      assert a == [m] + a[1..] && b == [n] + b[1..];
    }
  }

  lemma Unnest(n: FleetNode, rest: seq<string>, render: int -> string)
    ensures NodeParts(n, render) + rest == NodeHead(n) + (n.dependsOn + (ExecutionParts(n.execution, render) + rest))
  {
  }

  lemma FleetPartsInjective(a: Fleet, b: Fleet, render: int -> string)
    requires GoodRender(render) && FleetParts(a, render) == FleetParts(b, render)
    ensures a == b
  {
    Halves(FleetHead(a, render), NodesParts(a.nodes, render), FleetHead(b, render), NodesParts(b.nodes, render));
    NodesInjective(a.nodes, b.nodes, render);
    FleetHeadInjective(a, b, render);
  }

  lemma FleetHeadInjective(a: Fleet, b: Fleet, render: int -> string)
    requires GoodRender(render) && FleetHead(a, render) == FleetHead(b, render)
    ensures a == b.(nodes := a.nodes)
  {
    var p, q := FleetHead(a, render), FleetHead(b, render);
    assert p[0] == q[0] && p[1] == q[1] && p[2] == q[2] && p[3] == q[3] && p[4] == q[4];
    assert p[5] == q[5] && p[6] == q[6] && p[7] == q[7] && p[8] == q[8] && p[9] == q[9];
    ItoaInjective(a.done, b.done);
    ItoaInjective(a.total, b.total);
  }

  function FleetRevision(f: Fleet, render: int -> string, digest: string -> string): string {
    digest(Stream(FleetParts(f, render)))
  }

  function RunRevision(r: Run, render: int -> string, digest: string -> string): string {
    digest(Stream(RunParts(r, render)))
  }

  ghost predicate NoCollision(digest: string -> string, s: string, t: string) {
    digest(s) == digest(t) ==> s == t
  }

  /** Two fleets share a revision only when they are the same in every published field. */
  lemma FleetRevisionExact(a: Fleet, b: Fleet, render: int -> string, digest: string -> string)
    requires GoodRender(render)
    requires NoCollision(digest, Stream(FleetParts(a, render)), Stream(FleetParts(b, render)))
    ensures FleetRevision(a, render, digest) == FleetRevision(b, render, digest) <==> a == b
  {
    if FleetRevision(a, render, digest) == FleetRevision(b, render, digest) {
      StreamInjective(FleetParts(a, render), FleetParts(b, render));
      FleetPartsInjective(a, b, render);
    }
  }

  /** Two runs share a revision exactly when they agree on everything but who started them
      and which instructions they resolved, the two fields a revision leaves out. */
  lemma RunRevisionExact(a: Run, b: Run, render: int -> string, digest: string -> string)
    requires GoodRender(render)
    requires NoCollision(digest, Stream(RunParts(a, render)), Stream(RunParts(b, render)))
    ensures RunRevision(a, render, digest) == RunRevision(b, render, digest) <==>
            a == b.(startedBy := a.startedBy, instructions := a.instructions)
  {
    if RunRevision(a, render, digest) == RunRevision(b, render, digest) {
      StreamInjective(RunParts(a, render), RunParts(b, render));
      RunPartsInjective(a, b, render);
    }
  }

  lemma RunPartsInjective(a: Run, b: Run, render: int -> string)
    requires GoodRender(render) && RunParts(a, render) == RunParts(b, render)
    ensures a == b.(startedBy := a.startedBy, instructions := a.instructions)
  {
    var p, q := RunParts(a, render), RunParts(b, render);
    assert p[0] == q[0] && p[1] == q[1] && p[2] == q[2] && p[3] == q[3] && p[4] == q[4];
    assert p[5] == q[5] && p[6] == q[6] && p[7] == q[7] && p[8] == q[8] && p[9] == q[9];
    ItoaInjective(a.iterations, b.iterations);
    ItoaInjective(a.tokens, b.tokens);
  }
}
