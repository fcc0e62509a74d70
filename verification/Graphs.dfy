/** Dependency graphs, walks and chain lengths.

    A graph maps each node's id to the ids it depends on.  An edge to an id that is no node
    of the graph is ignored, as both readers of a plan ignore it.
 */
module Graphs {
  import opened Ordering

  type Graph = map<string, seq<string>>

  /** `a` depends directly on `b`. */
  predicate Edge(g: Graph, a: string, b: string) {
    a in g && b in g[a] && b in g
  }

  /** A non-empty walk along dependency edges, from dependents to dependencies. */
  ghost predicate Walk(g: Graph, w: seq<string>) {
    && w != [] && w[0] in g
    && forall i | 0 <= i < |w| - 1 :: Edge(g, w[i], w[i + 1])
  }

  ghost predicate WalkFrom(g: Graph, a: string, w: seq<string>) {
    Walk(g, w) && w[0] == a
  }

  /** A closed walk with at least one edge. */
  ghost predicate Cycle(g: Graph, w: seq<string>) {
    Walk(g, w) && |w| >= 2 && w[0] == w[|w| - 1]
  }

  ghost predicate Acyclic(g: Graph) {
    forall w :: !Cycle(g, w)
  }

  /** `b` is a direct or transitive dependency of `a`. */
  ghost predicate Reaches(g: Graph, a: string, b: string) {
    exists w :: WalkFrom(g, a, w) && |w| >= 2 && w[|w| - 1] == b
  }

  /** Some cycle can be reached from `a`: a walk from `a` visits a node twice. */
  ghost predicate ReachesCycle(g: Graph, a: string) {
    exists w, i, j :: WalkFrom(g, a, w) && 0 <= i < j < |w| && w[i] == w[j]
  }

  /** Every edge leads to a smaller rank. */
  ghost predicate Ranks(g: Graph, rank: map<string, nat>) {
    && rank.Keys == g.Keys
    && forall a, b | Edge(g, a, b) :: rank[b] < rank[a]
  }

  /** The longest chain of dependencies starting at `a` has `d` edges. */
  ghost predicate LongestChain(g: Graph, a: string, d: nat) {
    && (exists w :: WalkFrom(g, a, w) && |w| == d + 1)
    && (forall w | WalkFrom(g, a, w) :: |w| <= d + 1)
  }

  lemma LongestChainUnique(g: Graph, a: string, d: nat, e: nat)
    requires LongestChain(g, a, d) && LongestChain(g, a, e)
    ensures d == e
  {
    var v :| WalkFrom(g, a, v) && |v| == d + 1;
    var w :| WalkFrom(g, a, w) && |w| == e + 1;
  }

  lemma WalkPart(g: Graph, w: seq<string>, i: nat, j: nat)
    requires Walk(g, w) && i < j <= |w|
    ensures WalkFrom(g, w[i], w[i..j])
  {
    var v := w[i..j];
    forall k | 0 <= k < |v| - 1 ensures Edge(g, v[k], v[k + 1]) {
      assert Edge(g, w[i + k], w[i + k + 1]);
    }
    WalkMembers(g, w);
  }

  lemma WalkMembers(g: Graph, w: seq<string>)
    requires Walk(g, w)
    ensures forall i | 0 <= i < |w| :: w[i] in g
  {
    forall i | 0 <= i < |w| ensures w[i] in g {
      if i > 0 { assert Edge(g, w[i - 1], w[i - 1 + 1]); }
    }
  }

  /** The chain length of a node is one more than the largest among its dependencies
      (`top`), and zero when it has none (`top == -1`). */
  lemma LongestChainStep(g: Graph, a: string, depth: map<string, nat>, top: int)
    requires a in g
    requires forall b | Edge(g, a, b) :: b in depth && LongestChain(g, b, depth[b]) && depth[b] <= top
    requires top == -1 || exists b :: Edge(g, a, b) && depth[b] == top
    ensures top >= -1 && LongestChain(g, a, top + 1)
  {
    if top == -1 {
      assert WalkFrom(g, a, [a]);
    } else {
      var b :| Edge(g, a, b) && depth[b] == top;
      var v :| WalkFrom(g, b, v) && |v| == depth[b] + 1;
      assert |[a] + v| == top + 2;
    }
    forall w | WalkFrom(g, a, w) ensures |w| <= top + 2 {
      if |w| >= 2 {
        assert |w[1..]| <= depth[w[1]] + 1;
      }
    }
  }

  /** Dependencies have strictly shorter chains. */
  lemma LongestChainDescends(g: Graph, a: string, b: string, d: nat, e: nat)
    requires Edge(g, a, b) && LongestChain(g, a, d) && LongestChain(g, b, e)
    ensures e < d
  {
    var v :| WalkFrom(g, b, v) && |v| == e + 1;
    assert |[a] + v| <= d + 1;
  }

  /** A node of chain length `d > 0` has a dependency of chain length exactly `d - 1`. */
  lemma LongestChainPredecessor(g: Graph, a: string, d: nat) returns (b: string)
    requires LongestChain(g, a, d) && d > 0
    ensures Edge(g, a, b) && LongestChain(g, b, d - 1)
  {
    var w :| WalkFrom(g, a, w) && |w| == d + 1;
    b := w[1];
    assert WalkFrom(g, b, w[1..]) && |w[1..]| == (d - 1) + 1;
    forall v | WalkFrom(g, b, v) ensures |v| <= (d - 1) + 1 {
      assert |[a] + v| <= d + 1;
    }
  }

  /** A rank excludes cycles: along a walk the rank only falls. */
  lemma RanksDescend(g: Graph, rank: map<string, nat>, w: seq<string>, i: nat, j: nat)
    requires Ranks(g, rank) && Walk(g, w) && i < j < |w|
    ensures w[i] in rank && w[j] in rank && rank[w[j]] < rank[w[i]]
    decreases j - i
  {
    WalkMembers(g, w);
    assert Edge(g, w[j - 1], w[j - 1 + 1]);
    if i < j - 1 { RanksDescend(g, rank, w, i, j - 1); }
  }

  lemma RankedIsAcyclic(g: Graph, rank: map<string, nat>)
    requires Ranks(g, rank)
    ensures Acyclic(g)
  {
    forall w | Cycle(g, w) ensures false {
      RanksDescend(g, rank, w, 0, |w| - 1);
    }
  }

  lemma ReachesStep(g: Graph, a: string, b: string)
    requires Edge(g, a, b)
    ensures Reaches(g, a, b)
  {
    var w := [a, b];
    assert WalkFrom(g, a, w) && w[|w| - 1] == b;
  }

  lemma ReachesVia(g: Graph, a: string, b: string, c: string)
    requires Edge(g, a, b) && Reaches(g, b, c)
    ensures Reaches(g, a, c)
  {
    var w :| WalkFrom(g, b, w) && |w| >= 2 && w[|w| - 1] == c;
    assert WalkFrom(g, a, [a] + w) && ([a] + w)[|[a] + w| - 1] == c;
  }

  /** The first step of a transitive dependency. */
  lemma ReachesFirst(g: Graph, a: string, c: string) returns (b: string)
    requires Reaches(g, a, c)
    ensures Edge(g, a, b) && (b == c || Reaches(g, b, c))
  {
    var w :| WalkFrom(g, a, w) && |w| >= 2 && w[|w| - 1] == c;
    b := w[1];
    if |w| > 2 { assert WalkFrom(g, b, w[1..]) && |w[1..]| >= 2 && w[1..][|w[1..]| - 1] == c; }
  }

  // ------------------------------------------- chain lengths, cycles and ranks

  lemma {:induction false} BoundedWalks(g: Graph, a: string, n: nat) returns (d: nat)
    requires a in g
    requires forall w | WalkFrom(g, a, w) :: |w| <= n + 1
    ensures LongestChain(g, a, d)
  {
    if exists w :: WalkFrom(g, a, w) && |w| == n + 1 {
      d := n;
    } else {
      assert WalkFrom(g, a, [a]);
      d := BoundedWalks(g, a, n - 1);
    }
  }

  /** A walk that visits a node twice can be made arbitrarily long. */
  lemma {:induction false} RepeatUnbounded(g: Graph, a: string, d: nat, w: seq<string>, i: nat, j: nat)
    requires LongestChain(g, a, d)
    requires WalkFrom(g, a, w) && i < j < |w| && w[i] == w[j]
    ensures false
    decreases d + 1 - |w|
  {
    var v := w[..j] + w[i..];
    forall k | 0 <= k < |v| - 1 ensures Edge(g, v[k], v[k + 1]) {
      if k < j {
        assert Edge(g, w[k], w[k + 1]);
      } else {
        assert v[k] == w[i + (k - j)] && v[k + 1] == w[i + (k - j) + 1];
      }
    }
    assert v[j] == w[i] && v[0] == w[0];
    RepeatUnbounded(g, a, d, v, i, j);
  }

  /** A node has a longest chain exactly when no cycle is reachable from it. */
  lemma ChainLengthExists(g: Graph, a: string)
    requires a in g
    ensures (exists d: nat :: LongestChain(g, a, d)) <==> !ReachesCycle(g, a)
  {
    if ReachesCycle(g, a) {
      var w, i, j :| WalkFrom(g, a, w) && 0 <= i < j < |w| && w[i] == w[j];
      forall d: nat | LongestChain(g, a, d) ensures false {
        RepeatUnbounded(g, a, d, w, i, j);
      }
    } else {
      forall w | WalkFrom(g, a, w) ensures |w| <= |g.Keys| + 1 {
        WalkMembers(g, w);
        assert Distinct(w);
        DistinctLength(w, g.Keys);
      }
      var d := BoundedWalks(g, a, |g.Keys|);
    }
  }

  lemma AcyclicReachesNone(g: Graph, a: string)
    requires Acyclic(g)
    ensures !ReachesCycle(g, a)
  {
    forall w, i: int, j: int | WalkFrom(g, a, w) && 0 <= i < j < |w| ensures w[i] != w[j] {
      WalkPart(g, w, i, j + 1);
      assert !Cycle(g, w[i..j + 1]);
    }
  }

  /** A graph without cycles has a rank, the chain length. */
  lemma AcyclicHasRank(g: Graph) returns (rank: map<string, nat>)
    requires Acyclic(g)
    ensures Ranks(g, rank)
    ensures forall a | a in g :: LongestChain(g, a, rank[a])
  {
    forall a | a in g ensures exists d: nat :: LongestChain(g, a, d) {
      AcyclicReachesNone(g, a);
      ChainLengthExists(g, a);
    }
    rank := map a | a in g :: ChainLength(g, a);
    forall a, b | Edge(g, a, b) ensures rank[b] < rank[a] {
      LongestChainDescends(g, a, b, rank[a], rank[b]);
    }
  }

  ghost function ChainLength(g: Graph, a: string): (d: nat)
    requires exists d: nat :: LongestChain(g, a, d)
    ensures LongestChain(g, a, d)
  {
    var d: nat :| LongestChain(g, a, d);
    d
  }
}
