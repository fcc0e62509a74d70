/** Parent links: each id has at most one parent, so the links form trees and loops.

    Links to an id without an entry end there.  The walk that looks for loops follows links upward,
    and so every id it passes is either on the loop it finds or safely below something settled.
 */
module Forests {
  import opened Ordering

  type Links = map<string, string>

  /** The number of ancestors; no such number exists in or above a loop. */
  ghost predicate DepthIs(p: Links, id: string, n: nat)
    decreases n
  {
    if id !in p then n == 0 else n > 0 && DepthIs(p, p[id], n - 1)
  }

  ghost predicate Rooted(p: Links, id: string) {
    exists n: nat :: DepthIs(p, id, n)
  }

  ghost predicate Forest(p: Links) {
    forall id :: Rooted(p, id)
  }

  lemma {:induction false} DepthUnique(p: Links, id: string, m: nat, n: nat)
    requires DepthIs(p, id, m) && DepthIs(p, id, n)
    ensures m == n
    decreases m
  {
    if id in p { DepthUnique(p, p[id], m - 1, n - 1); }
  }

  lemma RootedStep(p: Links, id: string)
    ensures id !in p ==> Rooted(p, id)
    ensures id in p && Rooted(p, p[id]) ==> Rooted(p, id)
  {
    if id !in p {
      assert DepthIs(p, id, 0);
    } else if Rooted(p, p[id]) {
      var n: nat :| DepthIs(p, p[id], n);
      assert DepthIs(p, id, n + 1);
    }
  }

  /** A loop: each entry's parent is the next entry, the last one's is the first. */
  ghost predicate Loop(p: Links, r: seq<string>) {
    && r != []
    && (forall i | 0 <= i < |r| :: r[i] in p)
    && (forall i | 0 <= i < |r| - 1 :: p[r[i]] == r[i + 1])
    && p[r[|r| - 1]] == r[0]
  }

  ghost predicate OnLoop(p: Links, id: string) {
    exists r :: Loop(p, r) && id in r
  }

  lemma LoopNext(p: Links, r: seq<string>, id: string)
    requires Loop(p, r) && id in r
    ensures id in p && p[id] in r
  {
    var i :| 0 <= i < |r| && r[i] == id;
    if i < |r| - 1 { assert p[r[i]] == r[i + 1]; }
  }

  /** Nothing on a loop has a depth. */
  lemma {:induction false} LoopNotRooted(p: Links, r: seq<string>, id: string, n: nat)
    requires Loop(p, r) && id in r
    ensures !DepthIs(p, id, n)
    decreases n
  {
    LoopNext(p, r, id);
    if n > 0 { LoopNotRooted(p, r, p[id], n - 1); }
  }

  lemma ForestHasNoLoop(p: Links, id: string)
    requires Forest(p)
    ensures !OnLoop(p, id)
  {
    assert Rooted(p, id);
    var n: nat :| DepthIs(p, id, n);
    forall r | Loop(p, r) ensures id !in r {
      if id in r { LoopNotRooted(p, r, id, n); }
    }
  }

  /** Two loops with a common entry have the same entries. */
  lemma LoopSame(p: Links, r: seq<string>, q: seq<string>, id: string)
    requires Loop(p, r) && Loop(p, q) && id in r && id in q
    ensures forall x | x in r :: x in q
  {
    var i :| 0 <= i < |r| && r[i] == id;
    LoopInside(p, r, q, i, |r| - 1);
    LoopNext(p, q, r[|r| - 1]);
    forall x | x in r ensures x in q {
      var j :| 0 <= j < |r| && r[j] == x;
      LoopInside(p, r, q, 0, j);
    }
  }

  lemma {:induction false} LoopInside(p: Links, r: seq<string>, q: seq<string>, i: nat, j: nat)
    requires Loop(p, r) && Loop(p, q) && i <= j < |r| && r[i] in q
    ensures r[j] in q
    decreases j - i
  {
    if i < j {
      LoopNext(p, q, r[i]);
      assert p[r[i]] == r[i + 1];
      LoopInside(p, r, q, i + 1, j);
    }
  }

  /** The entry a break makes a root: the smallest id on its own loop. */
  ghost predicate LeastOnLoop(p: Links, id: string) {
    exists r :: Loop(p, r) && id in r && forall x | x in r :: !Less(x, id)
  }

  lemma LeastIsUnique(p: Links, r: seq<string>, a: string, b: string)
    requires Loop(p, r) && a in r && b in r && LeastOnLoop(p, a) && LeastOnLoop(p, b)
    ensures a == b
  {
    var q :| Loop(p, q) && a in q && forall x | x in q :: !Less(x, a);
    var s :| Loop(p, s) && b in s && forall x | x in s :: !Less(x, b);
    LoopSame(p, r, q, a);
    LoopSame(p, r, s, b);
    LessTotal(a, b);
  }

  /** `q` is `p` with the links of some least entries removed. */
  ghost predicate PartlyBroken(p: Links, q: Links) {
    && q.Keys <= p.Keys && (forall id | id in q :: q[id] == p[id])
    && (forall id | id in p && id !in q :: LeastOnLoop(p, id))
  }

  /** Exactly the least entry of every loop loses its link. */
  ghost predicate Broken(p: Links, q: Links) {
    && q.Keys <= p.Keys && (forall id | id in q :: q[id] == p[id])
    && (forall id | id in p :: id !in q <==> LeastOnLoop(p, id))
  }

  /** A loop the breaks have not opened is still there. */
  lemma LoopStays(p: Links, q: Links, r: seq<string>, id: string)
    requires PartlyBroken(p, q) && Loop(p, r) && id in r && id in q && LeastOnLoop(p, id)
    ensures Loop(q, r)
  {
    forall x | x in r ensures x in q {
      LoopNext(p, r, x);
      if x !in q { LeastIsUnique(p, r, x, id); }
    }
    assert forall i | 0 <= i < |r| :: r[i] in r;
  }

  /** When no loop is left, every least entry was broken. */
  lemma NoLoopLeft(p: Links, q: Links)
    requires PartlyBroken(p, q) && Forest(q)
    ensures Broken(p, q)
  {
    forall id | id in p && LeastOnLoop(p, id) ensures id !in q {
      var r :| Loop(p, r) && id in r && forall x | x in r :: !Less(x, id);
      if id in q {
        LoopStays(p, q, r, id);
        ForestHasNoLoop(q, id);
      }
    }
  }

  lemma BrokenUnique(p: Links, q: Links, s: Links)
    requires Broken(p, q) && Broken(p, s)
    ensures q == s
  {
    assert q.Keys == s.Keys;
  }

  // ------------------------------------------------------------------- findCycle

  /** The search for a loop: walks up from every id in turn, stopping at what is settled. */
  method FindLoop(p: Links, ids: seq<string>) returns (r: seq<string>)
    requires forall id | id in p :: id in ids && p[id] in ids
    ensures r != [] ==> Loop(p, r)
    ensures r == [] ==> Forest(p)
  {
    var settled: set<string> := {};
    r := [];
    for k := 0 to |ids|
      invariant r == []
      invariant settled <= Elements(ids) && forall id | id in settled :: Rooted(p, id)
      invariant forall id | id in ids[..k] :: id in settled
    {
      TakeNext(ids, k);
      assert ids[k] in Elements(ids);
      r, settled := WalkUp(p, Elements(ids), ids[k], settled);
      if r != [] {
        return;
      }
    }
    forall id ensures Rooted(p, id) {
      RootedStep(p, id);
      assert ids[..|ids|] == ids;
      if id in p { assert id in settled; }
    }
  }

  /** The entries walked so far follow the links, up to `current`. */
  ghost predicate Trail(p: Links, walked: seq<string>, current: string) {
    && Distinct(walked)
    && (forall i | 0 <= i < |walked| :: walked[i] in p)
    && (forall i | 0 <= i < |walked| - 1 :: p[walked[i]] == walked[i + 1])
    && (walked != [] ==> p[walked[|walked| - 1]] == current)
  }

  method WalkUp(p: Links, all: set<string>, start: string, settled: set<string>)
    returns (r: seq<string>, settled': set<string>)
    requires start in all && settled <= all && forall id | id in p :: id in all && p[id] in all
    requires forall id | id in settled :: Rooted(p, id)
    ensures r != [] ==> Loop(p, r)
    ensures settled <= settled' <= all
    ensures r == [] ==> start in settled' && forall id | id in settled' :: Rooted(p, id)
  {
    var walked: seq<string> := [];
    var current := start;
    while current !in settled && current in p
      invariant Trail(p, walked, current) && current in all
      invariant Elements(walked) <= all && (walked == [] ==> current == start)
      invariant walked != [] ==> walked[0] == start
      decreases |all| - |walked|
    {
      if current in walked {
        r := LoopFrom(p, walked, current);
        return r, settled;
      }
      TrailGrows(p, walked, current, all);
      walked := walked + [current];
      current := p[current];
    }
    TrailRooted(p, walked, current, 0);
    settled' := settled + Elements(walked) + {current};
    return [], settled';
  }

  lemma TrailGrows(p: Links, walked: seq<string>, current: string, all: set<string>)
    requires Trail(p, walked, current) && current in p && current !in walked
    requires Elements(walked) <= all && current in all
    ensures Trail(p, walked + [current], p[current])
    ensures Elements(walked + [current]) <= all && |walked| < |all|
  {
    DistinctAppend(walked, current);
    DistinctLength(walked + [current], all);
  }

  /** The part of the walk from where `current` first appears is a loop. */
  method LoopFrom(p: Links, walked: seq<string>, current: string) returns (r: seq<string>)
    requires Trail(p, walked, current) && current in walked
    ensures r != [] && Loop(p, r)
  {
    var i := 0;
    while walked[i] != current
      invariant 0 <= i < |walked| && current in walked[i..]
      decreases |walked| - i
    {
      i := i + 1;
    }
    r := walked[i..];
    forall k | 0 <= k < |r| - 1 ensures p[r[k]] == r[k + 1] {
      assert p[walked[i + k]] == walked[i + k + 1];
    }
  }

  /** A walk that ended at a root, or at a settled entry, is rooted throughout. */
  lemma {:induction false} TrailRooted(p: Links, walked: seq<string>, current: string, i: nat)
    requires Trail(p, walked, current) && i <= |walked|
    requires current !in p || Rooted(p, current)
    ensures Rooted(p, current) && forall j | i <= j < |walked| :: Rooted(p, walked[j])
    decreases |walked| - i
  {
    RootedStep(p, current);
    if i < |walked| {
      TrailRooted(p, walked, current, i + 1);
      if i < |walked| - 1 { assert p[walked[i]] == walked[i + 1]; }
      RootedStep(p, walked[i]);
    }
  }
}
