/** The location registry: the flat list of places one response refers to. */
module Locations {
  /*  An identity is a truncated digest of a place's kind and natural key.  The digest is a
      parameter; the assumption made about it is the one the program makes, that no two different
      places of one registry share an identity.  */

  import opened Options
  import opened Ordering
  import opened Forests

  /** A place. Its parent is the place it is part of; the unknown place has none. */
  datatype Location =
    | Unknown
    | Directory(path: string, inside: Option<Location>)
    | Remote(ref: string, inside: Option<Location>)
  {
    function Parent(): Option<Location> {
      if Unknown? then None else inside
    }

    function WithoutParent(): Location {
      if Unknown? then Unknown else this.(inside := None)
    }

    function Key(): Key {
      match this
      case Unknown => UnknownKey
      case Directory(path, _) => DirectoryKey(path)
      case Remote(ref, _) => RemoteKey(ref)
    }

    /** How many ancestors the value carries. */
    function Depth(): nat {
      match Parent() case None => 0 case Some(p) => 1 + p.Depth()
    }

    /** The identities of the ancestors, nearest first, each closed by a slash. */
    function Ancestry(h: Digest): string {
      match Parent() case None => "" case Some(p) => p.Id(h) + "/" + p.Ancestry(h)
    }

    function Id(h: Digest): string {
      if Unknown? then UNKNOWN else h(Key())
    }

    /** Which of two values of one place is published. */
    predicate BetterKnownThan(other: Location, h: Digest) {
      if Depth() != other.Depth() then Depth() > other.Depth()
      else Less(Ancestry(h), other.Ancestry(h))
    }
  }

  const UNKNOWN := "unknown"

  /** What identifies a place: its kind and natural key, never its parent. */
  datatype Key = UnknownKey | DirectoryKey(path: string) | RemoteKey(ref: string)

  type Digest = Key -> string

  /** The place and all its ancestors. */
  function Up(l: Location): set<Location> {
    match l.Parent() case None => {l} case Some(p) => {l} + Up(p)
  }

  /** Everything a registry for these references has to describe. */
  function Places(referenced: set<Location>): set<Location> {
    {Unknown} + set r, l | r in referenced && l in Up(r) :: l
  }

  ghost predicate UpClosed(places: set<Location>) {
    forall l | l in places :: l.Parent().Some? ==> l.Parent().value in places
  }

  /** No two places share an identity, and identities, being hexadecimal, have no slash. */
  ghost predicate Separates(h: Digest, places: set<Location>) {
    && (forall a, b | a in places && b in places :: a.Id(h) == b.Id(h) ==> a.Key() == b.Key())
    && (forall a | a in places :: '/' !in a.Id(h))
  }

  lemma {:induction false} UpHasParents(r: Location, l: Location)
    requires l in Up(r)
    ensures l.Parent().Some? ==> l.Parent().value in Up(r)
  {
    if r.Parent().Some? {
      var p := r.Parent().value;
      if l == r {
        assert p in Up(p);
      } else {
        UpHasParents(p, l);
      }
    }
  }

  lemma PlacesUpClosed(referenced: set<Location>)
    ensures UpClosed(Places(referenced))
  {
    forall l | l in Places(referenced) && l.Parent().Some? ensures l.Parent().value in Places(referenced) {
      var r :| r in referenced && l in Up(r);
      UpHasParents(r, l);
    }
  }

  // --------------------------------------------------------- which value is published

  lemma FirstSegment(x: string, r: string, y: string, s: string)
    requires '/' !in x && '/' !in y && x + "/" + r == y + "/" + s
    ensures x == y && r == s
  {
    var u, v := x + "/" + r, y + "/" + s;
    assert u[|x|] == '/' && v[|y|] == '/';
    assert forall k | 0 <= k < |x| :: u[k] == x[k] != '/';
    assert forall k | 0 <= k < |y| :: v[k] == y[k] != '/';
    assert |x| == |y|;
    assert x == u[..|x|] && y == v[..|y|];
    assert r == u[|x| + 1..] && s == v[|y| + 1..];
  }

  /** One place with one rendered ancestry is one value. */
  lemma {:induction false} AncestryDecodes(h: Digest, places: set<Location>, a: Location, b: Location)
    requires UpClosed(places) && Separates(h, places) && a in places && b in places
    requires a.Key() == b.Key() && a.Ancestry(h) == b.Ancestry(h)
    ensures a == b
    decreases a
  {
    match a.Parent()
    case None =>
    case Some(p) =>
      var q := b.Parent().value;
      FirstSegment(p.Id(h), p.Ancestry(h), q.Id(h), q.Ancestry(h));
      AncestryDecodes(h, places, p, q);
  }

  /** On the values sharing an identity the publication rule is a strict total order. */
  lemma BetterKnownIsTotal(h: Digest, places: set<Location>, a: Location, b: Location)
    requires UpClosed(places) && Separates(h, places) && a in places && b in places && a.Id(h) == b.Id(h)
    ensures a == b || a.BetterKnownThan(b, h) || b.BetterKnownThan(a, h)
    ensures !(a.BetterKnownThan(b, h) && b.BetterKnownThan(a, h))
  {
    LessTotal(a.Ancestry(h), b.Ancestry(h));
    if a.Ancestry(h) == b.Ancestry(h) { AncestryDecodes(h, places, a, b); }
  }

  /** A value that beats the best so far is best among what the best so far beat. */
  lemma BetterKnownReplaces(h: Digest, best: Location, b: Location, c: Location)
    requires !b.BetterKnownThan(best, h) && c.BetterKnownThan(best, h)
    ensures !b.BetterKnownThan(c, h)
  {
    var x, y, z := b.Ancestry(h), c.Ancestry(h), best.Ancestry(h);
    if Less(x, y) && Less(y, z) { LessTransitive(x, y, z); }
  }

  // ---------------------------------------------------------------- the chosen values

  type Chosen = map<string, Location>

  /** The value of this identity no other value of it beats. */
  ghost predicate IsBest(h: Digest, places: set<Location>, id: string, l: Location) {
    l in places && l.Id(h) == id && forall x | x in places && x.Id(h) == id :: !x.BetterKnownThan(l, h)
  }

  /** One entry for every identity, and it is the best known. */
  ghost predicate Chooses(h: Digest, places: set<Location>, chosen: Chosen) {
    && (forall l | l in places :: l.Id(h) in chosen)
    && (forall id | id in chosen :: IsBest(h, places, id, chosen[id]))
  }

  lemma ChosenUnique(h: Digest, places: set<Location>, a: Chosen, b: Chosen)
    requires UpClosed(places) && Separates(h, places) && Chooses(h, places, a) && Chooses(h, places, b)
    ensures a == b
  {
    forall id ensures id in a <==> id in b {}
    forall id | id in a ensures a[id] == b[id] {
      BetterKnownIsTotal(h, places, a[id], b[id]);
    }
  }

  /** What one candidate does to the values chosen so far. */
  method Offer(h: Digest, ghost seen: set<Location>, chosen: Chosen, candidate: Location)
    returns (next: Chosen)
    requires Chooses(h, seen, chosen)
    requires !candidate.BetterKnownThan(candidate, h)
    ensures Chooses(h, seen + {candidate}, next)
  {
    var id := candidate.Id(h);
    if id in chosen && !candidate.BetterKnownThan(chosen[id], h) {
      next := chosen;
    } else {
      next := chosen[id := candidate];
      forall x | x in seen + {candidate} && x.Id(h) == id ensures !x.BetterKnownThan(candidate, h) {
        if x != candidate { BetterKnownReplaces(h, chosen[id], x, candidate); }
      }
    }
  }

  /** Offers a place and then each of its ancestors. */
  method OfferAncestry(h: Digest, ghost seen: set<Location>, chosen: Chosen, location: Location)
    returns (next: Chosen)
    requires Chooses(h, seen, chosen)
    ensures Chooses(h, seen + Up(location), next)
  {
    var current := Some(location);
    ghost var offered: set<Location> := {};
    next := chosen;
    while current.Some?
      invariant Chooses(h, seen + offered, next)
      invariant Up(location) == offered + (if current.Some? then Up(current.value) else {})
      decreases if current.Some? then 1 + current.value.Depth() else 0
    {
      BetterKnownIrreflexive(h, current.value);
      next := Offer(h, seen + offered, next, current.value);
      assert seen + (offered + {current.value}) == seen + offered + {current.value};
      offered := offered + {current.value};
      current := current.value.Parent();
    }
    assert offered == Up(location);
  }

  lemma BetterKnownIrreflexive(h: Digest, l: Location)
    ensures !l.BetterKnownThan(l, h)
  {
    LessTotal(l.Ancestry(h), l.Ancestry(h));
  }

  // -------------------------------------------------------------------- breakCycles

  /** The link upwards from an entry, if its value names a parent and that parent is among the chosen ones. */
  function ChosenParent(h: Digest, chosen: Chosen, id: string): Option<string> {
    if id !in chosen then None
    else match chosen[id].Parent()
      case None => None
      case Some(p) => if p.Id(h) in chosen then Some(p.Id(h)) else None
  }

  function ParentLinks(h: Digest, chosen: Chosen): Links {
    map id | id in chosen && ChosenParent(h, chosen, id).Some? :: ChosenParent(h, chosen, id).value
  }

  ghost predicate KeyedById(h: Digest, chosen: Chosen) {
    forall id | id in chosen :: chosen[id].Id(h) == id
  }

  /** The least entry of every loop is published as a root, every other one as chosen. */
  ghost predicate Roots(h: Digest, chosen: Chosen, published: Chosen) {
    && published.Keys == chosen.Keys
    && (forall id | id in chosen :: RootedRight(h, chosen, published, id))
  }

  ghost predicate RootedRight(h: Digest, chosen: Chosen, published: Chosen, id: string)
    requires id in chosen && published.Keys == chosen.Keys
  {
    published[id] == if LeastOnLoop(ParentLinks(h, chosen), id) then chosen[id].WithoutParent() else chosen[id]
  }

  /** Some least entries have been made roots so far. */
  ghost predicate PartlyRooted(h: Digest, chosen: Chosen, published: Chosen) {
    && KeyedById(h, published)
    && PartlyBroken(ParentLinks(h, chosen), ParentLinks(h, published))
    && EntriesKept(ParentLinks(h, chosen), chosen, published)
  }

  /** Every entry is as chosen, unless it is least on its loop and has been made a root. */
  ghost predicate EntriesKept(links: Links, chosen: Chosen, published: Chosen) {
    && published.Keys == chosen.Keys
    && (forall id | id in chosen :: EntryKept(links, chosen[id], published[id], id))
  }

  ghost predicate EntryKept(links: Links, chosen: Location, published: Location, id: string) {
    published == chosen || (published == chosen.WithoutParent() && LeastOnLoop(links, id))
  }

  /** The keys of a map in ascending order. */
  method SortedKeys(chosen: Chosen) returns (ids: seq<string>)
    ensures Lists(ids, chosen.Keys)
  {
    var rest, s := chosen.Keys, [];
    while rest != {}
      invariant rest <= chosen.Keys && Distinct(s) && Elements(s) == chosen.Keys - rest
      decreases |rest|
    {
      var id :| id in rest;
      assert id !in Elements(s);
      DistinctAppend(s, id);
      assert Elements(s + [id]) == Elements(s) + {id};
      s, rest := s + [id], rest - {id};
    }
    SortedListing(s);
    ids := SortBy(Less, s);
  }

  method Least(s: seq<string>) returns (least: string)
    requires s != []
    ensures least in s && forall x | x in s :: !Less(x, least)
  {
    LessIsStrictTotal();
    least := s[0];
    for k := 1 to |s|
      invariant least in s && forall x | x in s[..k] :: !Less(x, least)
    {
      TakeNext(s, k);
      if Less(s[k], least) { least := s[k]; }
    }
    assert s[..|s|] == s;
  }

  lemma RootingRemovesLink(h: Digest, chosen: Chosen, id: string)
    requires id in chosen && KeyedById(h, chosen)
    ensures KeyedById(h, chosen[id := chosen[id].WithoutParent()])
    ensures ParentLinks(h, chosen[id := chosen[id].WithoutParent()]) == ParentLinks(h, chosen) - {id}
  {
  }

  /** One break: the least entry of a loop that is left becomes a root. */
  method BreakLoop(h: Digest, ghost chosen: Chosen, published: Chosen, cycle: seq<string>)
    returns (next: Chosen)
    requires PartlyRooted(h, chosen, published) && Loop(ParentLinks(h, published), cycle)
    ensures PartlyRooted(h, chosen, next)
    ensures |ParentLinks(h, next)| < |ParentLinks(h, published)|
  {
    var id := Least(cycle);
    LoopNext(ParentLinks(h, published), cycle, id);
    var rooted := published[id].WithoutParent();
    next := published[rooted.Id(h) := rooted];
    RootingRemovesLink(h, published, id);
    RootingKeeps(ParentLinks(h, chosen), chosen, published, id);
  }

  lemma RootingKeeps(links: Links, chosen: Chosen, published: Chosen, id: string)
    requires EntriesKept(links, chosen, published) && id in published && LeastOnLoop(links, id)
    ensures EntriesKept(links, chosen, published[id := published[id].WithoutParent()])
  {
    var next := published[id := published[id].WithoutParent()];
    forall x | x in chosen ensures EntryKept(links, chosen[x], next[x], x) {
      assert EntryKept(links, chosen[x], published[x], x);
    }
  }

  method BreakCycles(h: Digest, chosen: Chosen) returns (published: Chosen)
    requires KeyedById(h, chosen)
    ensures Roots(h, chosen, published)
    ensures Forest(ParentLinks(h, published))
    ensures KeyedById(h, published)
  {
    published := chosen;
    while true
      invariant PartlyRooted(h, chosen, published)
      decreases |ParentLinks(h, published)|
    {
      var ids := SortedKeys(published);
      assert forall id | id in published :: id in Elements(ids);
      var cycle := FindLoop(ParentLinks(h, published), ids);
      if cycle == [] {
        NoLoopLeft(ParentLinks(h, chosen), ParentLinks(h, published));
        AllBreaksMade(h, chosen, published);
        return;
      }
      published := BreakLoop(h, chosen, published, cycle);
    }
  }

  lemma AllBreaksMade(h: Digest, chosen: Chosen, published: Chosen)
    requires PartlyRooted(h, chosen, published)
    requires Broken(ParentLinks(h, chosen), ParentLinks(h, published))
    ensures Roots(h, chosen, published)
  {
    forall id | id in chosen ensures RootedRight(h, chosen, published, id) {
      if LeastOnLoop(ParentLinks(h, chosen), id) && published[id] == chosen[id] {
        SameParent(h, chosen, published, id);
      }
    }
  }

  lemma SameParent(h: Digest, chosen: Chosen, published: Chosen, id: string)
    requires id in chosen && published.Keys == chosen.Keys && published[id] == chosen[id]
    ensures id in ParentLinks(h, published) <==> id in ParentLinks(h, chosen)
  {
    assert ChosenParent(h, published, id) == ChosenParent(h, chosen, id);
  }

  /** An entry recorded under itself is published as a root. */
  lemma SelfParentIsCut(h: Digest, chosen: Chosen, published: Chosen, id: string)
    requires Roots(h, chosen, published) && ChosenParent(h, chosen, id) == Some(id)
    ensures published[id].Parent() == None
  {
    var p := ParentLinks(h, chosen);
    LessTotal(id, id);
    assert Loop(p, [id]) && id in [id];
    assert LeastOnLoop(p, id);
    assert RootedRight(h, chosen, published, id);
  }

  // --------------------------------------------------------------- publication order

  ghost predicate DepthsRight(p: Links, depths: map<string, nat>) {
    forall id | id in depths :: DepthIs(p, id, depths[id])
  }

  /** The depths found so far, so that a chain is walked once. */
  class DepthMemo {
    var depths: map<string, nat>

    constructor ()
      ensures depths == map[]
    {
      depths := map[];
    }

    method PublishedDepth(h: Digest, published: Chosen, id: string, ghost n: nat) returns (depth: nat)
      requires DepthIs(ParentLinks(h, published), id, n)
      requires DepthsRight(ParentLinks(h, published), depths)
      modifies this
      ensures depth == n
      ensures DepthsRight(ParentLinks(h, published), depths)
      ensures old(depths).Keys <= depths.Keys && id in depths
      decreases n
    {
      ghost var p := ParentLinks(h, published);
      if id in depths {
        DepthUnique(p, id, depths[id], n);
        return depths[id];
      }
      var parent := ChosenParent(h, published, id);
      if parent == None {
        depths := depths[id := 0];
        return 0;
      }
      assert p[id] == parent.value;
      depth := PublishedDepth(h, published, parent.value, n - 1);
      depth := depth + 1;
      depths := depths[id := depth];
    }
  }

  /** Shallower first, ties settled by identity. */
  ghost predicate Before(p: Links, a: string, b: string) {
    exists m: nat, n: nat :: DepthIs(p, a, m) && DepthIs(p, b, n) && (m < n || (m == n && Less(a, b)))
  }

  ghost function PublicationOrder(p: Links): (string, string) -> bool {
    (a: string, b: string) => Before(p, a, b)
  }

  function ByDepth(depths: map<string, nat>): (string, string) -> bool {
    (a: string, b: string) =>
      var m, n := DepthAt(depths, a), DepthAt(depths, b);
      m < n || (m == n && Less(a, b))
  }

  function DepthAt(depths: map<string, nat>, id: string): nat {
    if id in depths then depths[id] else 0
  }

  lemma ByDepthIsStrictTotal(depths: map<string, nat>)
    ensures StrictTotal(ByDepth(depths))
  {
    LessIsStrictTotal();
  }

  lemma BeforeIs(p: Links, a: string, b: string, m: nat, n: nat)
    requires DepthIs(p, a, m) && DepthIs(p, b, n)
    ensures Before(p, a, b) <==> m < n || (m == n && Less(a, b))
  {
    if Before(p, a, b) {
      var m', n' :| DepthIs(p, a, m') && DepthIs(p, b, n') && (m' < n' || (m' == n' && Less(a, b)));
      DepthUnique(p, a, m, m');
      DepthUnique(p, b, n, n');
    }
  }

  lemma PublicationOrderIsStrictTotal(p: Links)
    requires Forest(p)
    ensures StrictTotal(PublicationOrder(p))
  {
    LessIsStrictTotal();
    forall a, b, c
      ensures !(Before(p, a, b) && Before(p, b, a))
      ensures a != b ==> Before(p, a, b) || Before(p, b, a)
      ensures Before(p, a, b) && Before(p, b, c) ==> Before(p, a, c)
    {
      assert Rooted(p, a) && Rooted(p, b) && Rooted(p, c);
      var l: nat, m: nat, n: nat :| DepthIs(p, a, l) && DepthIs(p, b, m) && DepthIs(p, c, n);
      BeforeIs(p, a, b, l, m);
      BeforeIs(p, b, a, m, l);
      BeforeIs(p, b, c, m, n);
      BeforeIs(p, a, c, l, n);
    }
  }

  /** The ids in the order they are published in. */
  ghost predicate Orders(p: Links, ids: seq<string>, keys: set<string>) {
    Elements(ids) == keys && Ascending(PublicationOrder(p), ids)
  }

  method OrderEntries(h: Digest, published: Chosen) returns (ids: seq<string>)
    requires Forest(ParentLinks(h, published))
    ensures Orders(ParentLinks(h, published), ids, published.Keys)
  {
    ghost var p := ParentLinks(h, published);
    var entries := SortedKeys(published);
    var memo := new DepthMemo();
    for k := 0 to |entries|
      invariant DepthsRight(p, memo.depths)
      invariant forall id | id in entries[..k] :: id in memo.depths
    {
      TakeNext(entries, k);
      assert Rooted(p, entries[k]);
      ghost var n: nat :| DepthIs(p, entries[k], n);
      var _ := memo.PublishedDepth(h, published, entries[k], n);
    }
    assert entries[..|entries|] == entries;
    ids := SortBy(ByDepth(memo.depths), entries);
    SortsByDepth(p, memo.depths, entries, ids);
  }

  lemma SortsByDepth(p: Links, depths: map<string, nat>, entries: seq<string>, ids: seq<string>)
    requires DepthsRight(p, depths) && Ascending(Less, entries)
    requires forall id | id in entries :: id in depths
    requires ids == SortBy(ByDepth(depths), entries)
    ensures Orders(p, ids, Elements(entries))
  {
    ByDepthIsStrictTotal(depths);
    AscendingDistinct(entries);
    DistinctSortsAscending(ByDepth(depths), entries);
    forall i, j | 0 <= i < j < |ids| ensures PublicationOrder(p)(ids[i], ids[j]) {
      assert ids[i] in Elements(ids) && ids[j] in Elements(ids);
      assert ByDepth(depths)(ids[i], ids[j]);
      BeforeIs(p, ids[i], ids[j], depths[ids[i]], depths[ids[j]]);
    }
  }

  // ------------------------------------------------------------------- the registry

  /** The published list and where each identity sits in it. */
  datatype Registry = Registry(locations: seq<Location>, index: map<string, nat>)

  ghost predicate Lays(published: Chosen, ids: seq<string>, registry: Registry) {
    && |registry.locations| == |ids|
    && (forall i | 0 <= i < |ids| :: ids[i] in published && registry.locations[i] == published[ids[i]])
    && registry.index.Keys == Elements(ids)
    && (forall i | 0 <= i < |ids| :: ids[i] in registry.index && registry.index[ids[i]] == i)
  }

  /** The registry of these places, by way of the values chosen, what is published of them, and the order. */
  ghost predicate IsRegistryVia(h: Digest, places: set<Location>, registry: Registry,
                                chosen: Chosen, published: Chosen, ids: seq<string>) {
    && Chooses(h, places, chosen)
    && Roots(h, chosen, published)
    && Forest(ParentLinks(h, published))
    && Orders(ParentLinks(h, published), ids, published.Keys)
    && Lays(published, ids, registry)
  }

  ghost predicate IsRegistry(h: Digest, places: set<Location>, registry: Registry) {
    exists chosen, published, ids :: IsRegistryVia(h, places, registry, chosen, published, ids)
  }

  method LayOut(published: Chosen, ids: seq<string>) returns (registry: Registry)
    requires Distinct(ids) && forall id | id in ids :: id in published
    ensures Lays(published, ids, registry)
  {
    var locations: seq<Location>, index: map<string, nat> := [], map[];
    for k := 0 to |ids|
      invariant Lays(published, ids[..k], Registry(locations, index))
    {
      TakeNext(ids, k);
      locations, index := locations + [published[ids[k]]], index[ids[k] := k];
    }
    assert ids[..|ids|] == ids;
    registry := Registry(locations, index);
  }

  method NewLocationRegistry(h: Digest, referenced: seq<Location>) returns (registry: Registry)
    ensures IsRegistry(h, Places(Elements(referenced)), registry)
  {
    var chosen := ChooseAll(h, referenced);
    var published := BreakCycles(h, chosen);
    var ids := OrderEntries(h, published);
    PublicationOrderIsStrictTotal(ParentLinks(h, published));
    assert forall id | id in ids :: id in Elements(ids);
    registry := LayOut(published, ids);
    assert IsRegistryVia(h, Places(Elements(referenced)), registry, chosen, published, ids);
  }

  method ChooseAll(h: Digest, referenced: seq<Location>) returns (chosen: Chosen)
    ensures Chooses(h, Places(Elements(referenced)), chosen)
  {
    chosen := map[UNKNOWN := Unknown];
    BetterKnownIrreflexive(h, Unknown);
    assert Places(Elements(referenced[..0])) == {Unknown};
    for k := 0 to |referenced|
      invariant Chooses(h, Places(Elements(referenced[..k])), chosen)
    {
      chosen := OfferAncestry(h, Places(Elements(referenced[..k])), chosen, referenced[k]);
      PlacesGrow(referenced, k);
    }
    assert referenced[..|referenced|] == referenced;
  }

  lemma PlacesGrow(referenced: seq<Location>, k: nat)
    requires k < |referenced|
    ensures Places(Elements(referenced[..k + 1])) == Places(Elements(referenced[..k])) + Up(referenced[k])
  {
    TakeNext(referenced, k);
    assert Elements(referenced[..k + 1]) == Elements(referenced[..k]) + {referenced[k]};
  }

  lemma PublishedUnique(h: Digest, chosen: Chosen, a: Chosen, b: Chosen)
    requires Roots(h, chosen, a) && Roots(h, chosen, b)
    ensures a == b
  {
    forall id | id in chosen ensures a[id] == b[id] {
      assert RootedRight(h, chosen, a, id) && RootedRight(h, chosen, b, id);
    }
  }

  lemma LayoutUnique(published: Chosen, ids: seq<string>, a: Registry, b: Registry)
    requires Lays(published, ids, a) && Lays(published, ids, b)
    ensures a == b
  {
    assert a.locations == b.locations;
    forall id | id in a.index ensures a.index[id] == b.index[id] {
      assert id in Elements(ids);
      var i :| 0 <= i < |ids| && ids[i] == id;
    }
  }

  /** A set of places has one registry. */
  lemma RegistryUnique(h: Digest, places: set<Location>, a: Registry, b: Registry)
    requires UpClosed(places) && Separates(h, places)
    requires IsRegistry(h, places, a) && IsRegistry(h, places, b)
    ensures a == b
  {
    var chosen, published, ids :| IsRegistryVia(h, places, a, chosen, published, ids);
    var chosen', published', ids' :| IsRegistryVia(h, places, b, chosen', published', ids');
    ChosenUnique(h, places, chosen, chosen');
    PublishedUnique(h, chosen, published, published');
    PublicationOrderIsStrictTotal(ParentLinks(h, published));
    AscendingUnique(PublicationOrder(ParentLinks(h, published)), ids, ids');
    LayoutUnique(published, ids, a, b);
  }

  /** Reordering or repeating the references changes nothing. */
  lemma RegistryIgnoresOrder(h: Digest, a: seq<Location>, b: seq<Location>, ra: Registry, rb: Registry)
    requires Separates(h, Places(Elements(a)))
    requires IsRegistry(h, Places(Elements(a)), ra) && IsRegistry(h, Places(Elements(b)), rb)
    requires Elements(a) == Elements(b)
    ensures ra == rb
  {
    PlacesUpClosed(Elements(a));
    RegistryUnique(h, Places(Elements(a)), ra, rb);
  }

  lemma PublishedIsKeyed(h: Digest, places: set<Location>, chosen: Chosen, published: Chosen)
    requires Chooses(h, places, chosen) && Roots(h, chosen, published) && UpClosed(places)
    ensures KeyedById(h, published)
    ensures forall id | id in published :: published[id].Parent().Some? ==> published[id].Parent().value.Id(h) in published
  {
    forall id | id in published
      ensures published[id].Id(h) == id
      ensures published[id].Parent().Some? ==> published[id].Parent().value.Id(h) in published
    {
      assert IsBest(h, places, id, chosen[id]);
      PublishedEntry(h, places, chosen, published, id);
    }
  }

  lemma PublishedEntry(h: Digest, places: set<Location>, chosen: Chosen, published: Chosen, id: string)
    requires id in chosen && published.Keys == chosen.Keys && RootedRight(h, chosen, published, id)
    requires UpClosed(places) && chosen[id] in places && chosen[id].Id(h) == id
    requires forall l | l in places :: l.Id(h) in chosen
    ensures published[id].Id(h) == id
    ensures published[id].Parent().Some? ==> published[id].Parent().value.Id(h) in published
  {
    assert published[id] == chosen[id] || published[id] == chosen[id].WithoutParent();
  }

  /** A parent is one step shallower than its child, so it is listed first. */
  lemma ParentFirst(p: Links, ids: seq<string>, i: nat, j: nat)
    requires Forest(p) && Ascending(PublicationOrder(p), ids)
    requires i < |ids| && j < |ids| && ids[i] in p && p[ids[i]] == ids[j]
    ensures j < i
  {
    assert Rooted(p, ids[i]);
    var n: nat :| DepthIs(p, ids[i], n);
    BeforeIs(p, ids[i], ids[j], n, n - 1);
    BeforeIs(p, ids[j], ids[i], n - 1, n);
    var order := PublicationOrder(p);
    assert order(ids[j], ids[i]) && !order(ids[i], ids[j]);
  }

  /** One entry per identity, the unknown place among them, and every parent listed before its children. */
  lemma RegistryShape(h: Digest, referenced: set<Location>, registry: Registry)
    requires IsRegistry(h, Places(referenced), registry)
    ensures registry.index.Keys == set l | l in Places(referenced) :: l.Id(h)
    ensures UNKNOWN in registry.index
    ensures forall i | 0 <= i < |registry.locations| :: IndexAgrees(h, registry, i) && ParentEarlier(h, registry, i)
  {
    var places := Places(referenced);
    var chosen, published, ids :| IsRegistryVia(h, places, registry, chosen, published, ids);
    PlacesUpClosed(referenced);
    PublishedIsKeyed(h, places, chosen, published);
    ChosenCover(h, places, chosen);
    assert Unknown in places;
    forall i | 0 <= i < |registry.locations|
      ensures IndexAgrees(h, registry, i) && ParentEarlier(h, registry, i)
    {
      EntryShape(h, published, ids, registry, i);
    }
  }

  lemma ChosenCover(h: Digest, places: set<Location>, chosen: Chosen)
    requires Chooses(h, places, chosen)
    ensures chosen.Keys == set l | l in places :: l.Id(h)
  {
    forall id ensures id in chosen <==> exists l :: l in places && l.Id(h) == id {
      if id in chosen { assert IsBest(h, places, id, chosen[id]); }
    }
  }

  /** Looking an entry up by its identity finds it. */
  ghost predicate IndexAgrees(h: Digest, registry: Registry, i: nat)
    requires i < |registry.locations|
  {
    var id := registry.locations[i].Id(h);
    id in registry.index && registry.index[id] == i
  }

  /** What an entry hangs under is listed, and earlier. */
  ghost predicate ParentEarlier(h: Digest, registry: Registry, i: nat)
    requires i < |registry.locations|
  {
    var parent := registry.locations[i].Parent();
    parent.Some? ==> parent.value.Id(h) in registry.index && registry.index[parent.value.Id(h)] < i
  }

  lemma EntryShape(h: Digest, published: Chosen, ids: seq<string>, registry: Registry, i: nat)
    requires KeyedById(h, published) && Forest(ParentLinks(h, published))
    requires Orders(ParentLinks(h, published), ids, published.Keys) && Lays(published, ids, registry)
    requires forall id | id in published :: published[id].Parent().Some? ==> published[id].Parent().value.Id(h) in published
    requires i < |registry.locations|
    ensures IndexAgrees(h, registry, i) && ParentEarlier(h, registry, i)
  {
    var parent := published[ids[i]].Parent();
    if parent.Some? {
      var id := parent.value.Id(h);
      assert id in Elements(ids);
      var j :| 0 <= j < |ids| && ids[j] == id;
      assert ChosenParent(h, published, ids[i]) == Some(id);
      ParentFirst(ParentLinks(h, published), ids, i, j);
    }
  }

  // ------------------------------------------------- the published values, from the places alone

  lemma {:induction false} UpIsShallower(l: Location, x: Location)
    requires x in Up(l)
    ensures x == l || x.Depth() < l.Depth()
  {
    if x != l { UpIsShallower(l.Parent().value, x); }
  }

  /** The depth counts the places above. */
  lemma {:induction false} DepthCounts(l: Location)
    ensures |Up(l)| == 1 + l.Depth()
  {
    if l.Parent().Some? {
      var p := l.Parent().value;
      DepthCounts(p);
      if l in Up(p) { UpIsShallower(p, l); }
    }
  }

  /** No value of the same place carries more ancestors, and none with as many a lesser rendered ancestry. */
  ghost predicate IsDeepest(h: Digest, places: set<Location>, l: Location) {
    l in places && forall x | x in places && x.Id(h) == l.Id(h) :: NoDeeper(h, x, l)
  }

  ghost predicate NoDeeper(h: Digest, x: Location, l: Location) {
    |Up(x)| < |Up(l)| || (|Up(x)| == |Up(l)| && !Less(x.Ancestry(h), l.Ancestry(h)))
  }

  /** By its deepest value, the one place is part of the other. */
  ghost predicate HangsUnder(h: Digest, places: set<Location>, a: string, b: string) {
    exists l :: IsDeepest(h, places, l) && l.Id(h) == a && l.Parent().Some? && l.Parent().value.Id(h) == b
  }

  /** Places each of which is part of the next, the last one of the first. */
  ghost predicate HangInLoop(h: Digest, places: set<Location>, r: seq<string>) {
    && r != []
    && (forall i | 0 <= i < |r| - 1 :: HangsUnder(h, places, r[i], r[i + 1]))
    && HangsUnder(h, places, r[|r| - 1], r[0])
  }

  /** The least of such a loop. */
  ghost predicate IsOpened(h: Digest, places: set<Location>, id: string) {
    exists r :: HangInLoop(h, places, r) && id in r && forall x | x in r :: !Less(x, id)
  }

  lemma BestIsDeepest(h: Digest, places: set<Location>, id: string, l: Location)
    requires IsBest(h, places, id, l)
    ensures IsDeepest(h, places, l)
  {
    forall x | x in places && x.Id(h) == l.Id(h) ensures NoDeeper(h, x, l) {
      DepthCounts(x);
      DepthCounts(l);
    }
  }

  /** The value chosen for a place is its deepest. */
  lemma DeepestIsChosen(h: Digest, places: set<Location>, chosen: Chosen, l: Location)
    requires UpClosed(places) && Separates(h, places) && Chooses(h, places, chosen) && l in places
    ensures IsDeepest(h, places, l) <==> chosen[l.Id(h)] == l
  {
    var best := chosen[l.Id(h)];
    assert IsBest(h, places, l.Id(h), best);
    BestIsDeepest(h, places, l.Id(h), best);
    if IsDeepest(h, places, l) {
      assert NoDeeper(h, best, l);
      DepthCounts(best);
      DepthCounts(l);
      BetterKnownIsTotal(h, places, best, l);
    }
  }

  lemma HangingIsLinked(h: Digest, places: set<Location>, chosen: Chosen, a: string, b: string)
    requires UpClosed(places) && Separates(h, places) && Chooses(h, places, chosen)
    ensures var p := ParentLinks(h, chosen); HangsUnder(h, places, a, b) <==> a in p && p[a] == b
  {
    if l :| IsDeepest(h, places, l) && l.Id(h) == a && l.Parent().Some? && l.Parent().value.Id(h) == b {
      DeepestIsChosen(h, places, chosen, l);
    }
    if a in ParentLinks(h, chosen) {
      assert IsBest(h, places, a, chosen[a]);
      DeepestIsChosen(h, places, chosen, chosen[a]);
    }
  }

  predicate Linked(p: Links, a: string, b: string) {
    a in p && p[a] == b
  }

  lemma LoopsAgree(h: Digest, places: set<Location>, p: Links, r: seq<string>)
    requires forall a, b :: HangsUnder(h, places, a, b) <==> Linked(p, a, b)
    ensures HangInLoop(h, places, r) <==> Loop(p, r)
  {
    if r != [] {
      assert Loop(p, r) ==> forall i | 0 <= i < |r| - 1 :: Linked(p, r[i], r[i + 1]);
      if HangInLoop(h, places, r) {
        forall i | 0 <= i < |r| ensures r[i] in p { if i < |r| - 1 { assert Linked(p, r[i], r[i + 1]); } }
        forall i | 0 <= i < |r| - 1 ensures p[r[i]] == r[i + 1] { assert Linked(p, r[i], r[i + 1]); }
      }
    }
  }

  lemma OpenedIsLeast(h: Digest, places: set<Location>, chosen: Chosen, id: string)
    requires UpClosed(places) && Separates(h, places) && Chooses(h, places, chosen)
    ensures IsOpened(h, places, id) <==> LeastOnLoop(ParentLinks(h, chosen), id)
  {
    var p := ParentLinks(h, chosen);
    forall a, b ensures HangsUnder(h, places, a, b) <==> Linked(p, a, b) {
      HangingIsLinked(h, places, chosen, a, b);
    }
    if r :| HangInLoop(h, places, r) && id in r && forall x | x in r :: !Less(x, id) {
      LoopsAgree(h, places, p, r);
    }
    if r :| Loop(p, r) && id in r && forall x | x in r :: !Less(x, id) {
      LoopsAgree(h, places, p, r);
    }
  }

  /** The entry of an identity. */
  function EntryOf(registry: Registry, id: string): Option<Location> {
    if id in registry.index && registry.index[id] < |registry.locations|
    then Some(registry.locations[registry.index[id]]) else None
  }

  /** What is published of a place is its deepest value, as it is, unless the place is the least of a loop: then it
      is published as a root. */
  lemma DeepestIsPublished(h: Digest, referenced: set<Location>, registry: Registry, l: Location)
    requires IsRegistry(h, Places(referenced), registry) && Separates(h, Places(referenced))
    requires IsDeepest(h, Places(referenced), l)
    ensures EntryOf(registry, l.Id(h)) ==
            Some(if IsOpened(h, Places(referenced), l.Id(h)) then l.WithoutParent() else l)
  {
    var places, id := Places(referenced), l.Id(h);
    var chosen, published, ids :| IsRegistryVia(h, places, registry, chosen, published, ids);
    PlacesUpClosed(referenced);
    DeepestIsChosen(h, places, chosen, l);
    OpenedIsLeast(h, places, chosen, id);
    assert id in chosen && RootedRight(h, chosen, published, id);
    assert id in Elements(ids);
    var i :| 0 <= i < |ids| && ids[i] == id;
  }

  lemma DeepestTells(h: Digest, places: set<Location>, deepest: Location, l: Location)
    requires Separates(h, places) && IsDeepest(h, places, deepest) && l in places && l.Id(h) == deepest.Id(h)
    ensures NoDeeper(h, l, deepest) && deepest.Key() == l.Key()
    ensures deepest.WithoutParent().Parent() == None && deepest.WithoutParent().Key() == l.Key()
  {
  }

  lemma SomeDeepest(h: Digest, places: set<Location>, registry: Registry, l: Location) returns (deepest: Location)
    requires IsRegistry(h, places, registry) && l in places
    ensures IsDeepest(h, places, deepest) && deepest.Id(h) == l.Id(h)
  {
    var chosen, published, ids :| IsRegistryVia(h, places, registry, chosen, published, ids);
    deepest := chosen[l.Id(h)];
    assert IsBest(h, places, l.Id(h), deepest);
    BestIsDeepest(h, places, l.Id(h), deepest);
  }

  /** Nothing that any reference tells about where a place is gets lost: its entry carries at least as many
      ancestors as any value of it, and of those with as many the least, unless the entry was opened. */
  lemma NothingDeeper(h: Digest, referenced: set<Location>, registry: Registry, l: Location)
    requires IsRegistry(h, Places(referenced), registry) && Separates(h, Places(referenced)) && l in Places(referenced)
    ensures var entry := EntryOf(registry, l.Id(h));
      && entry.Some? && entry.value.Key() == l.Key()
      && if IsOpened(h, Places(referenced), l.Id(h)) then entry.value.Parent() == None else NoDeeper(h, l, entry.value)
  {
    var places := Places(referenced);
    var deepest := SomeDeepest(h, places, registry, l);
    DeepestTells(h, places, deepest, l);
    DeepestIsPublished(h, referenced, registry, deepest);
  }

  /** What the published entries hang under, read off the registry. */
  function ShownLinks(h: Digest, registry: Registry): Links {
    map id | id in registry.index && EntryOf(registry, id).Some? && EntryOf(registry, id).value.Parent().Some?
        :: EntryOf(registry, id).value.Parent().value.Id(h)
  }

  lemma EntriesShown(published: Chosen, ids: seq<string>, registry: Registry, id: string)
    requires Elements(ids) == published.Keys && Lays(published, ids, registry) && id in published
    ensures EntryOf(registry, id) == Some(published[id])
  {
    assert id in Elements(ids);
    var i :| 0 <= i < |ids| && ids[i] == id;
  }

  lemma LinksShown(h: Digest, published: Chosen, ids: seq<string>, registry: Registry)
    requires Elements(ids) == published.Keys && Lays(published, ids, registry)
    requires forall id | id in published :: published[id].Parent().Some? ==> published[id].Parent().value.Id(h) in published
    ensures ShownLinks(h, registry) == ParentLinks(h, published)
  {
    var shown, p := ShownLinks(h, registry), ParentLinks(h, published);
    forall id ensures id in shown <==> id in p {
      if id in published { EntriesShown(published, ids, registry, id); }
    }
    forall id | id in p ensures shown[id] == p[id] {
      EntriesShown(published, ids, registry, id);
    }
  }

  lemma ShownIsPublished(h: Digest, places: set<Location>, registry: Registry, chosen: Chosen, published: Chosen,
                         ids: seq<string>)
    requires UpClosed(places) && IsRegistryVia(h, places, registry, chosen, published, ids)
    ensures ShownLinks(h, registry) == ParentLinks(h, published)
    ensures forall i | 0 <= i < |registry.locations| :: registry.locations[i].Id(h) == ids[i]
  {
    PublishedIsKeyed(h, places, chosen, published);
    LinksShown(h, published, ids, registry);
  }

  /** The list is in order of how many published places an entry hangs under, and of identity where that is equal. */
  lemma ListedInOrder(h: Digest, referenced: set<Location>, registry: Registry, i: nat, j: nat, m: nat, n: nat)
    requires IsRegistry(h, Places(referenced), registry) && i < j < |registry.locations|
    requires DepthIs(ShownLinks(h, registry), registry.locations[i].Id(h), m)
    requires DepthIs(ShownLinks(h, registry), registry.locations[j].Id(h), n)
    ensures m < n || (m == n && Less(registry.locations[i].Id(h), registry.locations[j].Id(h)))
  {
    var places := Places(referenced);
    var chosen, published, ids :| IsRegistryVia(h, places, registry, chosen, published, ids);
    PlacesUpClosed(referenced);
    ShownIsPublished(h, places, registry, chosen, published, ids);
    var p := ParentLinks(h, published);
    assert PublicationOrder(p)(ids[i], ids[j]);
    BeforeIs(p, ids[i], ids[j], m, n);
  }
}
