/** Orders and sorting.

    Identifiers are compared byte by byte, as Go's string comparison and sort.Strings do.
    A `char` here is one Unicode scalar value; on valid text the byte order of UTF-8 and the
    order of scalar values agree.  Sorting itself is a library call in the program, so it is
    given as a function and characterised by what identifies its result: it is the only
    ascending listing of its elements.
 */
module Ordering {

  /** Strict lexicographic order. */
  predicate Less(a: string, b: string) {
    b != [] && (a == [] || a[0] < b[0] || (a[0] == b[0] && Less(a[1..], b[1..])))
  }

  lemma {:induction false} LessTransitive(a: string, b: string, c: string)
    requires Less(a, b) && Less(b, c)
    ensures Less(a, c)
  {
    if a != [] && a[0] == b[0] && b[0] == c[0] {
      LessTransitive(a[1..], b[1..], c[1..]);
    }
  }

  lemma {:induction false} LessTotal(a: string, b: string)
    ensures Less(a, b) || a == b || Less(b, a)
    ensures !(Less(a, b) && Less(b, a))
    ensures a == b ==> !Less(a, b)
  {
    if a != [] && b != [] && a[0] == b[0] {
      LessTotal(a[1..], b[1..]);
      assert a == [a[0]] + a[1..] && b == [b[0]] + b[1..];
    }
  }

  /** The strings agree up to k, where the first ends or has the smaller character. */
  predicate DecidedAt(a: string, b: string, k: nat) {
    k <= |a| && k < |b| && a[..k] == b[..k] && (k == |a| || a[k] < b[k])
  }

  /** The first difference decides, and a proper prefix comes first. */
  lemma {:induction false} LessMeans(a: string, b: string)
    ensures Less(a, b) <==> exists k: nat :: DecidedAt(a, b, k)
  {
    if a == [] || b == [] || a[0] != b[0] {
      if Less(a, b) { assert DecidedAt(a, b, 0); }
      if k: nat :| DecidedAt(a, b, k) && k > 0 { assert a[..k][0] == b[..k][0]; }
    } else {
      LessMeans(a[1..], b[1..]);
      if k: nat :| DecidedAt(a[1..], b[1..], k) {
        assert a[..k + 1] == [a[0]] + a[1..][..k] && b[..k + 1] == [b[0]] + b[1..][..k];
        assert DecidedAt(a, b, k + 1);
      }
      if k: nat :| DecidedAt(a, b, k) {
        assert a[1..][..k - 1] == a[..k][1..] && b[1..][..k - 1] == b[..k][1..];
        assert DecidedAt(a[1..], b[1..], k - 1);
      }
    }
  }

  /** `lt` is a strict total order. */
  ghost predicate StrictTotal<T(!new)>(lt: (T, T) -> bool) {
    && (forall x, y :: !(lt(x, y) && lt(y, x)))
    && (forall x, y :: x != y ==> lt(x, y) || lt(y, x))
    && (forall x, y, z :: lt(x, y) && lt(y, z) ==> lt(x, z))
  }

  lemma LessIsStrictTotal()
    ensures StrictTotal(Less)
  {
    forall x, y ensures !(Less(x, y) && Less(y, x)) && (x != y ==> Less(x, y) || Less(y, x)) {
      LessTotal(x, y);
    }
    forall x, y, z | Less(x, y) && Less(y, z) ensures Less(x, z) {
      LessTransitive(x, y, z);
    }
  }

  function Elements<T>(s: seq<T>): set<T> {
    set x | x in s
  }

  ghost predicate Distinct<T(!new)>(s: seq<T>) {
    forall i, j | 0 <= i < j < |s| :: s[i] != s[j]
  }

  lemma DistinctAppend<T(!new)>(s: seq<T>, x: T)
    requires Distinct(s) && x !in s
    ensures Distinct(s + [x])
  {
  }

  /** Strictly ascending: sorted and free of repeats. */
  ghost predicate Ascending<T(!new)>(lt: (T, T) -> bool, s: seq<T>) {
    forall i, j | 0 <= i < j < |s| :: lt(s[i], s[j])
  }

  /** Sorted, repeats allowed. */
  ghost predicate Sorted<T(!new)>(lt: (T, T) -> bool, s: seq<T>) {
    forall i, j | 0 <= i < j < |s| :: !lt(s[j], s[i])
  }

  lemma {:induction false} CardinalitySubset<T(!new)>(a: set<T>, b: set<T>)
    requires a <= b
    ensures |a| <= |b|
  {
    if a != {} {
      var x :| x in a;
      CardinalitySubset(a - {x}, b - {x});
    }
  }

  lemma CardinalityProper<T(!new)>(a: set<T>, b: set<T>)
    requires a <= b && |a| >= |b|
    ensures a == b
  {
    forall x | x in b ensures x in a {
      if x !in a {
        CardinalitySubset(a, b - {x});
      }
    }
  }

  lemma {:induction false} DistinctLength<T(!new)>(s: seq<T>, all: set<T>)
    requires Distinct(s) && Elements(s) <= all
    ensures |s| <= |all|
  {
    if s != [] {
      var k := |s| - 1;
      assert forall x :: x in s[..k] ==> x in Elements(s) && x != s[k];
      DistinctLength(s[..k], all - {s[k]});
      assert s[k] in Elements(s);
    }
  }

  lemma TakeNext<T>(s: seq<T>, k: nat)
    requires k < |s|
    ensures s[..k + 1] == s[..k] + [s[k]]
    ensures s[..k + 1][..k] == s[..k]
  {
  }

  lemma NonemptyElements<T>(s: seq<T>)
    ensures s != [] ==> Elements(s) != {}
  {
    if s != [] { assert s[0] in Elements(s); }
  }

  /** A set has one ascending listing. */
  lemma {:induction false} AscendingUnique<T(!new)>(lt: (T, T) -> bool, a: seq<T>, b: seq<T>)
    requires StrictTotal(lt)
    requires Ascending(lt, a) && Ascending(lt, b)
    requires Elements(a) == Elements(b)
    ensures a == b
  {
    if a == [] {
      NonemptyElements(b);
    } else {
      assert a[0] in Elements(b);
      assert b[0] in Elements(a);
      var k :| 0 <= k < |b| && b[k] == a[0];
      var m :| 0 <= m < |a| && a[m] == b[0];
      assert a[0] == b[0];
      forall x ensures x in Elements(a[1..]) <==> x in Elements(b[1..]) {
        TailElements(lt, a, x);
        TailElements(lt, b, x);
      }
      AscendingUnique(lt, a[1..], b[1..]);
      assert a == [a[0]] + a[1..] && b == [b[0]] + b[1..];
    }
  }

  lemma TailElements<T(!new)>(lt: (T, T) -> bool, a: seq<T>, x: T)
    requires StrictTotal(lt) && Ascending(lt, a) && a != []
    ensures x in a[1..] <==> x in Elements(a) && x != a[0]
  {
    if x in a && x != a[0] {
      var i :| 0 <= i < |a| && a[i] == x;
      assert a[1..][i - 1] == x;
    }
  }

  function InsertBy<T>(lt: (T, T) -> bool, x: T, s: seq<T>): seq<T> {
    if s == [] || !lt(s[0], x) then [x] + s else [s[0]] + InsertBy(lt, x, s[1..])
  }

  /** The library sort. */
  function SortBy<T>(lt: (T, T) -> bool, s: seq<T>): seq<T> {
    if s == [] then [] else InsertBy(lt, s[0], SortBy(lt, s[1..]))
  }

  lemma {:induction false} InsertBySorts<T(!new)>(lt: (T, T) -> bool, x: T, s: seq<T>)
    requires StrictTotal(lt) && Sorted(lt, s)
    ensures Sorted(lt, InsertBy(lt, x, s))
    ensures multiset(InsertBy(lt, x, s)) == multiset(s) + multiset{x}
  {
    var r := InsertBy(lt, x, s);
    if s == [] || !lt(s[0], x) {
      forall i, j | 0 <= i < j < |r| ensures !lt(r[j], r[i]) {
        assert r[j] == s[j - 1];
      }
    } else {
      InsertBySorts(lt, x, s[1..]);
      assert s == [s[0]] + s[1..];
      ConsSorted(lt, s[0], InsertBy(lt, x, s[1..]), s[1..], x);
    }
  }

  lemma ConsSorted<T(!new)>(lt: (T, T) -> bool, head: T, t: seq<T>, rest: seq<T>, x: T)
    requires Sorted(lt, t) && multiset(t) == multiset(rest) + multiset{x}
    requires !lt(x, head) && Sorted(lt, [head] + rest)
    ensures Sorted(lt, [head] + t)
  {
    var r := [head] + t;
    forall i, j | 0 <= i < j < |r| ensures !lt(r[j], r[i]) {
      var y := t[j - 1];
      assert r[j] == y && y in multiset(t);
      if i > 0 {
        assert r[i] == t[i - 1];
      } else if y != x {
        assert y in multiset(rest);
        var k :| 0 <= k < |rest| && rest[k] == y;
        assert ([head] + rest)[k + 1] == y && ([head] + rest)[0] == head;
      }
    }
  }

  lemma {:induction false} SortBySorts<T(!new)>(lt: (T, T) -> bool, s: seq<T>)
    requires StrictTotal(lt)
    ensures Sorted(lt, SortBy(lt, s))
    ensures multiset(SortBy(lt, s)) == multiset(s)
    ensures |SortBy(lt, s)| == |s|
    ensures forall x :: x in SortBy(lt, s) <==> x in s
  {
    if s != [] {
      SortBySorts(lt, s[1..]);
      InsertBySorts(lt, s[0], SortBy(lt, s[1..]));
      assert s == [s[0]] + s[1..];
    }
    SameMultiset(SortBy(lt, s), s);
  }

  lemma SameMultiset<T(!new)>(a: seq<T>, b: seq<T>)
    requires multiset(a) == multiset(b)
    ensures |a| == |b| && forall x :: x in a <==> x in b
  {
    assert |multiset(a)| == |a| && |multiset(b)| == |b|;
    assert forall x :: x in a <==> x in multiset(a);
  }

  lemma DistinctSortsAscending<T(!new)>(lt: (T, T) -> bool, s: seq<T>)
    requires StrictTotal(lt) && Distinct(s)
    ensures Ascending(lt, SortBy(lt, s))
    ensures Elements(SortBy(lt, s)) == Elements(s)
  {
    SortBySorts(lt, s);
    var r := SortBy(lt, s);
    forall i, j | 0 <= i < j < |r| ensures lt(r[i], r[j]) {
      if r[i] == r[j] {
        RepeatCounts(r, i, j);
        DistinctCounts(s, r[i]);
        assert false;
      }
    }
  }

  lemma {:induction false} DistinctCounts<T(!new)>(s: seq<T>, x: T)
    requires Distinct(s)
    ensures multiset(s)[x] <= 1
  {
    if s != [] {
      assert s == [s[0]] + s[1..];
      DistinctCounts(s[1..], x);
      if s[0] == x { assert x !in s[1..]; }
    }
  }

  lemma RepeatCounts<T(!new)>(s: seq<T>, i: nat, j: nat)
    requires i < j < |s| && s[i] == s[j]
    ensures multiset(s)[s[i]] >= 2
  {
    assert s == s[..j] + s[j..];
    assert s[..j][i] == s[i] && s[j..][0] == s[i];
    assert s[i] in multiset(s[..j]) && s[i] in multiset(s[j..]);
  }

  ghost predicate Lists(r: seq<string>, ids: set<string>) {
    Elements(r) == ids && Ascending(Less, r)
  }

  /** The ascending listing of a set of identifiers. */
  ghost function Listing(ids: set<string>): (r: seq<string>)
    ensures Lists(r, ids)
  {
    ListingExists(ids);
    var r :| Lists(r, ids);
    r
  }

  lemma ListingExists(ids: set<string>)
    ensures exists r :: Lists(r, ids)
  {
    var unsorted := SomeListing(ids);
    LessIsStrictTotal();
    DistinctSortsAscending(Less, unsorted);
    assert Lists(SortBy(Less, unsorted), ids);
  }

  lemma {:induction false} SomeListing(ids: set<string>) returns (r: seq<string>)
    ensures Elements(r) == ids && Distinct(r)
  {
    if ids == {} {
      r := [];
    } else {
      var x :| x in ids;
      var rest := SomeListing(ids - {x});
      assert x in rest <==> x in Elements(rest);
      DistinctAppend(rest, x);
      r := rest + [x];
      assert Elements(r) == Elements(rest) + {x};
    }
  }

  lemma AscendingDistinct(s: seq<string>)
    requires Ascending(Less, s)
    ensures Distinct(s)
  {
    LessIsStrictTotal();
  }

  lemma ListingUnique(s: seq<string>)
    requires Ascending(Less, s)
    ensures s == Listing(Elements(s))
  {
    LessIsStrictTotal();
    AscendingUnique(Less, s, Listing(Elements(s)));
  }

  lemma SortedListing(s: seq<string>)
    requires Distinct(s)
    ensures SortBy(Less, s) == Listing(Elements(s))
  {
    LessIsStrictTotal();
    DistinctSortsAscending(Less, s);
    ListingUnique(SortBy(Less, s));
  }
}
