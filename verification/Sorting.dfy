/**
 The deterministic order used throughout the system: by a height first and by ID
 to break ties, without duplicates. With a constant key it is plain ID order,
 the canonical form of a `Snapshot`.
 */
module Sorting {
  import opened Entries

  type Key = Id -> nat

  predicate Before(key: Key, a: Id, b: Id) {
    key(a) < key(b) || (key(a) == key(b) && a < b)
  }

  ghost predicate Ordered(key: Key, s: seq<Id>) {
    forall i, j | 0 <= i < j < |s| :: Before(key, s[i], s[j])
  }

  function Insert(key: Key, x: Id, s: seq<Id>): (r: seq<Id>)
    ensures forall y :: y in r <==> y == x || y in s
  {
    if s == [] then [x]
    else if x == s[0] then s
    else if Before(key, x, s[0]) then [x] + s
    else
      assert s == [s[0]] + s[1..];
      [s[0]] + Insert(key, x, s[1..])
  }

  lemma {:induction false} InsertOrdered(key: Key, x: Id, s: seq<Id>)
    requires Ordered(key, s)
    ensures Ordered(key, Insert(key, x, s))
  {
    if s != [] && x != s[0] && !Before(key, x, s[0]) {
      InsertOrdered(key, x, s[1..]);
      var t := Insert(key, x, s[1..]);
      forall j | 0 <= j < |t| ensures Before(key, s[0], t[j]) {
        assert t[j] in t;
        if t[j] != x {
          var k :| 0 <= k < |s[1..]| && s[1..][k] == t[j];
          assert s[k + 1] == t[j];
        }
      }
    }
  }

  /** Sort, then drop duplicates. */
  function SortDedup(key: Key, s: seq<Id>): (r: seq<Id>)
    ensures Ordered(key, r)
    ensures forall x :: x in r <==> x in s
  {
    if s == [] then []
    else
      assert s == [s[0]] + s[1..];
      InsertOrdered(key, s[0], SortDedup(key, s[1..]));
      Insert(key, s[0], SortDedup(key, s[1..]))
  }

  /** The sorted listing of a set. */
  ghost function SortedSet(key: Key, xs: set<Id>): (r: seq<Id>)
    ensures Ordered(key, r)
    ensures forall x :: x in r <==> x in xs
  {
    if xs == {} then []
    else
      var x :| x in xs;
      InsertOrdered(key, x, SortedSet(key, xs - {x}));
      Insert(key, x, SortedSet(key, xs - {x}))
  }

  lemma OrderedIndex(key: Key, s: seq<Id>, k: nat, i: nat)
    requires Ordered(key, s) && k < |s| && i < |s| && Before(key, s[k], s[i])
    ensures k < i
  {
  }

  lemma FirstIn(s: seq<Id>)
    ensures s != [] ==> s[0] in s
  {
  }

  /** A set has one sorted listing. */
  lemma {:induction false} OrderedUnique(key: Key, a: seq<Id>, b: seq<Id>)
    requires Ordered(key, a) && Ordered(key, b)
    requires forall x :: x in a <==> x in b
    ensures a == b
  {
    FirstIn(b);
    if a == [] {
    } else {
      assert a[0] in b && b != [];
      assert b[0] in a;
      assert a[0] == b[0];
      forall x ensures x in a[1..] <==> x in b[1..] {
        if x in a[1..] { assert x in b; assert x != a[0]; }
        if x in b[1..] { assert x in a; assert x != b[0]; }
      }
      OrderedUnique(key, a[1..], b[1..]);
      assert a == [a[0]] + a[1..] && b == [b[0]] + b[1..];
    }
  }

  /** The listing does not depend on the keys of IDs outside the set. */
  lemma SortedSetAgree(key: Key, key': Key, xs: set<Id>)
    requires forall x :: x in xs ==> key(x) == key'(x)
    ensures SortedSet(key, xs) == SortedSet(key', xs)
  {
    var a, b := SortedSet(key, xs), SortedSet(key', xs);
    OrderedUnique(key, a, b);
  }

  lemma SortDedupIsSortedSet(key: Key, s: seq<Id>)
    ensures SortDedup(key, s) == SortedSet(key, Elems(s))
  {
    var a, b := SortDedup(key, s), SortedSet(key, Elems(s));
    OrderedUnique(key, a, b);
  }

  /** Materialise a set as a sorted vector; the set is drained in an arbitrary order. */
  method Listing(key: Key, xs: set<Id>) returns (r: seq<Id>)
    ensures r == SortedSet(key, xs)
  {
    r := [];
    var rest := xs;
    while rest != {}
      invariant rest <= xs && Ordered(key, r) && forall x :: x in r <==> x in xs - rest
      decreases rest
    {
      var x :| x in rest;
      rest := rest - {x};
      InsertOrdered(key, x, r);
      r := Insert(key, x, r);
    }
    var b := SortedSet(key, xs);
    OrderedUnique(key, r, b);
  }
}
