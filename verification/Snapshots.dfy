/** `Snapshot`: a database state named by its sorted, deduplicated tip IDs. */
module Snapshots {
  import opened Entries
  import opened Sorting

  const BY_ID: Key := (x: Id) => 0

  datatype Snapshot = Snapshot(tips: seq<Id>) {

    /** Snapshots are only built by `New`, so their tips are canonical. */
    ghost predicate Canonical() {
      Ordered(BY_ID, tips)
    }

    function Ids(): set<Id> {
      Elems(tips)
    }
  }

  function New(tips: seq<Id>): (r: Snapshot)
    ensures r.Canonical()
    ensures r.Ids() == Elems(tips)
  {
    Snapshot(SortDedup(BY_ID, tips))
  }

  ghost function Of(tips: set<Id>): (r: Snapshot)
    ensures r.Canonical()
    ensures r.Ids() == tips
  {
    Snapshot(SortedSet(BY_ID, tips))
  }

  /** Canonical means strictly ascending: sorted and without repetition. */
  lemma CanonicalIff(a: Snapshot)
    ensures a.Canonical() <==> forall i, j :: 0 <= i < j < |a.tips| ==> a.tips[i] < a.tips[j]
  {
  }

  /** Vector equality of canonical snapshots is set equality of their tips. */
  lemma SetEquality(a: Snapshot, b: Snapshot)
    requires a.Canonical() && b.Canonical()
    ensures a == b <==> a.Ids() == b.Ids()
  {
    if a.Ids() == b.Ids() {
      assert forall x :: x in a.tips <==> x in a.Ids();
      assert forall x :: x in b.tips <==> x in b.Ids();
      OrderedUnique(BY_ID, a.tips, b.tips);
    }
  }

  /** Order and repetition of the input vector never matter. */
  lemma NewSetEquality(s: seq<Id>, t: seq<Id>)
    ensures New(s) == New(t) <==> Elems(s) == Elems(t)
  {
    SetEquality(New(s), New(t));
  }

  /** Building a snapshot from its own tips gives it back: the wire form round-trips. */
  lemma NewRoundTrip(a: Snapshot)
    requires a.Canonical()
    ensures New(a.tips) == a
  {
    SetEquality(New(a.tips), a);
  }
}
