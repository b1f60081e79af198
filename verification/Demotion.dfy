/**
 `demote_to_unverified`: mark an entry Unverified and cascade to every Verified
 descendant, so that the Verified set stays ancestor-closed and the next pass
 can reach what was demoted.
 */
module Demotion {
  import opened Entries
  import opened Walks
  import opened Dag
  import opened Backends
  import opened Verification
  import opened Frontier
  import opened Passes

  /** From each held entry to its held children in the tree. */
  function ChildEdges(es: Held, tree: Id): Edges {
    map p | p in es :: set c | c in es && ChildOf(es, tree, c, p)
  }

  ghost predicate Descendant(es: Held, tree: Id, target: Id, x: Id) {
    Reach(ChildEdges(es, tree), {target}, x)
  }

  ghost function DemotedStatus(s: Store, target: Id, reached: set<Id>): Statuses {
    map x | x in s.status ::
      if x in reached && (x == target || s.status[x] == Verified) then Unverified else s.status[x]
  }

  ghost function Demoted(s: Store, tree: Id, target: Id): Store {
    s.(status := DemotedStatus(s, target, ReachSet(ChildEdges(s.entries, tree), {target})))
  }

  /** The children index over `get_tree`. */
  method ChildIndex(es: Held, tree: Id) returns (children: map<Id, seq<Id>>)
    ensures forall p, c :: c in Kids(children, p) <==> ChildOf(es, tree, c, p)
  {
    children := map[];
    var rest := TreeIds(es, tree);
    while rest != {}
      invariant rest <= TreeIds(es, tree)
      invariant forall p, c :: c in Kids(children, p) <==> ChildOf(es, tree, c, p) && c !in rest
      decreases rest
    {
      var id :| id in rest;
      children := IndexChild(children, id, es[id].parents);
      rest := rest - {id};
    }
  }

  method IndexChild(children0: map<Id, seq<Id>>, id: Id, parents: seq<Id>) returns (children: map<Id, seq<Id>>)
    ensures forall p, c :: c in Kids(children, p) <==> c in Kids(children0, p) || (c == id && p in parents)
  {
    children := children0;
    for i := 0 to |parents|
      invariant forall p, c :: c in Kids(children, p) <==> c in Kids(children0, p) || (c == id && p in parents[..i])
    {
      var p := parents[i];
      TakeNext(parents, i);
      children := children[p := Kids(children, p) + [id]];
    }
    assert parents[..|parents|] == parents;
  }

  lemma DemoteOne(s: Store, target: Id, visited: set<Id>, id: Id)
    requires id !in visited
    ensures DemotedStatus(s, target, visited + {id}) ==
            var st := DemotedStatus(s, target, visited);
            if id in st && (id == target || st[id] == Verified) then st[id := Unverified] else st
  {
  }

  /** The cascade part way: the visited entries have been written, the queue is still to come. */
  ghost predicate Demoting(s: Store, tree: Id, target: Id, visited: set<Id>, queue: seq<Id>, status: Statuses) {
    && status == DemotedStatus(s, target, visited)
    && Exploring(ChildEdges(s.entries, tree), {target}, visited, Elems(queue))
  }

  lemma DemotingNext(s: Store, tree: Id, target: Id, visited: set<Id>, queue: seq<Id>, status: Statuses,
                     pushed: seq<Id>)
    requires s.Valid() && queue != [] && queue[0] !in visited && Demoting(s, tree, target, visited, queue, status)
    requires forall c :: c in pushed <==> queue[0] in s.entries && ChildOf(s.entries, tree, c, queue[0])
    ensures Demoting(s, tree, target, visited + {queue[0]}, queue[1..] + pushed,
                     if queue[0] in status && (queue[0] == target || status[queue[0]] == Verified)
                     then status[queue[0] := Unverified] else status)
  {
    DemoteOne(s, target, visited, queue[0]);
    ExploreFront(ChildEdges(s.entries, tree), {target}, visited, queue, pushed);
  }

  /** Breadth-first from the target, writing statuses as it goes. */
  method DemoteToUnverified(b: Backend, tree: Id, target: Id)
    requires b.Valid()
    modifies b`status
    ensures b.Valid()
    ensures b.Value() == Demoted(old(b.Value()), tree, target)
  {
    ghost var s := b.Value();
    var children := ChildIndex(b.entries, tree);
    var queue := [target];
    var visited: set<Id> := {};
    ExploreStart(ChildEdges(s.entries, tree), {target});
    assert Elems(queue) == {target};
    while queue != []
      invariant b.Valid()
      invariant Demoting(s, tree, target, visited, queue, b.status)
      decreases b.entries.Keys - visited, |queue|
    {
      var id := queue[0];
      if id in visited {
        SkipFront(ChildEdges(s.entries, tree), {target}, visited, queue);
        queue := queue[1..];
        continue;
      }
      var pushed := if id in b.status then Kids(children, id) else [];
      DemotingNext(s, tree, target, visited, queue, b.status, pushed);
      if id in b.status && (id == target || b.status[id] == Verified) {
        var _ := b.UpdateVerificationStatus(id, Unverified);
      }
      queue := queue[1..] + pushed;
      visited := visited + {id};
    }
    ExploreDone(ChildEdges(s.entries, tree), {target}, visited);
  }

  // --- What demotion removes ---

  /** Descendants are what reaches the target along parent edges inside the tree. */
  lemma DescendantIff(es: Held, tree: Id, target: Id, x: Id)
    requires target in es
    ensures Descendant(es, tree, target, x) <==> Reach(EdgesWithin(es, TreeIds(es, tree)), {x}, target)
  {
    var up, down := ChildEdges(es, tree), EdgesWithin(es, TreeIds(es, tree));
    if Descendant(es, tree, target, x) {
      var c := iset y | Reach(down, {y}, target);
      ReachSeed(down, {target}, target);
      forall y, z | y in c && Step(up, y, z) ensures z in c {
        ReachSeed(down, {z}, z);
        assert Step(down, z, y);
        ReachStep(down, {z}, z, y);
        ReachTrans(down, {z}, {y});
      }
      ReachInduct(up, {target}, c);
    }
    if Reach(down, {x}, target) {
      var c := iset y | y in es ==> Reach(up, {y}, x);
      ReachSeed(up, {x}, x);
      forall y, p | y in c && Step(down, y, p) ensures p in c {
        if p in es {
          ReachSeed(up, {p}, p);
          assert Step(up, p, y);
          ReachStep(up, {p}, p, y);
          ReachTrans(up, {p}, {y});
        }
      }
      ReachInduct(down, {x}, c);
    }
  }

  /** Exactly the target and its descendants leave the Verified set; no other status changes. */
  lemma DemotionExact(s: Store, tree: Id, target: Id)
    requires s.Valid() && target in s.entries
    ensures Demoted(s, tree, target).Valid()
    ensures forall x :: Demoted(s, tree, target).Is(x, Verified) <==>
              s.Is(x, Verified) && !Descendant(s.entries, tree, target, x)
    ensures forall x :: x in s.status && x != target && !s.Is(x, Verified) ==>
              Demoted(s, tree, target).status[x] == s.status[x]
    ensures Demoted(s, tree, target).Is(target, Unverified)
  {
    ReachSeed(ChildEdges(s.entries, tree), {target}, target);
  }

  // --- The Verified set stays ancestor-closed ---

  ghost predicate ParentsVerified(s: Store, x: Id) {
    x in s.entries && forall p :: p in s.entries[x].parents ==> s.Is(p, Verified)
  }

  /** Every parent of a Verified entry is held and Verified. */
  ghost predicate AncestorClosed(s: Store) {
    forall x :: s.Is(x, Verified) ==> ParentsVerified(s, x)
  }

  /** A Verified entry outside the tree with a parent the cascade reaches: the children index does not list it. */
  ghost predicate Escapes(s: Store, tree: Id, target: Id, x: Id) {
    && x in s.entries && s.Is(x, Verified) && x != target && !s.entries[x].InTree(tree)
    && exists p :: p in s.entries[x].parents && Descendant(s.entries, tree, target, p)
  }

  lemma DemotedVerified(s: Store, tree: Id, target: Id)
    requires s.Valid()
    ensures forall x :: Demoted(s, tree, target).Is(x, Verified) <==>
              s.Is(x, Verified) && !Descendant(s.entries, tree, target, x)
  {
  }

  /** The cascade keeps the Verified set ancestor-closed exactly when no Verified child escapes it into another tree. */
  lemma DemotionClosedIff(s: Store, tree: Id, target: Id)
    requires s.Valid() && AncestorClosed(s)
    ensures AncestorClosed(Demoted(s, tree, target)) <==> !exists x :: Escapes(s, tree, target, x)
  {
    var s' := Demoted(s, tree, target);
    DemotedVerified(s, tree, target);
    if exists x :: Escapes(s, tree, target, x) {
      var x :| Escapes(s, tree, target, x);
      var p :| p in s.entries[x].parents && Descendant(s.entries, tree, target, p);
      NotDescendant(s.entries, tree, target, x);
      assert s'.Is(x, Verified) && !s'.Is(p, Verified);
    } else {
      forall x | s'.Is(x, Verified) ensures ParentsVerified(s', x) {
        forall p | p in s.entries[x].parents ensures s'.Is(p, Verified) {
          NoEscape(s, tree, target, x, p);
        }
      }
    }
  }

  lemma NoEscape(s: Store, tree: Id, target: Id, x: Id, p: Id)
    requires s.Valid() && AncestorClosed(s) && !Escapes(s, tree, target, x)
    requires x in s.entries && s.Is(x, Verified) && p in s.entries[x].parents
    requires !Descendant(s.entries, tree, target, x)
    ensures !Descendant(s.entries, tree, target, p)
  {
    var g := ChildEdges(s.entries, tree);
    if Descendant(s.entries, tree, target, p) {
      ReachSeed(g, {target}, target);
      assert s.Is(p, Verified);
      assert s.entries[x].InTree(tree);
      assert Step(g, p, x);
      ReachStep(g, {target}, p, x);
      assert false;
    }
  }

  /** Apart from the target itself, descendants are in the tree. */
  lemma NotDescendant(es: Held, tree: Id, target: Id, x: Id)
    requires x in es && x != target && !es[x].InTree(tree)
    ensures !Descendant(es, tree, target, x)
  {
    if Descendant(es, tree, target, x) {
      var y := LastStep(ChildEdges(es, tree), {target}, x);
      assert false;
    }
  }

  // --- Demote, then verify ---

  ghost predicate NoFailedDescendant(s: Store, tree: Id, target: Id) {
    forall x :: Descendant(s.entries, tree, target, x) ==> !s.Is(x, Failed)
  }

  /** Descendants are joined to the raw tips by chains of descendants. */
  lemma DescendantsClimb(es: Held, tree: Id, target: Id)
    requires Acyclic(es) && Holds(es, tree, target)
    ensures ReachSet(ChildEdges(es, tree), {target}) <= es.Keys
    ensures forall x :: Descendant(es, tree, target, x) ==>
              Reach(EdgesWithin(es, ReachSet(ChildEdges(es, tree), {target})), RawTips(es, tree), x)
  {
    var g := ChildEdges(es, tree);
    var within := ReachSet(g, {target});
    ReachInduct(g, {target}, iset x | Holds(es, tree, x));
    forall x | x in within && x !in RawTips(es, tree) ensures exists c :: c in within && x in es[c].parents {
      var c :| c in es && ChildOf(es, tree, c, x);
      assert Step(g, x, c);
      ReachStep(g, {target}, x, c);
    }
    ClimbWithin(es, within, RawTips(es, tree));
  }

  /** Everything demoted is in sight of the next pass. */
  lemma DemotedInRegion(s: Store, tree: Id, target: Id, s1: Store)
    requires s.Valid() && Acyclic(s.entries) && Holds(s.entries, tree, target)
    requires NoFailedDescendant(s, tree, target) && s1 == Demoted(s, tree, target)
    ensures forall x :: Descendant(s.entries, tree, target, x) ==> x in Region(s1, tree)
  {
    var within := ReachSet(ChildEdges(s.entries, tree), {target});
    DescendantsClimb(s.entries, tree, target);
    forall x | x in within ensures s1.Is(x, Unverified) {
      assert !s.Is(x, Failed);
    }
    UnverifiedClimb(s1, tree, within);
  }

  lemma UnverifiedClimb(s: Store, tree: Id, within: set<Id>)
    requires within <= s.entries.Keys && forall x :: x in within ==> s.Is(x, Unverified)
    requires forall x :: x in within ==> Reach(EdgesWithin(s.entries, within), RawTips(s.entries, tree), x)
    ensures within <= Region(s, tree)
  {
    ReachMono(EdgesWithin(s.entries, within), UnverifiedEdges(s), RawTips(s.entries, tree), RawTips(s.entries, tree));
  }

  /** When only Verified entries were demoted, a later pass sees an already Unverified entry only if it did before. */
  lemma RegionAfterDemotion(s: Store, s': Store, tree: Id)
    requires s.Valid() && AncestorClosed(s) && s'.entries == s.entries
    requires forall x :: s'.Is(x, Unverified) ==> s.Is(x, Unverified) || s.Is(x, Verified)
    ensures forall x :: x in Region(s', tree) && s.Is(x, Unverified) ==> x in Region(s, tree)
  {
    var g, g', tips := UnverifiedEdges(s), UnverifiedEdges(s'), RawTips(s.entries, tree);
    var c := iset x | s.Is(x, Unverified) ==> Reach(g, tips, x);
    forall x | x in tips ensures x in c { ReachSeed(g, tips, x); }
    forall x, y | x in c && Step(g', x, y) ensures y in c {
      if s.Is(y, Unverified) {
        assert y in s.entries[x].parents;
        assert s.Is(x, Verified) ==> s.Is(y, Verified);
        assert Step(g, x, y);
        ReachStep(g, tips, x, y);
      }
    }
    ReachInduct(g', tips, c);
  }

  /**
   From a state no pass changes, with the Verified set ancestor-closed and the Verified
   descendants of an entry still judged valid, demoting it and verifying again restores
   every status.
   */
  lemma DemoteThenVerify(s: Store, v: Verdicts, tree: Id, target: Id, s1: Store, s2: Store)
    requires s.Valid() && Acyclic(s.entries) && AncestorClosed(s)
    requires Settled(s, v, tree, s)
    requires Holds(s.entries, tree, target) && s.Is(target, Verified) && NoFailedDescendant(s, tree, target)
    requires forall x :: s.Is(x, Verified) && Descendant(s.entries, tree, target, x) ==> x in v && v[x] == Ok(Verified)
    requires s1 == Demoted(s, tree, target) && Settled(s1, v, tree, s2)
    ensures s2 == s
  {
    OnlyRegionDemoted(s, tree, target, s1);
    RestoredFrom(s, v, tree, s1, s2);
  }

  lemma OnlyRegionDemoted(s: Store, tree: Id, target: Id, s1: Store)
    requires s.Valid() && Acyclic(s.entries) && Holds(s.entries, tree, target) && s.Is(target, Verified)
    requires NoFailedDescendant(s, tree, target) && s1 == Demoted(s, tree, target)
    ensures s1.entries == s.entries && s1.status.Keys == s.status.Keys
    ensures forall x :: s1.Is(x, Unverified) ==> s.Is(x, Unverified) || s.Is(x, Verified)
    ensures forall x :: s1.Is(x, Unverified) && s.Is(x, Verified) ==> Descendant(s.entries, tree, target, x)
    ensures forall x :: x in s.status && x !in Region(s1, tree) ==> s1.status[x] == s.status[x]
  {
    DemotedOutside(s, tree, target, s1);
    forall x | x in s.status && x !in Region(s1, tree) ensures s1.status[x] == s.status[x] {
      assert !Descendant(s.entries, tree, target, x) by { DemotedInRegion(s, tree, target, s1); }
    }
  }

  /** A pass over a store in which only Verified entries were demoted, all of them in its region, puts them back. */
  lemma RestoredFrom(s: Store, v: Verdicts, tree: Id, s1: Store, s2: Store)
    requires s.Valid() && Acyclic(s.entries) && AncestorClosed(s) && Settled(s, v, tree, s)
    requires s1.entries == s.entries && s1.status.Keys == s.status.Keys
    requires forall x :: s1.Is(x, Unverified) ==> s.Is(x, Unverified) || s.Is(x, Verified)
    requires forall x :: x in s.status && x !in Region(s1, tree) ==> s1.status[x] == s.status[x]
    requires forall x :: s1.Is(x, Unverified) && s.Is(x, Verified) ==> x in v && v[x] == Ok(Verified)
    requires Settled(s1, v, tree, s2)
    ensures s2 == s
  {
    RegionAfterDemotion(s, s1, tree);
    RegionDeserving(s, v, tree, s1);
    RestoredBy(s, v, s1, Region(s1, tree), s2);
  }

  lemma RegionDeserving(s: Store, v: Verdicts, tree: Id, s1: Store)
    requires s.Valid() && Settled(s, v, tree, s) && s1.entries == s.entries
    requires forall x :: s1.Is(x, Unverified) ==> s.Is(x, Unverified) || s.Is(x, Verified)
    requires forall x :: x in Region(s1, tree) && s.Is(x, Unverified) ==> x in Region(s, tree)
    ensures forall x :: x in Region(s1, tree) ==> x in s.entries
    ensures forall x :: x in Region(s1, tree) ==>
              s.Is(x, Verified) || Deserves(v, s.status, s.entries[x], Ok(s.status[x]))
  {
    forall x | x in Region(s1, tree) ensures s.Is(x, Verified) || Deserves(v, s.status, s.entries[x], Ok(s.status[x])) {
      assert s1.Is(x, Unverified);
    }
  }

  lemma DemotedOutside(s: Store, tree: Id, target: Id, s1: Store)
    requires s.Valid() && s.Is(target, Verified) && s1 == Demoted(s, tree, target)
    ensures forall x :: x in s.status && !Descendant(s.entries, tree, target, x) ==> s1.status[x] == s.status[x]
    ensures forall x :: s1.Is(x, Unverified) ==> s.Is(x, Unverified) || s.Is(x, Verified)
  {
  }

  lemma VerifiedParents(s: Store, x: Id)
    requires AncestorClosed(s) && x in s.entries && s.Is(x, Verified)
    ensures !Compromised(s.status, s.entries[x]) && !Blocked(s.status, s.entries[x])
  {
    assert ParentsVerified(s, x);
  }

  /** Once its parents are back to their old statuses, an entry that deserved its old status gets it back. */
  lemma RestoredAt(s: Store, v: Verdicts, st: Statuses, x: Id)
    requires s.Valid() && AncestorClosed(s) && x in s.entries && x in st && st.Keys == s.status.Keys
    requires forall p :: p in s.entries[x].parents && p in st ==> st[p] == s.status[p]
    requires s.Is(x, Verified) ==> x in v && v[x] == Ok(Verified)
    requires !s.Is(x, Verified) ==> Deserves(v, s.status, s.entries[x], Ok(s.status[x]))
    requires Deserves(v, st, s.entries[x], Ok(st[x]))
    ensures st[x] == s.status[x]
  {
    if s.Is(x, Verified) { VerifiedParents(s, x); }
    RuleAgrees(v, s.status, st, s.entries[x], s.status[x], st[x]);
  }

  lemma RestoredBy(s: Store, v: Verdicts, s1: Store, region: set<Id>, s2: Store)
    requires s.Valid() && Acyclic(s.entries) && AncestorClosed(s)
    requires s1.entries == s.entries && s1.status.Keys == s.status.Keys
    requires SettledOn(s1, v, region, s2)
    requires forall x :: x in s.status && x !in region ==> s1.status[x] == s.status[x]
    requires forall x :: x in region ==> x in s.entries
    requires forall x :: x in region ==> s.Is(x, Verified) || Deserves(v, s.status, s.entries[x], Ok(s.status[x]))
    requires forall x :: x in region && s.Is(x, Verified) ==> x in v && v[x] == Ok(Verified)
    ensures s2 == s
  {
    var good := set x | x in s.entries && s2.status[x] == s.status[x];
    forall x | ParentsIn(s.entries, x, good) ensures x in good {
      if x in region { RestoredAt(s, v, s2.status, x); }
    }
    ParentInduction(s.entries, good);
    SameStatuses(s2.status, s.status);
  }
}
