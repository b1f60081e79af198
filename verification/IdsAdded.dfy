/**
 `ids_added`: the entries between two cursors, found by walking back from the
 post tips and halting at the previous ones, listed parents first.
 */
module IdsAdded {
  import opened Entries
  import opened Walks
  import opened Snapshots
  import opened Dag
  import TopoSort

  // --- What is added ---

  /** Entries at the previous cursor are never expanded. */
  function OpenEdges(es: Held, previous: set<Id>): Edges {
    map id | id in es && id !in previous :: Elems(es[id].parents)
  }

  /** Joined to a post tip by a parent chain that avoids every previous tip. */
  ghost function Added(es: Held, previous: set<Id>, post: set<Id>): set<Id> {
    ReachSet(OpenEdges(es, previous), post) - previous
  }

  /** All tips resolve and every previous tip is strictly higher than every post tip. */
  predicate Backward(es: Held, previous: set<Id>, post: set<Id>) {
    && previous != {} && post != {}
    && previous <= es.Keys && post <= es.Keys
    && forall b, t | b in previous && t in post :: es[b].height > es[t].height
  }

  ghost predicate IdsAddedSpec(es: Held, previous: Snapshot, post: Snapshot, r: Result<seq<Id>, Error>) {
    var added := Added(es, previous.Ids(), post.Ids());
    if previous == post || Backward(es, previous.Ids(), post.Ids()) then r == Ok([])
    else if added <= es.Keys then
      r.Ok? && exists nodes :: Restricts(nodes, es, added) && TopoSort.Topological(nodes, r.value)
    else r.Err? && r.error.EntryNotFound? && r.error.id in added && r.error.id !in es
  }

  // --- The code ---

  /** The highest of the tips, or None as soon as one does not resolve. */
  method MaxHeight(es: Held, tips: seq<Id>) returns (resolved: bool, max: Option<U64>)
    ensures resolved <==> Elems(tips) <= es.Keys
    ensures resolved ==> (max.None? <==> tips == [])
    ensures resolved && max.Some? ==>
              && (forall t :: t in tips ==> es[t].height <= max.value)
              && exists t :: t in tips && es[t].height == max.value
  {
    max := None;
    for i := 0 to |tips|
      invariant Elems(tips[..i]) <= es.Keys
      invariant max.None? <==> i == 0
      invariant max.Some? ==>
                  && (forall t :: t in tips[..i] ==> es[t].height <= max.value)
                  && exists t :: t in tips[..i] && es[t].height == max.value
    {
      var id := tips[i];
      TakeNext(tips, i);
      if id !in es { assert id in Elems(tips); return false, max; }
      max := Some(if max.Some? && max.value > es[id].height then max.value else es[id].height);
    }
    assert tips[..|tips|] == tips;
    resolved := true;
  }

  /** The lowest of the boundary tips, likewise. */
  method MinHeight(es: Held, tips: seq<Id>) returns (resolved: bool, min: Option<U64>)
    ensures resolved <==> Elems(tips) <= es.Keys
    ensures resolved ==> (min.None? <==> tips == [])
    ensures resolved && min.Some? ==>
              && (forall t :: t in tips ==> es[t].height >= min.value)
              && exists t :: t in tips && es[t].height == min.value
  {
    min := None;
    for i := 0 to |tips|
      invariant Elems(tips[..i]) <= es.Keys
      invariant min.None? <==> i == 0
      invariant min.Some? ==>
                  && (forall t :: t in tips[..i] ==> es[t].height >= min.value)
                  && exists t :: t in tips[..i] && es[t].height == min.value
    {
      var id := tips[i];
      TakeNext(tips, i);
      if id !in es { assert id in Elems(tips); return false, min; }
      min := Some(if min.Some? && min.value < es[id].height then min.value else es[id].height);
    }
    assert tips[..|tips|] == tips;
    resolved := true;
  }

  /** The guard against a bracket whose previous cursor is ahead of its post cursor. */
  method DetectBackward(es: Held, previous: Snapshot, post: Snapshot) returns (backward: bool)
    ensures backward <==> Backward(es, previous.Ids(), post.Ids())
  {
    if previous.tips == [] { return false; }
    assert previous.tips[0] in previous.Ids();
    var resolved, maxPost := MaxHeight(es, post.tips);
    if !resolved { return false; }
    var resolved', minPrev := MinHeight(es, previous.tips);
    if !resolved' { return false; }
    if maxPost.None? { return false; }
    assert post.tips[0] in post.Ids();
    backward := minPrev.value > maxPost.value;
  }

  /** The walk part way: `seen` are the IDs taken so far, of which those outside the boundary are collected. */
  ghost predicate Collecting(es: Held, previous: set<Id>, post: set<Id>, added: Held, seen: set<Id>, queue: seq<Id>) {
    && Exploring(OpenEdges(es, previous), post, seen, Elems(queue))
    && Restricts(added, es, seen - previous)
  }

  lemma CollectBoundary(es: Held, previous: set<Id>, post: set<Id>, added: Held, seen: set<Id>, queue: seq<Id>)
    requires queue != [] && Collecting(es, previous, post, added, seen, queue) && queue[0] in previous
    ensures Collecting(es, previous, post, added, seen + {queue[0]}, queue[1..])
  {
    ExploreLeaf(OpenEdges(es, previous), post, seen, queue);
    assert (seen + {queue[0]}) - previous == seen - previous;
  }

  lemma CollectAgain(es: Held, previous: set<Id>, post: set<Id>, added: Held, seen: set<Id>, queue: seq<Id>)
    requires queue != [] && Collecting(es, previous, post, added, seen, queue) && queue[0] in added
    ensures Collecting(es, previous, post, added, seen, queue[1..])
  {
    SkipFront(OpenEdges(es, previous), post, seen, queue);
  }

  lemma CollectNew(es: Held, previous: set<Id>, post: set<Id>, added: Held, seen: set<Id>, queue: seq<Id>)
    requires queue != [] && Collecting(es, previous, post, added, seen, queue)
    requires queue[0] !in previous && queue[0] in es
    ensures Collecting(es, previous, post, added[queue[0] := es[queue[0]]], seen + {queue[0]},
                       queue[1..] + es[queue[0]].parents)
  {
    ExploreFront(OpenEdges(es, previous), post, seen, queue, es[queue[0]].parents);
    assert (seen + {queue[0]}) - previous == seen - previous + {queue[0]};
  }

  /** Walk parents from the post tips until the boundary; a missing entry above it is an error. */
  method CollectAdded(es: Held, previous: set<Id>, post: seq<Id>) returns (r: Result<Held, Error>)
    ensures r.Ok? ==> Restricts(r.value, es, Added(es, previous, Elems(post)))
    ensures r.Err? ==> r.error.EntryNotFound? && r.error.id in Added(es, previous, Elems(post)) && r.error.id !in es
  {
    var queue := post;
    var visited: set<Id> := {};
    ghost var seen: set<Id> := {};
    var added: Held := map[];
    ExploreStart(OpenEdges(es, previous), Elems(post));
    while queue != []
      invariant visited == added.Keys
      invariant Collecting(es, previous, Elems(post), added, seen, queue)
      decreases es.Keys - visited, |queue|
    {
      var id := queue[0];
      if id in previous {
        CollectBoundary(es, previous, Elems(post), added, seen, queue);
        queue, seen := queue[1..], seen + {id};
      } else if id in visited {
        CollectAgain(es, previous, Elems(post), added, seen, queue);
        queue := queue[1..];
      } else {
        if id !in es {
          PendingReached(OpenEdges(es, previous), Elems(post), seen, queue, id);
          return Err(EntryNotFound(id));
        }
        CollectNew(es, previous, Elems(post), added, seen, queue);
        queue := queue[1..] + es[id].parents;
        visited, seen := visited + {id}, seen + {id};
        added := added[id := es[id]];
      }
    }
    ExploreDone(OpenEdges(es, previous), Elems(post), seen);
    r := Ok(added);
  }

  method IdsBetween(es: Held, previous: Snapshot, post: Snapshot) returns (r: Result<seq<Id>, Error>)
    requires Acyclic(es)
    ensures IdsAddedSpec(es, previous, post, r)
  {
    if previous == post { return Ok([]); }
    var backward := DetectBackward(es, previous, post);
    if backward { return Ok([]); }
    var added := CollectAdded(es, previous.Ids(), post.tips);
    if added.Err? { return Err(added.error); }
    SubAcyclic(added.value, es);
    var order := TopoSort.Sort(added.value);
    r := Ok(order);
  }

  // --- What a bracket reports ---

  /** Post ancestry outside the previous ancestry. */
  ghost function Difference(es: Held, previous: set<Id>, post: set<Id>): set<Id> {
    Ancestry(es, post) - Ancestry(es, previous)
  }

  /** Nothing genuinely new is lost. */
  lemma NothingLost(es: Held, previous: set<Id>, post: set<Id>)
    ensures Difference(es, previous, post) <= Added(es, previous, post)
  {
    var g, all := OpenEdges(es, previous), ParentEdges(es);
    var known := iset x | Ancestor(es, previous, x) || Reach(g, post, x);
    ReachClosed(all, previous);
    forall x | x in post ensures x in known { ReachSeed(g, post, x); }
    forall x, y | x in known && Step(all, x, y) ensures y in known {
      if Ancestor(es, previous, x) {
        ReachStep(all, previous, x, y);
      } else {
        if x in previous { ReachSeed(all, previous, x); }
        assert Step(g, x, y);
        ReachStep(g, post, x, y);
      }
    }
    ReachInduct(all, post, known);
    forall x | x in previous ensures Ancestor(es, previous, x) { ReachSeed(all, previous, x); }
  }

  /** Every post tip is previous or new, and every parent of a new entry is previous or new. */
  ghost predicate CutBelow(es: Held, previous: set<Id>, post: set<Id>) {
    var diff := Difference(es, previous, post);
    && post <= previous + diff
    && forall x, p :: x in diff && x in es && p in es[x].parents ==> p in previous + diff
  }

  /** The result is the ancestry difference exactly when no new entry hangs below the previous cursor. */
  lemma AddedExactIff(es: Held, previous: set<Id>, post: set<Id>)
    ensures Added(es, previous, post) == Difference(es, previous, post) <==> CutBelow(es, previous, post)
  {
    var g, diff, added := OpenEdges(es, previous), Difference(es, previous, post), Added(es, previous, post);
    NothingLost(es, previous, post);
    if added == diff {
      forall x | x in post ensures x in previous + diff { ReachSeed(g, post, x); }
      forall x, p | x in diff && x in es && p in es[x].parents ensures p in previous + diff {
        assert Step(g, x, p);
        ReachStep(g, post, x, p);
      }
    } else if CutBelow(es, previous, post) {
      ReachInduct(g, post, iset x | x in previous + diff);
      assert false;
    }
  }

  /** With the previous cursor behind the post cursor, the height guard never fires. */
  lemma GuardSilent(es: Held, previous: set<Id>, post: set<Id>, b: Id)
    requires HeightsFall(es) && b in previous && Ancestor(es, post, b)
    ensures !Backward(es, previous, post)
  {
    if post <= es.Keys && b in es {
      var t := ReachSource(ParentEdges(es), post, b);
      AncestorHeight(es, t, b);
    }
  }

  /** What the listing shows of a bracket: nothing when the guard fires. */
  ghost function Listed(es: Held, previous: set<Id>, post: set<Id>): set<Id> {
    if Backward(es, previous, post) then {} else Added(es, previous, post)
  }

  /** The listing misses nothing new exactly when the guard is silent or every post tip is known. */
  lemma NothingLostIff(es: Held, previous: set<Id>, post: set<Id>)
    ensures Difference(es, previous, post) <= Listed(es, previous, post) <==>
            (Backward(es, previous, post) ==> post <= Ancestry(es, previous))
  {
    var g := ParentEdges(es);
    if !Backward(es, previous, post) {
      NothingLost(es, previous, post);
    } else if post <= Ancestry(es, previous) {
      ReachTrans(g, previous, post);
    } else {
      var t :| t in post && t !in Ancestry(es, previous);
      ReachSeed(g, post, t);
      assert t in Difference(es, previous, post);
    }
  }

  /** With a misdeclared height the guard fires on an advance, and the new entry is not listed. */
  lemma HighParentHides(es: Held)
    requires es == map[1 := Node(1, 5, []), 2 := Node(2, 1, [1])]
    ensures Ancestor(es, {2}, 1) && 2 in Difference(es, {1}, {2}) && Listed(es, {1}, {2}) == {}
  {
    ReachSeed(ParentEdges(es), {2}, 2);
    ReachStep(ParentEdges(es), {2}, 2, 1);
    var only := {1};
    ReachInduct(ParentEdges(es), only, iset x | x in only);
  }

  /** `t` lies strictly below `b`. */
  ghost predicate ProperAncestor(es: Held, b: Id, t: Id) {
    t != b && Ancestor(es, {b}, t)
  }

  lemma ProperAncestorLower(es: Held, b: Id, t: Id)
    requires HeightsFall(es) && b in es && t in es && ProperAncestor(es, b, t)
    ensures es[t].height < es[b].height
  {
    var y := LastStep(ParentEdges(es), {b}, t);
    AncestorHeight(es, b, y);
  }

  /** When every post tip lies strictly below every previous tip, nothing is listed. */
  lemma BackwardListsNothing(es: Held, previous: Snapshot, post: Snapshot, r: Result<seq<Id>, Error>)
    requires HeightsFall(es) && IdsAddedSpec(es, previous, post, r)
    requires previous.Ids() != {} && previous.Ids() <= es.Keys && post.Ids() != {} && post.Ids() <= es.Keys
    requires forall b, t :: b in previous.Ids() && t in post.Ids() ==> ProperAncestor(es, b, t)
    ensures Listed(es, previous.Ids(), post.Ids()) == {} && r == Ok([])
  {
    forall b, t | b in previous.Ids() && t in post.Ids() ensures es[b].height > es[t].height {
      ProperAncestorLower(es, b, t);
    }
  }

  ghost predicate Antichain(es: Held, tips: set<Id>) {
    forall x, y :: x in tips && y in tips && Ancestor(es, {y}, x) ==> x == y
  }

  /** Between comparable cursors whose post tips form an antichain, new post tips are really new. */
  lemma PostTipsNew(es: Held, previous: set<Id>, post: set<Id>)
    requires Acyclic(es) && Antichain(es, post)
    requires forall b :: b in previous ==> Ancestor(es, post, b)
    ensures post <= previous + Difference(es, previous, post)
  {
    var g := ParentEdges(es);
    forall t | t in post && t !in previous ensures t in Difference(es, previous, post) {
      ReachSeed(g, post, t);
      if Ancestor(es, previous, t) {
        var b := ReachSource(g, previous, t);
        var t' := ReachSource(g, post, b);
        ReachTrans(g, {t'}, {b});
        assert t == t';
        NoCycle(es, t, b);
      }
    }
  }

  lemma NoCycle(es: Held, x: Id, y: Id)
    requires Acyclic(es) && Ancestor(es, {x}, y) && Ancestor(es, {y}, x)
    ensures x == y
  {
    if x != y {
      var rank :| Falls(es, rank);
      CycleFalls(es, rank, x, y);
      CycleFalls(es, rank, y, x);
    }
  }

  lemma CycleFalls(es: Held, rank: map<Id, nat>, x: Id, y: Id)
    requires Falls(es, rank) && Ancestor(es, {x}, y) && x != y
    ensures x in es && (y in es ==> rank[y] < rank[x])
  {
    var g := ParentEdges(es);
    var only := {x};
    if x !in es { ReachInduct(g, only, iset u | u in only); }
    ReachInduct(g, only, iset u | u == x || u !in es || rank[u] < rank[x]);
  }

  /** For a well-cut advance the reported IDs are exactly the entries between the cursors. */
  lemma AdvanceExact(es: Held, previous: set<Id>, post: set<Id>)
    requires Acyclic(es) && Antichain(es, post)
    requires forall b :: b in previous ==> Ancestor(es, post, b)
    requires forall x, p :: x in Difference(es, previous, post) && x in es && p in es[x].parents ==>
               p in previous + Difference(es, previous, post)
    ensures Added(es, previous, post) == Difference(es, previous, post)
  {
    PostTipsNew(es, previous, post);
    AddedExactIff(es, previous, post);
  }

  /** Entries 2 and 3 are siblings; the cursor moves from {2} to {2, 3} as 3 arrives. */
  function Siblings(): Held {
    map[1 := Node(1, 0, []), 2 := Node(2, 1, [1]), 3 := Node(3, 1, [1])]
  }

  /** Even a complete frontier over-reports when a new entry forks off below it: 1 is listed again. */
  lemma SiblingOverReported()
    ensures 1 in Added(Siblings(), {2}, {2, 3}) && 1 in Ancestry(Siblings(), {2})
  {
    var g, all := OpenEdges(Siblings(), {2}), ParentEdges(Siblings());
    assert Siblings()[2].parents == [1] && Siblings()[3].parents == [1];
    ReachSeed(g, {2, 3}, 3);
    assert Step(g, 3, 1);
    ReachStep(g, {2, 3}, 3, 1);
    ReachSeed(all, {2}, 2);
    assert Step(all, 2, 1);
    ReachStep(all, {2}, 2, 1);
  }
}
