/** What a reader of a store sees, in the default view and with Unverified entries allowed. */
module Views {
  import opened Entries
  import opened Walks
  import opened Snapshots
  import opened Dag
  import opened Frontier

  /** The raw tips that have not failed. */
  function VisibleTips(s: Store, tree: Id): set<Id> {
    set t | t in RawTips(s.entries, tree) && !s.Is(t, Failed)
  }

  /** Cut the raw tips to the requested view. */
  method View(s: Store, tree: Id, allowUnverified: bool, tips: seq<Id>) returns (r: Snapshot, ghost prefix: set<Id>)
    requires s.Valid() && Elems(tips) == RawTips(s.entries, tree)
    ensures LargestSortedPrefix(s, tree, prefix)
    ensures r == Of(if allowUnverified then VisibleTips(s, tree) else TipsOf(s, prefix))
  {
    var frontier;
    frontier, prefix := VerifiedFrontier(s, tree);
    if allowUnverified {
      r := FilterFailed(s, tips);
      assert forall x :: x in tips <==> x in Elems(tips);
      assert r.Ids() == VisibleTips(s, tree);
      SetEquality(r, Of(VisibleTips(s, tree)));
    } else {
      r := New(frontier);
      SetEquality(r, Of(TipsOf(s, prefix)));
    }
  }

  method FilterFailed(s: Store, tips: seq<Id>) returns (r: Snapshot)
    ensures r.Canonical()
    ensures forall x :: x in r.Ids() <==> x in tips && !s.Is(x, Failed)
  {
    var visible := [];
    for i := 0 to |tips|
      invariant forall x :: x in visible <==> x in tips[..i] && !s.Is(x, Failed)
    {
      TakeNext(tips, i);
      if !s.Is(tips[i], Failed) { visible := visible + [tips[i]]; }
    }
    assert tips[..|tips|] == tips;
    r := New(visible);
    assert r.Ids() == Elems(visible);
  }

  /** At or below a raw tip that has failed. */
  ghost predicate BelowFailed(s: Store, tree: Id, x: Id) {
    exists r :: r in RawTips(s.entries, tree) && Ancestor(s.entries, {r}, x) && s.Is(r, Failed)
  }

  /** At or below a raw tip that has not. */
  ghost predicate BelowLive(s: Store, tree: Id, x: Id) {
    exists r :: r in RawTips(s.entries, tree) && Ancestor(s.entries, {r}, x) && !s.Is(r, Failed)
  }

  /** The looser view shows what lies at or below some raw tip that has not failed. */
  lemma ShownIff(s: Store, tree: Id, x: Id)
    ensures x in Ancestry(s.entries, VisibleTips(s, tree)) <==> BelowLive(s, tree, x)
  {
    var g, visible := ParentEdges(s.entries), VisibleTips(s, tree);
    if Reach(g, visible, x) {
      var r := ReachSource(g, visible, x);
    }
    if BelowLive(s, tree, x) {
      var r :| r in RawTips(s.entries, tree) && Ancestor(s.entries, {r}, x) && !s.Is(r, Failed);
      ReachMono(g, g, {r}, visible);
    }
  }

  /** It hides an entry of the tree exactly when a failed tip stands above it and no other tip does. */
  lemma HiddenIff(s: Store, tree: Id, x: Id)
    requires s.Valid() && Acyclic(s.entries) && Holds(s.entries, tree, x)
    ensures x !in Ancestry(s.entries, VisibleTips(s, tree)) <==> BelowFailed(s, tree, x) && !BelowLive(s, tree, x)
  {
    ShownIff(s, tree, x);
    Climb(s.entries, tree);
    var r := ReachSource(ParentEdges(s.entries), RawTips(s.entries, tree), x);
    assert s.Is(r, Failed) || !s.Is(r, Failed);
  }

  /**
   The looser view contains the default one exactly when every frontier tip that
   lies below a failed raw tip also lies below one that has not failed.
   */
  lemma LooseViewIff(s: Store, tree: Id)
    requires s.Valid() && Acyclic(s.entries)
    ensures MaxPrefix(s, tree) <= Ancestry(s.entries, VisibleTips(s, tree)) <==>
            forall t :: t in TipsOf(s, MaxPrefix(s, tree)) && BelowFailed(s, tree, t) ==> BelowLive(s, tree, t)
  {
    var max, shown := MaxPrefix(s, tree), Ancestry(s.entries, VisibleTips(s, tree));
    forall t | t in TipsOf(s, max) ensures t in shown <==> (BelowFailed(s, tree, t) ==> BelowLive(s, tree, t)) {
      HiddenIff(s, tree, t);
    }
    if TipsOf(s, max) <= shown {
      FrontierAncestry(s, tree, max);
      ReachTrans(ParentEdges(s.entries), VisibleTips(s, tree), TipsOf(s, max));
    }
  }

  /** In particular when no raw tip has failed. */
  lemma LooseViewWider(s: Store, tree: Id)
    requires s.Valid() && Acyclic(s.entries)
    requires forall t :: t in RawTips(s.entries, tree) ==> !s.Is(t, Failed)
    ensures MaxPrefix(s, tree) <= Ancestry(s.entries, VisibleTips(s, tree))
  {
    assert VisibleTips(s, tree) == RawTips(s.entries, tree);
    Climb(s.entries, tree);
  }

  /** A failed tip hides its good parent from the looser view but not from the default one. */
  lemma FailedTipHides(s: Store)
    requires s == Store(map[1 := Node(1, 0, []), 2 := Node(2, 1, [1])], map[1 := Verified, 2 := Failed])
    ensures 1 in MaxPrefix(s, 1) && VisibleTips(s, 1) == {}
  {
    assert ChildOf(s.entries, 1, 2, 1);
    assert Prefix(s, 1, {1});
  }
}
