/**
 A closed world: entries of one tree that come with everything they refer to and
 are judged valid. What a pass does to a node's part of such a world, whatever
 other trees the node holds.
 */
module Worlds {
  import opened Entries
  import opened Walks
  import opened Dag
  import opened Settings
  import opened Verification
  import opened Passes
  import opened Demotion
  import opened Runs

  /** The settings parents and the pinned settings tips of `e` are in the world, and its metadata parses. */
  ghost predicate PinInside(w: Held, pol: Policy, e: Entry) {
    && Elems(e.SubtreeParents(SETTINGS)) <= w.Keys
    && PinOf(pol, e) != Unparsable
    && (PinOf(pol, e).Tips? ==> Elems(PinOf(pol, e).ids) <= w.Keys)
  }

  /** Settings data parses, and against a complete pin the validator accepts `e`. */
  ghost predicate JudgedValid(w: Held, pol: Policy, tree: Id, e: Entry) {
    match PinnedFor(w, pol, tree, e)
    case Err(_) => false
    case Ok(Incomplete) => true
    case Ok(Complete(auth)) => pol.valid(e, auth)
  }

  /** Well-formed entries, closed under parents, the root among them. */
  ghost predicate WorldShape(w: Held, tree: Id) {
    && Acyclic(w) && tree in w && ParentComplete(w)
    && forall x :: x in w ==> w[x].id == x && w[x].Validates()
  }

  ghost predicate ClosedWorld(w: Held, pol: Policy, tree: Id) {
    && WorldShape(w, tree)
    && forall x :: x in w ==> PinInside(w, pol, w[x]) && JudgedValid(w, pol, tree, w[x])
  }

  lemma PinHeldInside(w: Held, pol: Policy, tips: seq<Id>)
    requires ParentComplete(w) && Elems(tips) <= w.Keys
    requires forall x :: x in w ==> PinInside(w, pol, w[x])
    ensures PinHeld(w, tips)
  {
    forall x, y | x in w && Step(ClosureEdges(w), x, y) ensures y in w {
      assert PinInside(w, pol, w[x]);
    }
    ReachInduct(ClosureEdges(w), Elems(tips), iset y | y in w);
  }

  /** In the full world every pin is complete, so every verdict is favourable. */
  lemma WorldVerdict(w: Held, pol: Policy, tree: Id, x: Id)
    requires ClosedWorld(w, pol, tree) && x in w
    ensures Verdict(w, pol, tree, w[x]) == Ok(Verified)
  {
    var pin := PinOf(pol, w[x]);
    assert PinInside(w, pol, w[x]) && JudgedValid(w, pol, tree, w[x]);
    if pin.Tips? { PinHeldInside(w, pol, pin.ids); }
  }

  /** In any part of the world a verdict is favourable or not yet possible. */
  lemma PartVerdict(w: Held, es: Held, pol: Policy, tree: Id, x: Id)
    requires ClosedWorld(w, pol, tree) && Extends(es, w) && x in es
    ensures Verdict(es, pol, tree, es[x]) == Ok(Verified) || Verdict(es, pol, tree, es[x]) == Ok(Unverified)
  {
    WorldVerdict(w, pol, tree, x);
    if PinnedFor(es, pol, tree, es[x]) != Ok(Incomplete) {
      PinnedStable(es, w, pol, tree, es[x]);
    }
  }

  lemma WorldVerdicts(w: Held, es: Held, pol: Policy, tree: Id, v: Verdicts)
    requires ClosedWorld(w, pol, tree) && Extends(es, w) && v == VerdictsOf(es, pol, tree)
    ensures Hopeful(v)
    ensures es == w ==> forall x :: x in es ==> x in v && v[x] == Ok(Verified)
  {
    forall x | x in es ensures Hope(Verdict(es, pol, tree, es[x])) { PartVerdict(w, es, pol, tree, x); }
    if es == w {
      forall x | x in es ensures Verdict(es, pol, tree, es[x]) == Ok(Verified) { WorldVerdict(w, pol, tree, x); }
    }
  }

  ghost predicate NoFailures(s: Store) {
    forall x :: !s.Is(x, Failed)
  }

  /** A partial replica of the world on which nothing has failed. */
  ghost predicate Healthy(s: Store, w: Held) {
    s.Valid() && Extends(s.entries, w) && AncestorClosed(s) && NoFailures(s)
  }

  ghost predicate AllVerified(s: Store, tree: Id) {
    forall x :: Ancestor(s.entries, RawTips(s.entries, tree), x) ==> s.Is(x, Verified)
  }

  // --- One pass ---

  ghost predicate Hope(r: Result<VerificationStatus, Error>) {
    r == Ok(Verified) || r == Ok(Unverified)
  }

  ghost predicate Hopeful(v: Verdicts) {
    forall x :: x in v ==> Hope(v[x])
  }

  lemma HopefulRule(v: Verdicts, status: Statuses, e: Entry, r: VerificationStatus)
    requires Hopeful(v) && Deserves(v, status, e, Ok(r))
    requires forall p :: p in e.parents && p in status ==> status[p] != Failed
    ensures r != Failed
  {
  }

  lemma VerifiedRule(v: Verdicts, status: Statuses, e: Entry, r: VerificationStatus)
    requires e.id in v && v[e.id] == Ok(Verified) && Deserves(v, status, e, Ok(r))
    requires forall p :: p in e.parents ==> p in status && status[p] == Verified
    ensures r == Verified
  {
  }

  lemma NothingFails(s: Store, v: Verdicts, done: set<Id>, s': Store)
    requires s.Valid() && Acyclic(s.entries) && NoFailures(s)
    requires Hopeful(v) && SettledOn(s, v, done, s')
    ensures NoFailures(s')
  {
    var good := set x | x in s.entries && !s'.Is(x, Failed);
    forall x | ParentsIn(s.entries, x, good) ensures x in good {
      if x in done {
        HopefulRule(v, s'.status, s.entries[x], s'.status[x]);
      } else {
        assert !s.Is(x, Failed);
      }
    }
    ParentInduction(s.entries, good);
  }

  lemma NoSettledChildHere(s: Store)
    requires s.Valid() && AncestorClosed(s) && NoFailures(s)
    ensures NoSettledChild(s)
  {
    forall c, x | c in s.entries && x in s.entries[c].parents && s.Is(x, Unverified) ensures s.Is(c, Unverified) {
      assert s.Is(c, Verified) ==> ParentsVerified(s, c);
      assert !s.Is(c, Failed);
    }
  }

  /** On the complete world one pass verifies everything below the tips. */
  lemma PassCompletes(s: Store, v: Verdicts, tree: Id, s': Store)
    requires s.Valid() && Acyclic(s.entries) && AncestorClosed(s) && NoFailures(s) && ParentComplete(s.entries)
    requires forall x :: x in s.entries ==> x in v && v[x] == Ok(Verified)
    requires Settled(s, v, tree, s')
    ensures AllVerified(s', tree)
  {
    var es, tips := s.entries, RawTips(s.entries, tree);
    NoSettledChildHere(s);
    NoSettledChildCovers(s, tree);
    assert forall x :: x in Ancestry(es, tips) && s.Is(x, Unverified) ==> x in UnverifiedBelow(s, tree);
    var below := Ancestry(es, tips);
    CompleteAncestry(es, tips);
    forall x, p | x in below && x in es && p in es[x].parents ensures p in below {
      assert Step(ParentEdges(es), x, p);
      ReachStep(ParentEdges(es), tips, x, p);
    }
    AllBelowVerified(s, v, Region(s, tree), below, s');
  }

  lemma AllBelowVerified(s: Store, v: Verdicts, done: set<Id>, below: set<Id>, s': Store)
    requires s.Valid() && Acyclic(s.entries) && NoFailures(s)
    requires forall x :: x in s.entries ==> x in v && v[x] == Ok(Verified)
    requires SettledOn(s, v, done, s') && below <= s.entries.Keys
    requires forall x, p :: x in below && p in s.entries[x].parents ==> p in below
    requires forall x :: x in below && s.Is(x, Unverified) ==> x in done
    ensures forall x :: x in below ==> s'.Is(x, Verified)
  {
    var es := s.entries;
    var good := set x | x in es && (x in below ==> s'.Is(x, Verified));
    forall x | ParentsIn(es, x, good) ensures x in good {
      if x in below {
        if x in done {
          VerifiedRule(v, s'.status, es[x], s'.status[x]);
        } else {
          assert !s.Is(x, Failed);
        }
      }
    }
    ParentInduction(es, good);
  }

  lemma HopefulPass(s: Store, w: Held, v: Verdicts, tree: Id, s': Store)
    requires Acyclic(s.entries) && ParentComplete(w) && Healthy(s, w) && Hopeful(v) && Settled(s, v, tree, s')
    requires s.entries == w ==> forall x :: x in s.entries ==> x in v && v[x] == Ok(Verified)
    ensures NoFailures(s') && s'.entries == s.entries
    ensures s.entries == w ==> AllVerified(s', tree)
  {
    NothingFails(s, v, Region(s, tree), s');
    if s.entries == w { PassCompletes(s, v, tree, s'); }
  }

  /** On a store that holds nothing but a part of the world. */
  lemma ReplicaPass(s: Store, w: Held, pol: Policy, tree: Id, s': Store)
    requires ClosedWorld(w, pol, tree) && Healthy(s, w) && Completed(s, pol, tree, s')
    ensures Healthy(s', w) && s'.entries == s.entries
    ensures s.entries == w ==> AllVerified(s', tree)
  {
    var v := VerdictsOf(s.entries, pol, tree);
    SubAcyclic(s.entries, w);
    WorldVerdicts(w, s.entries, pol, tree, v);
    PassedClosed(s, pol, tree, s');
    HopefulPass(s, w, v, tree, s');
  }

  // --- A node that holds more than the world ---

  /** What a store holds of the world. */
  ghost function Part(s: Store, w: Held): Store {
    Store(map x | x in s.entries && x in w :: s.entries[x], map x | x in s.status && x in w :: s.status[x])
  }

  /** The store agrees with the world on shared IDs and holds nothing else of the tree; other trees are arbitrary. */
  ghost predicate Hosts(s: Store, w: Held, tree: Id) {
    && s.Valid()
    && (forall x :: x in s.entries && x in w ==> s.entries[x] == w[x])
    && (forall x :: Holds(s.entries, tree, x) ==> x in w)
  }

  /** ... and its part of the world is healthy. */
  ghost predicate Sound(s: Store, w: Held, tree: Id) {
    Hosts(s, w, tree) && Healthy(Part(s, w), w)
  }

  lemma PartShape(s: Store, w: Held, tree: Id, p: Store)
    requires Hosts(s, w, tree) && p == Part(s, w)
    ensures p.Valid() && Extends(p.entries, w) && Extends(p.entries, s.entries)
    ensures forall x, st :: x in w ==> (p.Is(x, st) <==> s.Is(x, st))
    ensures p.entries == w <==> Extends(w, s.entries)
  {
    if Extends(w, s.entries) { assert p.entries.Keys == w.Keys; }
  }

  lemma PartTips(s: Store, w: Held, tree: Id, p: Store)
    requires Hosts(s, w, tree) && p == Part(s, w)
    ensures RawTips(p.entries, tree) == RawTips(s.entries, tree)
  {
    forall c, x ensures ChildOf(p.entries, tree, c, x) <==> ChildOf(s.entries, tree, c, x) {
      assert Holds(s.entries, tree, c) ==> c in w;
    }
    forall x ensures Holds(p.entries, tree, x) <==> Holds(s.entries, tree, x) {
      assert Holds(s.entries, tree, x) ==> x in w;
    }
  }

  lemma PartRegion(s: Store, w: Held, tree: Id, p: Store)
    requires Hosts(s, w, tree) && ParentComplete(w) && p == Part(s, w)
    ensures Region(p, tree) == Region(s, tree) && Region(s, tree) <= w.Keys
  {
    PartShape(s, w, tree, p);
    PartTips(s, w, tree, p);
    SameReach(w.Keys, UnverifiedEdges(p), UnverifiedEdges(s), RawTips(s.entries, tree));
  }

  lemma PartAllVerified(s: Store, w: Held, tree: Id, p: Store)
    requires Hosts(s, w, tree) && ParentComplete(w) && p == Part(s, w)
    ensures AllVerified(p, tree) <==> AllVerified(s, tree)
  {
    PartShape(s, w, tree, p);
    PartTips(s, w, tree, p);
    SameReach(w.Keys, ParentEdges(p.entries), ParentEdges(s.entries), RawTips(s.entries, tree));
  }

  // --- Verdicts depend on the part alone ---

  lemma PinHeldPart(es: Held, w: Held, pol: Policy, part: Held, tips: seq<Id>)
    requires Extends(part, w) && Extends(part, es) && (forall x :: x in es && x in w ==> x in part)
    requires ParentComplete(w) && Elems(tips) <= w.Keys && forall x :: x in w ==> PinInside(w, pol, w[x])
    requires PinHeld(es, tips)
    ensures PinHeld(part, tips)
  {
    forall x, y | x in w && Step(ClosureEdges(part), x, y) ensures y in w {
      assert PinInside(w, pol, w[x]);
    }
    ReachInduct(ClosureEdges(part), Elems(tips), iset y | y in w);
    ReachMono(ClosureEdges(part), ClosureEdges(es), Elems(tips), Elems(tips));
  }

  lemma PartPinned(es: Held, w: Held, pol: Policy, tree: Id, part: Held, x: Id)
    requires Extends(part, w) && Extends(part, es) && (forall y :: y in es && y in w ==> y in part)
    requires ClosedWorld(w, pol, tree) && x in part
    ensures PinnedFor(part, pol, tree, part[x]) == PinnedFor(es, pol, tree, part[x])
  {
    assert PinInside(w, pol, w[x]);
    var pin := PinOf(pol, part[x]);
    if pin.Tips? && PinHeld(es, pin.ids) { PinHeldPart(es, w, pol, part, pin.ids); }
    if PinnedFor(part, pol, tree, part[x]) != Ok(Incomplete) { PinnedStable(part, es, pol, tree, part[x]); }
  }

  lemma VerdictFromPin(es: Held, es': Held, pol: Policy, tree: Id, e: Entry)
    requires PinnedFor(es, pol, tree, e) == PinnedFor(es', pol, tree, e)
    ensures Verdict(es, pol, tree, e) == Verdict(es', pol, tree, e)
  {
  }

  lemma SameVerdicts(es: Held, w: Held, pol: Policy, tree: Id, part: Held)
    requires Extends(part, w) && Extends(part, es) && (forall y :: y in es && y in w ==> y in part)
    requires ClosedWorld(w, pol, tree)
    ensures forall x :: x in part ==> Verdict(es, pol, tree, es[x]) == Verdict(part, pol, tree, part[x])
  {
    forall x | x in part ensures Verdict(es, pol, tree, es[x]) == Verdict(part, pol, tree, part[x]) {
      PartPinned(es, w, pol, tree, part, x);
      VerdictFromPin(es, part, pol, tree, part[x]);
    }
  }

  lemma PartVerdicts(s: Store, w: Held, pol: Policy, tree: Id, p: Store, v: Verdicts, vp: Verdicts)
    requires Hosts(s, w, tree) && ClosedWorld(w, pol, tree) && p == Part(s, w)
    requires v == VerdictsOf(s.entries, pol, tree) && vp == VerdictsOf(p.entries, pol, tree)
    ensures Hopeful(vp) && forall x :: x in p.entries ==> x in v && x in vp && v[x] == vp[x]
  {
    PartShape(s, w, tree, p);
    WorldVerdicts(w, p.entries, pol, tree, vp);
    SameVerdicts(s.entries, w, pol, tree, p.entries);
  }

  // --- A pass acts on the part as if it were alone ---

  lemma PartRule(v: Verdicts, vp: Verdicts, st: Statuses, stp: Statuses, e: Entry, r: Result<VerificationStatus, Error>)
    requires e.id in v && e.id in vp && v[e.id] == vp[e.id]
    requires forall p :: p in e.parents ==> (p in st <==> p in stp) && (p in st ==> st[p] == stp[p])
    requires Deserves(v, st, e, r)
    ensures Deserves(vp, stp, e, r)
  {
    RuleFrame(v, st, stp, e, r);
  }

  lemma PartSettled(s: Store, w: Held, tree: Id, v: Verdicts, vp: Verdicts, region: set<Id>, s': Store,
                    p: Store, p': Store)
    requires Hosts(s, w, tree) && ParentComplete(w) && SettledOn(s, v, region, s') && region <= w.Keys
    requires p == Part(s, w) && p' == Part(s', w)
    requires forall x :: x in p.entries ==> x in v && x in vp && v[x] == vp[x]
    ensures Hosts(s', w, tree) && SettledOn(p, vp, region, p')
  {
    PartShape(s, w, tree, p);
    PartShape(s', w, tree, p');
    forall x | x in region ensures Deserves(vp, p'.status, p.entries[x], Ok(p'.status[x])) {
      PartRule(v, vp, s'.status, p'.status, p.entries[x], Ok(p'.status[x]));
    }
  }

  /** Everything walked is in the part, so it can be judged. */
  lemma PartReadable(s: Store, w: Held, tree: Id, p: Store, v: Verdicts, vp: Verdicts)
    requires Hosts(s, w, tree) && ParentComplete(w) && p == Part(s, w)
    requires Hopeful(vp) && forall x :: x in p.entries ==> x in v && x in vp && v[x] == vp[x]
    ensures forall x :: x in Region(s, tree) && x in v ==> v[x].Ok?
  {
    PartRegion(s, w, tree, p);
    forall x | x in Region(s, tree) ensures x in v && v[x].Ok? { assert x in p.entries; }
  }

  lemma PartPassed(s: Store, w: Held, pol: Policy, tree: Id, s': Store, p: Store, p': Store)
    requires ClosedWorld(w, pol, tree) && Hosts(s, w, tree) && Passed(s, pol, tree, s')
    requires p == Part(s, w) && p' == Part(s', w)
    ensures Completed(s, pol, tree, s') && Hosts(s', w, tree) && Completed(p, pol, tree, p')
    ensures s'.entries == s.entries && forall x :: x in s.status && x !in w ==> s'.status[x] == s.status[x]
  {
    var v, vp := VerdictsOf(s.entries, pol, tree), VerdictsOf(p.entries, pol, tree);
    PartVerdicts(s, w, pol, tree, p, v, vp);
    PartReadable(s, w, tree, p, v, vp);
    ReadableCompletes(s, pol, tree, s', v);
    PartRegion(s, w, tree, p);
    PartSettled(s, w, tree, v, vp, Region(s, tree), s', p, p');
  }

  /**
   On a node that holds any part of the world, and anything of other trees, a pass
   is never cut short, fails nothing of the world, leaves everything else alone, and
   verifies everything below the tips once the world is complete.
   */
  lemma PassHealthy(s: Store, w: Held, pol: Policy, tree: Id, s': Store)
    requires ClosedWorld(w, pol, tree) && Sound(s, w, tree) && Passed(s, pol, tree, s')
    ensures Completed(s, pol, tree, s') && Sound(s', w, tree)
    ensures s'.entries == s.entries && forall x :: x in s.status && x !in w ==> s'.status[x] == s.status[x]
    ensures Extends(w, s.entries) ==> AllVerified(s', tree)
  {
    var p, p' := Part(s, w), Part(s', w);
    PartPassed(s, w, pol, tree, s', p, p');
    ReplicaPass(p, w, pol, tree, p');
    PartShape(s, w, tree, p);
    PartAllVerified(s', w, tree, p');
  }

  // --- An example world ---

  function RootAndChild(): Held {
    map[1 := Node(1, 0, []), 2 := Node(2, 1, [1])]
  }

  lemma RootAndChildShape()
    ensures WorldShape(RootAndChild(), 1)
  {
    assert Falls(RootAndChild(), map[1 := 0, 2 := 1]);
  }

  lemma Unpinned(w: Held, pol: Policy, tree: Id, e: Entry)
    requires e.metadata == None && !e.InSubtree(SETTINGS) && pol.valid(e, pol.noAuth)
    ensures PinInside(w, pol, e) && JudgedValid(w, pol, tree, e)
  {
  }

  /** Such worlds exist: a root and a child, under any validator that accepts entries of a tree without settings. */
  lemma SmallWorld(pol: Policy)
    requires forall e :: pol.valid(e, pol.noAuth)
    ensures ClosedWorld(RootAndChild(), pol, 1)
  {
    var w := RootAndChild();
    RootAndChildShape();
    forall x | x in w ensures PinInside(w, pol, w[x]) && JudgedValid(w, pol, 1, w[x]) {
      assert w[x].metadata == None && !w[x].InSubtree(SETTINGS);
      Unpinned(w, pol, 1, w[x]);
    }
  }

  /** Nor do nodes hold the world alone: this one holds a failed root of another tree and nothing of the world. */
  lemma SmallNode(s: Store)
    requires s == Store(map[5 := Entry(5, None, [], None, 0, [SubTree(ROOT, [], None, None)])], map[5 := Failed])
    ensures Sound(s, RootAndChild(), 1)
  {
    assert Part(s, RootAndChild()) == Store(map[], map[]);
  }
}
