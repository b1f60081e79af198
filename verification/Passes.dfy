/** What holds of every verification pass, and of passes repeated. */
module Passes {
  import opened Entries
  import opened Walks
  import opened Dag
  import opened Settings
  import opened Verification

  lemma RuleAgrees(v: Verdicts, st: Statuses, st': Statuses, e: Entry, a: VerificationStatus, b: VerificationStatus)
    requires forall p :: p in e.parents ==> (p in st <==> p in st') && (p in st ==> st[p] == st'[p])
    requires Deserves(v, st, e, Ok(a)) && Deserves(v, st', e, Ok(b))
    ensures a == b
  {
    RuleFrame(v, st, st', e, Ok(a));
  }

  /** Settling again what is already settled changes nothing. */
  lemma SettledAgain(s: Store, v: Verdicts, done: set<Id>, again: set<Id>, s1: Store, s2: Store)
    requires s.Valid() && Acyclic(s.entries)
    requires SettledOn(s, v, done, s1) && again <= done && SettledOn(s1, v, again, s2)
    ensures s2 == s1
  {
    var es := s.entries;
    var good := set x | x in es && s1.status[x] == s2.status[x];
    forall x | ParentsIn(es, x, good) ensures x in good {
      if x in again {
        assert forall p :: p in es[x].parents && p in s1.status ==> p in good;
        RuleAgrees(v, s1.status, s2.status, es[x], s1.status[x], s2.status[x]);
      }
    }
    ParentInduction(es, good);
    SameStatuses(s1.status, s2.status);
  }

  lemma SameStatuses(st: Statuses, st': Statuses)
    requires st.Keys == st'.Keys && forall x :: x in st ==> st[x] == st'[x]
    ensures st == st'
  {
  }

  /** The rule has one solution: the outcome does not depend on the order entries were taken in. */
  lemma SettledUnique(s: Store, v: Verdicts, tree: Id, s1: Store, s2: Store)
    requires s.Valid() && Acyclic(s.entries)
    requires Settled(s, v, tree, s1) && Settled(s, v, tree, s2)
    ensures s1 == s2
  {
    SettledAgain(s, v, Region(s, tree), Region(s, tree), s1, s2);
  }

  /** What one pass leaves Unverified and out of sight, no later pass over the same entries sees. */
  lemma RegionShrinks(s: Store, v: Verdicts, tree: Id, s': Store)
    requires s.Valid() && Settled(s, v, tree, s')
    ensures Region(s', tree) <= Region(s, tree)
  {
    forall x, y | Step(UnverifiedEdges(s'), x, y) ensures Step(UnverifiedEdges(s), x, y) {
      assert s'.Is(x, Unverified);
    }
    ReachMono(UnverifiedEdges(s'), UnverifiedEdges(s), RawTips(s.entries, tree), RawTips(s.entries, tree));
  }

  /** A second pass over an unchanged store changes nothing, promotes nothing and fails nothing. */
  lemma VerifyIdempotent(s: Store, v: Verdicts, tree: Id, s1: Store, s2: Store, r: VerifyReport)
    requires s.Valid() && Acyclic(s.entries)
    requires Settled(s, v, tree, s1) && Settled(s1, v, tree, s2)
    requires Counts(r, s2.status, Region(s1, tree))
    ensures s2 == s1
    ensures r == VerifyReport(0, 0, |Region(s1, tree)|)
  {
    RegionShrinks(s, v, tree, s1);
    SettledAgain(s, v, Region(s, tree), Region(s1, tree), s1, s2);
    var region := Region(s1, tree);
    assert WithStatus(s2.status, region, Verified) == {};
    assert WithStatus(s2.status, region, Failed) == {};
    assert WithStatus(s2.status, region, Unverified) == region;
  }

  lemma Partition(status: Statuses, xs: set<Id>)
    requires xs <= status.Keys
    ensures |WithStatus(status, xs, Verified)| + |WithStatus(status, xs, Failed)|
            + |WithStatus(status, xs, Unverified)| == |xs|
  {
    var a, b, c := WithStatus(status, xs, Verified), WithStatus(status, xs, Failed), WithStatus(status, xs, Unverified);
    assert xs == a + b + c && a !! b && (a + b) !! c;
  }

  /** The three counts of a report add up to the size of the walked region. */
  lemma ReportTotals(s: Store, v: Verdicts, tree: Id, s': Store, r: VerifyReport)
    requires s.Valid() && Settled(s, v, tree, s') && Counts(r, s'.status, Region(s, tree))
    ensures r.verified + r.failed + r.stillUnverified == |Region(s, tree)|
  {
    Partition(s'.status, Region(s, tree));
  }

  // --- When a pass is cut short ---

  /** Everything the walk finds from the parents of `x` on is Verified or about to be. */
  ghost predicate Clear(s: Store, v: Verdicts, x: Id)
    requires x in s.entries
  {
    forall y :: Reach(UnverifiedEdges(s), Elems(s.entries[x].parents), y) ==>
      s.Is(y, Verified) || (s.Is(y, Unverified) && y in v && v[y] == Ok(Verified))
  }

  /** A walked entry with unreadable settings is reached by the pass with all its parents Verified. */
  ghost predicate CutShort(s: Store, v: Verdicts, tree: Id) {
    exists x :: x in Region(s, tree) && x in s.entries && x in v && v[x].Err? && Clear(s, v, x)
  }

  lemma VerifiedParentsOnly(v: Verdicts, st: Statuses, e: Entry, r: Result<VerificationStatus, Error>)
    requires Deserves(v, st, e, r) && r != Ok(Failed) && r != Ok(Unverified)
    ensures e.id in v && v[e.id] == r && forall p :: p in e.parents ==> p in st && st[p] == Verified
  {
  }

  /** Below an entry all of whose parents end up Verified everything was Verified or judged valid. */
  lemma VerifiedBelow(s: Store, v: Verdicts, done: set<Id>, s': Store, x: Id)
    requires s.Valid() && x in s.entries && SettledOn(s, v, done, s')
    requires forall y :: y in done ==> s.Is(y, Unverified)
    requires forall p :: p in s.entries[x].parents ==> s'.Is(p, Verified)
    ensures Clear(s, v, x)
  {
    var g, seeds := UnverifiedEdges(s), Elems(s.entries[x].parents);
    forall y | s'.Is(y, Verified) && s.Is(y, Unverified)
      ensures y in v && v[y] == Ok(Verified) && forall p :: p in s.entries[y].parents ==> s'.Is(p, Verified)
    {
      VerifiedParentsOnly(v, s'.status, s.entries[y], Ok(Verified));
    }
    ReachInduct(g, seeds, iset y | s'.Is(y, Verified));
  }

  lemma AbortedClear(s: Store, v: Verdicts, done: set<Id>, s': Store, x: Id, error: Error)
    requires s.Valid() && x in s.entries && SettledOn(s, v, done, s')
    requires forall y :: y in done ==> s.Is(y, Unverified)
    requires Deserves(v, s'.status, s.entries[x], Err(error))
    ensures x in v && v[x].Err? && Clear(s, v, x)
  {
    VerifiedParentsOnly(v, s'.status, s.entries[x], Err(error));
    VerifiedBelow(s, v, done, s', x);
  }

  lemma AbortedCutShort(s: Store, v: Verdicts, tree: Id, s': Store, error: Error)
    requires s.Valid() && Aborted(s, v, tree, s', error)
    ensures CutShort(s, v, tree)
  {
    var done, x :| x in s.entries && x in Region(s, tree) - done && done <= Region(s, tree)
                   && SettledOn(s, v, done, s') && Deserves(v, s'.status, s.entries[x], Err(error));
    AbortedClear(s, v, done, s', x, error);
  }

  /** Verified, or walked with a favourable verdict and with all parents of the same kind. */
  ghost predicate Promising(s: Store, v: Verdicts, region: set<Id>, kind: set<Id>, y: Id) {
    || s.Is(y, Verified)
    || (y in region && y in s.entries && y in v && v[y] == Ok(Verified) && Elems(s.entries[y].parents) <= kind)
  }

  lemma PromisingVerified(s: Store, v: Verdicts, region: set<Id>, s': Store, kind: set<Id>)
    requires s.Valid() && Acyclic(s.entries) && SettledOn(s, v, region, s')
    requires forall y :: y in region ==> s.Is(y, Unverified)
    requires forall y :: y in kind ==> Promising(s, v, region, kind, y)
    ensures forall y :: y in kind ==> s'.Is(y, Verified)
  {
    var good := set y | y in s.entries && (y in kind ==> s'.Is(y, Verified));
    forall y: Id | ParentsIn(s.entries, y, good) ensures y in good {
      if y in kind && y in region {
        forall p | p in s.entries[y].parents ensures s'.Is(p, Verified) {
          assert Promising(s, v, region, kind, p);
        }
        assert Deserves(v, s'.status, s.entries[y], Ok(s'.status[y]));
      }
    }
    ParentInduction(s.entries, good);
    forall y | y in kind ensures s'.Is(y, Verified) { assert y in s.entries; }
  }

  lemma ClearPromising(s: Store, v: Verdicts, tree: Id, x: Id, kind: set<Id>)
    requires s.Valid() && x in Region(s, tree) && Clear(s, v, x)
    requires kind == ReachSet(UnverifiedEdges(s), Elems(s.entries[x].parents))
    ensures Elems(s.entries[x].parents) <= kind
    ensures forall y :: y in kind ==> Promising(s, v, Region(s, tree), kind, y)
  {
    var g, tips, seeds := UnverifiedEdges(s), RawTips(s.entries, tree), Elems(s.entries[x].parents);
    forall p | p in seeds ensures p in kind && Reach(g, tips, p) {
      assert Step(g, x, p);
      ReachStep(g, tips, x, p);
      ReachSeed(g, seeds, p);
    }
    ReachTrans(g, tips, seeds);
    ReachClosed(g, seeds);
    forall y | y in kind ensures Promising(s, v, Region(s, tree), kind, y) {
      if s.Is(y, Unverified) {
        forall p | p in s.entries[y].parents ensures p in kind { assert Step(g, y, p); }
      }
    }
  }

  lemma SettledNotCutShort(s: Store, v: Verdicts, tree: Id, s': Store)
    requires s.Valid() && Acyclic(s.entries) && Settled(s, v, tree, s')
    ensures !CutShort(s, v, tree)
  {
    forall x | x in Region(s, tree) && x in v && Clear(s, v, x) ensures v[x].Ok? {
      ClearJudged(s, v, tree, s', x);
    }
  }

  /** A clear entry is judged with all its parents Verified, and gets its verdict. */
  lemma ClearJudged(s: Store, v: Verdicts, tree: Id, s': Store, x: Id)
    requires s.Valid() && Acyclic(s.entries) && Settled(s, v, tree, s')
    requires x in Region(s, tree) && x in v && Clear(s, v, x)
    ensures s'.Is(x, s'.status[x]) && v[x] == Ok(s'.status[x])
  {
    var kind := ReachSet(UnverifiedEdges(s), Elems(s.entries[x].parents));
    ClearPromising(s, v, tree, x, kind);
    JudgedAt(s, v, Region(s, tree), s', kind, x);
  }

  lemma JudgedAt(s: Store, v: Verdicts, region: set<Id>, s': Store, kind: set<Id>, x: Id)
    requires s.Valid() && Acyclic(s.entries) && SettledOn(s, v, region, s') && x in region && x in v
    requires forall y :: y in region ==> s.Is(y, Unverified)
    requires Elems(s.entries[x].parents) <= kind && forall y :: y in kind ==> Promising(s, v, region, kind, y)
    ensures v[x] == Ok(s'.status[x])
  {
    PromisingVerified(s, v, region, s', kind);
    assert forall p :: p in s.entries[x].parents ==> p in Elems(s.entries[x].parents);
    assert Deserves(v, s'.status, s.entries[x], Ok(s'.status[x]));
  }

  // --- The outcome, told from the store before the pass ---

  /** A walked entry ends up Verified exactly when it is judged valid and everything walked below it is too. */
  lemma VerifiedIff(s: Store, v: Verdicts, tree: Id, s': Store, x: Id)
    requires s.Valid() && Acyclic(s.entries) && Settled(s, v, tree, s') && x in Region(s, tree)
    ensures s'.Is(x, Verified) <==> x in v && v[x] == Ok(Verified) && Clear(s, v, x)
  {
    if s'.Is(x, Verified) {
      VerifiedParentsOnly(v, s'.status, s.entries[x], Ok(Verified));
      VerifiedBelow(s, v, Region(s, tree), s', x);
    }
    if x in v && v[x] == Ok(Verified) && Clear(s, v, x) { ClearJudged(s, v, tree, s', x); }
  }

  /** Failed already, or judged invalid once everything walked below it is Verified. */
  ghost predicate Bad(s: Store, v: Verdicts, y: Id) {
    s.Is(y, Failed) || (s.Is(y, Unverified) && y in s.entries && y in v && v[y] == Ok(Failed) && Clear(s, v, y))
  }

  /** Something bad is found at `x` or walking on from it. */
  ghost predicate Tainted(s: Store, v: Verdicts, x: Id) {
    exists y :: Reach(UnverifiedEdges(s), {x}, y) && Bad(s, v, y)
  }

  lemma FailedRule(v: Verdicts, st: Statuses, e: Entry)
    requires Deserves(v, st, e, Ok(Failed)) && forall p :: p in e.parents && p in st ==> st[p] != Failed
    ensures e.id in v && v[e.id] == Ok(Failed) && forall p :: p in e.parents ==> p in st && st[p] == Verified
  {
  }

  lemma TaintedByParent(s: Store, v: Verdicts, x: Id, p: Id)
    requires x in UnverifiedEdges(s) && p in s.entries[x].parents && Tainted(s, v, p)
    ensures Tainted(s, v, x)
  {
    var g := UnverifiedEdges(s);
    var y :| Reach(g, {p}, y) && Bad(s, v, y);
    ReachSeed(g, {x}, x);
    assert Step(g, x, p);
    ReachStep(g, {x}, x, p);
    ReachTrans(g, {x}, {p});
  }

  lemma TaintedByItself(s: Store, v: Verdicts, x: Id)
    requires Bad(s, v, x)
    ensures Tainted(s, v, x)
  {
    ReachSeed(UnverifiedEdges(s), {x}, x);
  }

  lemma FailedTainted(s: Store, v: Verdicts, region: set<Id>, s': Store, good: set<Id>, x: Id)
    requires s.Valid() && SettledOn(s, v, region, s') && s'.Is(x, Failed) && ParentsIn(s.entries, x, good)
    requires forall y :: y in region ==> s.Is(y, Unverified)
    requires forall y :: y in good ==> (s'.Is(y, Failed) ==> Tainted(s, v, y))
    ensures Tainted(s, v, x)
  {
    if x !in region {
      TaintedByItself(s, v, x);
    } else if p :| p in s.entries[x].parents && s'.Is(p, Failed) {
      TaintedByParent(s, v, x, p);
    } else {
      FailedRule(v, s'.status, s.entries[x]);
      VerifiedBelow(s, v, region, s', x);
      TaintedByItself(s, v, x);
    }
  }

  lemma AllFailedTainted(s: Store, v: Verdicts, region: set<Id>, s': Store)
    requires s.Valid() && Acyclic(s.entries) && SettledOn(s, v, region, s')
    requires forall y :: y in region ==> s.Is(y, Unverified)
    ensures forall x :: x in s.entries && s'.Is(x, Failed) ==> Tainted(s, v, x)
  {
    var good := set x | x in s.entries && (s'.Is(x, Failed) ==> Tainted(s, v, x));
    forall x: Id | ParentsIn(s.entries, x, good) ensures x in good {
      if s'.Is(x, Failed) { FailedTainted(s, v, region, s', good, x); }
    }
    ParentInduction(s.entries, good);
  }

  /** Unverified parents of walked entries are walked. */
  ghost predicate ClosedRegion(s: Store, region: set<Id>) {
    forall z, p :: z in region && z in s.entries && p in s.entries[z].parents && s.Is(p, Unverified) ==> p in region
  }

  /** An entry fails when something failed is found walking on from it. */
  lemma SpreadsUp(s: Store, v: Verdicts, region: set<Id>, s': Store, x: Id, y: Id)
    requires s.Valid() && SettledOn(s, v, region, s') && Reach(UnverifiedEdges(s), {x}, y)
    requires x in region && ClosedRegion(s, region) && s'.Is(y, Failed)
    ensures s'.Is(x, Failed)
  {
    if !s'.Is(x, Failed) {
      var c := iset z | !s'.Is(z, Failed) && (s.Is(z, Unverified) ==> z in region);
      forall z, p | z in c && Step(UnverifiedEdges(s), z, p) ensures p in c {
        assert Deserves(v, s'.status, s.entries[z], Ok(s'.status[z]));
        assert p in s.entries[z].parents;
      }
      ReachInduct(UnverifiedEdges(s), {x}, c);
      assert false;
    }
  }

  lemma RegionClosed(s: Store, tree: Id)
    requires s.Valid()
    ensures ClosedRegion(s, Region(s, tree))
  {
    var g, tips := UnverifiedEdges(s), RawTips(s.entries, tree);
    forall z, p | z in Region(s, tree) && p in s.entries[z].parents && s.Is(p, Unverified)
      ensures p in Region(s, tree)
    {
      assert Step(g, z, p);
      ReachStep(g, tips, z, p);
    }
  }

  lemma WalkedInside(s: Store, region: set<Id>, x: Id, y: Id)
    requires s.Valid() && x in region && Reach(UnverifiedEdges(s), {x}, y) && s.Is(y, Unverified)
    requires ClosedRegion(s, region)
    ensures y in region
  {
    ReachInduct(UnverifiedEdges(s), {x}, iset z | s.Is(z, Unverified) ==> z in region);
  }

  lemma BadFails(s: Store, v: Verdicts, tree: Id, s': Store, x: Id, y: Id)
    requires s.Valid() && Acyclic(s.entries) && Settled(s, v, tree, s') && x in Region(s, tree)
    requires Reach(UnverifiedEdges(s), {x}, y) && Bad(s, v, y)
    ensures s'.Is(y, Failed)
  {
    if s.Is(y, Unverified) {
      RegionClosed(s, tree);
      WalkedInside(s, Region(s, tree), x, y);
      ClearJudged(s, v, tree, s', y);
    }
  }

  /** It ends up Failed exactly when something bad is found at it or walking on from it: failure spreads to children. */
  lemma FailedIff(s: Store, v: Verdicts, tree: Id, s': Store, x: Id)
    requires s.Valid() && Acyclic(s.entries) && Settled(s, v, tree, s') && x in Region(s, tree)
    ensures s'.Is(x, Failed) <==> Tainted(s, v, x)
  {
    if s'.Is(x, Failed) {
      AllFailedTainted(s, v, Region(s, tree), s');
    } else if Tainted(s, v, x) {
      var y :| Reach(UnverifiedEdges(s), {x}, y) && Bad(s, v, y);
      BadFails(s, v, tree, s', x, y);
      RegionClosed(s, tree);
      SpreadsUp(s, v, Region(s, tree), s', x, y);
      assert false;
    }
  }

  /** Whether a pass completes is decided by the store it starts on, whatever order the sort produces. */
  lemma CompletesIff(s: Store, pol: Policy, tree: Id, s': Store)
    requires s.Valid() && Acyclic(s.entries) && Passed(s, pol, tree, s')
    ensures Completed(s, pol, tree, s') <==> !CutShort(s, VerdictsOf(s.entries, pol, tree), tree)
  {
    var v := VerdictsOf(s.entries, pol, tree);
    if Completed(s, pol, tree, s') {
      SettledNotCutShort(s, v, tree, s');
    } else {
      var error :| Aborted(s, v, tree, s', error);
      AbortedCutShort(s, v, tree, s', error);
    }
  }

  /** Two passes over one store both complete, with the same outcome, or are both cut short. */
  lemma PassesAgree(s: Store, pol: Policy, tree: Id, s1: Store, s2: Store)
    requires s.Valid() && Acyclic(s.entries) && Passed(s, pol, tree, s1) && Passed(s, pol, tree, s2)
    ensures Completed(s, pol, tree, s1) <==> Completed(s, pol, tree, s2)
    ensures Completed(s, pol, tree, s1) ==> s1 == s2
  {
    CompletesIff(s, pol, tree, s1);
    CompletesIff(s, pol, tree, s2);
    if Completed(s, pol, tree, s1) { SettledUnique(s, VerdictsOf(s.entries, pol, tree), tree, s1, s2); }
  }

  lemma AbortedEntry(s: Store, v: Verdicts, tree: Id, s': Store, error: Error) returns (x: Id)
    requires s.Valid() && Aborted(s, v, tree, s', error)
    ensures x in s.entries && x in v && v[x] == Err(error)
  {
    x :| x in s.entries && Deserves(v, s'.status, s.entries[x], Err(error));
    VerifiedParentsOnly(v, s'.status, s.entries[x], Err(error));
  }

  lemma VerdictError(es: Held, pol: Policy, tree: Id, e: Entry)
    ensures Verdict(es, pol, tree, e).Err? ==> Verdict(es, pol, tree, e).error == MalformedSettings
  {
  }

  /** The only thing that cuts a pass short is settings data that does not parse or merge. */
  lemma AbortError(s: Store, pol: Policy, tree: Id, s': Store, error: Error, v: Verdicts)
    requires s.Valid() && v == VerdictsOf(s.entries, pol, tree) && Aborted(s, v, tree, s', error)
    ensures error == MalformedSettings
  {
    var x := AbortedEntry(s, v, tree, s', error);
    VerdictError(s.entries, pol, tree, s.entries[x]);
  }

  /** No pass is cut short while every walked entry can be judged. */
  lemma ReadableCompletes(s: Store, pol: Policy, tree: Id, s': Store, v: Verdicts)
    requires s.Valid() && v == VerdictsOf(s.entries, pol, tree) && Passed(s, pol, tree, s')
    requires forall x :: x in Region(s, tree) && x in v ==> v[x].Ok?
    ensures Settled(s, v, tree, s')
  {
    forall error ensures !Aborted(s, v, tree, s', error) {
      if Aborted(s, v, tree, s', error) { AbortedCutShort(s, v, tree, s', error); }
    }
  }

  lemma JudgedCompletes(s: Store, pol: Policy, tree: Id, s': Store, v: Verdicts)
    requires s.Valid() && v == VerdictsOf(s.entries, pol, tree) && Passed(s, pol, tree, s')
    requires forall x :: x in v ==> v[x].Ok?
    ensures Settled(s, v, tree, s')
  {
    ReadableCompletes(s, pol, tree, s', v);
  }

  // --- What a pass promotes ---

  ghost predicate Promoted(s: Store, s': Store) {
    exists x :: s.Is(x, Unverified) && s'.Is(x, Verified)
  }

  /** The validator accepts `x`, and all its parents are Verified. */
  ghost predicate Ready(s: Store, v: Verdicts, x: Id) {
    x in s.entries && x in v && v[x] == Ok(Verified) && forall p :: p in s.entries[x].parents ==> s.Is(p, Verified)
  }

  lemma ReadyIsPromoted(s: Store, v: Verdicts, done: set<Id>, s': Store, x: Id)
    requires s.Valid() && SettledOn(s, v, done, s') && x in done && Ready(s, v, x)
    requires forall y :: y in done ==> s.Is(y, Unverified)
    ensures s'.Is(x, Verified)
  {
    assert forall p :: p in s.entries[x].parents ==> s'.Is(p, Verified);
    assert Deserves(v, s'.status, s.entries[x], Ok(s'.status[x]));
  }

  lemma PromotedWasReady(s: Store, v: Verdicts, done: set<Id>, s': Store, promoted: set<Id>, x: Id)
    requires s.Valid() && SettledOn(s, v, done, s') && x in promoted
    requires forall y :: y in promoted <==> y in s.entries && s.Is(y, Unverified) && s'.Is(y, Verified)
    requires forall y :: y in done ==> s.Is(y, Unverified)
    requires forall p :: p in s.entries[x].parents ==> p !in promoted
    ensures x in done && Ready(s, v, x)
  {
    assert Deserves(v, s'.status, s.entries[x], Ok(Verified));
    forall p | p in s.entries[x].parents ensures s.Is(p, Verified) {
      assert s'.Is(p, Verified);
    }
  }

  lemma FirstPromoted(s: Store, v: Verdicts, done: set<Id>, s': Store) returns (x: Id)
    requires s.Valid() && Acyclic(s.entries) && SettledOn(s, v, done, s') && Promoted(s, s')
    requires forall y :: y in done ==> s.Is(y, Unverified)
    ensures x in done && Ready(s, v, x)
  {
    var promoted := set x | x in s.entries && s.Is(x, Unverified) && s'.Is(x, Verified);
    var y :| s.Is(y, Unverified) && s'.Is(y, Verified);
    assert y in promoted;
    x := Minimal(s.entries, promoted);
    PromotedWasReady(s, v, done, s', promoted, x);
  }

  /** A completed pass promotes something exactly when some walked entry was ready before it. */
  lemma PromotesIff(s: Store, v: Verdicts, tree: Id, s': Store)
    requires s.Valid() && Acyclic(s.entries) && Settled(s, v, tree, s')
    ensures Promoted(s, s') <==> exists x :: x in Region(s, tree) && Ready(s, v, x)
  {
    if Promoted(s, s') {
      var x := FirstPromoted(s, v, Region(s, tree), s');
    }
    if x :| x in Region(s, tree) && Ready(s, v, x) {
      ReadyIsPromoted(s, v, Region(s, tree), s', x);
      assert s.Is(x, Unverified);
    }
  }

  /** A pass over `s` will complete. */
  ghost predicate Completes(s: Store, pol: Policy, tree: Id) {
    !CutShort(s, VerdictsOf(s.entries, pol, tree), tree)
  }

  /** A pass over `s` will complete and promote something. */
  ghost predicate Promotes(s: Store, pol: Policy, tree: Id) {
    Completes(s, pol, tree) && exists x :: x in Region(s, tree) && Ready(s, VerdictsOf(s.entries, pol, tree), x)
  }

  /** Both can be told from the store before the pass. */
  lemma PassOutcome(s: Store, pol: Policy, tree: Id, s': Store)
    requires s.Valid() && Acyclic(s.entries) && Passed(s, pol, tree, s')
    ensures Completed(s, pol, tree, s') <==> Completes(s, pol, tree)
    ensures Completed(s, pol, tree, s') && Promoted(s, s') <==> Promotes(s, pol, tree)
  {
    CompletesIff(s, pol, tree, s');
    if Completed(s, pol, tree, s') { PromotesIff(s, VerdictsOf(s.entries, pol, tree), tree, s'); }
  }

  // --- Which entries a pass can see ---

  /** Unverified, and at or below a raw tip of the tree. */
  ghost function UnverifiedBelow(s: Store, tree: Id): set<Id> {
    set x | x in s.entries && s.Is(x, Unverified) && Ancestor(s.entries, RawTips(s.entries, tree), x)
  }

  /** A raw tip, or the parent of an Unverified entry at or below one. */
  ghost predicate InSight(s: Store, tree: Id, x: Id) {
    x in RawTips(s.entries, tree) || exists c :: c in UnverifiedBelow(s, tree) && x in s.entries[c].parents
  }

  lemma RegionBelow(s: Store, tree: Id)
    ensures Region(s, tree) <= UnverifiedBelow(s, tree)
  {
    ReachMono(UnverifiedEdges(s), ParentEdges(s.entries), RawTips(s.entries, tree), RawTips(s.entries, tree));
  }

  lemma InSightCovers(s: Store, tree: Id)
    requires s.Valid() && Acyclic(s.entries)
    requires forall x :: x in UnverifiedBelow(s, tree) ==> InSight(s, tree, x)
    ensures UnverifiedBelow(s, tree) <= Region(s, tree)
  {
    var within, tips := UnverifiedBelow(s, tree), RawTips(s.entries, tree);
    ClimbWithin(s.entries, within, tips);
    ReachMono(EdgesWithin(s.entries, within), UnverifiedEdges(s), tips, tips);
  }

  /** A pass walks everything Unverified at or below the tips exactly when all of it is in sight. */
  lemma RegionCoversIff(s: Store, tree: Id)
    requires s.Valid() && Acyclic(s.entries)
    ensures UnverifiedBelow(s, tree) <= Region(s, tree) <==>
            forall x :: x in UnverifiedBelow(s, tree) ==> InSight(s, tree, x)
  {
    if UnverifiedBelow(s, tree) <= Region(s, tree) {
      forall x | x in UnverifiedBelow(s, tree) ensures InSight(s, tree, x) { WalkedInSight(s, tree, x); }
    } else if forall x :: x in UnverifiedBelow(s, tree) ==> InSight(s, tree, x) {
      InSightCovers(s, tree);
    }
  }

  lemma WalkedInSight(s: Store, tree: Id, x: Id)
    requires x in Region(s, tree)
    ensures InSight(s, tree, x)
  {
    if x !in RawTips(s.entries, tree) {
      var c := LastStep(UnverifiedEdges(s), RawTips(s.entries, tree), x);
      RegionBelow(s, tree);
      assert c in Region(s, tree);
    }
  }

  /** No Unverified entry has a settled child. */
  ghost predicate NoSettledChild(s: Store) {
    forall c, x :: c in s.entries && x in s.entries[c].parents && s.Is(x, Unverified) ==> s.Is(c, Unverified)
  }

  /** Then everything Unverified at or below a raw tip is walked, whatever tree it belongs to. */
  lemma NoSettledChildCovers(s: Store, tree: Id)
    requires s.Valid() && Acyclic(s.entries) && NoSettledChild(s)
    ensures UnverifiedBelow(s, tree) <= Region(s, tree)
  {
    var g, tips := UnverifiedEdges(s), RawTips(s.entries, tree);
    var c := iset x | s.Is(x, Unverified) ==> Reach(g, tips, x);
    forall x | x in tips ensures x in c { ReachSeed(g, tips, x); }
    forall x, y | x in c && Step(ParentEdges(s.entries), x, y) ensures y in c {
      if s.Is(y, Unverified) {
        assert s.Is(x, Unverified);
        assert Step(g, x, y);
        ReachStep(g, tips, x, y);
      }
    }
    ReachInduct(ParentEdges(s.entries), tips, c);
  }

  // --- When a pass hides entries from the next one ---

  /** A walked child of an entry left waiting fails if it has a failed parent, and waits otherwise. */
  lemma ChildOfWaiting(s: Store, v: Verdicts, tree: Id, s': Store, x: Id, c: Id)
    requires s.Valid() && Settled(s, v, tree, s') && s'.Is(x, Unverified)
    requires c in Region(s, tree) && x in s.entries[c].parents
    ensures s'.Is(c, if Compromised(s'.status, s.entries[c]) then Failed else Unverified)
  {
    assert Blocked(s'.status, s.entries[c]);
    assert Deserves(v, s'.status, s.entries[c], Ok(s'.status[c]));
  }

  /** A child at or below the tips that has no failed parent. */
  ghost predicate SoundChild(s: Store, tree: Id, x: Id) {
    exists c ::
      && c in s.entries && Ancestor(s.entries, RawTips(s.entries, tree), c)
      && x in s.entries[c].parents && !Compromised(s.status, s.entries[c])
  }

  lemma InSightIff(s: Store, v: Verdicts, tree: Id, s': Store, x: Id)
    requires s.Valid() && Acyclic(s.entries) && NoSettledChild(s) && Settled(s, v, tree, s')
    requires s'.Is(x, Unverified) && x !in RawTips(s.entries, tree)
    ensures InSight(s', tree, x) <==> SoundChild(s', tree, x)
  {
    NoSettledChildCovers(s, tree);
    if InSight(s', tree, x) {
      var c :| c in UnverifiedBelow(s', tree) && x in s.entries[c].parents;
      assert c in UnverifiedBelow(s, tree);
      ChildOfWaiting(s, v, tree, s', x, c);
    }
    if SoundChild(s', tree, x) {
      var c :| c in s.entries && Ancestor(s.entries, RawTips(s.entries, tree), c)
               && x in s.entries[c].parents && !Compromised(s'.status, s.entries[c]);
      assert c in UnverifiedBelow(s, tree);
      ChildOfWaiting(s, v, tree, s', x, c);
      assert c in UnverifiedBelow(s', tree);
    }
  }

  /**
   From a store that hides nothing, a pass leaves everything Unverified at or below
   the tips visible to the next one exactly when every entry it leaves waiting is a
   tip or has a child with no failed parent.
   */
  lemma PassCoversIff(s: Store, v: Verdicts, tree: Id, s': Store)
    requires s.Valid() && Acyclic(s.entries) && NoSettledChild(s) && Settled(s, v, tree, s')
    ensures UnverifiedBelow(s', tree) <= Region(s', tree) <==>
            forall x :: x in UnverifiedBelow(s', tree) ==> x in RawTips(s.entries, tree) || SoundChild(s', tree, x)
  {
    RegionCoversIff(s', tree);
    forall x | x in UnverifiedBelow(s', tree)
      ensures InSight(s', tree, x) <==> x in RawTips(s.entries, tree) || SoundChild(s', tree, x)
    {
      if x !in RawTips(s.entries, tree) { InSightIff(s, v, tree, s', x); }
    }
  }

  /** No walked entry has both a failed parent and one left waiting. */
  ghost predicate NoneTorn(s: Store, region: set<Id>) {
    forall c, x :: c in region && c in s.entries && x in s.entries[c].parents && s.Is(x, Unverified) ==>
      !Compromised(s.status, s.entries[c])
  }

  /** A pass keeps "no Unverified entry has a settled child" exactly when it tears no entry. */
  lemma NoSettledChildIff(s: Store, v: Verdicts, tree: Id, s': Store)
    requires s.Valid() && NoSettledChild(s) && Settled(s, v, tree, s')
    ensures NoSettledChild(s') <==> NoneTorn(s', Region(s, tree))
  {
    if NoSettledChild(s') {
      forall c, x | c in Region(s, tree) && x in s.entries[c].parents && s'.Is(x, Unverified)
        ensures !Compromised(s'.status, s.entries[c])
      {
        ChildOfWaiting(s, v, tree, s', x, c);
        assert s'.Is(c, Unverified);
      }
    }
    if NoneTorn(s', Region(s, tree)) {
      forall c, x | c in s.entries && x in s.entries[c].parents && s'.Is(x, Unverified) ensures s'.Is(c, Unverified) {
        NotTornWaits(s, v, tree, s', x, c);
      }
    }
  }

  lemma NotTornWaits(s: Store, v: Verdicts, tree: Id, s': Store, x: Id, c: Id)
    requires s.Valid() && NoSettledChild(s) && Settled(s, v, tree, s') && NoneTorn(s', Region(s, tree))
    requires c in s.entries && x in s.entries[c].parents && s'.Is(x, Unverified)
    ensures s'.Is(c, Unverified)
  {
    assert s.Is(x, Unverified);
    assert s.Is(c, Unverified);
    if c in Region(s, tree) { ChildOfWaiting(s, v, tree, s', x, c); }
  }

  // --- Stranded entries ---

  /** Not a tip, and every held child is settled: nothing leads the walk here. */
  ghost predicate Stranded(s: Store, tree: Id, x: Id) {
    && s.Is(x, Unverified)
    && x !in RawTips(s.entries, tree)
    && forall c :: c in s.entries && x in s.entries[c].parents ==> !s.Is(c, Unverified)
  }

  lemma StrandedUnseen(s: Store, tree: Id, x: Id)
    requires Stranded(s, tree, x)
    ensures x !in Region(s, tree)
  {
    if x in Region(s, tree) { WalkedInSight(s, tree, x); }
  }

  /** No pass, completed or cut short, whatever the verdicts have become, touches a stranded entry or frees it. */
  lemma StrandedStays(s: Store, pol: Policy, tree: Id, s': Store, x: Id)
    requires s.Valid() && Stranded(s, tree, x) && Passed(s, pol, tree, s')
    ensures s'.Valid() && Stranded(s', tree, x)
  {
    StrandedUnseen(s, tree, x);
    var done := PassedPart(s, pol, tree, s');
    forall c | c in s'.entries && x in s'.entries[c].parents ensures !s'.Is(c, Unverified) {
      assert !s.Is(c, Unverified);
    }
  }

  /** A pass strands a waiting non-tip exactly when its waiting children all are walked and have failed parents. */
  lemma StrandsIff(s: Store, v: Verdicts, tree: Id, s': Store, x: Id)
    requires s.Valid() && Settled(s, v, tree, s') && s'.Is(x, Unverified) && x !in RawTips(s.entries, tree)
    ensures Stranded(s', tree, x) <==>
            forall c :: c in s.entries && x in s.entries[c].parents && s.Is(c, Unverified) ==>
              c in Region(s, tree) && Compromised(s'.status, s.entries[c])
  {
    forall c | c in Region(s, tree) && x in s.entries[c].parents
      ensures s'.Is(c, if Compromised(s'.status, s.entries[c]) then Failed else Unverified)
    {
      ChildOfWaiting(s, v, tree, s', x, c);
    }
  }

  // --- An example ---

  /** Entry 4 has a parent 2 and a parent 3 whose pinned settings have not arrived. */
  function Forked(pin: RawData): Store {
    Store(map[1 := Node(1, 0, []), 2 := Node(2, 1, [1]), 3 := PinnedNode(3, 1, [1], pin), 4 := Node(4, 2, [2, 3])],
          map[1 := Verified, 2 := Unverified, 3 := Unverified, 4 := Unverified])
  }

  lemma ForkedShape(pin: RawData)
    ensures Forked(pin).Valid()
    ensures forall c :: c in Forked(pin).entries && 3 in Forked(pin).entries[c].parents ==> c == 4
  {
  }

  lemma ForkedTips(pin: RawData)
    ensures RawTips(Forked(pin).entries, 1) == {4}
  {
    var es := Forked(pin).entries;
    assert ChildOf(es, 1, 4, 2) && ChildOf(es, 1, 4, 3) && ChildOf(es, 1, 2, 1);
  }

  lemma ForkedRegion(pin: RawData)
    ensures Region(Forked(pin), 1) == {2, 3, 4}
  {
    ForkedTips(pin);
    var g := UnverifiedEdges(Forked(pin));
    assert g == map[2 := {1}, 3 := {1}, 4 := {2, 3}] by {
      assert Elems([1]) == {1} && Elems([2, 3]) == {2, 3};
    }
    ReachSeed(g, {4}, 4);
    ReachStep(g, {4}, 4, 2);
    ReachStep(g, {4}, 4, 3);
  }

  /** An entry without metadata and settings is judged against the empty auth config. */
  lemma PlainVerdict(es: Held, pol: Policy, tree: Id, e: Entry)
    requires e.metadata == None && !e.InSubtree(SETTINGS)
    ensures Verdict(es, pol, tree, e) == Ok(if pol.valid(e, pol.noAuth) then Verified else Failed)
  {
  }

  /** An entry pinned to a tip that is not held has to wait. */
  lemma WaitingVerdict(es: Held, pol: Policy, tree: Id, e: Entry, pin: RawData, t: Id)
    requires e.metadata == Some(pin) && pol.decodeMetadata(pin) == Some([t]) && t !in es
    ensures Verdict(es, pol, tree, e) == Ok(Unverified)
  {
    AbsentTip(es, pol, tree, e, [t], t);
  }

  lemma ForkedStatuses(pin: RawData, v: Verdicts, s': Store)
    requires 2 in v && v[2] == Ok(Failed) && 3 in v && v[3] == Ok(Unverified)
    requires SettledOn(Forked(pin), v, {2, 3, 4}, s')
    ensures s'.Is(2, Failed) && s'.Is(3, Unverified) && Compromised(s'.status, Node(4, 2, [2, 3]))
  {
    var e2, e3, e4 := Forked(pin).entries[2], Forked(pin).entries[3], Forked(pin).entries[4];
    assert s'.Is(1, Verified);
    assert Deserves(v, s'.status, e2, Ok(s'.status[2]));
    assert Deserves(v, s'.status, e3, Ok(s'.status[3]));
    assert 2 in e4.parents;
  }

  lemma ForkedVerdicts(pol: Policy, pin: RawData, v: Verdicts)
    requires pol.decodeMetadata(pin) == Some([9]) && !pol.valid(Node(2, 1, [1]), pol.noAuth)
    requires v == VerdictsOf(Forked(pin).entries, pol, 1)
    ensures 2 in v && v[2] == Ok(Failed) && 3 in v && v[3] == Ok(Unverified)
  {
    var es := Forked(pin).entries;
    PlainVerdict(es, pol, 1, es[2]);
    WaitingVerdict(es, pol, 1, es[3], pin, 9);
  }

  /** Pinned by `pin`, or without any pin and settings of its own. */
  predicate PlainOr(pin: RawData, e: Entry) {
    e.metadata == Some(pin) || (e.metadata == None && !e.InSubtree(SETTINGS))
  }

  lemma NodePlain(pin: RawData, id: Id, height: U64, parents: seq<Id>)
    ensures PlainOr(pin, Node(id, height, parents)) && PlainOr(pin, PinnedNode(id, height, parents, pin))
  {
    var root := [SubTree(ROOT, [], None, None)];
    assert |ROOT| != |SETTINGS| && root[1..] == [];
    assert FindIn(root, SETTINGS) == FindIn(root[1..], SETTINGS);
    assert FindIn([], SETTINGS) == None;
  }

  lemma ForkedPlain(pin: RawData)
    ensures forall x :: x in Forked(pin).entries ==> PlainOr(pin, Forked(pin).entries[x])
  {
    NodePlain(pin, 1, 0, []);
    NodePlain(pin, 2, 1, [1]);
    NodePlain(pin, 3, 1, [1]);
    NodePlain(pin, 4, 2, [2, 3]);
  }

  /** Entries that are plain or have to wait cut no pass short. */
  lemma PlainOrWaiting(es: Held, pol: Policy, tree: Id, pin: RawData, t: Id, v: Verdicts)
    requires pol.decodeMetadata(pin) == Some([t]) && t !in es && v == VerdictsOf(es, pol, tree)
    requires forall x :: x in es ==> PlainOr(pin, es[x])
    ensures forall x :: x in v ==> v[x].Ok?
  {
    forall x | x in es ensures Verdict(es, pol, tree, es[x]).Ok? {
      if es[x].metadata == None {
        PlainVerdict(es, pol, tree, es[x]);
      } else {
        WaitingVerdict(es, pol, tree, es[x], pin, t);
      }
    }
  }

  lemma ForkedBelow(pin: RawData, s': Store)
    requires s'.entries == Forked(pin).entries && s'.Is(3, Unverified)
    ensures 3 in UnverifiedBelow(s', 1)
  {
    ForkedTips(pin);
    ReachSeed(ParentEdges(s'.entries), {4}, 4);
    ReachStep(ParentEdges(s'.entries), {4}, 4, 3);
  }

  /** When 2 is bad and the settings 3 is pinned to are absent, one pass strands 3 where the next does not walk. */
  lemma ForkedStrands(pol: Policy, pin: RawData, s': Store)
    requires pol.decodeMetadata(pin) == Some([9]) && !pol.valid(Node(2, 1, [1]), pol.noAuth)
    requires Passed(Forked(pin), pol, 1, s')
    ensures Stranded(s', 1, 3) && 3 in UnverifiedBelow(s', 1) && 3 !in Region(s', 1)
  {
    var v := VerdictsOf(Forked(pin).entries, pol, 1);
    ForkedVerdicts(pol, pin, v);
    ForkedCompletes(pol, pin, v, s');
    ForkedStranded(pin, v, s');
    ForkedBelow(pin, s');
    StrandedUnseen(s', 1, 3);
  }

  lemma ForkedCompletes(pol: Policy, pin: RawData, v: Verdicts, s': Store)
    requires pol.decodeMetadata(pin) == Some([9]) && v == VerdictsOf(Forked(pin).entries, pol, 1)
    requires Passed(Forked(pin), pol, 1, s')
    ensures Settled(Forked(pin), v, 1, s')
  {
    ForkedPlain(pin);
    ForkedShape(pin);
    PlainOrWaiting(Forked(pin).entries, pol, 1, pin, 9, v);
    JudgedCompletes(Forked(pin), pol, 1, s', v);
  }

  lemma ForkedStranded(pin: RawData, v: Verdicts, s': Store)
    requires 2 in v && v[2] == Ok(Failed) && 3 in v && v[3] == Ok(Unverified)
    requires Settled(Forked(pin), v, 1, s')
    ensures Stranded(s', 1, 3)
  {
    ForkedRegion(pin);
    ForkedTips(pin);
    ForkedShape(pin);
    ForkedStatuses(pin, v, s');
    StrandsIff(Forked(pin), v, 1, s', 3);
  }
}
