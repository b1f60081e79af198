/** The Verified set over whole runs of writes, passes and demotions. */
module Runs {
  import opened Entries
  import opened Walks
  import opened Dag
  import opened Settings
  import opened Verification
  import opened Passes
  import opened Demotion
  import opened Induction

  datatype Op =
    | Put(entry: Entry)
    | Write(entry: Entry, verification: VerificationStatus)
    | Verify(tree: Id)
    | Demote(tree: Id, target: Id)

  ghost predicate Effect(pol: Policy, s: Store, op: Op, s': Store) {
    match op
    case Put(e) => s' == s.Put(e)
    case Write(e, w) => s' == s.WriteEntry(e, w)
    case Verify(tree) => Passed(s, pol, tree, s')
    case Demote(tree, target) => s' == Demoted(s, tree, target)
  }

  /** When storing `e` with status `w` keeps the Verified set ancestor-closed. */
  ghost predicate SafeWrite(s: Store, e: Entry, w: VerificationStatus) {
    match w
    case Verified => forall p :: p in e.parents ==> s.Is(p, Verified)
    case Unverified => true
    case Failed => forall c :: c in s.entries && s.Is(c, Verified) ==> e.id !in s.entries[c].parents
  }

  /** What each step must satisfy: commits sit on Verified parents, and demotions do not cross trees. */
  ghost predicate Allowed(s: Store, op: Op) {
    match op
    case Put(_) => true
    case Write(e, w) => SafeWrite(s, e, w)
    case Verify(_) => true
    case Demote(tree, target) => !exists x :: Escapes(s, tree, target, x)
  }

  // --- One step ---

  /** Content addressing: an ID stands for one entry, and an entry cannot name itself as a parent. */
  ghost predicate Addressed(s: Store, op: Op) {
    op.Write? ==> (op.entry.id in s.entries ==> s.entries[op.entry.id] == op.entry) && op.entry.id !in op.entry.parents
  }

  lemma PutKeeps(s: Store, e: Entry)
    requires s.Valid()
    ensures s.Put(e).Valid() && Extends(s.entries, s.Put(e).entries)
    ensures AncestorClosed(s) ==> AncestorClosed(s.Put(e))
    ensures forall x :: x in s.status ==> s.Put(e).Is(x, s.status[x])
    ensures forall x :: s.Put(e).Is(x, Verified) ==> s.Is(x, Verified)
    ensures forall x :: s.Put(e).Is(x, Failed) ==> s.Is(x, Failed)
  {
    if AncestorClosed(s) {
      forall x | s.Put(e).Is(x, Verified) ensures ParentsVerified(s.Put(e), x) {
        assert ParentsVerified(s, x);
      }
    }
  }

  lemma {:induction false} PutAllGrows(s: Store, batch: seq<Entry>)
    requires s.Valid()
    ensures s.PutAll(batch).Valid() && Extends(s.entries, s.PutAll(batch).entries)
    decreases |batch|
  {
    if batch == [] {
    } else {
      PutKeeps(s, batch[0]);
      PutAllGrows(s.Put(batch[0]), batch[1..]);
    }
  }

  /** Content and status of `x` are the same. */
  ghost predicate SameAt(s: Store, s': Store, x: Id) {
    && (x in s'.entries <==> x in s.entries) && (x in s.entries ==> s'.entries[x] == s.entries[x])
    && (x in s'.status <==> x in s.status) && (x in s.status ==> s'.status[x] == s.status[x])
  }

  /** The entry is held and has the asked-for status, or keeps what it had for Unverified; nothing else changed. */
  ghost predicate Written(s: Store, e: Entry, w: VerificationStatus, s': Store) {
    && e.id in s'.entries && (e.id !in s.entries ==> s'.entries[e.id] == e)
    && s'.Is(e.id, if w == Unverified && e.id in s.status then s.status[e.id] else w)
    && (e.id in s.entries ==> s'.entries[e.id] == s.entries[e.id])
    && forall x :: x != e.id ==> SameAt(s, s', x)
  }

  lemma WriteExact(s: Store, e: Entry, w: VerificationStatus)
    requires s.Valid()
    ensures if e.Validates() then Written(s, e, w, s.WriteEntry(e, w)) else s.WriteEntry(e, w) == s
  {
  }

  /** A commit keeps the Verified set ancestor-closed exactly when its parents were Verified. */
  lemma WriteClosedIff(s: Store, e: Entry, w: VerificationStatus)
    requires s.Valid() && AncestorClosed(s) && e.Validates()
    requires e.id in s.entries ==> s.entries[e.id] == e
    requires e.id !in e.parents
    ensures s.WriteEntry(e, w).Valid()
    ensures AncestorClosed(s.WriteEntry(e, w)) <==> SafeWrite(s, e, w)
  {
    var s1, s' := s.Put(e), s.WriteEntry(e, w);
    PutKeeps(s, e);
    match w
    case Unverified =>
    case Verified =>
      if AncestorClosed(s') {
        forall p | p in e.parents ensures s.Is(p, Verified) {
          assert ParentsVerified(s', e.id);
        }
      }
    case Failed =>
      if AncestorClosed(s') {
        forall c | c in s.entries && s.Is(c, Verified) ensures e.id !in s.entries[c].parents {
          assert c != e.id ==> ParentsVerified(s', c);
        }
      }
  }

  lemma SettledOnClosed(s: Store, v: Verdicts, done: set<Id>, s': Store)
    requires s.Valid() && AncestorClosed(s) && SettledOn(s, v, done, s')
    requires forall x :: x in done ==> s.Is(x, Unverified)
    ensures s'.Valid() && AncestorClosed(s')
  {
    forall x | s'.Is(x, Verified) ensures ParentsVerified(s', x) {
      if x in done {
        assert Deserves(v, s'.status, s.entries[x], Ok(Verified));
      } else {
        assert ParentsVerified(s, x);
      }
    }
  }

  lemma PassedClosed(s: Store, pol: Policy, tree: Id, s': Store)
    requires s.Valid() && AncestorClosed(s) && Passed(s, pol, tree, s')
    ensures s'.Valid() && AncestorClosed(s')
  {
    var done := PassedPart(s, pol, tree, s');
    SettledOnClosed(s, VerdictsOf(s.entries, pol, tree), done, s');
  }

  lemma StepClosed(pol: Policy, s: Store, op: Op, s': Store)
    requires s.Valid() && AncestorClosed(s) && Effect(pol, s, op, s') && Allowed(s, op)
    requires Addressed(s, op)
    ensures s'.Valid() && AncestorClosed(s')
  {
    match op
    case Put(e) => PutKeeps(s, e);
    case Write(e, w) =>
      if e.Validates() { WriteClosedIff(s, e, w); }
    case Verify(tree) => PassedClosed(s, pol, tree, s');
    case Demote(tree, target) => DemotionClosedIff(s, tree, target);
  }

  // --- Every run ---

  ghost function OpSteps(pol: Policy, ops: seq<Op>): (nat, Store, Store) -> bool {
    (i: nat, s: Store, s': Store) =>
      i < |ops| && Effect(pol, s, ops[i], s') && Allowed(s, ops[i]) && Addressed(s, ops[i])
  }

  /** From an ancestor-closed store, every run of any length leaves the store ancestor-closed. */
  lemma RunClosed(pol: Policy, ops: seq<Op>, k: nat, s0: Store, s: Store)
    requires s0.Valid() && AncestorClosed(s0) && Steps(OpSteps(pol, ops), k, s0, s)
    ensures s.Valid() && AncestorClosed(s)
  {
    var inv := (i: nat, m: Store) => m.Valid() && AncestorClosed(m);
    forall i: nat, m, m' | inv(i, m) && OpSteps(pol, ops)(i, m, m') ensures inv(i + 1, m') {
      StepClosed(pol, m, ops[i], m');
    }
    StepsInduct(OpSteps(pol, ops), inv, k, s0, s);
  }

  /** Hence after every run everything below a Verified entry is held and Verified. */
  lemma RunHistoryVerified(pol: Policy, ops: seq<Op>, k: nat, s0: Store, s: Store, x: Id, y: Id)
    requires s0.Valid() && AncestorClosed(s0) && Steps(OpSteps(pol, ops), k, s0, s)
    requires s.Is(x, Verified) && Ancestor(s.entries, {x}, y)
    ensures s.Is(y, Verified)
  {
    RunClosed(pol, ops, k, s0, s);
    forall u, p | s.Is(u, Verified) && Step(ParentEdges(s.entries), u, p) ensures s.Is(p, Verified) {
      assert ParentsVerified(s, u);
    }
    ReachInduct(ParentEdges(s.entries), {x}, iset z | s.Is(z, Verified));
  }

  // --- Stranded for good ---

  ghost function Effects(pol: Policy, ops: seq<Op>): (nat, Store, Store) -> bool {
    (i: nat, s: Store, s': Store) => i < |ops| && Effect(pol, s, ops[i], s')
  }

  /** The step stores no child of `e`, does not write `e` itself, and demotes nothing. */
  ghost predicate Spares(op: Op, tree: Id, e: Entry) {
    match op
    case Put(c) => e.id !in c.parents
    case Write(c, _) => e.id !in c.parents && c.id != e.id
    case Verify(t) => t == tree || !e.InTree(t)
    case Demote(_, _) => false
  }

  ghost predicate StrandedEntry(s: Store, tree: Id, e: Entry) {
    s.Valid() && e.id in s.entries && s.entries[e.id] == e && Stranded(s, tree, e.id)
  }

  lemma StrandedPut(s: Store, tree: Id, e: Entry, c: Entry)
    requires StrandedEntry(s, tree, e) && e.id !in c.parents
    ensures StrandedEntry(s.Put(c), tree, e)
  {
    var x, es := e.id, s.entries;
    if Holds(es, tree, x) {
      var k :| k in es && ChildOf(es, tree, k, x);
      assert ChildOf(s.Put(c).entries, tree, k, x);
    }
  }

  lemma StrandedStep(pol: Policy, tree: Id, e: Entry, s: Store, op: Op, s': Store)
    requires StrandedEntry(s, tree, e) && Spares(op, tree, e) && Effect(pol, s, op, s')
    ensures StrandedEntry(s', tree, e)
  {
    match op
    case Put(c) => StrandedPut(s, tree, e, c);
    case Write(c, w) => StrandedPut(s, tree, e, c);
    case Verify(t) =>
      StrandedStays(s, pol, t, s', e.id);
      var done := PassedPart(s, pol, t, s');
  }

  /** A stranded entry stays Unverified over every run that gives it no new child and demotes nothing. */
  lemma StrandedForGood(pol: Policy, tree: Id, e: Entry, ops: seq<Op>, k: nat, s0: Store, s: Store)
    requires StrandedEntry(s0, tree, e) && forall i :: 0 <= i < |ops| ==> Spares(ops[i], tree, e)
    requires Steps(Effects(pol, ops), k, s0, s)
    ensures StrandedEntry(s, tree, e)
  {
    var inv := (i: nat, m: Store) => StrandedEntry(m, tree, e);
    forall i: nat, m, m' | inv(i, m) && Effects(pol, ops)(i, m, m') ensures inv(i + 1, m') {
      StrandedStep(pol, tree, e, m, ops[i], m');
    }
    StepsInduct(Effects(pol, ops), inv, k, s0, s);
  }

  // --- The conditions are needed: a demotion across trees ---

  function Root(id: Id): Entry {
    Entry(id, None, [], None, 0, [SubTree(ROOT, [], None, None)])
  }

  /** An entry of the tree rooted at 3 that also names 1, the root of another tree, as a parent. */
  function Bridge(): Entry {
    Entry(2, Some(3), [1, 3], None, 1, [])
  }

  function CrossTree(status: VerificationStatus): Store {
    Store(map[1 := Root(1), 3 := Root(3), 2 := Bridge()], map[1 := Verified, 3 := Verified, 2 := status])
  }

  function CrossTreeOps(): seq<Op> {
    [Write(Root(1), Verified), Write(Root(3), Verified), Put(Bridge()), Verify(3)]
  }

  lemma CrossTreeRegion()
    ensures Region(CrossTree(Unverified), 3) == {2}
  {
    var s := CrossTree(Unverified);
    assert 2 in RawTips(s.entries, 3);
    ReachSeed(UnverifiedEdges(s), RawTips(s.entries, 3), 2);
  }

  lemma CrossTreePass(pol: Policy)
    requires pol.valid(Bridge(), pol.noAuth)
    ensures Passed(CrossTree(Unverified), pol, 3, CrossTree(Verified))
  {
    var s, s' := CrossTree(Unverified), CrossTree(Verified);
    var v := VerdictsOf(s.entries, pol, 3);
    CrossTreeRegion();
    PlainVerdict(s.entries, pol, 3, Bridge());
    assert !Compromised(s'.status, Bridge()) && !Blocked(s'.status, Bridge());
    assert SettledOn(s, v, {2}, s');
  }

  lemma CrossTreeStores(s0: Store, s1: Store, s2: Store)
    requires s0 == Store(map[], map[])
    requires s1 == s0.WriteEntry(Root(1), Verified) && s2 == s1.WriteEntry(Root(3), Verified)
    ensures s1.entries.Keys == {1} && s2.Put(Bridge()) == CrossTree(Unverified)
  {
    assert Root(1).Validates() && Root(3).Validates() && Bridge().Validates();
  }

  lemma RootNext(pol: Policy, ops: seq<Op>, k: nat, s0: Store, m: Store, id: Id)
    requires k < |ops| && ops[k] == Write(Root(id), Verified) && Steps(OpSteps(pol, ops), k, s0, m) && id !in m.entries
    ensures Steps(OpSteps(pol, ops), k + 1, s0, m.WriteEntry(Root(id), Verified))
  {
    OpNext(pol, ops, k, s0, m, ops[k], m.WriteEntry(Root(id), Verified));
  }

  lemma OpNext(pol: Policy, ops: seq<Op>, k: nat, s0: Store, m: Store, op: Op, s: Store)
    requires k < |ops| && ops[k] == op && Steps(OpSteps(pol, ops), k, s0, m)
    requires Effect(pol, m, op, s) && Allowed(m, op) && Addressed(m, op)
    ensures Steps(OpSteps(pol, ops), k + 1, s0, s)
  {
    StepsNext(OpSteps(pol, ops), k, s0, m, s);
  }

  /** Two committed roots, a remote entry and a pass lead to a Verified entry with a parent in another tree. */
  lemma CrossTreeReached(pol: Policy, s0: Store)
    requires s0 == Store(map[], map[]) && pol.valid(Bridge(), pol.noAuth)
    ensures Steps(OpSteps(pol, CrossTreeOps()), 4, s0, CrossTree(Verified))
  {
    var ops := CrossTreeOps();
    var s1 := s0.WriteEntry(Root(1), Verified);
    var s2 := s1.WriteEntry(Root(3), Verified);
    CrossTreeStores(s0, s1, s2);
    CrossTreePass(pol);
    RootNext(pol, ops, 0, s0, s0, 1);
    RootNext(pol, ops, 1, s0, s1, 3);
    OpNext(pol, ops, 2, s0, s2, Put(Bridge()), CrossTree(Unverified));
    OpNext(pol, ops, 3, s0, CrossTree(Unverified), Verify(3), CrossTree(Verified));
  }

  /** From there, demoting 1 in its own tree leaves 2 Verified on an Unverified parent. */
  lemma CrossTreeEscapes(pol: Policy)
    requires pol.valid(Bridge(), pol.noAuth)
    ensures Steps(OpSteps(pol, CrossTreeOps()), 4, Store(map[], map[]), CrossTree(Verified))
    ensures !AncestorClosed(Demoted(CrossTree(Verified), 1, 1))
  {
    CrossTreeReached(pol, Store(map[], map[]));
    RunClosed(pol, CrossTreeOps(), 4, Store(map[], map[]), CrossTree(Verified));
    DemotionClosedIff(CrossTree(Verified), 1, 1);
    EscapesThrough(CrossTree(Verified), 1, 1, 2);
  }

  lemma EscapesThrough(s: Store, tree: Id, target: Id, x: Id)
    requires x in s.entries && s.Is(x, Verified) && x != target
    requires !s.entries[x].InTree(tree) && target in s.entries[x].parents
    ensures Escapes(s, tree, target, x)
  {
    ReachSeed(ChildEdges(s.entries, tree), {target}, target);
  }

  // --- ... and a commit on an entry that has to wait ---

  /** Entry 2 is pinned to settings that have not arrived. */
  function Awaiting(pin: RawData): Store {
    Store(map[1 := Node(1, 0, []), 2 := PinnedNode(2, 1, [1], pin)], map[1 := Verified, 2 := Unverified])
  }

  lemma AwaitingShape(pin: RawData)
    ensures Awaiting(pin).Valid() && Acyclic(Awaiting(pin).entries)
  {
    assert Falls(Awaiting(pin).entries, map[1 := 0, 2 := 1]);
  }

  lemma AwaitingVerdicts(pol: Policy, pin: RawData, v: Verdicts)
    requires pol.decodeMetadata(pin) == Some([9]) && v == VerdictsOf(Awaiting(pin).entries, pol, 1)
    ensures v.Keys == {1, 2} && v[1].Ok? && v[2] == Ok(Unverified)
  {
    var es := Awaiting(pin).entries;
    PlainVerdict(es, pol, 1, es[1]);
    WaitingVerdict(es, pol, 1, es[2], pin, 9);
  }

  lemma AwaitingCompletes(pol: Policy, pin: RawData, s: Store, s': Store, v: Verdicts)
    requires pol.decodeMetadata(pin) == Some([9]) && s == Awaiting(pin) && Passed(s, pol, 1, s')
    requires v == VerdictsOf(s.entries, pol, 1)
    ensures Settled(s, v, 1, s') && 2 in v && v[2] == Ok(Unverified)
  {
    AwaitingShape(pin);
    AwaitingVerdicts(pol, pin, v);
    JudgedCompletes(s, pol, 1, s', v);
  }

  /** Every pass completes without settling 2, so opening a transaction on it does not heal it. */
  lemma AwaitingPass(pol: Policy, pin: RawData, s': Store)
    requires pol.decodeMetadata(pin) == Some([9]) && Passed(Awaiting(pin), pol, 1, s')
    ensures Completed(Awaiting(pin), pol, 1, s') && s' == Awaiting(pin)
  {
    var v := VerdictsOf(Awaiting(pin).entries, pol, 1);
    AwaitingCompletes(pol, pin, Awaiting(pin), s', v);
    assert Awaiting(pin).Is(1, Verified);
    AwaitingSettled(pin, v, Region(Awaiting(pin), 1), s');
  }

  lemma AwaitingSettled(pin: RawData, v: Verdicts, done: set<Id>, s': Store)
    requires 2 in v && v[2] == Ok(Unverified) && SettledOn(Awaiting(pin), v, done, s') && 1 !in done
    ensures s' == Awaiting(pin)
  {
    var s := Awaiting(pin);
    assert s'.Is(1, Verified);
    assert 2 in done ==> Deserves(v, s'.status, s.entries[2], Ok(s'.status[2]));
    SameStatuses(s.status, s'.status);
  }

  /** Committing 3 on it leaves a Verified entry on an Unverified parent, and strands 2. */
  lemma CommitOnUnverified(pol: Policy, pin: RawData, s: Store, s': Store)
    requires pol.decodeMetadata(pin) == Some([9]) && Passed(Awaiting(pin), pol, 1, s)
    requires s' == s.WriteEntry(Node(3, 2, [2]), Verified)
    ensures s.Is(2, Unverified) && AncestorClosed(s) && !AncestorClosed(s')
    ensures StrandedEntry(s', 1, PinnedNode(2, 1, [1], pin))
  {
    AwaitingPass(pol, pin, s);
    AwaitingCommit(pin, s, Node(3, 2, [2]), s');
  }

  lemma AwaitingCommit(pin: RawData, s: Store, e: Entry, s': Store)
    requires s == Awaiting(pin) && e == Node(3, 2, [2]) && s' == s.WriteEntry(e, Verified)
    ensures AncestorClosed(s) && !AncestorClosed(s') && StrandedEntry(s', 1, PinnedNode(2, 1, [1], pin))
  {
    assert s.entries[1].parents == [] && ParentsVerified(s, 1);
    WriteClosedIff(s, e, Verified);
    assert e.parents[0] == 2;
    assert ChildOf(s'.entries, 1, 3, 2);
  }
}
