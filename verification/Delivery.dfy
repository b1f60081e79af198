/**
 Remote batches. However the entries of a closed world are ordered, repeated and
 split into batches, and whatever else the node holds and does meanwhile, the run
 ends with all of them Verified.
 */
module Delivery {
  import opened Entries
  import opened Walks
  import opened Dag
  import opened Settings
  import opened Backends
  import opened Verification
  import opened Demotion
  import opened Runs
  import opened Induction
  import opened Worlds

  /** Some entry of the batch is accepted by the backend. */
  ghost predicate Accepted(batch: seq<Entry>) {
    exists e :: e in batch && e.Validates()
  }

  /** What `put_remote_entries` leaves behind: entries stored, then a pass if any put succeeded and the root is held. */
  ghost predicate Ingested(s: Store, pol: Policy, tree: Id, batch: seq<Entry>, s': Store) {
    var s1 := s.PutAll(batch);
    if Accepted(batch) && tree in s1.entries then Passed(s1, pol, tree, s') else s' == s1
  }

  lemma {:induction false} PutAllSplit(s: Store, batch: seq<Entry>, e: Entry)
    ensures s.PutAll(batch + [e]) == s.PutAll(batch).Put(e)
    decreases |batch|
  {
    if batch == [] {
      assert batch + [e] == [e];
      assert s.PutAll([e]) == s.Put(e).PutAll([]);
    } else {
      assert (batch + [e])[0] == batch[0] && (batch + [e])[1..] == batch[1..] + [e];
      PutAllSplit(s.Put(batch[0]), batch[1..], e);
    }
  }

  ghost function Stored(batch: seq<Entry>): set<int> {
    set k | 0 <= k < |batch| && batch[k].Validates()
  }

  /** Put the batch one by one, skipping what the backend refuses; the number of puts that succeeded. */
  method StoreBatch(b: Backend, batch: seq<Entry>) returns (stored: nat)
    requires b.Valid()
    modifies b
    ensures b.Valid() && b.Value() == old(b.Value()).PutAll(batch)
    ensures stored == |Stored(batch)|
  {
    ghost var s := b.Value();
    stored := 0;
    assert batch[..0] == [];
    for i := 0 to |batch|
      invariant b.Valid() && b.Value() == s.PutAll(batch[..i])
      invariant stored == |Stored(batch[..i])|
    {
      TakeNext(batch, i);
      PutAllSplit(s, batch[..i], batch[i]);
      StoredNext(batch, i);
      var put := b.Put(batch[i]);
      if put.Ok? { stored := stored + 1; }
    }
    assert batch[..|batch|] == batch;
  }

  lemma StoredNext(batch: seq<Entry>, i: nat)
    requires i < |batch|
    ensures |Stored(batch[..i + 1])| == |Stored(batch[..i])| + if batch[i].Validates() then 1 else 0
  {
    assert Stored(batch[..i + 1]) == Stored(batch[..i]) + if batch[i].Validates() then {i} else {};
  }

  lemma StoredSome(batch: seq<Entry>)
    ensures |Stored(batch)| > 0 <==> Accepted(batch)
  {
    if Accepted(batch) {
      var e :| e in batch && e.Validates();
      var k :| 0 <= k < |batch| && batch[k] == e;
      assert k in Stored(batch);
    }
    if |Stored(batch)| > 0 {
      var k :| k in Stored(batch);
      assert batch[k] in batch;
    }
  }

  // --- One batch ---

  ghost predicate FromWorld(batch: seq<Entry>, w: Held) {
    forall e :: e in batch ==> e.id in w && w[e.id] == e
  }

  /** Entries outside the world, and their statuses, are the same. */
  ghost predicate SameOutside(s: Store, s': Store, w: Held) {
    forall x :: x !in w ==>
      && (x in s'.entries <==> x in s.entries) && (x in s.entries ==> s'.entries[x] == s.entries[x])
      && (x in s'.status <==> x in s.status) && (x in s.status ==> s'.status[x] == s.status[x])
  }

  lemma {:induction false} PutAllHealthy(s: Store, w: Held, batch: seq<Entry>)
    requires Healthy(s, w) && FromWorld(batch, w)
    ensures Healthy(s.PutAll(batch), w)
    decreases |batch|
  {
    if batch == [] {
    } else {
      PutKeeps(s, batch[0]);
      PutAllHealthy(s.Put(batch[0]), w, batch[1..]);
    }
  }

  lemma PartPut(s: Store, w: Held, tree: Id, e: Entry)
    requires Hosts(s, w, tree) && e.id in w && w[e.id] == e
    ensures Hosts(s.Put(e), w, tree) && Part(s.Put(e), w) == Part(s, w).Put(e) && SameOutside(s, s.Put(e), w)
  {
    if e.id !in s.entries && e.Validates() { PartPutNew(s, w, e, Part(s, w)); }
  }

  lemma PartPutNew(s: Store, w: Held, e: Entry, p: Store)
    requires e.id in w && e.id !in s.entries && p == Part(s, w)
    ensures Part(Store(s.entries[e.id := e], s.status[e.id := Unverified]), w) ==
            Store(p.entries[e.id := e], p.status[e.id := Unverified])
  {
  }

  lemma {:induction false} PartPutAll(s: Store, w: Held, tree: Id, batch: seq<Entry>)
    requires Hosts(s, w, tree) && FromWorld(batch, w)
    ensures Hosts(s.PutAll(batch), w, tree) && Part(s.PutAll(batch), w) == Part(s, w).PutAll(batch)
    ensures SameOutside(s, s.PutAll(batch), w)
    decreases |batch|
  {
    if batch == [] {
    } else {
      PartPut(s, w, tree, batch[0]);
      PartPutAll(s.Put(batch[0]), w, tree, batch[1..]);
    }
  }

  lemma {:induction false} PutAllHolds(s: Store, batch: seq<Entry>, e: Entry)
    requires s.Valid() && e in batch && e.Validates()
    ensures e.id in s.PutAll(batch).entries
    decreases |batch|
  {
    if e == batch[0] {
      PutKeeps(s, e);
      PutAllGrows(s.Put(e), batch[1..]);
    } else {
      PutKeeps(s, batch[0]);
      PutAllHolds(s.Put(batch[0]), batch[1..], e);
    }
  }

  /** Putting what is already held changes nothing. */
  lemma {:induction false} PutAllHeld(s: Store, batch: seq<Entry>)
    requires forall e :: e in batch ==> e.id in s.entries
    ensures s.PutAll(batch) == s
    decreases |batch|
  {
    if batch == [] {
    } else {
      PutAllHeld(s, batch[1..]);
    }
  }

  /** Refused entries are skipped: one accepted entry is enough for it to be stored and the pass to run. */
  lemma RefusedSkipped(s: Store, pol: Policy, tree: Id, batch: seq<Entry>, s': Store, e: Entry)
    requires s.Valid() && Ingested(s, pol, tree, batch, s') && e in batch && e.Validates()
    ensures e.id in s.PutAll(batch).entries
    ensures if tree in s.PutAll(batch).entries then Passed(s.PutAll(batch), pol, tree, s') else s' == s.PutAll(batch)
  {
    PutAllHolds(s, batch, e);
  }

  /** A batch that is refused altogether changes nothing. */
  lemma AllRefused(s: Store, pol: Policy, tree: Id, batch: seq<Entry>, s': Store)
    requires Ingested(s, pol, tree, batch, s') && forall e :: e in batch ==> !e.Validates()
    ensures s' == s
  {
    AllRefusedPuts(s, batch);
  }

  lemma {:induction false} AllRefusedPuts(s: Store, batch: seq<Entry>)
    requires forall e :: e in batch ==> !e.Validates()
    ensures s.PutAll(batch) == s
    decreases |batch|
  {
    if batch == [] {
    } else {
      AllRefusedPuts(s, batch[1..]);
    }
  }

  /** Storing entries of the world keeps a node sound, and changes nothing once the world is complete. */
  lemma StoreSound(tree: Id, w: Held, batch: seq<Entry>, s: Store, s': Store)
    requires WorldShape(w, tree) && Sound(s, w, tree) && FromWorld(batch, w) && s' == s.PutAll(batch)
    ensures Sound(s', w, tree) && Extends(s.entries, s'.entries) && SameOutside(s, s', w)
    ensures forall e :: e in batch ==> e.id in s'.entries
    ensures Extends(w, s.entries) ==> s' == s
  {
    PartPutAll(s, w, tree, batch);
    PutAllHealthy(Part(s, w), w, batch);
    PutAllGrows(s, batch);
    forall e | e in batch ensures e.id in s'.entries { PutAllHolds(s, batch, e); }
    if Extends(w, s.entries) { PutAllHeld(s, batch); }
  }

  /** Once the whole world is held after a batch, everything is Verified. */
  lemma BatchSound(s: Store, w: Held, pol: Policy, tree: Id, batch: seq<Entry>, s': Store)
    requires ClosedWorld(w, pol, tree) && Sound(s, w, tree) && FromWorld(batch, w)
    requires Ingested(s, pol, tree, batch, s')
    ensures Sound(s', w, tree) && Extends(s.entries, s'.entries) && SameOutside(s, s', w)
    ensures forall e :: e in batch ==> e.id in s'.entries
    ensures batch == [] ==> s' == s
    ensures batch != [] && Extends(w, s'.entries) ==> AllVerified(s', tree)
  {
    var s1 := s.PutAll(batch);
    StoreSound(tree, w, batch, s, s1);
    if batch != [] { assert batch[0] in batch && batch[0].Validates(); }
    if batch != [] && tree in s1.entries { PassHealthy(s1, w, pol, tree, s'); }
  }

  // --- Every delivery ---

  ghost function Deliveries(pol: Policy, tree: Id, batches: seq<seq<Entry>>): (nat, Store, Store) -> bool {
    (i: nat, m: Store, m': Store) => i < |batches| && Ingested(m, pol, tree, batches[i], m')
  }

  ghost predicate DeliveredBy(batches: seq<seq<Entry>>, k: nat, e: Entry) {
    exists i :: 0 <= i < k && i < |batches| && e in batches[i]
  }

  /** What holds of the state after the first `k` batches. */
  ghost predicate Progress(tree: Id, w: Held, batches: seq<seq<Entry>>, s0: Store, k: nat, s: Store) {
    && k <= |batches| && Sound(s, w, tree) && Extends(s0.entries, s.entries) && SameOutside(s0, s, w)
    && (forall x :: x in w && DeliveredBy(batches, k, w[x]) ==> x in s.entries)
    && ((exists i :: 0 <= i < k && batches[i] != []) && Extends(w, s.entries) ==> AllVerified(s, tree))
  }

  lemma ProgressStart(tree: Id, w: Held, batches: seq<seq<Entry>>, s0: Store)
    requires Sound(s0, w, tree)
    ensures Progress(tree, w, batches, s0, 0, s0)
  {
  }

  lemma ProgressStep(pol: Policy, tree: Id, w: Held, batches: seq<seq<Entry>>, s0: Store, k: nat, s: Store, s': Store)
    requires ClosedWorld(w, pol, tree) && k < |batches| && Progress(tree, w, batches, s0, k, s)
    requires FromWorld(batches[k], w) && Ingested(s, pol, tree, batches[k], s')
    ensures Progress(tree, w, batches, s0, k + 1, s')
  {
    var batch := batches[k];
    BatchSound(s, w, pol, tree, batch, s');
    forall x | x in w && DeliveredBy(batches, k + 1, w[x]) ensures x in s'.entries {
      if !DeliveredBy(batches, k, w[x]) { assert w[x] in batch; }
    }
  }

  lemma DeliveryProgress(pol: Policy, tree: Id, w: Held, batches: seq<seq<Entry>>, s0: Store, s: Store)
    requires ClosedWorld(w, pol, tree) && Sound(s0, w, tree)
    requires forall i :: 0 <= i < |batches| ==> FromWorld(batches[i], w)
    requires Steps(Deliveries(pol, tree, batches), |batches|, s0, s)
    ensures Progress(tree, w, batches, s0, |batches|, s)
  {
    var inv := (k: nat, m: Store) => Progress(tree, w, batches, s0, k, m);
    ProgressStart(tree, w, batches, s0);
    forall i: nat, m, m' | inv(i, m) && Deliveries(pol, tree, batches)(i, m, m') ensures inv(i + 1, m') {
      ProgressStep(pol, tree, w, batches, s0, i, m, m');
    }
    StepsInduct(Deliveries(pol, tree, batches), inv, |batches|, s0, s);
  }

  /**
   Delivery-order convergence: on a node that holds any part of a closed world and
   anything of other trees, every order, duplication and batching of what is missing,
   children before parents included, ends with the whole world held, everything at or
   below its tips Verified, and the rest of the store as it was.
   */
  lemma DeliveryConverges(pol: Policy, tree: Id, w: Held, batches: seq<seq<Entry>>, s0: Store, s: Store)
    requires ClosedWorld(w, pol, tree) && Sound(s0, w, tree)
    requires forall i :: 0 <= i < |batches| ==> FromWorld(batches[i], w)
    requires forall x :: x in w ==> x in s0.entries || DeliveredBy(batches, |batches|, w[x])
    requires exists i :: 0 <= i < |batches| && batches[i] != []
    requires Steps(Deliveries(pol, tree, batches), |batches|, s0, s)
    ensures Extends(w, s.entries) && SameOutside(s0, s, w)
    ensures AllVerified(s, tree)
    ensures forall x :: Holds(w, tree, x) ==> s.Is(x, Verified)
  {
    DeliveryProgress(pol, tree, w, batches, s0, s);
    assert Extends(w, s.entries);
    TreeVerified(s, w, tree);
  }

  lemma TreeVerified(s: Store, w: Held, tree: Id)
    requires Acyclic(w) && Hosts(s, w, tree) && Extends(w, s.entries) && AllVerified(s, tree)
    ensures forall x :: Holds(w, tree, x) ==> s.Is(x, Verified)
  {
    var p := Part(s, w);
    PartShape(s, w, tree, p);
    PartTips(s, w, tree, p);
    Climb(w, tree);
    AncestorMono(w, s.entries, RawTips(w, tree));
  }

  // --- Every interleaving ---

  /** What runs under one acquisition of the tree lock, storing a batch or a pass, and what other trees do. */
  datatype Locked = Storing(batch: seq<Entry>) | Passing | Other(op: Op)

  ghost function LockedSteps(pol: Policy, tree: Id, steps: seq<Locked>): (nat, Store, Store) -> bool {
    (i: nat, m: Store, m': Store) => i < |steps| && LockedStep(pol, tree, steps[i], m, m')
  }

  ghost predicate LockedStep(pol: Policy, tree: Id, step: Locked, s: Store, s': Store) {
    match step
    case Storing(batch) => s' == s.PutAll(batch)
    case Passing => Passed(s, pol, tree, s')
    case Other(op) => Effect(pol, s, op, s')
  }

  ghost predicate StoredBy(steps: seq<Locked>, k: nat, e: Entry) {
    exists i :: 0 <= i < k && i < |steps| && steps[i].Storing? && e in steps[i].batch
  }

  /** Held from the start, or stored by the first `k` steps. */
  ghost predicate There(steps: seq<Locked>, held: set<Id>, k: nat, e: Entry) {
    e.id in held || StoredBy(steps, k, e)
  }

  // --- Other trees ---

  /** An entry that is neither of the world nor of the tree and has no parent in the world. */
  ghost predicate Stranger(e: Entry, tree: Id, w: Held) {
    e.id !in w && !e.InTree(tree) && Elems(e.parents) !! w.Keys
  }

  ghost predicate OtherTree(t: Id, w: Held) {
    forall x :: x in w ==> !w[x].InTree(t)
  }

  /** The operation is on a tree that has no entry in the world. */
  ghost predicate Apart(op: Op, tree: Id, w: Held) {
    match op
    case Put(e) => Stranger(e, tree, w)
    case Write(e, _) => Stranger(e, tree, w)
    case Verify(t) => OtherTree(t, w)
    case Demote(t, target) => OtherTree(t, w) && target !in w
  }

  /** Nothing outside the world has a parent in it. */
  ghost predicate Detached(es: Held, w: Held) {
    forall x :: x in es && x !in w ==> Elems(es[x].parents) !! w.Keys
  }

  /** So it is if other trees are at work at all. */
  ghost predicate DetachedIfShared(steps: seq<Locked>, es: Held, w: Held) {
    (exists i :: 0 <= i < |steps| && steps[i].Other?) ==> Detached(es, w)
  }

  ghost predicate SameWorld(s: Store, s': Store, w: Held, tree: Id) {
    Hosts(s', w, tree) && Detached(s'.entries, w) && Part(s', w) == Part(s, w)
  }

  /** Changing statuses outside the world leaves the world as it is. */
  lemma StatusesOutside(s: Store, s': Store, w: Held, tree: Id)
    requires Hosts(s, w, tree) && Detached(s.entries, w)
    requires s'.entries == s.entries && s'.status.Keys == s.status.Keys
    requires forall x :: x in s.status && x in w ==> s'.status[x] == s.status[x]
    ensures SameWorld(s, s', w, tree)
  {
  }

  lemma OtherPut(s: Store, w: Held, tree: Id, e: Entry)
    requires Hosts(s, w, tree) && Detached(s.entries, w) && Stranger(e, tree, w)
    ensures SameWorld(s, s.Put(e), w, tree)
  {
    if e.id !in s.entries && e.Validates() { StrangerOutside(s, s.Put(e), w, e); }
  }

  lemma StrangerOutside(s: Store, s': Store, w: Held, e: Entry)
    requires e.id !in w && s' == Store(s.entries[e.id := e], s.status[e.id := Unverified])
    ensures Part(s', w) == Part(s, w)
  {
  }

  lemma OtherWrite(s: Store, w: Held, tree: Id, e: Entry, v: VerificationStatus)
    requires Hosts(s, w, tree) && Detached(s.entries, w) && Stranger(e, tree, w)
    ensures SameWorld(s, s.WriteEntry(e, v), w, tree)
  {
    OtherPut(s, w, tree, e);
    if e.Validates() { StatusesOutside(s.Put(e), s.WriteEntry(e, v), w, tree); }
  }

  lemma OtherPass(s: Store, w: Held, tree: Id, pol: Policy, t: Id, s': Store)
    requires Hosts(s, w, tree) && Detached(s.entries, w) && OtherTree(t, w) && Passed(s, pol, t, s')
    ensures SameWorld(s, s', w, tree)
  {
    var done := PassedPart(s, pol, t, s');
    OtherRegion(s, w, tree, t);
    StatusesOutside(s, s', w, tree);
  }

  lemma OtherRegion(s: Store, w: Held, tree: Id, t: Id)
    requires Hosts(s, w, tree) && Detached(s.entries, w) && OtherTree(t, w)
    ensures Region(s, t) !! w.Keys
  {
    forall x, y | x !in w && Step(UnverifiedEdges(s), x, y) ensures y !in w {
      assert y in Elems(s.entries[x].parents);
    }
    ReachInduct(UnverifiedEdges(s), RawTips(s.entries, t), iset x | x !in w);
  }

  lemma OtherDemotion(s: Store, w: Held, tree: Id, t: Id, target: Id, s': Store)
    requires Hosts(s, w, tree) && Detached(s.entries, w) && OtherTree(t, w) && target !in w
    requires s' == Demoted(s, t, target)
    ensures SameWorld(s, s', w, tree)
  {
    ReachInduct(ChildEdges(s.entries, t), {target}, iset x | x !in w);
    StatusesOutside(s, s', w, tree);
  }

  lemma OtherKeeps(s: Store, w: Held, tree: Id, pol: Policy, op: Op, s': Store)
    requires Hosts(s, w, tree) && Detached(s.entries, w) && Apart(op, tree, w) && Effect(pol, s, op, s')
    ensures SameWorld(s, s', w, tree)
  {
    match op
    case Put(e) => OtherPut(s, w, tree, e);
    case Write(e, v) => OtherWrite(s, w, tree, e, v);
    case Verify(t) => OtherPass(s, w, tree, pol, t, s');
    case Demote(t, target) => OtherDemotion(s, w, tree, t, target, s');
  }

  /** In a pass over another tree, `store_at` finds none of the settings an entry is pinned to. */
  lemma ForeignSettings(es: Held, pol: Policy, t: Id, e: Entry, tips: seq<Id>)
    requires PinOf(pol, e) == Tips(tips) && PinHeld(es, tips) && forall g :: g in tips ==> !Holds(es, t, g)
    ensures PinnedFor(es, pol, t, e) == Ok(Complete(pol.authOf(pol.defaultDoc)))
  {
    ReachInduct(StoreEdges(es, t), Elems(tips), iset x | x in Elems(tips));
    assert StoreSet(es, t, tips) == {};
    PinnedToFold(es, pol, t, e, tips, [], pol.defaultDoc);
  }

  /**
   Why the world must be detached: a pass over another tree that walks into it judges
   an entry by empty settings, and fails it unless these accept it.
   */
  lemma ForeignPassFails(s: Store, pol: Policy, t: Id, s': Store, x: Id, tips: seq<Id>)
    requires s.Valid() && Completed(s, pol, t, s') && x in Region(s, t)
    requires PinOf(pol, s.entries[x]) == Tips(tips) && PinHeld(s.entries, tips)
    requires forall g :: g in tips ==> !Holds(s.entries, t, g)
    requires forall p :: p in s.entries[x].parents ==> s.Is(p, Verified)
    requires !pol.valid(s.entries[x], pol.authOf(pol.defaultDoc))
    ensures s'.Is(x, Failed)
  {
    ForeignSettings(s.entries, pol, t, s.entries[x], tips);
    JudgedFailed(s, VerdictsOf(s.entries, pol, t), Region(s, t), s', x);
  }

  lemma JudgedFailed(s: Store, v: Verdicts, region: set<Id>, s': Store, x: Id)
    requires s.Valid() && SettledOn(s, v, region, s') && x in region && x in v && v[x] == Ok(Failed)
    requires forall y :: y in region ==> s.Is(y, Unverified)
    requires forall p :: p in s.entries[x].parents ==> s.Is(p, Verified)
    ensures s'.Is(x, Failed)
  {
    assert Deserves(v, s'.status, s.entries[x], Ok(s'.status[x]));
  }

  // --- Each step ---

  /** Batches come from the world, and other operations stay apart from it. */
  ghost predicate Proper(steps: seq<Locked>, tree: Id, w: Held) {
    forall i :: 0 <= i < |steps| ==>
      match steps[i]
      case Storing(batch) => FromWorld(batch, w)
      case Passing => true
      case Other(op) => Apart(op, tree, w)
  }

  /** After `k` steps of a run whose step `j` is a pass over the complete world. */
  ghost predicate Converging(tree: Id, w: Held, steps: seq<Locked>, held: set<Id>, j: nat, k: nat, s: Store) {
    && Sound(s, w, tree) && DetachedIfShared(steps, s.entries, w)
    && (forall x :: x in w && There(steps, held, k, w[x]) ==> x in s.entries)
    && (k > j ==> AllVerified(s, tree))
  }

  lemma HeldWorld(w: Held, steps: seq<Locked>, held: set<Id>, j: nat, k: nat, s: Store, tree: Id)
    requires Hosts(s, w, tree) && j <= k
    requires forall x :: x in w ==> There(steps, held, j, w[x])
    requires forall x :: x in w && There(steps, held, k, w[x]) ==> x in s.entries
    ensures Extends(w, s.entries)
  {
    forall x | x in w ensures x in s.entries {
      assert There(steps, held, j, w[x]);
      assert StoredBy(steps, j, w[x]) ==> StoredBy(steps, k, w[x]);
    }
  }

  /** A step that stores nothing new of the world finds there what was there. */
  lemma ThereNext(w: Held, steps: seq<Locked>, held: set<Id>, k: nat, s: Store, s': Store)
    requires k < |steps| && Extends(s.entries, s'.entries)
    requires forall x :: x in w ==> w[x].id == x
    requires steps[k].Storing? ==> forall e :: e in steps[k].batch ==> e.id in s'.entries
    requires forall x :: x in w && There(steps, held, k, w[x]) ==> x in s.entries
    ensures forall x :: x in w && There(steps, held, k + 1, w[x]) ==> x in s'.entries
  {
    forall x | x in w && There(steps, held, k + 1, w[x]) ensures x in s'.entries {
      if !There(steps, held, k, w[x]) { assert w[x] in steps[k].batch; }
    }
  }

  lemma DetachedStore(s: Store, s': Store, w: Held)
    requires Detached(s.entries, w) && SameOutside(s, s', w)
    ensures Detached(s'.entries, w)
  {
  }

  lemma ConvergingStore(tree: Id, w: Held, steps: seq<Locked>, held: set<Id>, j: nat, k: nat, s: Store, s': Store)
    requires WorldShape(w, tree) && forall x :: x in w ==> There(steps, held, j, w[x])
    requires Converging(tree, w, steps, held, j, k, s) && k < |steps| && k != j
    requires steps[k].Storing? && FromWorld(steps[k].batch, w) && s' == s.PutAll(steps[k].batch)
    ensures Converging(tree, w, steps, held, j, k + 1, s')
  {
    StoreSound(tree, w, steps[k].batch, s, s');
    if Detached(s.entries, w) { DetachedStore(s, s', w); }
    ThereNext(w, steps, held, k, s, s');
    if k > j { HeldWorld(w, steps, held, j, k, s, tree); }
  }

  lemma ConvergingPass(pol: Policy, tree: Id, w: Held, steps: seq<Locked>, held: set<Id>, j: nat, k: nat,
                       s: Store, s': Store)
    requires ClosedWorld(w, pol, tree) && forall x :: x in w ==> There(steps, held, j, w[x])
    requires Converging(tree, w, steps, held, j, k, s) && k < |steps|
    requires steps[k].Passing? && Passed(s, pol, tree, s')
    ensures Converging(tree, w, steps, held, j, k + 1, s')
  {
    PassHealthy(s, w, pol, tree, s');
    ThereNext(w, steps, held, k, s, s');
    if k >= j { HeldWorld(w, steps, held, j, k, s, tree); }
  }

  lemma ConvergingOther(pol: Policy, tree: Id, w: Held, steps: seq<Locked>, held: set<Id>, j: nat, k: nat,
                        s: Store, s': Store)
    requires WorldShape(w, tree) && Converging(tree, w, steps, held, j, k, s) && k < |steps| && k != j
    requires steps[k].Other? && Apart(steps[k].op, tree, w) && Effect(pol, s, steps[k].op, s')
    ensures Converging(tree, w, steps, held, j, k + 1, s')
  {
    OtherKeeps(s, w, tree, pol, steps[k].op, s');
    var p := Part(s, w);
    PartShape(s, w, tree, p);
    PartShape(s', w, tree, p);
    PartAllVerified(s, w, tree, p);
    PartAllVerified(s', w, tree, p);
    ThereOther(w, steps, held, k, s, s', tree);
  }

  lemma ThereOther(w: Held, steps: seq<Locked>, held: set<Id>, k: nat, s: Store, s': Store, tree: Id)
    requires k < |steps| && steps[k].Other? && Part(s', w) == Part(s, w)
    requires forall x :: x in w && There(steps, held, k, w[x]) ==> x in s.entries
    ensures forall x :: x in w && There(steps, held, k + 1, w[x]) ==> x in s'.entries
  {
    forall x | x in w && There(steps, held, k + 1, w[x]) ensures x in s'.entries {
      assert There(steps, held, k, w[x]);
      assert x in Part(s, w).entries;
    }
  }

  lemma ConvergingStep(pol: Policy, tree: Id, w: Held, steps: seq<Locked>, held: set<Id>, j: nat, k: nat,
                       m: Store, m': Store)
    requires ClosedWorld(w, pol, tree) && Proper(steps, tree, w)
    requires j < |steps| && steps[j].Passing? && forall x :: x in w ==> There(steps, held, j, w[x])
    requires Converging(tree, w, steps, held, j, k, m) && k < |steps| && LockedStep(pol, tree, steps[k], m, m')
    ensures Converging(tree, w, steps, held, j, k + 1, m')
  {
    match steps[k]
    case Storing(batch) => ConvergingStore(tree, w, steps, held, j, k, m, m');
    case Passing => ConvergingPass(pol, tree, w, steps, held, j, k, m, m');
    case Other(op) => ConvergingOther(pol, tree, w, steps, held, j, k, m, m');
  }

  // --- Every run ---

  lemma ConvergingStart(tree: Id, w: Held, steps: seq<Locked>, j: nat, s: Store)
    requires WorldShape(w, tree) && Sound(s, w, tree) && DetachedIfShared(steps, s.entries, w)
    ensures Converging(tree, w, steps, s.entries.Keys, j, 0, s)
  {
  }

  /** The run is proper, and its step `j` is a pass over the complete world. */
  ghost predicate Completing(pol: Policy, tree: Id, w: Held, steps: seq<Locked>, held: set<Id>, j: nat) {
    && ClosedWorld(w, pol, tree) && Proper(steps, tree, w)
    && j < |steps| && steps[j].Passing? && forall x :: x in w ==> There(steps, held, j, w[x])
  }

  lemma ConvergingRun(pol: Policy, tree: Id, w: Held, steps: seq<Locked>, held: set<Id>, j: nat, s0: Store, s: Store)
    requires Completing(pol, tree, w, steps, held, j) && Converging(tree, w, steps, held, j, 0, s0)
    requires Steps(LockedSteps(pol, tree, steps), |steps|, s0, s)
    ensures Converging(tree, w, steps, held, j, |steps|, s)
  {
    var inv := (k: nat, m: Store) => Converging(tree, w, steps, held, j, k, m);
    forall i: nat, m, m' | inv(i, m) && LockedSteps(pol, tree, steps)(i, m, m') ensures inv(i + 1, m') {
      ConvergingStep(pol, tree, w, steps, held, j, i, m, m');
    }
    StepsInduct(LockedSteps(pol, tree, steps), inv, |steps|, s0, s);
  }

  /** A pass over the complete world verifies everything, and everything stays so. */
  lemma ConvergesAfter(pol: Policy, tree: Id, w: Held, steps: seq<Locked>, j: nat, s0: Store, s: Store)
    requires Completing(pol, tree, w, steps, s0.entries.Keys, j)
    requires Sound(s0, w, tree) && DetachedIfShared(steps, s0.entries, w)
    requires Steps(LockedSteps(pol, tree, steps), |steps|, s0, s)
    ensures Hosts(s, w, tree) && Extends(w, s.entries) && AllVerified(s, tree)
  {
    ConvergingStart(tree, w, steps, j, s0);
    ConvergingRun(pol, tree, w, steps, s0.entries.Keys, j, s0, s);
    HeldWorld(w, steps, s0.entries.Keys, j, |steps|, s, tree);
  }

  ghost predicate Fills(steps: seq<Locked>, i: nat) {
    i < |steps| && steps[i].Storing? && steps[i].batch != []
  }

  /** A call that stored something and finds the root held when it opens the database runs its pass. */
  ghost predicate PassesFollow(steps: seq<Locked>, held: set<Id>, root: Entry) {
    forall i: nat :: Fills(steps, i) && There(steps, held, i + 1, root) ==>
      exists j :: i < j < |steps| && steps[j].Passing?
  }

  lemma {:induction false} LastFill(steps: seq<Locked>, n: nat, i: nat) returns (last: nat)
    requires i < n <= |steps| && Fills(steps, i)
    ensures last < n && Fills(steps, last) && forall k :: last < k < n ==> !Fills(steps, k)
  {
    if Fills(steps, n - 1) {
      last := n - 1;
    } else {
      last := LastFill(steps, n - 1, i);
    }
  }

  lemma ThereUpTo(steps: seq<Locked>, held: set<Id>, last: nat, n: nat, e: Entry)
    requires There(steps, held, |steps|, e) && last < n
    requires forall k :: last < k < |steps| ==> !Fills(steps, k)
    ensures There(steps, held, n, e)
  {
    if e.id !in held {
      var i :| 0 <= i < |steps| && steps[i].Storing? && e in steps[i].batch;
      assert Fills(steps, i);
    }
  }

  /** The call that stores last finds everything there, so its pass sees the complete world. */
  lemma CompletePass(steps: seq<Locked>, held: set<Id>, w: Held, tree: Id, i: nat) returns (j: nat)
    requires tree in w && PassesFollow(steps, held, w[tree]) && Fills(steps, i)
    requires forall x :: x in w ==> There(steps, held, |steps|, w[x])
    ensures j < |steps| && steps[j].Passing? && forall x :: x in w ==> There(steps, held, j, w[x])
  {
    var last := LastFill(steps, |steps|, i);
    ThereUpTo(steps, held, last, last + 1, w[tree]);
    j :| last < j < |steps| && steps[j].Passing?;
    forall x | x in w ensures There(steps, held, j, w[x]) { ThereUpTo(steps, held, last, j, w[x]); }
  }

  /**
   The same for concurrent deliveries: however the locked halves of any number of
   `put_remote_entries` calls, other passes, and the writers, passes and demotions of
   other trees interleave, a run of finished calls that brings what is missing ends
   with the whole world held and Verified.
   */
  lemma InterleavedConverges(pol: Policy, tree: Id, w: Held, steps: seq<Locked>, i: nat, s0: Store, s: Store)
    requires ClosedWorld(w, pol, tree) && Sound(s0, w, tree) && Proper(steps, tree, w)
    requires DetachedIfShared(steps, s0.entries, w)
    requires Fills(steps, i) && PassesFollow(steps, s0.entries.Keys, w[tree])
    requires forall x :: x in w ==> There(steps, s0.entries.Keys, |steps|, w[x])
    requires Steps(LockedSteps(pol, tree, steps), |steps|, s0, s)
    ensures Extends(w, s.entries)
    ensures AllVerified(s, tree)
    ensures forall x :: Holds(w, tree, x) ==> s.Is(x, Verified)
  {
    var j := CompletePass(steps, s0.entries.Keys, w, tree, i);
    ConvergesAfter(pol, tree, w, steps, j, s0, s);
    TreeVerified(s, w, tree);
  }
}
