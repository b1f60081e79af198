/**
 A local instance: commits, verification passes, remote batches and reads, each
 with the events it announces, shown to be steps of the callback protocol.
 */
module Instances {
  import opened Entries
  import opened Snapshots
  import opened Dag
  import opened Settings
  import opened Backends
  import opened Verification
  import opened Passes
  import opened Frontier
  import opened Views
  import opened Runs
  import opened Delivery
  import opened Cursors

  /** The protocol state agrees with the instance on one tree, and nobody holds the tree's lock. */
  ghost predicate Mirrors(a: System, s: Store, cs: seq<Callback>) {
    a.lock.None? && a.store == s && a.callbacks == cs
  }

  /** The pass has written `s'` under the lock and announces it if it completed and promoted something. */
  ghost function Verifying(pol: Policy, tree: Id, a: System, s': Store): System {
    a.(store := s',
       lock := if Completed(a.store, pol, tree, s') && Promoted(a.store, s')
               then Some(Pending(RawSnapshot(a.store.entries, tree), Remote, a.store.entries)) else None)
  }

  class Instance {
    const backend: Backend
    const registry: Registry

    constructor (backend: Backend, registry: Registry)
      ensures this.backend == backend && this.registry == registry
    {
      this.backend, this.registry := backend, registry;
    }

    ghost predicate Valid()
      reads backend, registry
    {
      backend.Valid() && registry.Valid()
    }

    /** Store one entry with the given status; a Verified write fires every callback of the tree. */
    method PutEntry(tree: Id, w: VerificationStatus, e: Entry, source: WriteSource)
      returns (r: Result<(), Error>, events: seq<(nat, WriteEvent)>)
      requires Valid()
      modifies backend, registry`callbacks
      ensures Valid() && backend.Value() == old(backend.Value()).WriteEntry(e, w)
      ensures r.Ok? <==> e.Validates()
      ensures events == if r.Ok? && w == Verified && tree in backend.entries
                        then Events(old(registry.Of(tree)), RawSnapshot(backend.entries, tree), source) else []
      ensures if r.Ok? then Written(old(backend.Value()), e, w, backend.Value())
              else backend.Value() == old(backend.Value())
      ensures forall a :: Mirrors(a, old(backend.Value()), old(registry.Of(tree))) ==>
                CommitThenFire(tree, a, e, w, source, backend.Value(), registry.Of(tree), events)
    {
      ghost var s, cs := backend.Value(), registry.Of(tree);
      events := [];
      r := backend.Put(e);
      if r.Err? { return; }
      if w != Unverified {
        var _ := backend.UpdateVerificationStatus(e.id, w);
      }
      if w == Verified {
        var post := TakeSnapshot(backend.entries, tree);
        events := registry.Spawn(tree, post, source, tree in backend.entries);
      }
      WriteExact(s, e, w);
      forall a | Mirrors(a, s, cs)
        ensures CommitThenFire(tree, a, e, w, source, backend.Value(), registry.Of(tree), events)
      {
        CommitFires(tree, a, e, w, source, events);
      }
    }

    /** A verification pass; if it promoted anything, one event per callback with the raw tips. */
    method VerifyAndFire(pol: Policy, tree: Id) returns (r: Result<VerifyReport, Error>, events: seq<(nat, WriteEvent)>)
      requires Valid() && Acyclic(backend.entries)
      modifies backend`status, registry`callbacks
      ensures Valid() && Passed(old(backend.Value()), pol, tree, backend.Value())
      ensures r.Ok? <==> Completes(old(backend.Value()), pol, tree)
      ensures r.Err? ==> r.error == MalformedSettings
      ensures events == if tree in backend.entries && Promotes(old(backend.Value()), pol, tree)
                        then Events(old(registry.Of(tree)), RawSnapshot(backend.entries, tree), Remote) else []
      ensures forall a :: Mirrors(a, old(backend.Value()), old(registry.Of(tree))) ==>
                PassThenFire(pol, tree, a, backend.Value(), registry.Of(tree), events)
    {
      ghost var s, cs := backend.Value(), registry.Of(tree);
      var rawTips := TakeSnapshot(backend.entries, tree);
      var promoted;
      r, promoted := VerifyPromoting(backend, pol, tree);
      events := [];
      if promoted {
        events := registry.Spawn(tree, rawTips, Remote, tree in backend.entries);
      }
      forall a | Mirrors(a, s, cs) ensures PassThenFire(pol, tree, a, backend.Value(), registry.Of(tree), events) {
        PassIsStep(pol, tree, a, backend.Value(), promoted, registry.Of(tree), events);
      }
    }

    /** `Database::open` followed by `verify`; opening fails while the root is absent. */
    method OpenAndVerify(pol: Policy, tree: Id) returns (r: Result<VerifyReport, Error>, events: seq<(nat, WriteEvent)>)
      requires Valid() && Acyclic(backend.entries)
      modifies backend`status, registry`callbacks
      ensures Valid() && PassedIfHeld(old(backend.Value()), pol, tree, backend.Value())
      ensures r.Ok? <==> tree in backend.entries && Completes(old(backend.Value()), pol, tree)
      ensures r.Err? ==> r.error == if tree in backend.entries then MalformedSettings else EntryNotFound(tree)
      ensures events == if tree in backend.entries && Promotes(old(backend.Value()), pol, tree)
                        then Events(old(registry.Of(tree)), RawSnapshot(backend.entries, tree), Remote) else []
      ensures forall a :: Mirrors(a, old(backend.Value()), old(registry.Of(tree))) ==>
                PassIfHeld(pol, tree, a, backend.Value(), registry.Of(tree), events)
    {
      if tree !in backend.entries { return Err(EntryNotFound(tree)), []; }
      r, events := VerifyAndFire(pol, tree);
    }

    /** `put_remote_entries`: store under the lock, then verify under a lock of its own if anything was stored. */
    method PutRemoteEntries(pol: Policy, tree: Id, batch: seq<Entry>)
      returns (r: Result<nat, Error>, events: seq<(nat, WriteEvent)>)
      requires Valid() && Acyclic(backend.Value().PutAll(batch).entries)
      modifies backend, registry`callbacks
      ensures Valid() && Ingested(old(backend.Value()), pol, tree, batch, backend.Value())
      ensures r.Ok? <==> Answers(old(backend.Value()).PutAll(batch), pol, tree, batch)
      ensures r.Ok? ==> r.value == |Stored(batch)|
      ensures r.Err? ==> r.error == if tree in backend.entries then MalformedSettings else EntryNotFound(tree)
      ensures events == if Announces(old(backend.Value()).PutAll(batch), pol, tree, batch)
                        then Events(old(registry.Of(tree)), RawSnapshot(backend.entries, tree), Remote) else []
      ensures forall a :: Mirrors(a, old(backend.Value()), old(registry.Of(tree))) ==>
                StoreThenPass(pol, tree, a, batch, backend.Value(), registry.Of(tree), events)
    {
      ghost var s, cs := backend.Value(), registry.Of(tree);
      var stored := Delivery.StoreBatch(backend, batch);
      ghost var s1 := backend.Value();
      StoredSome(batch);
      if stored == 0 {
        r, events := Ok(0), [];
      } else {
        var report;
        report, events := OpenAndVerify(pol, tree);
        r := if report.Ok? then Ok(stored) else Err(report.error);
      }
      forall a | Mirrors(a, s, cs)
        ensures StoreThenPass(pol, tree, a, batch, backend.Value(), registry.Of(tree), events)
      {
        assert Mirrors(a.(store := s1), s1, cs);
      }
    }

    /** Access-time verification: a pass if some raw tip is Unverified, whatever comes of it. */
    method Resolve(pol: Policy, tree: Id, tips: Snapshot) returns (events: seq<(nat, WriteEvent)>)
      requires Valid() && Acyclic(backend.entries) && tips == RawSnapshot(backend.entries, tree)
      modifies backend`status, registry`callbacks
      ensures Valid()
      ensures if exists t :: t in RawTips(backend.entries, tree) && old(backend.Value()).Is(t, Unverified)
              then Passed(old(backend.Value()), pol, tree, backend.Value())
              else backend.Value() == old(backend.Value()) && registry.callbacks == old(registry.callbacks)
      ensures events == if (exists t :: t in RawTips(backend.entries, tree) && old(backend.Value()).Is(t, Unverified))
                           && tree in backend.entries && Promotes(old(backend.Value()), pol, tree)
                        then Events(old(registry.Of(tree)), RawSnapshot(backend.entries, tree), Remote) else []
      ensures (exists t :: t in RawTips(backend.entries, tree) && old(backend.Value()).Is(t, Unverified)) ==>
                forall a :: Mirrors(a, old(backend.Value()), old(registry.Of(tree))) ==>
                  PassThenFire(pol, tree, a, backend.Value(), registry.Of(tree), events)
    {
      events := [];
      assert tips.Ids() == RawTips(backend.entries, tree);
      if exists t :: t in tips.tips && backend.Value().Is(t, Unverified) {
        var report;
        report, events := VerifyAndFire(pol, tree);
      }
    }

    /** `Database::snapshot`: resolve Unverified tips if there are any (best effort), then cut to the requested view. */
    method ReadSnapshot(pol: Policy, tree: Id, allowUnverified: bool)
      returns (r: Snapshot, events: seq<(nat, WriteEvent)>, ghost prefix: set<Id>)
      requires Valid() && Acyclic(backend.entries)
      modifies backend`status, registry`callbacks
      ensures Valid() && LargestSortedPrefix(backend.Value(), tree, prefix)
      ensures r == Of(if allowUnverified then VisibleTips(backend.Value(), tree) else TipsOf(backend.Value(), prefix))
      ensures forall t :: t in r.Ids() ==> Holds(backend.entries, tree, t)
      ensures if exists t :: t in RawTips(backend.entries, tree) && old(backend.Value()).Is(t, Unverified)
              then Passed(old(backend.Value()), pol, tree, backend.Value())
              else backend.Value() == old(backend.Value()) && registry.callbacks == old(registry.callbacks)
      ensures events == if (exists t :: t in RawTips(backend.entries, tree) && old(backend.Value()).Is(t, Unverified))
                           && tree in backend.entries && Promotes(old(backend.Value()), pol, tree)
                        then Events(old(registry.Of(tree)), RawSnapshot(backend.entries, tree), Remote) else []
      ensures (exists t :: t in RawTips(backend.entries, tree) && old(backend.Value()).Is(t, Unverified)) ==>
                forall a :: Mirrors(a, old(backend.Value()), old(registry.Of(tree))) ==>
                  PassThenFire(pol, tree, a, backend.Value(), registry.Of(tree), events)
    {
      var tips := TakeSnapshot(backend.entries, tree);
      assert tips.Ids() == RawTips(backend.entries, tree);
      events := Resolve(pol, tree, tips);
      r, prefix := View(backend.Value(), tree, allowUnverified, tips.tips);
    }
  }

  /** A step to `m`, with its announcement if it has one, leaves this store and these cursors and returns the events. */
  ghost predicate StepThenFire(tree: Id, a: System, m: System, s': Store, cs': seq<Callback>,
                               events: seq<(nat, WriteEvent)>) {
    && Mirrors(if m.lock.Some? then Announcing(tree, m) else m, s', cs')
    && (Inv(tree, a) ==> Fires(tree, m, events))
  }

  ghost predicate CommitThenFire(tree: Id, a: System, e: Entry, w: VerificationStatus, source: WriteSource,
                                 s': Store, cs': seq<Callback>, events: seq<(nat, WriteEvent)>) {
    StepThenFire(tree, a, Committing(tree, a, e, w, source), s', cs', events)
  }

  ghost predicate PassThenFire(pol: Policy, tree: Id, a: System, s': Store, cs': seq<Callback>,
                               events: seq<(nat, WriteEvent)>) {
    var m := Verifying(pol, tree, a, s');
    Next(pol, tree, a, VerifyPass, m) && StepThenFire(tree, a, m, s', cs', events)
  }

  lemma CommitFires(tree: Id, a: System, e: Entry, w: VerificationStatus, source: WriteSource,
                    events: seq<(nat, WriteEvent)>)
    requires a.lock.None?
    requires var m := Committing(tree, a, e, w, source);
             events == if m.lock.Some? && tree in m.store.entries
                       then Events(m.callbacks, m.lock.value.post, m.lock.value.source) else []
    ensures Inv(tree, a) ==> Fires(tree, Committing(tree, a, e, w, source), events)
  {
    var m := Committing(tree, a, e, w, source);
    if Inv(tree, a) && m.lock.Some? && tree in m.store.entries { EventsAnnounced(tree, a, m); }
  }

  lemma PassIsStep(pol: Policy, tree: Id, a: System, s': Store, promoted: bool, cs': seq<Callback>,
                   events: seq<(nat, WriteEvent)>)
    requires a.lock.None? && Passed(a.store, pol, tree, s') && s'.entries == a.store.entries
    requires promoted <==> Completed(a.store, pol, tree, s') && Promoted(a.store, s')
    requires cs' == if promoted && tree in s'.entries
                    then Advanced(a.callbacks, RawSnapshot(s'.entries, tree)) else a.callbacks
    requires events == if promoted && tree in s'.entries
                       then Events(a.callbacks, RawSnapshot(s'.entries, tree), Remote) else []
    ensures PassThenFire(pol, tree, a, s', cs', events)
  {
    var m := Verifying(pol, tree, a, s');
    assert m.lock.Some? <==> promoted;
    assert Next(pol, tree, a, VerifyPass, m);
    AnnouncedMirrors(tree, m, s', cs', promoted);
    if Inv(tree, a) && promoted && tree in s'.entries { EventsAnnounced(tree, a, m); }
  }

  lemma AnnouncedMirrors(tree: Id, m: System, s': Store, cs': seq<Callback>, promoted: bool)
    requires m.store == s' && (m.lock.Some? <==> promoted)
    requires promoted ==> m.lock.value.post == RawSnapshot(s'.entries, tree)
    requires cs' == if promoted && tree in s'.entries
                    then Advanced(m.callbacks, RawSnapshot(s'.entries, tree)) else m.callbacks
    ensures Mirrors(if m.lock.Some? then Announcing(tree, m) else m, s', cs')
  {
  }

  /** The pass and its promotion flag, which is set only when the pass completes. */
  method VerifyPromoting(b: Backend, pol: Policy, tree: Id) returns (r: Result<VerifyReport, Error>, promoted: bool)
    requires b.Valid() && Acyclic(b.entries)
    modifies b`status
    ensures b.Valid() && Passed(old(b.Value()), pol, tree, b.Value())
    ensures r.Ok? <==> Completed(old(b.Value()), pol, tree, b.Value())
    ensures r.Ok? <==> Completes(old(b.Value()), pol, tree)
    ensures r.Err? ==> r.error == MalformedSettings
    ensures promoted <==> r.Ok? && Promoted(old(b.Value()), b.Value())
    ensures promoted <==> Promotes(old(b.Value()), pol, tree)
  {
    ghost var s := b.Value();
    r := Verification.Verify(b, pol, tree);
    promoted := r.Ok? && r.value.verified > 0;
    if r.Ok? {
      PromotedIff(s, VerdictsOf(s.entries, pol, tree), tree, b.Value(), r.value);
    } else {
      AbortedNotSettled(s, VerdictsOf(s.entries, pol, tree), tree, b.Value(), r.error);
      AbortError(s, pol, tree, b.Value(), r.error, VerdictsOf(s.entries, pol, tree));
    }
    PassOutcome(s, pol, tree, b.Value());
  }

  /** A pass promoted something exactly when it reports so. */
  lemma PromotedIff(s: Store, v: Verdicts, tree: Id, s': Store, r: VerifyReport)
    requires s.Valid() && Settled(s, v, tree, s') && Counts(r, s'.status, Region(s, tree))
    ensures Promoted(s, s') <==> r.verified > 0
  {
    var promoted := WithStatus(s'.status, Region(s, tree), Verified);
    if Promoted(s, s') {
      var x :| s.Is(x, Unverified) && s'.Is(x, Verified);
      assert x in promoted;
    }
    if r.verified > 0 {
      var x :| x in promoted;
      assert s.Is(x, Unverified) && s'.Is(x, Verified);
    }
  }

  // --- Remote batches ---

  ghost predicate PassedIfHeld(s: Store, pol: Policy, tree: Id, s': Store) {
    if tree in s.entries then Passed(s, pol, tree, s') else s' == s
  }

  ghost predicate PassIfHeld(pol: Policy, tree: Id, a: System, s': Store, cs': seq<Callback>,
                             events: seq<(nat, WriteEvent)>) {
    if tree in a.store.entries then PassThenFire(pol, tree, a, s', cs', events) else Mirrors(a, s', cs') && events == []
  }

  /** A storing step of the protocol and, if the pass runs, a pass step and its announcement. */
  ghost predicate StoreThenPass(pol: Policy, tree: Id, a: System, batch: seq<Entry>, s': Store, cs': seq<Callback>,
                                events: seq<(nat, WriteEvent)>) {
    var m := a.(store := a.store.PutAll(batch));
    && Next(pol, tree, a, Action.StoreBatch(batch), m)
    && if Accepted(batch) then PassIfHeld(pol, tree, m, s', cs', events) else Mirrors(m, s', cs') && events == []
  }

  /** The call will succeed: nothing is accepted, or with the batch in `s1` the root is held and a pass completes. */
  ghost predicate Answers(s1: Store, pol: Policy, tree: Id, batch: seq<Entry>) {
    Accepted(batch) ==> tree in s1.entries && Completes(s1, pol, tree)
  }

  /** The call will announce: the pass runs, completes and promotes something. */
  ghost predicate Announces(s1: Store, pol: Policy, tree: Id, batch: seq<Entry>) {
    Accepted(batch) && tree in s1.entries && Promotes(s1, pol, tree)
  }

  /**
   What the call leaves behind shows a completed pass and a promotion exactly then; a
   batch of which nothing is accepted always succeeds, and announces nothing.
   */
  lemma AnnouncesIff(s1: Store, pol: Policy, tree: Id, batch: seq<Entry>, s': Store)
    requires s1.Valid() && Acyclic(s1.entries) && (Accepted(batch) ==> PassedIfHeld(s1, pol, tree, s'))
    ensures Accepted(batch) ==>
              (Answers(s1, pol, tree, batch) <==> tree in s1.entries && Completed(s1, pol, tree, s'))
    ensures Accepted(batch) ==>
              (Announces(s1, pol, tree, batch) <==> Answers(s1, pol, tree, batch) && Promoted(s1, s'))
    ensures !Accepted(batch) ==> Answers(s1, pol, tree, batch) && !Announces(s1, pol, tree, batch)
  {
    if Accepted(batch) && tree in s1.entries { PassOutcome(s1, pol, tree, s'); }
  }

  /** A child without its root is stored, but the call fails and announces nothing. */
  lemma OrphanBatch(pol: Policy, s: Store, batch: seq<Entry>, s': Store)
    requires s == Store(map[], map[]) && batch == [Node(2, 1, [1])] && Ingested(s, pol, 1, batch, s')
    ensures s'.Is(2, Unverified)
    ensures !Answers(s.PutAll(batch), pol, 1, batch) && !Announces(s.PutAll(batch), pol, 1, batch)
  {
    PutAllOne(s, batch[0]);
    assert batch[0] in batch && batch[0].Validates();
  }

  /** A batch pinned to settings that have not arrived is stored and the call succeeds, but announces nothing. */
  lemma WaitingBatch(pol: Policy, pin: RawData, s: Store, batch: seq<Entry>, s': Store)
    requires pol.decodeMetadata(pin) == Some([9]) && s == Store(map[1 := Node(1, 0, [])], map[1 := Verified])
    requires batch == [PinnedNode(2, 1, [1], pin)] && Ingested(s, pol, 1, batch, s')
    ensures s'.Is(2, Unverified)
    ensures Answers(s.PutAll(batch), pol, 1, batch) && !Announces(s.PutAll(batch), pol, 1, batch)
  {
    PutAllOne(s, batch[0]);
    assert batch[0] in batch && batch[0].Validates();
    assert s.Put(batch[0]) == Awaiting(pin);
    AwaitingPass(pol, pin, s');
    AwaitingShape(pin);
    AnnouncesIff(Awaiting(pin), pol, 1, batch, s');
  }

  lemma PutAllOne(s: Store, e: Entry)
    ensures s.PutAll([e]) == s.Put(e)
  {
    assert s.Put(e).PutAll([]) == s.Put(e);
    assert [e][1..] == [];
  }
}
