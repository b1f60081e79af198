/**
 Write callbacks. Each callback owns a cursor that advances to the post-write
 snapshot at every event, under the tree's lock. Over every interleaving of
 writers and registrations its events form a chain that misses nothing.
 */
module Cursors {
  import opened Entries
  import opened Walks
  import opened Snapshots
  import opened Dag
  import opened Settings
  import opened Verification
  import opened Passes
  import opened Runs
  import opened IdsAdded
  import opened Induction

  datatype WriteSource = Local | Remote

  datatype WriteEvent = WriteEvent(previous: Snapshot, post: Snapshot, source: WriteSource)

  datatype Callback = Callback(id: nat, lastTips: Snapshot)

  // --- The registry ---

  function Without(cs: seq<Callback>, id: nat): seq<Callback> {
    if cs == [] then []
    else (if cs[0].id == id then [] else [cs[0]]) + Without(cs[1..], id)
  }

  method Retain(cs: seq<Callback>, id: nat) returns (kept: seq<Callback>)
    ensures kept == Without(cs, id)
  {
    kept := [];
    assert cs[0..] == cs;
    for i := 0 to |cs|
      invariant Without(cs, id) == kept + Without(cs[i..], id)
    {
      assert cs[i..][1..] == cs[i + 1..];
      if cs[i].id != id { kept := kept + [cs[i]]; }
    }
  }

  function Advanced(cs: seq<Callback>, post: Snapshot): seq<Callback> {
    seq(|cs|, i requires 0 <= i < |cs| => cs[i].(lastTips := post))
  }

  function Events(cs: seq<Callback>, post: Snapshot, source: WriteSource): seq<(nat, WriteEvent)> {
    seq(|cs|, i requires 0 <= i < |cs| => (cs[i].id, WriteEvent(cs[i].lastTips, post, source)))
  }

  ghost predicate UniqueIds(cs: seq<Callback>) {
    forall i, j | 0 <= i < j < |cs| :: cs[i].id != cs[j].id
  }

  ghost predicate IdsBelow(cs: seq<Callback>, bound: nat) {
    forall c :: c in cs ==> c.id < bound
  }

  /** Only the cursors of `tree` may differ. */
  ghost predicate SameElsewhere(tree: Id, m: map<Id, seq<Callback>>, m': map<Id, seq<Callback>>) {
    forall t :: t != tree ==> (t in m' <==> t in m) && (t in m' ==> m'[t] == m[t])
  }

  /** Callbacks of each tree in registration order, and the next ID to hand out. */
  class Registry {
    var callbacks: map<Id, seq<Callback>>
    var nextId: nat

    constructor ()
      ensures Valid() && callbacks == map[] && nextId == 0
    {
      callbacks, nextId := map[], 0;
    }

    /** IDs handed out so far lie below the next one and differ within a tree. */
    ghost predicate Valid()
      reads this
    {
      forall t :: t in callbacks ==> IdsBelow(callbacks[t], nextId) && UniqueIds(callbacks[t])
    }

    function Of(tree: Id): seq<Callback>
      reads this
    {
      if tree in callbacks then callbacks[tree] else []
    }

    /** The ID is new among the callbacks of every tree. */
    method Register(tree: Id, initial: Snapshot) returns (id: nat)
      requires Valid()
      modifies this
      ensures Valid()
      ensures forall t, c :: c in old(Of(t)) ==> c.id != id
      ensures id == old(nextId) && nextId == old(nextId) + 1
      ensures callbacks == old(callbacks)[tree := old(Of(tree)) + [Callback(id, initial)]]
    {
      id := nextId;
      assert IdsBelow(Of(tree), id);
      nextId := nextId + 1;
      callbacks := callbacks[tree := Of(tree) + [Callback(id, initial)]];
    }

    /** True iff this removed the last callback of the tree, whose slot is then dropped. */
    method Remove(tree: Id, id: nat) returns (last: bool)
      requires Valid()
      modifies this`callbacks
      ensures Valid()
      ensures Of(tree) == Without(old(Of(tree)), id)
      ensures SameElsewhere(tree, old(callbacks), callbacks)
      ensures last <==> tree in old(callbacks) && old(Of(tree)) != [] && Of(tree) == []
    {
      last := false;
      if tree in callbacks {
        var kept := Retain(callbacks[tree], id);
        WithoutKeeps(callbacks[tree], id);
        last := kept == [] && |kept| < |callbacks[tree]|;
        callbacks := if kept == [] then callbacks - {tree} else callbacks[tree := kept];
      }
    }

    /** Read and advance every cursor of the tree; the events, in registration order. */
    method Spawn(tree: Id, post: Snapshot, source: WriteSource, rootHeld: bool) returns (events: seq<(nat, WriteEvent)>)
      requires Valid()
      modifies this`callbacks
      ensures Valid()
      ensures events == if rootHeld then Events(old(Of(tree)), post, source) else []
      ensures Of(tree) == if rootHeld then Advanced(old(Of(tree)), post) else old(Of(tree))
      ensures SameElsewhere(tree, old(callbacks), callbacks)
      ensures forall a :: Inv(tree, a) && Announceable(tree, a, old(Of(tree)), post, source, rootHeld) ==>
                Fires(tree, a, events)
    {
      ghost var before := Of(tree);
      SpawnFires(tree, before, post, source, rootHeld);
      events := [];
      if tree !in callbacks || !rootHeld { return; }
      var cs := callbacks[tree];
      for i := 0 to |cs|
        invariant tree in callbacks && |callbacks[tree]| == |cs|
        invariant SameElsewhere(tree, old(callbacks), callbacks)
        invariant callbacks[tree][..i] == Advanced(cs[..i], post) && callbacks[tree][i..] == cs[i..]
        invariant events == Events(cs[..i], post, source)
      {
        var current := callbacks[tree];
        assert current[i] == current[i..][0] == cs[i..][0] == cs[i];
        events := events + [(current[i].id, WriteEvent(current[i].lastTips, post, source))];
        var next := current[i := current[i].(lastTips := post)];
        TakeNext(cs, i);
        assert next[..i + 1] == current[..i] + [cs[i].(lastTips := post)];
        assert next[i + 1..] == current[i..][1..];
        callbacks := callbacks[tree := next];
      }
      assert cs[..|cs|] == cs && callbacks[tree][..|cs|] == callbacks[tree];
      AdvancedKeepsIds(cs, post, nextId);
    }
  }

  lemma AdvancedKeepsIds(cs: seq<Callback>, post: Snapshot, bound: nat)
    requires IdsBelow(cs, bound) && UniqueIds(cs)
    ensures IdsBelow(Advanced(cs, post), bound) && UniqueIds(Advanced(cs, post))
  {
    forall c | c in Advanced(cs, post) ensures c.id < bound {
      var i :| 0 <= i < |cs| && c == Advanced(cs, post)[i];
      assert cs[i] in cs;
    }
  }

  // --- One tree, many writers ---

  /** What the writer holding the tree lock is about to announce, and the entries it snapshotted. */
  datatype Pending = Pending(post: Snapshot, source: WriteSource, held: Held)

  datatype Delivered = Delivered(event: WriteEvent, held: Held)

  datatype Registration = Registration(initial: Snapshot, held: Held)

  datatype System = System(
    store: Store,
    callbacks: seq<Callback>,
    nextId: nat,
    lock: Option<Pending>,
    registered: map<nat, Registration>,
    log: map<nat, seq<Delivered>>)

  datatype Action =
    | Commit(entry: Entry, verification: VerificationStatus, source: WriteSource)
    | StoreBatch(batch: seq<Entry>)
    | VerifyPass
    | Fire
    | Register(initial: Snapshot)
    | Remove(id: nat)
    | Elsewhere

  function EventFor(cs: seq<Callback>, id: nat): Option<Callback> {
    if cs == [] then None else if cs[0].id == id then Some(cs[0]) else EventFor(cs[1..], id)
  }

  function Logged(cs: seq<Callback>, log: map<nat, seq<Delivered>>, p: Pending): map<nat, seq<Delivered>> {
    map id | id in log ::
      match EventFor(cs, id)
      case None => log[id]
      case Some(c) => log[id] + [Delivered(WriteEvent(c.lastTips, p.post, p.source), p.held)]
  }

  /** A writer takes the lock, writes, and prepares to announce a Verified write. */
  ghost function Committing(tree: Id, a: System, e: Entry, w: VerificationStatus, source: WriteSource): System {
    var s' := a.store.WriteEntry(e, w);
    a.(store := s',
       lock := if e.Validates() && w == Verified
               then Some(Pending(RawSnapshot(s'.entries, tree), source, s'.entries)) else None)
  }

  ghost function Announced(a: System, p: Pending): System {
    a.(lock := None, callbacks := Advanced(a.callbacks, p.post), log := Logged(a.callbacks, a.log, p))
  }

  /** Advance every cursor, deliver the events and let go of the lock; without the root nothing is delivered. */
  ghost function Announcing(tree: Id, a: System): System
    requires a.lock.Some?
  {
    if tree in a.store.entries
    then Announced(a, a.lock.value)
    else a.(lock := None)
  }

  /** The events are, callback by callback in registration order, what the announcement appends to the log. */
  ghost predicate AnnouncedAs(tree: Id, a: System, events: seq<(nat, WriteEvent)>)
    requires a.lock.Some?
  {
    var b := Announcing(tree, a);
    && |events| == |a.callbacks|
    && forall i | 0 <= i < |events| ::
         && events[i].0 == a.callbacks[i].id && events[i].0 in a.log && events[i].0 in b.log
         && events[i].1.post == a.lock.value.post && events[i].1.source == a.lock.value.source
         && b.log[events[i].0] == a.log[events[i].0] + [Delivered(events[i].1, a.lock.value.held)]
  }

  /** What a writer returns when it lets go of the lock. */
  ghost predicate Fires(tree: Id, a: System, events: seq<(nat, WriteEvent)>) {
    if a.lock.Some? && tree in a.store.entries then AnnouncedAs(tree, a, events) else events == []
  }

  ghost function Registered(a: System, initial: Snapshot): System {
    var id := a.nextId;
    a.(callbacks := a.callbacks + [Callback(id, initial)], nextId := id + 1, log := a.log[id := []],
       registered := a.registered[id := Registration(initial, a.store.entries)])
  }

  /** One atomic step; the lock covers a writer from its snapshot to its announcement. */
  ghost predicate Next(pol: Policy, tree: Id, a: System, action: Action, b: System) {
    match action
    case Commit(e, w, source) =>
      a.lock.None? && b == Committing(tree, a, e, w, source)
    case StoreBatch(batch) =>
      a.lock.None? && b == a.(store := a.store.PutAll(batch))
    case VerifyPass =>
      && a.lock.None? && Passed(a.store, pol, tree, b.store)
      && b == a.(store := b.store, lock := b.lock)
      && (b.lock.Some? ==> b.lock == Some(Pending(RawSnapshot(a.store.entries, tree), Remote, a.store.entries)))
      && (b.lock.Some? <==> Completed(a.store, pol, tree, b.store) && Promoted(a.store, b.store))
    case Fire =>
      a.lock.Some? && b == Announcing(tree, a)
    case Register(initial) =>
      b == Registered(a, initial)
    case Remove(id) =>
      b == a.(callbacks := Without(a.callbacks, id))
    case Elsewhere =>
      // writers of other trees, and status changes made outside the lock
      && b == a.(store := b.store) && b.store.Valid()
      && Extends(a.store.entries, b.store.entries)
      && forall x :: Holds(b.store.entries, tree, x) ==> x in a.store.entries
  }

  // --- What every run keeps ---

  /** The tree's part of `es` is part of `es'`. */
  ghost predicate TreeWithin(tree: Id, es: Held, es': Held) {
    forall x :: Holds(es, tree, x) ==> Holds(es', tree, x)
  }

  /** The cursor after the first `k` events: the registration snapshot, then the last post. */
  ghost function CursorAt(reg: Registration, log: seq<Delivered>, k: nat): Snapshot
    requires k <= |log|
  {
    if k == 0 then reg.initial else log[k - 1].event.post
  }

  ghost function HeldAt(reg: Registration, log: seq<Delivered>, k: nat): Held
    requires k <= |log|
  {
    if k == 0 then reg.held else log[k - 1].held
  }

  /** Event `k` takes the cursor from where event `k - 1` left it to a snapshot of a tree grown since. */
  ghost predicate Linked(tree: Id, es: Held, reg: Registration, log: seq<Delivered>, k: nat)
    requires k < |log|
  {
    && log[k].event.previous == CursorAt(reg, log, k)
    && log[k].event.post == RawSnapshot(log[k].held, tree)
    && TreeWithin(tree, HeldAt(reg, log, k), log[k].held)
    && Extends(log[k].held, es)
  }

  ghost predicate Chain(tree: Id, es: Held, reg: Registration, log: seq<Delivered>) {
    && Extends(reg.held, es)
    && forall k | 0 <= k < |log| :: Linked(tree, es, reg, log, k)
  }

  ghost predicate LockCurrent(tree: Id, es: Held, lock: Option<Pending>) {
    lock.Some? ==>
      && lock.value.post == RawSnapshot(lock.value.held, tree)
      && Extends(lock.value.held, es) && TreeWithin(tree, es, lock.value.held)
  }

  ghost predicate LiveCursor(s: System, c: Callback) {
    && c.id in s.registered && c.id in s.log
    && c.lastTips == CursorAt(s.registered[c.id], s.log[c.id], |s.log[c.id]|)
  }

  ghost predicate Inv(tree: Id, s: System) {
    && s.store.Valid()
    && s.registered.Keys == s.log.Keys
    && (forall id :: id in s.log ==> id < s.nextId)
    && (forall id :: id in s.log ==> Chain(tree, s.store.entries, s.registered[id], s.log[id]))
    && UniqueIds(s.callbacks)
    && (forall i :: 0 <= i < |s.callbacks| ==> LiveCursor(s, s.callbacks[i]))
    && LockCurrent(tree, s.store.entries, s.lock)
  }

  lemma ChainGrows(tree: Id, es: Held, es': Held, reg: Registration, log: seq<Delivered>)
    requires Chain(tree, es, reg, log) && Extends(es, es')
    ensures Chain(tree, es', reg, log)
  {
    forall k | 0 <= k < |log| ensures Linked(tree, es', reg, log, k) {
      assert Linked(tree, es, reg, log, k);
    }
  }

  /** Everything a chain snapshotted is still held in the tree. */
  lemma ChainWithin(tree: Id, es: Held, reg: Registration, log: seq<Delivered>)
    requires Chain(tree, es, reg, log)
    ensures TreeWithin(tree, HeldAt(reg, log, |log|), es)
  {
    if |log| > 0 { assert Linked(tree, es, reg, log, |log| - 1); }
  }

  lemma ChainAppends(tree: Id, es: Held, reg: Registration, log: seq<Delivered>, p: Pending)
    requires Chain(tree, es, reg, log) && LockCurrent(tree, es, Some(p))
    ensures Chain(tree, es, reg, log + [Delivered(WriteEvent(CursorAt(reg, log, |log|), p.post, p.source), p.held)])
  {
    var log' := log + [Delivered(WriteEvent(CursorAt(reg, log, |log|), p.post, p.source), p.held)];
    ChainWithin(tree, es, reg, log);
    forall k | 0 <= k < |log'| ensures Linked(tree, es, reg, log', k) {
      assert HeldAt(reg, log', k) == HeldAt(reg, log, k) && CursorAt(reg, log', k) == CursorAt(reg, log, k);
      if k < |log| { assert Linked(tree, es, reg, log, k); }
    }
  }

  lemma {:induction false} EventForIs(cs: seq<Callback>, id: nat)
    ensures EventFor(cs, id).Some? ==> EventFor(cs, id).value in cs && EventFor(cs, id).value.id == id
    ensures UniqueIds(cs) ==> forall i :: 0 <= i < |cs| && cs[i].id == id ==> EventFor(cs, id) == Some(cs[i])
    ensures EventFor(cs, id).None? ==> forall i :: 0 <= i < |cs| ==> cs[i].id != id
  {
    if cs == [] {
    } else {
      EventForIs(cs[1..], id);
      assert forall i :: 0 < i < |cs| ==> cs[i] == cs[1..][i - 1];
    }
  }

  lemma {:induction false} WithoutKeeps(cs: seq<Callback>, id: nat)
    ensures forall c :: c in Without(cs, id) <==> c in cs && c.id != id
    ensures UniqueIds(cs) ==> UniqueIds(Without(cs, id))
  {
    if cs == [] {
    } else {
      var rest := Without(cs[1..], id);
      WithoutKeeps(cs[1..], id);
      assert cs == [cs[0]] + cs[1..];
      if UniqueIds(cs) {
        forall i | 0 <= i < |rest| ensures rest[i].id != cs[0].id {
          assert rest[i] in cs[1..];
        }
      }
    }
  }

  // --- The events handed out are the events logged ---

  /** A writer of the protocol about to announce this to these callbacks. */
  ghost predicate Announceable(tree: Id, a: System, cs: seq<Callback>, post: Snapshot, source: WriteSource,
                               rootHeld: bool) {
    && a.callbacks == cs && (tree in a.store.entries <==> rootHeld)
    && a.lock.Some? && a.lock.value.post == post && a.lock.value.source == source
  }

  lemma EventsAnnounced(tree: Id, a: System, m: System)
    requires Inv(tree, a) && m.callbacks == a.callbacks && m.log == a.log
    requires m.lock.Some? && tree in m.store.entries
    ensures AnnouncedAs(tree, m, Events(m.callbacks, m.lock.value.post, m.lock.value.source))
  {
    var events := Events(m.callbacks, m.lock.value.post, m.lock.value.source);
    forall i | 0 <= i < |events|
      ensures events[i].0 in m.log
      ensures Announcing(tree, m).log[events[i].0] ==
              m.log[events[i].0] + [Delivered(events[i].1, m.lock.value.held)]
    {
      assert LiveCursor(a, a.callbacks[i]);
      EventForIs(a.callbacks, a.callbacks[i].id);
    }
  }

  lemma SpawnFires(tree: Id, cs: seq<Callback>, post: Snapshot, source: WriteSource, rootHeld: bool)
    ensures forall a :: Inv(tree, a) && Announceable(tree, a, cs, post, source, rootHeld) ==>
              Fires(tree, a, if rootHeld then Events(cs, post, source) else [])
  {
    forall a | Inv(tree, a) && Announceable(tree, a, cs, post, source, rootHeld)
      ensures Fires(tree, a, if rootHeld then Events(cs, post, source) else [])
    {
      if rootHeld { EventsAnnounced(tree, a, a); }
    }
  }

  // --- Each step keeps the invariant ---

  lemma GrowStep(tree: Id, a: System, s': Store, lock: Option<Pending>)
    requires Inv(tree, a) && s'.Valid() && Extends(a.store.entries, s'.entries)
    requires LockCurrent(tree, s'.entries, lock)
    ensures Inv(tree, a.(store := s', lock := lock))
  {
    var b := a.(store := s', lock := lock);
    forall id | id in b.log ensures Chain(tree, s'.entries, b.registered[id], b.log[id]) {
      ChainGrows(tree, a.store.entries, s'.entries, a.registered[id], a.log[id]);
    }
    forall i | 0 <= i < |b.callbacks| ensures LiveCursor(b, b.callbacks[i]) { assert LiveCursor(a, a.callbacks[i]); }
  }

  lemma FireStep(tree: Id, a: System, p: Pending)
    requires Inv(tree, a) && a.lock == Some(p)
    ensures Inv(tree, Announced(a, p))
  {
    var cs, log := a.callbacks, Logged(a.callbacks, a.log, p);
    var b := Announced(a, p);
    forall id | id in log ensures Chain(tree, b.store.entries, b.registered[id], log[id]) {
      EventForIs(cs, id);
      assert Chain(tree, a.store.entries, a.registered[id], a.log[id]);
      if EventFor(cs, id).Some? {
        assert LiveCursor(a, EventFor(cs, id).value);
        ChainAppends(tree, a.store.entries, a.registered[id], a.log[id], p);
      }
    }
    forall i | 0 <= i < |b.callbacks| ensures LiveCursor(b, b.callbacks[i]) {
      assert LiveCursor(a, cs[i]);
      EventForIs(cs, cs[i].id);
    }
  }

  lemma RegisterStep(tree: Id, a: System, initial: Snapshot)
    requires Inv(tree, a)
    ensures Inv(tree, Registered(a, initial))
  {
    var cs := a.callbacks + [Callback(a.nextId, initial)];
    var b := Registered(a, initial);
    forall i | 0 <= i < |cs| ensures LiveCursor(b, cs[i]) {
      if i < |a.callbacks| { assert LiveCursor(a, a.callbacks[i]); }
    }
    forall i | 0 <= i < |a.callbacks| ensures a.callbacks[i].id < a.nextId { assert LiveCursor(a, a.callbacks[i]); }
    assert UniqueIds(cs);
  }

  lemma RemoveStep(tree: Id, a: System, id: nat)
    requires Inv(tree, a)
    ensures Inv(tree, a.(callbacks := Without(a.callbacks, id)))
  {
    var b := a.(callbacks := Without(a.callbacks, id));
    WithoutKeeps(a.callbacks, id);
    forall i | 0 <= i < |b.callbacks| ensures LiveCursor(b, b.callbacks[i]) {
      assert b.callbacks[i] in a.callbacks;
      var j :| 0 <= j < |a.callbacks| && a.callbacks[j] == b.callbacks[i];
      assert LiveCursor(a, a.callbacks[j]);
    }
  }

  lemma PassedKeepsEntries(s: Store, pol: Policy, tree: Id, s': Store)
    requires s.Valid() && Passed(s, pol, tree, s')
    ensures s'.Valid() && s'.entries == s.entries
  {
  }

  lemma NextKeeps(pol: Policy, tree: Id, a: System, action: Action, b: System)
    requires Inv(tree, a) && Next(pol, tree, a, action, b)
    ensures Inv(tree, b) && Extends(a.store.entries, b.store.entries)
  {
    match action
    case Commit(e, w, source) =>
      PutKeeps(a.store, e);
      GrowStep(tree, a, b.store, b.lock);
    case StoreBatch(batch) =>
      PutAllGrows(a.store, batch);
      GrowStep(tree, a, b.store, None);
    case VerifyPass =>
      PassedKeepsEntries(a.store, pol, tree, b.store);
      GrowStep(tree, a, b.store, b.lock);
    case Fire =>
      if tree in a.store.entries { FireStep(tree, a, a.lock.value); } else { GrowStep(tree, a, a.store, None); }
    case Register(initial) => RegisterStep(tree, a, initial);
    case Remove(id) => RemoveStep(tree, a, id);
    case Elsewhere => GrowStep(tree, a, b.store, a.lock);
  }

  // --- Every run ---

  ghost predicate Fresh(s: System) {
    s.store.Valid() && s.callbacks == [] && s.lock == None && s.registered == map[] && s.log == map[]
  }

  ghost function Actions(pol: Policy, tree: Id, actions: seq<Action>): (nat, System, System) -> bool {
    (i: nat, a: System, b: System) => i < |actions| && Next(pol, tree, a, actions[i], b)
  }

  /** In every reachable state every callback's events form a chain from its registration snapshot. */
  lemma ReachableInv(pol: Policy, tree: Id, actions: seq<Action>, k: nat, a: System, b: System)
    requires Fresh(a) && Steps(Actions(pol, tree, actions), k, a, b)
    ensures Inv(tree, b)
  {
    var inv := (i: nat, m: System) => Inv(tree, m);
    forall i: nat, m, m' | inv(i, m) && Actions(pol, tree, actions)(i, m, m') ensures inv(i + 1, m') {
      NextKeeps(pol, tree, m, actions[i], m');
    }
    StepsInduct(Actions(pol, tree, actions), inv, k, a, b);
  }

  // --- Coverage ---

  /** What `ids_added` lists for an event, asked on the store `es`. */
  ghost function Reported(es: Held, event: WriteEvent): set<Id> {
    if event.previous == event.post then {} else Listed(es, event.previous.Ids(), event.post.Ids())
  }

  /** The registration snapshot named entries of the tree held at the time. */
  ghost predicate Anchored(tree: Id, reg: Registration) {
    forall b :: b in reg.initial.Ids() ==> Holds(reg.held, tree, b)
  }

  /** The guard of `ids_added` fires on none of the events. */
  ghost predicate Forward(es: Held, log: seq<Delivered>) {
    forall k :: 0 <= k < |log| ==> !Backward(es, log[k].event.previous.Ids(), log[k].event.post.Ids())
  }

  lemma PreviousHeld(tree: Id, es: Held, reg: Registration, log: seq<Delivered>, k: nat, b: Id)
    requires Chain(tree, es, reg, log) && Anchored(tree, reg) && k < |log|
    requires b in log[k].event.previous.Ids()
    ensures Holds(log[k].held, tree, b)
  {
    assert Linked(tree, es, reg, log, k);
    if k > 0 { assert Linked(tree, es, reg, log, k - 1); }
    assert Holds(HeldAt(reg, log, k), tree, b);
  }

  lemma PreviousBelow(tree: Id, es: Held, reg: Registration, log: seq<Delivered>, k: nat, b: Id)
    requires Acyclic(es) && Chain(tree, es, reg, log) && Anchored(tree, reg) && k < |log|
    requires b in log[k].event.previous.Ids()
    ensures Ancestor(es, log[k].event.post.Ids(), b)
  {
    PreviousHeld(tree, es, reg, log, k, b);
    assert Linked(tree, es, reg, log, k);
    var held := log[k].held;
    SubAcyclic(held, es);
    Climb(held, tree);
    AncestorMono(held, es, RawTips(held, tree));
  }

  /** With falling heights it never does. */
  lemma ChainForward(tree: Id, es: Held, reg: Registration, log: seq<Delivered>)
    requires HeightsFall(es) && Chain(tree, es, reg, log) && Anchored(tree, reg)
    ensures Forward(es, log)
  {
    HeightsFallAcyclic(es);
    forall k | 0 <= k < |log| ensures !Backward(es, log[k].event.previous.Ids(), log[k].event.post.Ids()) {
      var previous, post := log[k].event.previous.Ids(), log[k].event.post.Ids();
      if previous != {} {
        var b :| b in previous;
        PreviousBelow(tree, es, reg, log, k, b);
        GuardSilent(es, previous, post, b);
      }
    }
  }

  lemma {:induction false} CoveredUpTo(tree: Id, es: Held, reg: Registration, log: seq<Delivered>, n: nat, x: Id)
    requires Forward(es, log) && Chain(tree, es, reg, log) && n < |log|
    requires Ancestor(es, log[n].event.post.Ids(), x) && !Ancestor(es, reg.initial.Ids(), x)
    ensures exists k :: 0 <= k <= n && x in Reported(es, log[k].event)
  {
    assert Linked(tree, es, reg, log, n);
    if Ancestor(es, log[n].event.previous.Ids(), x) {
      CoveredUpTo(tree, es, reg, log, n - 1, x);
    } else {
      NothingLost(es, log[n].event.previous.Ids(), log[n].event.post.Ids());
      assert x in Reported(es, log[n].event);
    }
  }

  /** The entries of the tree held when the last event was announced are covered by the events together. */
  lemma ChainCovers(tree: Id, es: Held, reg: Registration, log: seq<Delivered>, x: Id)
    requires Acyclic(es) && Forward(es, log) && Chain(tree, es, reg, log) && log != []
    requires Holds(log[|log| - 1].held, tree, x) && !Ancestor(es, reg.initial.Ids(), x)
    ensures exists k :: 0 <= k < |log| && x in Reported(es, log[k].event)
  {
    var n := |log| - 1;
    assert Linked(tree, es, reg, log, n);
    var held := log[n].held;
    SubAcyclic(held, es);
    Climb(held, tree);
    AncestorMono(held, es, RawTips(held, tree));
    CoveredUpTo(tree, es, reg, log, n, x);
  }

  // --- Expansion when the callback runs ---

  /** The same bracket lists the same entries on every parent-complete store that holds its tips. */
  lemma ListedStable(es: Held, es': Held, previous: set<Id>, post: set<Id>)
    requires Extends(es', es) && ParentComplete(es') && previous <= es'.Keys && post <= es'.Keys
    ensures Listed(es', previous, post) == Listed(es, previous, post)
  {
    SameReach(es'.Keys, OpenEdges(es', previous), OpenEdges(es, previous), post);
    assert Added(es', previous, post) == Added(es, previous, post);
    assert Backward(es', previous, post) == Backward(es, previous, post);
  }

  /** An event expands alike on every parent-complete store from its announcement on. */
  lemma ReportedStable(tree: Id, es: Held, reg: Registration, log: seq<Delivered>, k: nat, es': Held)
    requires Chain(tree, es, reg, log) && Anchored(tree, reg) && k < |log|
    requires ParentComplete(es') && Extends(log[k].held, es') && Extends(es', es)
    ensures Reported(es', log[k].event) == Reported(es, log[k].event)
  {
    assert Linked(tree, es, reg, log, k);
    forall b | b in log[k].event.previous.Ids() ensures b in es' { PreviousHeld(tree, es, reg, log, k, b); }
    ListedStable(es, es', log[k].event.previous.Ids(), log[k].event.post.Ids());
  }

  /** Event `k` is expanded on `seen[k]`, a parent-complete store between its announcement and now. */
  ghost predicate Expanding(es: Held, log: seq<Delivered>, seen: seq<Held>) {
    && |seen| == |log|
    && forall k :: 0 <= k < |log| ==>
         ParentComplete(seen[k]) && Extends(log[k].held, seen[k]) && Extends(seen[k], es)
  }

  /**
   `x` is an entry of the tree, held at the callback's latest event and outside the
   ancestry of its registration snapshot; `seen` are the stores its callback ran on.
   */
  ghost predicate Expected(tree: Id, es: Held, reg: Registration, log: seq<Delivered>, seen: seq<Held>, x: Id) {
    && log != [] && Anchored(tree, reg) && Expanding(es, log, seen)
    && Holds(log[|log| - 1].held, tree, x) && !Ancestor(es, reg.initial.Ids(), x)
  }

  /** Some expansion of the callback's events, each on the store it ran on, lists `x`. */
  ghost predicate Seen(log: seq<Delivered>, seen: seq<Held>, x: Id) {
    exists k :: 0 <= k < |seen| && k < |log| && x in Reported(seen[k], log[k].event)
  }

  lemma ChainCoversSeen(tree: Id, es: Held, reg: Registration, log: seq<Delivered>, seen: seq<Held>, x: Id)
    requires Acyclic(es) && Forward(es, log) && Chain(tree, es, reg, log) && Expected(tree, es, reg, log, seen, x)
    ensures Seen(log, seen, x)
  {
    ChainCovers(tree, es, reg, log, x);
    var k :| 0 <= k < |log| && x in Reported(es, log[k].event);
    ReportedStable(tree, es, reg, log, k, seen[k]);
    assert x in Reported(seen[k], log[k].event);
  }

  lemma ReachableChain(pol: Policy, tree: Id, actions: seq<Action>, n: nat, a: System, s: System, id: nat)
    requires Fresh(a) && Steps(Actions(pol, tree, actions), n, a, s) && id in s.log
    ensures id in s.registered && Chain(tree, s.store.entries, s.registered[id], s.log[id])
  {
    ReachableInv(pol, tree, actions, n, a, s);
  }

  /**
   Coverage without any assumption on heights: in every reachable state, for every
   callback ever registered on whose events the guard does not fire, the expansions of
   its events, each on the store its callback runs on, together list every entry of the
   tree held at its latest event outside the ancestry of its registration snapshot.
   */
  lemma CoverageIfForward(pol: Policy, tree: Id, actions: seq<Action>, n: nat, a: System, s: System, id: nat,
                          seen: seq<Held>, x: Id)
    requires Fresh(a) && Steps(Actions(pol, tree, actions), n, a, s) && id in s.log && id in s.registered
    requires Acyclic(s.store.entries) && Forward(s.store.entries, s.log[id])
    requires Expected(tree, s.store.entries, s.registered[id], s.log[id], seen, x)
    ensures Seen(s.log[id], seen, x)
  {
    ReachableChain(pol, tree, actions, n, a, s, id);
    ChainCoversSeen(tree, s.store.entries, s.registered[id], s.log[id], seen, x);
  }

  /** Cursor coverage: with heights falling along parent edges, the guard fires on no callback's events. */
  lemma CursorCoverage(pol: Policy, tree: Id, actions: seq<Action>, n: nat, a: System, s: System, id: nat,
                       seen: seq<Held>, x: Id)
    requires Fresh(a) && Steps(Actions(pol, tree, actions), n, a, s) && id in s.log && id in s.registered
    requires HeightsFall(s.store.entries)
    requires Expected(tree, s.store.entries, s.registered[id], s.log[id], seen, x)
    ensures Seen(s.log[id], seen, x)
  {
    ReachableChain(pol, tree, actions, n, a, s, id);
    HeightsFallAcyclic(s.store.entries);
    ChainForward(tree, s.store.entries, s.registered[id], s.log[id]);
    ChainCoversSeen(tree, s.store.entries, s.registered[id], s.log[id], seen, x);
  }

  /** On a parent-complete store every expansion succeeds, so what is covered is what `ids_added` returns. */
  lemma ExpansionSucceeds(tree: Id, es: Held, reg: Registration, log: seq<Delivered>, k: nat, r: Result<seq<Id>, Error>)
    requires ParentComplete(es) && Chain(tree, es, reg, log) && k < |log|
    requires IdsAddedSpec(es, log[k].event.previous, log[k].event.post, r)
    ensures r.Ok? && forall x :: x in r.value <==> x in Reported(es, log[k].event)
  {
    assert Linked(tree, es, reg, log, k);
    var previous, post := log[k].event.previous.Ids(), log[k].event.post.Ids();
    assert post <= es.Keys;
    ReachInduct(OpenEdges(es, previous), post, iset x | x in es);
  }
}
