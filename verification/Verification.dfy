/**
 `Database::verify`: collect the Unverified region below the raw tips, sort it
 parents first, and settle each entry from its parents' statuses and its own
 verdict. The outcome is characterised as a fixed point of one rule on the DAG.
 */
module Verification {
  import opened Entries
  import opened Walks
  import opened Dag
  import opened Settings
  import opened Backends
  import TopoSort

  type Statuses = map<Id, VerificationStatus>

  datatype VerifyReport = VerifyReport(verified: nat, failed: nat, stillUnverified: nat) {
    function Add(v: VerificationStatus): VerifyReport {
      match v
      case Verified => this.(verified := verified + 1)
      case Failed => this.(failed := failed + 1)
      case Unverified => this.(stillUnverified := stillUnverified + 1)
    }
  }

  // --- What a pass means ---

  /** Per-entry verdicts: Unverified when the pin is incomplete, an error when settings data is malformed. */
  type Verdicts = map<Id, Result<VerificationStatus, Error>>

  ghost function Verdict(es: Held, pol: Policy, tree: Id, e: Entry): Result<VerificationStatus, Error> {
    match PinnedFor(es, pol, tree, e)
    case Err(error) => Err(error)
    case Ok(Incomplete) => Ok(Unverified)
    case Ok(Complete(auth)) => Ok(if pol.valid(e, auth) then Verified else Failed)
  }

  ghost function VerdictsOf(es: Held, pol: Policy, tree: Id): Verdicts {
    map x | x in es :: Verdict(es, pol, tree, es[x])
  }

  function UnverifiedEdges(s: Store): Edges {
    map id | id in s.entries && s.Is(id, Unverified) :: Elems(s.entries[id].parents)
  }

  /** The Unverified entries joined to a raw tip by a chain of Unverified entries. */
  ghost function Region(s: Store, tree: Id): set<Id> {
    set x | x in UnverifiedEdges(s) && Reach(UnverifiedEdges(s), RawTips(s.entries, tree), x)
  }

  /** Some parent has failed. */
  predicate Compromised(status: Statuses, e: Entry) {
    exists p | p in e.parents :: p in status && status[p] == Failed
  }

  /** Some parent is absent or still Unverified. */
  predicate Blocked(status: Statuses, e: Entry) {
    exists p | p in e.parents :: p !in status || status[p] == Unverified
  }

  /** The status an entry deserves, given everyone's statuses. */
  ghost predicate Deserves(v: Verdicts, status: Statuses, e: Entry, r: Result<VerificationStatus, Error>) {
    if Compromised(status, e) then r == Ok(Failed)
    else if Blocked(status, e) then r == Ok(Unverified)
    else e.id in v && r == v[e.id]
  }

  /** Members of `done` have the status the rule gives them; everyone else is as before. */
  ghost predicate SettledOn(s: Store, v: Verdicts, done: set<Id>, s': Store) {
    && s'.entries == s.entries
    && s'.status.Keys == s.status.Keys
    && (forall x :: x in s.status && x !in done ==> s'.status[x] == s.status[x])
    && (forall x :: x in done ==> x in s.entries && x in s'.status)
    && (forall x :: x in done ==> Deserves(v, s'.status, s.entries[x], Ok(s'.status[x])))
  }

  /** A completed pass. */
  ghost predicate Settled(s: Store, v: Verdicts, tree: Id, s': Store) {
    SettledOn(s, v, Region(s, tree), s')
  }

  /** Region parents of members of `done`, and of `x`, are themselves in `done`. */
  ghost predicate ParentsDone(es: Held, region: set<Id>, done: set<Id>, x: Id) {
    forall y, p :: (y == x || y in done) && y in es && p in es[y].parents && p in region ==> p in done
  }

  /** A pass cut short by unreadable settings of `x`: it settled part of the region, parents first. */
  ghost predicate Aborted(s: Store, v: Verdicts, tree: Id, s': Store, error: Error) {
    exists done, x ::
      && x in s.entries && x in Region(s, tree) - done && done <= Region(s, tree)
      && SettledOn(s, v, done, s')
      && ParentsDone(s.entries, Region(s, tree), done, x)
      && Deserves(v, s'.status, s.entries[x], Err(error))
  }

  ghost predicate Completed(s: Store, pol: Policy, tree: Id, s': Store) {
    Settled(s, VerdictsOf(s.entries, pol, tree), tree, s')
  }

  /** A pass that completed or was cut short by unreadable settings. */
  ghost predicate Passed(s: Store, pol: Policy, tree: Id, s': Store) {
    Completed(s, pol, tree, s') || exists error :: Aborted(s, VerdictsOf(s.entries, pol, tree), tree, s', error)
  }

  /** The two outcomes exclude each other. */
  lemma AbortedNotSettled(s: Store, v: Verdicts, tree: Id, s': Store, error: Error)
    requires Aborted(s, v, tree, s', error)
    ensures !Settled(s, v, tree, s')
  {
  }

  /** Either way part of the region was settled, and nothing else was touched. */
  lemma PassedPart(s: Store, pol: Policy, tree: Id, s': Store) returns (done: set<Id>)
    requires Passed(s, pol, tree, s')
    ensures done <= Region(s, tree) && SettledOn(s, VerdictsOf(s.entries, pol, tree), done, s')
  {
    var v := VerdictsOf(s.entries, pol, tree);
    if Settled(s, v, tree, s') {
      done := Region(s, tree);
    } else {
      var error :| Aborted(s, v, tree, s', error);
      var x;
      done, x :| x in s.entries && x in Region(s, tree) - done && done <= Region(s, tree) && SettledOn(s, v, done, s');
    }
  }

  ghost function WithStatus(status: Statuses, xs: set<Id>, v: VerificationStatus): set<Id> {
    set x | x in xs && x in status && status[x] == v
  }

  ghost predicate Counts(r: VerifyReport, status: Statuses, xs: set<Id>) {
    && r.verified == |WithStatus(status, xs, Verified)|
    && r.failed == |WithStatus(status, xs, Failed)|
    && r.stillUnverified == |WithStatus(status, xs, Unverified)|
  }

  // --- The pass itself ---

  /** Walk parents from the given tips; settled and absent entries end the walk. */
  method WalkUnverified(s: Store, tips: seq<Id>) returns (unverified: Held)
    requires s.Valid()
    ensures Extends(unverified, s.entries)
    ensures forall x :: x in unverified <==> x in UnverifiedEdges(s) && Reach(UnverifiedEdges(s), Elems(tips), x)
  {
    ghost var g, seeds := UnverifiedEdges(s), Elems(tips);
    var queue := tips;
    var visited: set<Id> := {};
    unverified := map[];
    ExploreStart(g, seeds);
    while queue != []
      invariant forall x :: x in unverified <==> x in visited && x in g
      invariant Extends(unverified, s.entries)
      invariant Exploring(g, seeds, visited, Elems(queue))
      decreases g.Keys - visited, |queue|
    {
      var id := queue[0];
      if id in visited {
        SkipFront(g, seeds, visited, queue);
        queue := queue[1..];
        continue;
      }
      var pushed := [];
      if id in s.status && s.status[id] == Unverified {
        pushed := s.entries[id].parents;
        unverified := unverified[id := s.entries[id]];
      }
      ExploreFront(g, seeds, visited, queue, pushed);
      queue := queue[1..] + pushed;
      visited := visited + {id};
    }
    ExploreDone(g, seeds, visited);
  }

  method CollectUnverified(s: Store, tree: Id) returns (unverified: Held)
    requires s.Valid()
    ensures Restricts(unverified, s.entries, Region(s, tree))
  {
    var tips := TakeSnapshot(s.entries, tree);
    unverified := WalkUnverified(s, tips.tips);
    assert Elems(tips.tips) == RawTips(s.entries, tree);
    assert unverified.Keys == Region(s, tree);
  }

  /** The parents' statuses, read one by one. */
  method CheckParents(status: Statuses, e: Entry) returns (compromised: bool, blocked: bool)
    ensures compromised == Compromised(status, e)
    ensures blocked == Blocked(status, e)
  {
    compromised, blocked := false, false;
    for i := 0 to |e.parents|
      invariant compromised <==> exists p :: p in e.parents[..i] && p in status && status[p] == Failed
      invariant blocked <==> exists p :: p in e.parents[..i] && (p !in status || status[p] == Unverified)
    {
      var p := e.parents[i];
      TakeNext(e.parents, i);
      if p !in status || status[p] == Unverified {
        blocked := true;
      } else if status[p] == Failed {
        compromised := true;
      }
    }
    assert e.parents[..|e.parents|] == e.parents;
  }

  /** The rule evaluated for one held entry. */
  method Judge(es: Held, pol: Policy, tree: Id, status: Statuses, e: Entry)
    returns (r: Result<VerificationStatus, Error>)
    requires e.id in es && es[e.id] == e
    ensures Deserves(VerdictsOf(es, pol, tree), status, e, r)
  {
    var compromised, blocked := CheckParents(status, e);
    if compromised { return Ok(Failed); }
    if blocked { return Ok(Unverified); }
    var pinned := HistoricalSettings(es, pol, tree, e);
    match pinned
    case Err(error) => return Err(error);
    case Ok(Incomplete) => return Ok(Unverified);
    case Ok(Complete(auth)) => return Ok(if pol.valid(e, auth) then Verified else Failed);
  }

  /** The rule reads the statuses of the entry's parents only. */
  lemma RuleFrame(v: Verdicts, st: Statuses, st': Statuses, e: Entry, r: Result<VerificationStatus, Error>)
    requires forall p :: p in e.parents ==> (p in st <==> p in st') && (p in st ==> st[p] == st'[p])
    ensures Deserves(v, st, e, r) <==> Deserves(v, st', e, r)
  {
    assert Compromised(st, e) == Compromised(st', e);
    assert Blocked(st, e) == Blocked(st', e);
  }

  /** In a parents-first order no entry is a parent of itself or of an earlier one. */
  lemma NotEarlierParent(es: Held, region: Held, order: seq<Id>, i: nat, x: Id)
    requires Acyclic(es) && Extends(region, es)
    requires TopoSort.Topological(region, order) && i < |order|
    requires x == order[i] || x in order[..i]
    ensures x in es && order[i] in es && order[i] !in es[x].parents
  {
    assert order[i] in order;
    if x == order[i] {
      NotOwnParent(es, x);
    } else {
      var k :| 0 <= k < i && order[k] == x;
      assert order[k] in order;
      assert order[i] !in order[..k];
    }
  }

  /** Settling one more entry that is nobody's parent among the settled disturbs none of them. */
  lemma SettleInsert(s: Store, v: Verdicts, done: set<Id>, id: Id, cur: Store, w: VerificationStatus)
    requires s.Valid() && id in s.entries && SettledOn(s, v, done, cur)
    requires forall x :: x in done + {id} ==> x in s.entries && id !in s.entries[x].parents
    requires Deserves(v, cur.status, s.entries[id], Ok(w))
    ensures SettledOn(s, v, done + {id}, cur.(status := cur.status[id := w]))
  {
    var next := cur.status[id := w];
    forall x | x in done + {id} ensures Deserves(v, next, s.entries[x], Ok(next[x])) {
      RuleFrame(v, cur.status, next, s.entries[x], Ok(next[x]));
    }
  }

  /** Settling the next entry of a parents-first order disturbs none of the earlier ones. */
  lemma SettleNext(s: Store, v: Verdicts, region: Held, order: seq<Id>, i: nat, cur: Store, w: VerificationStatus)
    requires s.Valid() && Acyclic(s.entries) && Extends(region, s.entries)
    requires TopoSort.Topological(region, order) && i < |order| && order[i] in s.entries
    requires SettledOn(s, v, Elems(order[..i]), cur)
    requires Deserves(v, cur.status, s.entries[order[i]], Ok(w))
    ensures SettledOn(s, v, Elems(order[..i + 1]), cur.(status := cur.status[order[i] := w]))
  {
    TakeNext(order, i);
    assert Elems(order[..i + 1]) == Elems(order[..i]) + {order[i]};
    forall x | x in Elems(order[..i]) + {order[i]} ensures x in s.entries && order[i] !in s.entries[x].parents {
      NotEarlierParent(s.entries, region, order, i, x);
    }
    SettleInsert(s, v, Elems(order[..i]), order[i], cur, w);
  }

  lemma CountOne(status: Statuses, xs: set<Id>, id: Id, w: VerificationStatus, u: VerificationStatus)
    requires id !in xs
    ensures |WithStatus(status[id := w], xs + {id}, u)| == |WithStatus(status, xs, u)| + (if u == w then 1 else 0)
  {
    var a := WithStatus(status, xs, u);
    var b := WithStatus(status[id := w], xs + {id}, u);
    if u == w { assert b == a + {id}; } else { assert b == a; }
  }

  lemma CountNext(r: VerifyReport, status: Statuses, order: seq<Id>, i: nat, w: VerificationStatus)
    requires i < |order| && TopoSort.Distinct(order)
    requires Counts(r, status, Elems(order[..i]))
    ensures Counts(r.Add(w), status[order[i] := w], Elems(order[..i + 1]))
  {
    TakeNext(order, i);
    assert Elems(order[..i + 1]) == Elems(order[..i]) + {order[i]};
    CountOne(status, Elems(order[..i]), order[i], w, Verified);
    CountOne(status, Elems(order[..i]), order[i], w, Failed);
    CountOne(status, Elems(order[..i]), order[i], w, Unverified);
  }

  /** Write the rule's answer for one Unverified entry; an answer of Unverified writes nothing. */
  method SettleOne(b: Backend, pol: Policy, tree: Id, e: Entry) returns (r: Result<VerificationStatus, Error>)
    requires b.Valid() && b.Value().Is(e.id, Unverified) && b.entries[e.id] == e
    modifies b`status
    ensures b.Valid()
    ensures Deserves(VerdictsOf(b.entries, pol, tree), old(b.status), e, r)
    ensures b.status == if r.Ok? then old(b.status)[e.id := r.value] else old(b.status)
  {
    r := Judge(b.entries, pol, tree, b.status, e);
    if r.Ok? && r.value != Unverified {
      var _ := b.UpdateVerificationStatus(e.id, r.value);
    }
  }

  /** The pass part way: the first `i` entries are settled and counted. */
  ghost predicate Settling(s: Store, v: Verdicts, order: seq<Id>, i: nat, cur: Store, report: VerifyReport)
    requires i <= |order|
  {
    SettledOn(s, v, Elems(order[..i]), cur) && Counts(report, cur.status, Elems(order[..i]))
  }

  lemma SettlingNext(s: Store, v: Verdicts, region: Held, order: seq<Id>, i: nat, cur: Store,
                     report: VerifyReport, w: VerificationStatus)
    requires s.Valid() && Acyclic(s.entries) && Extends(region, s.entries)
    requires TopoSort.Topological(region, order) && i < |order| && order[i] in s.entries
    requires Settling(s, v, order, i, cur, report)
    requires Deserves(v, cur.status, s.entries[order[i]], Ok(w))
    ensures Settling(s, v, order, i + 1, cur.(status := cur.status[order[i] := w]), report.Add(w))
  {
    SettleNext(s, v, region, order, i, cur, w);
    CountNext(report, cur.status, order, i, w);
  }

  lemma NextIsUnverified(s: Store, v: Verdicts, region: Held, order: seq<Id>, i: nat, cur: Store)
    requires s.Valid() && TopoSort.Topological(region, order) && i < |order| && Extends(region, s.entries)
    requires forall x :: x in region ==> s.Is(x, Unverified)
    requires SettledOn(s, v, Elems(order[..i]), cur)
    ensures order[i] in region && cur.Is(order[i], Unverified) && s.entries[order[i]] == region[order[i]]
  {
    assert order[i] in order;
    assert order[i] !in order[..i];
  }

  /** Process the sorted region parents before children, writing statuses as it goes. */
  method SettleInOrder(b: Backend, pol: Policy, tree: Id, region: Held, order: seq<Id>, ghost v: Verdicts)
    returns (r: Result<VerifyReport, Error>, ghost stop: nat)
    requires b.Valid() && Acyclic(b.entries) && Extends(region, b.entries)
    requires forall x :: x in region ==> b.Value().Is(x, Unverified)
    requires TopoSort.Topological(region, order)
    requires v == VerdictsOf(b.entries, pol, tree)
    modifies b`status
    ensures b.Valid() && stop <= |order|
    ensures SettledOn(old(b.Value()), v, Elems(order[..stop]), b.Value())
    ensures r.Ok? ==> stop == |order| && Counts(r.value, b.status, Elems(order[..stop]))
    ensures r.Err? ==> stop < |order| && order[stop] in b.entries
                       && Deserves(v, b.status, b.entries[order[stop]], Err(r.error))
  {
    ghost var s := b.Value();
    var report := VerifyReport(0, 0, 0);
    for i := 0 to |order|
      invariant b.Valid()
      invariant Settling(s, v, order, i, b.Value(), report)
    {
      ghost var before := b.Value();
      NextIsUnverified(s, v, region, order, i, before);
      var w := SettleOne(b, pol, tree, region[order[i]]);
      if w.Err? { return Err(w.error), i; }
      SettlingNext(s, v, region, order, i, before, report, w.value);
      report := report.Add(w.value);
    }
    return Ok(report), |order|;
  }

  lemma AbortedAt(s: Store, v: Verdicts, tree: Id, s': Store, region: Held, order: seq<Id>, i: nat, error: Error)
    requires Restricts(region, s.entries, Region(s, tree))
    requires TopoSort.Topological(region, order) && i < |order| && order[i] in s.entries
    requires SettledOn(s, v, Elems(order[..i]), s')
    requires Deserves(v, s'.status, s.entries[order[i]], Err(error))
    ensures Aborted(s, v, tree, s', error)
  {
    var done, x := Elems(order[..i]), order[i];
    assert x in order && forall y :: y in order[..i] ==> y in order;
    forall y, p | (y == x || y in done) && y in s.entries && p in s.entries[y].parents && p in region.Keys
      ensures p in done
    {
      var k :| 0 <= k <= i && order[k] == y;
      assert order[k] in order;
      assert p in order[..k];
    }
    assert ParentsDone(s.entries, Region(s, tree), done, x);
  }

  method Verify(b: Backend, pol: Policy, tree: Id) returns (r: Result<VerifyReport, Error>)
    requires b.Valid() && Acyclic(b.entries)
    modifies b`status
    ensures b.Valid()
    ensures r.Ok? ==> Settled(old(b.Value()), VerdictsOf(b.entries, pol, tree), tree, b.Value())
    ensures r.Ok? ==> Counts(r.value, b.status, Region(old(b.Value()), tree))
    ensures r.Err? ==> Aborted(old(b.Value()), VerdictsOf(b.entries, pol, tree), tree, b.Value(), r.error)
  {
    ghost var s, v := b.Value(), VerdictsOf(b.entries, pol, tree);
    var unverified := CollectUnverified(b.Value(), tree);
    SubAcyclic(unverified, b.entries);
    var order := TopoSort.Sort(unverified);
    ghost var stop;
    r, stop := SettleInOrder(b, pol, tree, unverified, order, v);
    if r.Err? {
      AbortedAt(s, v, tree, b.Value(), unverified, order, stop, r.error);
    } else {
      assert order[..stop] == order;
      assert Elems(order) == Region(s, tree);
    }
  }
}
