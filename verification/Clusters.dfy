/** Replica convergence: pairwise exchanges until every peer shows the same snapshot. */
module Clusters {
  import opened Entries
  import opened Snapshots
  import opened Dag

  /** The IDs held by peers `lo..hi`. */
  ghost function IdsOf(peers: seq<Held>, lo: nat, hi: nat): set<Id>
    requires lo <= hi <= |peers|
  {
    if lo == hi then {} else IdsOf(peers, lo, hi - 1) + peers[hi - 1].Keys
  }

  lemma {:induction false} IdsOfContains(peers: seq<Held>, lo: nat, hi: nat)
    requires lo <= hi <= |peers|
    ensures forall k :: lo <= k < hi ==> peers[k].Keys <= IdsOf(peers, lo, hi)
    decreases hi
  {
    if hi <= lo {
    } else {
      IdsOfContains(peers, lo, hi - 1);
    }
  }

  lemma {:induction false} IdsOfLeast(peers: seq<Held>, lo: nat, hi: nat, xs: set<Id>)
    requires lo <= hi <= |peers|
    requires forall k :: lo <= k < hi ==> peers[k].Keys <= xs
    ensures IdsOf(peers, lo, hi) <= xs
    decreases hi
  {
    if hi <= lo {
    } else {
      IdsOfLeast(peers, lo, hi - 1, xs);
    }
  }

  lemma {:induction false} IdsOfMono(peers: seq<Held>, lo: nat, mid: nat, hi: nat)
    requires lo <= mid <= hi <= |peers|
    ensures IdsOf(peers, lo, mid) <= IdsOf(peers, lo, hi)
    decreases hi
  {
    if hi <= mid {
    } else {
      IdsOfMono(peers, lo, mid, hi - 1);
    }
  }

  /** All peers hold parts of one world: an ID stands for the same entry everywhere. */
  ghost predicate PartsOf(peers: seq<Held>, world: Held) {
    forall k :: 0 <= k < |peers| ==> Extends(peers[k], world)
  }

  ghost predicate Agree(peers: seq<Held>, tree: Id) {
    forall i, j :: 0 <= i < |peers| && 0 <= j < |peers| ==> RawSnapshot(peers[i], tree) == RawSnapshot(peers[j], tree)
  }

  /** Every peer holds exactly the IDs `ids`. */
  ghost predicate AllHold(peers: seq<Held>, ids: set<Id>) {
    forall k :: 0 <= k < |peers| ==> peers[k].Keys == ids
  }

  lemma SameIdsAgree(peers: seq<Held>, world: Held, tree: Id, ids: set<Id>)
    requires PartsOf(peers, world) && AllHold(peers, ids)
    ensures Agree(peers, tree)
  {
    forall i, j | 0 <= i < |peers| && 0 <= j < |peers| ensures peers[i] == peers[j] {
      assert peers[i].Keys == peers[j].Keys;
    }
  }

  /** Both sides of an exchange end up with everything either held. */
  function Exchanged(peers: seq<Held>, i: nat, j: nat): seq<Held>
    requires i < |peers| && j < |peers|
  {
    peers[i := peers[i] + peers[j]][j := peers[i] + peers[j]]
  }

  /** Peer `i` has exchanged with the peers after it up to `j`. */
  ghost predicate RowUpTo(start: seq<Held>, i: nat, j: nat, peers: seq<Held>, world: Held) {
    && i < j <= |start| == |peers| && PartsOf(peers, world)
    && peers[i].Keys == peers[j - 1].Keys == IdsOf(start, i, j)
    && (forall k :: 0 <= k < i || j <= k < |start| ==> peers[k] == start[k])
    && (forall k :: i <= k < j ==> peers[k].Keys <= IdsOf(start, i, j))
  }

  lemma RowNext(start: seq<Held>, i: nat, j: nat, peers: seq<Held>, world: Held)
    requires RowUpTo(start, i, j, peers, world) && j < |start|
    ensures RowUpTo(start, i, j + 1, Exchanged(peers, i, j), world)
  {
    var union := peers[i] + peers[j];
    assert union.Keys == IdsOf(start, i, j + 1);
    assert Extends(peers[i], world) && Extends(peers[j], world);
    assert Extends(union, world);
    var next := Exchanged(peers, i, j);
    forall k | 0 <= k < |next| ensures Extends(next[k], world) {
      if k != i && k != j { assert next[k] == peers[k]; }
    }
  }

  class Cluster {
    var peers: seq<Held>

    constructor (peers: seq<Held>)
      ensures this.peers == peers
    {
      this.peers := peers;
    }

    /** A sync exchange runs in both directions: afterwards both peers hold each other's entries. */
    method Exchange(from: nat, to: nat)
      requires from < |peers| && to < |peers|
      modifies this
      ensures peers == Exchanged(old(peers), from, to)
    {
      var union := peers[from] + peers[to];
      peers := peers[from := union];
      peers := peers[to := union];
    }

    /** Compare every peer's snapshot with the first one's. */
    method ConvergedAll(tree: Id) returns (r: bool)
      ensures r <==> Agree(peers, tree)
    {
      var reference: Option<Snapshot> := None;
      for i := 0 to |peers|
        invariant i == 0 <==> reference.None?
        invariant forall k :: 0 <= k < i ==> Some(RawSnapshot(peers[k], tree)) == reference
      {
        var snapshot := TakeSnapshot(peers[i], tree);
        if reference.None? {
          reference := Some(snapshot);
        } else if reference.value != snapshot {
          assert RawSnapshot(peers[0], tree) != RawSnapshot(peers[i], tree);
          return false;
        }
      }
      return true;
    }

    /** Peer `i` exchanges with every later peer: it and the last peer end up with everything from `i` on. */
    method Row(i: nat, ghost world: Held)
      requires i < |peers| && PartsOf(peers, world)
      modifies this
      ensures |peers| == |old(peers)| && PartsOf(peers, world)
      ensures peers[i].Keys == peers[|peers| - 1].Keys == IdsOf(old(peers), i, |old(peers)|)
      ensures forall k :: 0 <= k < i ==> peers[k] == old(peers)[k]
      ensures forall k :: i <= k < |peers| ==> peers[k].Keys <= IdsOf(old(peers), i, |old(peers)|)
    {
      ghost var start := peers;
      for j := i + 1 to |peers|
        invariant RowUpTo(start, i, j, peers, world)
      {
        RowNext(start, i, j, peers, world);
        Exchange(i, j);
      }
    }

    /** One sweep over all pairs leaves every peer with the union of all entry sets. */
    method Sweep(ghost world: Held)
      requires PartsOf(peers, world)
      modifies this
      ensures |peers| == |old(peers)| && PartsOf(peers, world)
      ensures AllHold(peers, IdsOf(old(peers), 0, |old(peers)|))
    {
      ghost var all := IdsOf(peers, 0, |peers|);
      var n := |peers|;
      IdsOfContains(peers, 0, n);
      for i := 0 to n
        invariant |peers| == n && PartsOf(peers, world)
        invariant forall k :: 0 <= k < n ==> peers[k].Keys <= all
        invariant i == 0 ==> peers == old(peers)
        invariant i > 0 ==> peers[n - 1].Keys == all && forall k :: 0 <= k < i ==> peers[k].Keys == all
      {
        ghost var before := peers;
        Row(i, world);
        IdsOfContains(before, i, n);
        IdsOfLeast(before, i, n, all);
        assert IdsOf(before, i, n) == all;
      }
    }

    /** Exchange until all snapshots agree, at most as many rounds as peers: it always ends in agreement. */
    method Converge(tree: Id, ghost world: Held) returns (r: bool)
      requires PartsOf(peers, world)
      modifies this
      ensures |peers| == |old(peers)| && PartsOf(peers, world)
      ensures r && Agree(peers, tree)
      ensures Agree(old(peers), tree) ==> peers == old(peers)
      ensures !Agree(old(peers), tree) ==> AllHold(peers, IdsOf(old(peers), 0, |old(peers)|))
    {
      var n := |peers|;
      ghost var all := IdsOf(peers, 0, n);
      for round := 0 to if n > 1 then n else 1
        invariant |peers| == n && PartsOf(peers, world)
        invariant round == 0 ==> peers == old(peers)
        invariant round > 0 ==> AllHold(peers, all) && !Agree(old(peers), tree)
      {
        var converged := ConvergedAll(tree);
        if converged { return true; }
        ghost var before := peers;
        Sweep(world);
        if round > 0 { SameIdsUnion(before, all); }
      }
      SameIdsAgree(peers, world, tree, all);
      r := ConvergedAll(tree);
    }
  }

  lemma SameIdsUnion(peers: seq<Held>, ids: set<Id>)
    requires AllHold(peers, ids) && peers != []
    ensures IdsOf(peers, 0, |peers|) == ids
  {
    IdsOfContains(peers, 0, |peers|);
    IdsOfLeast(peers, 0, |peers|, ids);
    assert peers[0].Keys <= IdsOf(peers, 0, |peers|);
  }

  /**
   When every peer is parent-complete, agreeing snapshots of a tree mean that no peer
   lacks an entry of it that another one holds, whatever else the peers hold.
   */
  lemma AgreementIsUnion(peers: seq<Held>, world: Held, tree: Id)
    requires PartsOf(peers, world) && Acyclic(world) && Agree(peers, tree)
    requires forall k :: 0 <= k < |peers| ==> ParentComplete(peers[k])
    ensures forall k, x :: 0 <= k < |peers| && x in IdsOf(peers, 0, |peers|) && Holds(world, tree, x) ==> x in peers[k]
  {
    forall k | 0 <= k < |peers|
      ensures forall x :: x in IdsOf(peers, 0, |peers|) && Holds(world, tree, x) ==> x in peers[k]
    {
      var lacks := set x | x in world && Holds(world, tree, x) && x !in peers[k];
      forall i | 0 <= i < |peers| ensures peers[i].Keys <= world.Keys - lacks {
        SnapshotIdentifiesState(world, peers[i], peers[k], tree);
        forall x | x in peers[i] ensures x in world && x !in lacks {
          assert x in TreePart(peers[i], tree) ==> x in TreePart(peers[k], tree);
        }
      }
      IdsOfLeast(peers, 0, |peers|, world.Keys - lacks);
    }
  }

  /** Without parent-completeness tips do not identify a state: these two peers agree and hold different entries. */
  lemma TipsAloneMislead(a: Held, b: Held)
    requires a == map[2 := Node(2, 1, [1])] && b == map[1 := Node(1, 0, []), 2 := Node(2, 1, [1])]
    ensures RawSnapshot(a, 1) == RawSnapshot(b, 1) && a != b
  {
    assert ChildOf(b, 1, 2, 1);
    assert RawTips(a, 1) == {2} && RawTips(b, 1) == {2};
    assert 1 in b && 1 !in a;
  }
}
