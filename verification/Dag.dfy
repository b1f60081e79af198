/**
 The parent DAG of a set of held entries: acyclicity, raw tips, ancestry, and
 the fact that everything held in a tree hangs below one of its raw tips.
 */
module Dag {
  import opened Entries
  import opened Walks
  import Sorting
  import opened Snapshots

  function ParentEdges(es: Held): Edges {
    map id | id in es :: Elems(es[id].parents)
  }

  /** Parent edges out of the members of `within` only. */
  function EdgesWithin(es: Held, within: set<Id>): Edges {
    map id | id in es && id in within :: Elems(es[id].parents)
  }

  /** Ancestor-or-equal of one of `tips`. */
  ghost predicate Ancestor(es: Held, tips: set<Id>, x: Id) {
    Reach(ParentEdges(es), tips, x)
  }

  ghost function Ancestry(es: Held, tips: set<Id>): set<Id> {
    ReachSet(ParentEdges(es), tips)
  }

  /** The children a children index lists for `p`. */
  function Kids(children: map<Id, seq<Id>>, p: Id): seq<Id> {
    if p in children then children[p] else []
  }

  /** `sub` holds exactly the entries `xs` of `es`. */
  ghost predicate Restricts(sub: Held, es: Held, xs: set<Id>) {
    sub.Keys == xs && Extends(sub, es)
  }

  /** For examples: an entry of the tree rooted at 1. */
  function Node(id: Id, height: U64, parents: seq<Id>): Entry {
    Entry(id, if id == 1 then None else Some(1), parents, None, height,
          if id == 1 then [SubTree(ROOT, [], None, None)] else [])
  }

  /** The same, with metadata that pins settings tips. */
  function PinnedNode(id: Id, height: U64, parents: seq<Id>, pin: RawData): Entry {
    Node(id, height, parents).(metadata := Some(pin))
  }

  // --- Acyclicity ---

  ghost predicate Falls(es: Held, rank: map<Id, nat>) {
    && es.Keys <= rank.Keys
    && forall x, p :: x in es && p in es[x].parents && p in es ==> rank[p] < rank[x]
  }

  /**
   An entry's bytes contain its parents' IDs and its ID is a hash of those
   bytes, so held entries can be numbered with parents first.
   */
  ghost predicate Acyclic(es: Held) {
    exists rank :: Falls(es, rank)
  }

  /** Heights strictly fall along held parent edges. */
  ghost predicate HeightsFall(es: Held) {
    forall x, p :: x in es && p in es[x].parents && p in es ==> es[p].height < es[x].height
  }

  lemma HeightsFallAcyclic(es: Held)
    requires HeightsFall(es)
    ensures Acyclic(es)
  {
    var rank := map x | x in es :: es[x].height as nat;
    assert Falls(es, rank);
  }

  lemma SubAcyclic(es: Held, es': Held)
    requires Acyclic(es') && Extends(es, es')
    ensures Acyclic(es)
  {
    var rank :| Falls(es', rank);
    assert Falls(es, rank);
  }

  lemma {:induction false} Lowest(rank: map<Id, nat>, xs: set<Id>) returns (x: Id)
    requires xs != {} && xs <= rank.Keys
    ensures x in xs && forall y :: y in xs ==> rank[x] <= rank[y]
    decreases xs
  {
    x :| x in xs;
    if xs != {x} {
      var y := Lowest(rank, xs - {x});
      if rank[y] < rank[x] { x := y; }
    }
  }

  lemma {:induction false} Highest(rank: map<Id, nat>, xs: set<Id>) returns (x: Id)
    requires xs != {} && xs <= rank.Keys
    ensures x in xs && forall y :: y in xs ==> rank[y] <= rank[x]
    decreases xs
  {
    x :| x in xs;
    if xs != {x} {
      var y := Highest(rank, xs - {x});
      if rank[x] < rank[y] { x := y; }
    }
  }

  /** Every non-empty set of held entries has a member with no parent in it. */
  lemma Minimal(es: Held, xs: set<Id>) returns (x: Id)
    requires Acyclic(es) && xs != {} && xs <= es.Keys
    ensures x in xs && forall p :: p in es[x].parents ==> p !in xs
  {
    var rank :| Falls(es, rank);
    x := Lowest(rank, xs);
  }

  /** ... and a member with no child in it. */
  lemma Maximal(es: Held, xs: set<Id>) returns (x: Id)
    requires Acyclic(es) && xs != {} && xs <= es.Keys
    ensures x in xs && forall y :: y in xs ==> x !in es[y].parents
  {
    var rank :| Falls(es, rank);
    x := Highest(rank, xs);
  }

  ghost predicate ParentsIn(es: Held, x: Id, good: set<Id>) {
    x in es && forall p :: p in es[x].parents && p in es ==> p in good
  }

  /** Induction from parents to children. */
  lemma ParentInduction(es: Held, good: set<Id>)
    requires Acyclic(es)
    requires forall x :: ParentsIn(es, x, good) ==> x in good
    ensures es.Keys <= good
  {
    var bad := set x | x in es && x !in good;
    if bad != {} {
      var x := Minimal(es, bad);
      assert ParentsIn(es, x, good);
    }
    forall x | x in es ensures x in good { assert x !in bad; }
  }

  lemma NotOwnParent(es: Held, x: Id)
    requires Acyclic(es) && x in es
    ensures x !in es[x].parents
  {
    var y := Minimal(es, {x});
  }

  // --- Tips ---

  predicate Holds(es: Held, tree: Id, id: Id) {
    id in es && es[id].InTree(tree)
  }

  predicate ChildOf(es: Held, tree: Id, c: Id, id: Id) {
    Holds(es, tree, c) && id in es[c].parents
  }

  function RawTips(es: Held, tree: Id): set<Id> {
    set id | id in es && Holds(es, tree, id) && !exists c | c in es :: ChildOf(es, tree, c, id)
  }

  ghost function RawSnapshot(es: Held, tree: Id): Snapshot {
    Of(RawTips(es, tree))
  }

  /** The backend's `snapshot`. */
  method TakeSnapshot(es: Held, tree: Id) returns (r: Snapshot)
    ensures r == RawSnapshot(es, tree)
  {
    var tips := Sorting.Listing(BY_ID, RawTips(es, tree));
    r := Snapshot(tips);
  }

  /**
   Climbing inside `within`: if each member that is not a seed has a child in the
   set, every member is reached from the seeds without ever leaving the set.
   */
  lemma ClimbWithin(es: Held, within: set<Id>, seeds: set<Id>)
    requires Acyclic(es) && within <= es.Keys
    requires forall x :: x in within && x !in seeds ==> exists c :: c in within && x in es[c].parents
    ensures forall x :: x in within ==> Reach(EdgesWithin(es, within), seeds, x)
  {
    var g := EdgesWithin(es, within);
    var bad := set x | x in within && !Reach(g, seeds, x);
    if bad != {} {
      var x := Maximal(es, bad);
      if x in seeds {
        ReachSeed(g, seeds, x);
      } else {
        var c :| c in within && x in es[c].parents;
        assert Step(g, c, x);
        ReachStep(g, seeds, c, x);
      }
      assert false;
    }
    forall x | x in within ensures Reach(g, seeds, x) { assert x !in bad; }
  }

  lemma ClimbTo(es: Held, within: set<Id>, seeds: set<Id>)
    requires Acyclic(es) && within <= es.Keys
    requires forall x :: x in within && x !in seeds ==> exists c :: c in within && x in es[c].parents
    ensures forall x :: x in within ==> Ancestor(es, seeds, x)
  {
    ClimbWithin(es, within, seeds);
    ReachMono(EdgesWithin(es, within), ParentEdges(es), seeds, seeds);
  }

  /** Everything held in a tree is an ancestor-or-equal of one of its raw tips. */
  lemma Climb(es: Held, tree: Id)
    requires Acyclic(es)
    ensures forall x :: Holds(es, tree, x) ==> Ancestor(es, RawTips(es, tree), x)
  {
    var tips := RawTips(es, tree);
    var within := set x | x in es && Holds(es, tree, x);
    forall x | x in within && x !in tips ensures exists c :: c in within && x in es[c].parents {
      var c :| c in es && ChildOf(es, tree, c, x);
      assert c in within;
    }
    ClimbTo(es, within, tips);
  }

  lemma AncestorMono(es: Held, es': Held, tips: set<Id>)
    requires Extends(es, es')
    ensures forall x :: Ancestor(es, tips, x) ==> Ancestor(es', tips, x)
  {
    ReachMono(ParentEdges(es), ParentEdges(es'), tips, tips);
  }

  /** Ancestors are no higher than the tips they are reached from. */
  lemma AncestorHeight(es: Held, tip: Id, x: Id)
    requires HeightsFall(es) && tip in es && x in es
    requires Ancestor(es, {tip}, x)
    ensures es[x].height <= es[tip].height
  {
    ReachInduct(ParentEdges(es), {tip}, iset y | y !in es || es[y].height <= es[tip].height);
  }

  // --- A snapshot identifies a state ---

  ghost predicate ParentComplete(es: Held) {
    forall x, p :: x in es && p in es[x].parents ==> p in es
  }

  /** The held entries of one tree. */
  ghost function TreePart(es: Held, tree: Id): Held {
    map x | x in es && Holds(es, tree, x) :: es[x]
  }

  /** Ancestors of held entries stay held in a parent-complete store. */
  lemma CompleteAncestry(es: Held, tips: set<Id>)
    requires ParentComplete(es) && tips <= es.Keys
    ensures forall x :: Ancestor(es, tips, x) ==> x in es
  {
    ReachInduct(ParentEdges(es), tips, iset x | x in es);
  }

  lemma SameTipsContain(world: Held, es: Held, es': Held, tree: Id)
    requires Acyclic(world) && Extends(es, world) && Extends(es', world)
    requires ParentComplete(es') && RawTips(es, tree) <= es'.Keys
    ensures forall x :: Holds(es, tree, x) ==> Holds(es', tree, x)
  {
    SubAcyclic(es, world);
    Climb(es, tree);
    var tips := RawTips(es, tree);
    var c := iset x | x in es';
    forall x, y | x in c && Step(ParentEdges(es), x, y) ensures y in c {
      assert es[x] == es'[x];
    }
    ReachInduct(ParentEdges(es), tips, c);
  }

  lemma TreePartTips(es: Held, tree: Id)
    ensures RawTips(TreePart(es, tree), tree) == RawTips(es, tree)
  {
    forall c, x ensures ChildOf(TreePart(es, tree), tree, c, x) <==> ChildOf(es, tree, c, x) {}
  }

  /** Two parent-complete stores have equal snapshots of a tree exactly when they hold the same entries of it. */
  lemma SnapshotIdentifiesState(world: Held, es: Held, es': Held, tree: Id)
    requires Acyclic(world) && Extends(es, world) && Extends(es', world)
    requires ParentComplete(es) && ParentComplete(es')
    ensures RawSnapshot(es, tree) == RawSnapshot(es', tree) <==> TreePart(es, tree) == TreePart(es', tree)
  {
    SetEquality(RawSnapshot(es, tree), RawSnapshot(es', tree));
    TreePartTips(es, tree);
    TreePartTips(es', tree);
    if RawTips(es, tree) == RawTips(es', tree) {
      SameTipsContain(world, es, es', tree);
      SameTipsContain(world, es', es, tree);
      assert TreePart(es, tree).Keys == TreePart(es', tree).Keys;
    }
  }
}
