/**
 `verified_frontier`: one forward pass over the tree in (height, ID) order that
 yields the tips of its all-Verified prefix, the default read view.
 */
module Frontier {
  import opened Entries
  import opened Walks
  import opened Sorting
  import opened Dag

  function TreeKey(es: Held): Key {
    (id: Id) => if id in es then es[id].height else 0
  }

  function TreeIds(es: Held, tree: Id): set<Id> {
    set id | id in es && Holds(es, tree, id)
  }

  /** A parent-closed set of Verified entries of the tree. */
  ghost predicate Prefix(s: Store, tree: Id, c: set<Id>) {
    forall x :: x in c ==> Holds(s.entries, tree, x) && s.Is(x, Verified) && Elems(s.entries[x].parents) <= c
  }

  /** ... in which every parent also sorts before its child. */
  ghost predicate SortedPrefix(s: Store, tree: Id, c: set<Id>) {
    && Prefix(s, tree, c)
    && forall x, p :: x in c && p in s.entries[x].parents ==> Before(TreeKey(s.entries), p, x)
  }

  ghost predicate LargestSortedPrefix(s: Store, tree: Id, c: set<Id>) {
    && SortedPrefix(s, tree, c)
    && forall d :: SortedPrefix(s, tree, d) ==> d <= c
  }

  /** The union of all prefixes, itself the largest one. */
  ghost function MaxPrefix(s: Store, tree: Id): (r: set<Id>)
    ensures Prefix(s, tree, r)
    ensures forall c :: Prefix(s, tree, c) ==> c <= r
  {
    var r := set x | x in s.entries && exists c :: Prefix(s, tree, c) && x in c;
    assert Prefix(s, tree, r) by {
      forall x | x in r ensures Holds(s.entries, tree, x) && s.Is(x, Verified) && Elems(s.entries[x].parents) <= r {
        var c :| Prefix(s, tree, c) && x in c;
      }
    }
    r
  }

  ghost predicate Covered(s: Store, c: set<Id>, x: Id) {
    exists y :: y in c && y in s.entries && x in s.entries[y].parents
  }

  /** Members of the prefix that are nobody's parent in it. */
  ghost function TipsOf(s: Store, c: set<Id>): set<Id> {
    set x | x in c && !Covered(s, c, x)
  }

  lemma PrefixNext(s: Store, tree: Id, order: seq<Id>, i: nat, inPrefix: set<Id>)
    requires Ordered(TreeKey(s.entries), order) && Elems(order) == TreeIds(s.entries, tree) && i < |order|
    requires forall d, x :: SortedPrefix(s, tree, d) && x in d && x in order[..i] ==> x in inPrefix
    ensures forall d :: SortedPrefix(s, tree, d) && order[i] in d ==> Elems(s.entries[order[i]].parents) <= inPrefix
  {
    var x := order[i];
    forall d, p | SortedPrefix(s, tree, d) && x in d && p in s.entries[x].parents ensures p in inPrefix {
      assert p in Elems(s.entries[x].parents);
      assert Holds(s.entries, tree, p) && p in Elems(order);
      var k :| 0 <= k < |order| && order[k] == p;
      assert Before(TreeKey(s.entries), order[k], order[i]);
      assert k < i;
    }
  }

  /** The pass part way: of the first `i` entries, `c` are in the prefix. */
  ghost predicate Passing(s: Store, tree: Id, order: seq<Id>, i: nat, c: set<Id>)
    requires i <= |order|
  {
    && c <= Elems(order[..i]) && SortedPrefix(s, tree, c)
    && forall d, x :: SortedPrefix(s, tree, d) && x in d && x in order[..i] ==> x in c
  }

  lemma PassingNext(s: Store, tree: Id, order: seq<Id>, i: nat, c: set<Id>)
    requires s.Valid() && Ordered(TreeKey(s.entries), order) && Elems(order) == TreeIds(s.entries, tree) && i < |order|
    requires Passing(s, tree, order, i, c)
    ensures order[i] in s.entries
    ensures s.Is(order[i], Verified) && Elems(s.entries[order[i]].parents) <= c ==>
              && Passing(s, tree, order, i + 1, c + {order[i]})
              && forall x :: Covered(s, c + {order[i]}, x) <==> Covered(s, c, x) || x in s.entries[order[i]].parents
    ensures !(s.Is(order[i], Verified) && Elems(s.entries[order[i]].parents) <= c) ==> Passing(s, tree, order, i + 1, c)
  {
    var id := order[i];
    TakeNext(order, i);
    assert id in Elems(order);
    PrefixNext(s, tree, order, i, c);
    if s.Is(id, Verified) && Elems(s.entries[id].parents) <= c {
      PrefixGrows(s, tree, order, i, c);
    }
  }

  /** The forward pass: which entries are in the prefix, and which are parents of one that is. */
  method PrefixPass(s: Store, tree: Id, order: seq<Id>) returns (inPrefix: set<Id>, covered: set<Id>)
    requires s.Valid() && order == SortedSet(TreeKey(s.entries), TreeIds(s.entries, tree))
    ensures LargestSortedPrefix(s, tree, inPrefix)
    ensures forall x :: x in covered <==> Covered(s, inPrefix, x)
  {
    assert Elems(order) == TreeIds(s.entries, tree);
    inPrefix, covered := {}, {};
    for i := 0 to |order|
      invariant Passing(s, tree, order, i, inPrefix)
      invariant forall x :: x in covered <==> Covered(s, inPrefix, x)
    {
      var id := order[i];
      PassingNext(s, tree, order, i, inPrefix);
      if s.status[id] == Verified && Elems(s.entries[id].parents) <= inPrefix {
        inPrefix := inPrefix + {id};
        covered := covered + Elems(s.entries[id].parents);
      }
    }
    PassingDone(s, tree, order, inPrefix);
  }

  lemma PassingDone(s: Store, tree: Id, order: seq<Id>, c: set<Id>)
    requires Elems(order) == TreeIds(s.entries, tree) && Passing(s, tree, order, |order|, c)
    ensures LargestSortedPrefix(s, tree, c)
  {
    assert order[..|order|] == order;
    forall d | SortedPrefix(s, tree, d) ensures d <= c {
      forall x | x in d ensures x in c { assert x in Elems(order); }
    }
  }

  method VerifiedFrontier(s: Store, tree: Id) returns (frontier: seq<Id>, ghost prefix: set<Id>)
    requires s.Valid()
    ensures LargestSortedPrefix(s, tree, prefix)
    ensures Ordered(TreeKey(s.entries), frontier) && Elems(frontier) == TipsOf(s, prefix)
  {
    var order := Listing(TreeKey(s.entries), TreeIds(s.entries, tree));
    var inPrefix, covered := PrefixPass(s, tree, order);
    prefix := inPrefix;
    frontier := Filter(TreeKey(s.entries), order, inPrefix, covered);
    forall x ensures x in frontier <==> x in TipsOf(s, prefix) {
      if x in prefix { assert x in TreeIds(s.entries, tree); }
    }
  }

  method Filter(key: Key, order: seq<Id>, inPrefix: set<Id>, covered: set<Id>) returns (r: seq<Id>)
    requires Ordered(key, order)
    ensures Ordered(key, r)
    ensures forall x :: x in r <==> x in order && x in inPrefix && x !in covered
  {
    r := [];
    for i := 0 to |order|
      invariant Ordered(key, r)
      invariant forall x :: x in r <==> x in order[..i] && x in inPrefix && x !in covered
    {
      TakeNext(order, i);
      if order[i] in inPrefix && order[i] !in covered {
        forall k | 0 <= k < |r| ensures Before(key, r[k], order[i]) {
          assert r[k] in order[..i];
          ghost var j :| 0 <= j < i && order[j] == r[k];
        }
        r := r + [order[i]];
      }
    }
    assert order[..|order|] == order;
  }

  lemma PrefixGrows(s: Store, tree: Id, order: seq<Id>, i: nat, c: set<Id>)
    requires s.Valid() && Ordered(TreeKey(s.entries), order) && Elems(order) == TreeIds(s.entries, tree) && i < |order|
    requires SortedPrefix(s, tree, c) && c <= Elems(order[..i])
    requires s.Is(order[i], Verified) && Elems(s.entries[order[i]].parents) <= c
    ensures SortedPrefix(s, tree, c + {order[i]})
    ensures forall x :: Covered(s, c + {order[i]}, x) <==> Covered(s, c, x) || x in s.entries[order[i]].parents
  {
    var id := order[i];
    assert id in Elems(order);
    forall p | p in s.entries[id].parents ensures Before(TreeKey(s.entries), p, id) {
      assert p in Elems(s.entries[id].parents);
      var k :| 0 <= k < i && order[k] == p;
    }
  }

  // --- What the frontier is ---

  /** The pass finds the whole prefix exactly when parents sort before children throughout it. */
  lemma OnePassExact(s: Store, tree: Id, prefix: set<Id>)
    requires s.Valid() && LargestSortedPrefix(s, tree, prefix)
    ensures prefix == MaxPrefix(s, tree) <==>
            forall x, p :: x in MaxPrefix(s, tree) && p in s.entries[x].parents ==> Before(TreeKey(s.entries), p, x)
  {
    if forall x, p :: x in MaxPrefix(s, tree) && p in s.entries[x].parents ==> Before(TreeKey(s.entries), p, x) {
      assert SortedPrefix(s, tree, MaxPrefix(s, tree));
    }
  }

  /** Heights are self-declared: a Verified child sorted before its Verified parent is missed by the pass. */
  lemma EarlyChildMissed(s: Store, prefix: set<Id>)
    requires s.entries == map[2 := Entry(2, Some(5), [5], None, 0, []),
                              5 := Entry(5, None, [], None, 0, [SubTree(ROOT, [], None, None)])]
    requires s.status == map[2 := Verified, 5 := Verified]
    requires LargestSortedPrefix(s, 5, prefix)
    ensures 2 in MaxPrefix(s, 5) && 2 !in prefix
  {
    assert Prefix(s, 5, {2, 5});
    assert 5 in s.entries[2].parents && !Before(TreeKey(s.entries), 5, 2);
  }

  /** With heights that fall along parent edges it always does. */
  lemma HeightsSort(s: Store, tree: Id, prefix: set<Id>)
    requires s.Valid() && HeightsFall(s.entries) && LargestSortedPrefix(s, tree, prefix)
    ensures prefix == MaxPrefix(s, tree)
  {
    OnePassExact(s, tree, prefix);
    forall x, p | x in MaxPrefix(s, tree) && p in s.entries[x].parents ensures Before(TreeKey(s.entries), p, x) {
      assert p in Elems(s.entries[x].parents);
    }
  }

  lemma TipsReachPrefix(s: Store, tree: Id, c: set<Id>)
    requires s.Valid() && Acyclic(s.entries) && Prefix(s, tree, c)
    ensures forall x :: x in c ==> Ancestor(s.entries, TipsOf(s, c), x)
  {
    var es, tips := s.entries, TipsOf(s, c);
    forall x | x in c && x !in tips ensures exists y :: y in c && x in es[y].parents {
      assert Covered(s, c, x);
    }
    ClimbTo(es, c, tips);
  }

  lemma PrefixHoldsAncestors(s: Store, tree: Id, c: set<Id>, tips: set<Id>)
    requires Prefix(s, tree, c) && tips <= c
    ensures forall x :: Ancestor(s.entries, tips, x) ==> x in c
  {
    ReachInduct(ParentEdges(s.entries), tips, iset x | x in c);
  }

  /** The frontier's ancestry is the prefix, nothing more and nothing less. */
  lemma FrontierAncestry(s: Store, tree: Id, c: set<Id>)
    requires s.Valid() && Acyclic(s.entries) && Prefix(s, tree, c)
    ensures Ancestry(s.entries, TipsOf(s, c)) == c
  {
    TipsReachPrefix(s, tree, c);
    PrefixHoldsAncestors(s, tree, c, TipsOf(s, c));
  }

  /** No frontier tip is an ancestor of another. */
  lemma FrontierAntichain(s: Store, tree: Id, c: set<Id>, x: Id, y: Id)
    requires s.Valid() && Prefix(s, tree, c)
    requires x in TipsOf(s, c) && y in TipsOf(s, c) && Ancestor(s.entries, {y}, x)
    ensures x == y
  {
    if x != y {
      var z := LastStep(ParentEdges(s.entries), {y}, x);
      PrefixHoldsAncestors(s, tree, c, {y});
      assert false;
    }
  }

  /** Nothing is visible until verification reaches the root: a non-empty prefix contains it. */
  lemma RootInPrefix(s: Store, tree: Id, c: set<Id>)
    requires s.Valid() && Acyclic(s.entries) && AllValidate(s.entries)
    requires Prefix(s, tree, c) && c != {}
    ensures tree in c
  {
    var x := Minimal(s.entries, c);
    var e := s.entries[x];
    FirstIn(e.parents);
    assert forall p :: p in e.parents ==> p in Elems(e.parents);
    assert e.Validates();
  }

  /** With an ancestor-closed Verified set inside the tree, the default view shows every Verified entry. */
  lemma MaxPrefixIsAllVerified(s: Store, tree: Id, c: set<Id>)
    requires s.Valid() && c <= s.entries.Keys
    requires forall x :: x in c <==> Holds(s.entries, tree, x) && s.Is(x, Verified)
    requires forall x, p :: x in c && p in s.entries[x].parents ==> p in c
    ensures MaxPrefix(s, tree) == c
  {
    assert Prefix(s, tree, c);
  }
}
