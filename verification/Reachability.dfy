/**
 `check_targets_reachable_from`: is every target an ancestor-or-equal of some
 `from` tip? A walk bounded below by the lowest target, answering yes, a proven
 no, or "not enough local history" with the entries that blocked the decision.
 */
module Reachability {
  import opened Entries
  import opened Walks
  import opened Sorting
  import opened Snapshots
  import opened Dag
  import opened Frontier

  datatype Reachability = Reachable | Unreachable | Indeterminate(missing: seq<Id>)

  // --- What the answer means ---

  /** `t` is joined to one of `from` by a chain of held entries of the tree. */
  ghost predicate Joined(es: Held, tree: Id, from: set<Id>, t: Id) {
    Holds(es, tree, t) && Reach(EdgesWithin(es, TreeIds(es, tree)), from, t)
  }

  /** The lowest height among the held targets. */
  function Floor(es: Held, targets: seq<Id>): U64 {
    if targets == [] then U64_MAX
    else
      var rest := Floor(es, targets[1..]);
      if targets[0] in es && es[targets[0]].height < rest then es[targets[0]].height else rest
  }

  /** Only entries of the tree strictly above the floor are expanded. */
  function AboveEdges(es: Held, tree: Id, floor: U64): Edges {
    map id | id in es && Holds(es, tree, id) && es[id].height > floor :: Elems(es[id].parents)
  }

  ghost predicate Met(es: Held, tree: Id, floor: U64, from: set<Id>, t: Id) {
    Holds(es, tree, t) && Reach(AboveEdges(es, tree, floor), from, t)
  }

  predicate Foreign(es: Held, tree: Id, id: Id) {
    id in es && !es[id].InTree(tree)
  }

  function FirstForeign(es: Held, tree: Id, ids: seq<Id>): Option<Id> {
    if ids == [] then None
    else if Foreign(es, tree, ids[0]) then Some(ids[0])
    else FirstForeign(es, tree, ids[1..])
  }

  /** The absent IDs the walk ran into. */
  ghost function Missing(es: Held, tree: Id, from: seq<Id>, targets: seq<Id>): set<Id> {
    set x | x in Elems(targets) + ReachSet(AboveEdges(es, tree, Floor(es, targets)), Elems(from)) && x !in es
  }

  ghost predicate AllMet(es: Held, tree: Id, from: seq<Id>, targets: seq<Id>) {
    forall t :: t in targets ==> Met(es, tree, Floor(es, targets), Elems(from), t)
  }

  ghost function Answer(es: Held, tree: Id, from: seq<Id>, targets: seq<Id>): Result<Reachability, Error> {
    if from == [] && targets != [] then Ok(Unreachable)
    else if FirstForeign(es, tree, targets).Some? then Err(EntryNotInTree(FirstForeign(es, tree, targets).value, tree))
    else if FirstForeign(es, tree, from).Some? then Err(EntryNotInTree(FirstForeign(es, tree, from).value, tree))
    else if AllMet(es, tree, from, targets) then Ok(Reachable)
    else if Missing(es, tree, from, targets) == {} then Ok(Unreachable)
    else Ok(Indeterminate(SortedSet(BY_ID, Missing(es, tree, from, targets))))
  }

  // --- The bounded walk ---

  lemma {:induction false} FirstForeignAt(es: Held, tree: Id, ids: seq<Id>, i: nat)
    requires i <= |ids| && forall x :: x in Elems(ids[..i]) ==> !Foreign(es, tree, x)
    ensures i < |ids| && Foreign(es, tree, ids[i]) ==> FirstForeign(es, tree, ids) == Some(ids[i])
    ensures i == |ids| ==> FirstForeign(es, tree, ids) == None
  {
    if i == 0 {
    } else {
      assert ids[0] in Elems(ids[..i]);
      assert forall x :: x in ids[1..][..i - 1] ==> x in Elems(ids[..i]);
      FirstForeignAt(es, tree, ids[1..], i - 1);
    }
  }

  lemma {:induction false} NoForeign(es: Held, tree: Id, ids: seq<Id>)
    ensures FirstForeign(es, tree, ids) == None <==> forall x :: x in ids ==> !Foreign(es, tree, x)
    ensures FirstForeign(es, tree, ids).Some? ==>
              FirstForeign(es, tree, ids).value in ids && Foreign(es, tree, FirstForeign(es, tree, ids).value)
  {
    if ids == [] {
    } else {
      NoForeign(es, tree, ids[1..]);
    }
  }

  lemma {:induction false} FloorNext(es: Held, targets: seq<Id>, t: Id)
    ensures Floor(es, targets + [t]) ==
            if t in es && es[t].height < Floor(es, targets) then es[t].height else Floor(es, targets)
  {
    if targets == [] {
      assert targets + [t] == [t];
      assert Floor(es, [t][1..]) == U64_MAX;
    } else {
      assert (targets + [t])[1..] == targets[1..] + [t];
      FloorNext(es, targets[1..], t);
    }
  }

  lemma {:induction false} FloorBelow(es: Held, targets: seq<Id>)
    ensures forall t :: t in targets && t in es ==> Floor(es, targets) <= es[t].height
  {
    if targets == [] {
    } else {
      FloorBelow(es, targets[1..]);
    }
  }

  /** Validate the targets and take the height floor. */
  method TakeFloor(es: Held, tree: Id, targets: seq<Id>) returns (foreign: Option<Id>, floor: U64, missing: seq<Id>)
    ensures foreign == FirstForeign(es, tree, targets)
    ensures foreign.None? ==> floor == Floor(es, targets)
    ensures foreign.None? ==> forall x :: x in missing <==> x in targets && x !in es
  {
    floor, missing := U64_MAX, [];
    assert targets[..0] == [];
    for i := 0 to |targets|
      invariant forall x :: x in Elems(targets[..i]) ==> !Foreign(es, tree, x)
      invariant floor == Floor(es, targets[..i])
      invariant forall x :: x in missing <==> x in targets[..i] && x !in es
    {
      var target := targets[i];
      TakeNext(targets, i);
      FloorNext(es, targets[..i], target);
      if target in es {
        if !es[target].InTree(tree) {
          FirstForeignAt(es, tree, targets, i);
          return Some(target), floor, missing;
        }
        if es[target].height < floor { floor := es[target].height; }
      } else {
        missing := missing + [target];
      }
    }
    FirstForeignAt(es, tree, targets, |targets|);
    assert targets[..|targets|] == targets;
    return None, floor, missing;
  }

  ghost function Absent(es: Held, ids: set<Id>): set<Id> {
    set x | x in ids && x !in es
  }

  /** The state of the walk: `visited` and the absent seeds have been dealt with, `stack` is pending. */
  ghost predicate Walking(es: Held, g: Edges, seeds: set<Id>, visited: set<Id>, stack: seq<Id>) {
    Exploring(g, seeds, visited + Absent(es, seeds), Elems(stack))
  }

  lemma AbsentAdd(es: Held, ids: set<Id>, x: Id)
    ensures Absent(es, ids + {x}) == if x in es then Absent(es, ids) else Absent(es, ids) + {x}
  {
  }

  lemma ElemsConcat(s: seq<Id>, t: seq<Id>)
    ensures Elems(s + t) == Elems(s) + Elems(t)
  {
  }

  lemma SeedHeld(es: Held, g: Edges, seeds: set<Id>, visited: set<Id>, stack: seq<Id>, tip: Id, pushed: seq<Id>)
    requires Walking(es, g, seeds, visited, stack) && tip in es
    requires forall y :: Step(g, tip, y) ==> tip in visited || y in pushed
    requires forall y :: y in pushed ==> Step(g, tip, y)
    ensures Walking(es, g, seeds + {tip}, visited + {tip}, stack + pushed)
  {
    var absent, pending, next := Absent(es, seeds), Elems(stack), Elems(pushed);
    ElemsConcat(stack, pushed);
    AbsentAdd(es, seeds, tip);
    SeedDone(g, seeds, visited, absent, pending, tip, next);
  }

  lemma SeedDone(g: Edges, seeds: set<Id>, visited: set<Id>, absent: set<Id>, pending: set<Id>, tip: Id, next: set<Id>)
    requires Exploring(g, seeds, visited + absent, pending)
    requires forall y :: Step(g, tip, y) ==> tip in visited || y in next
    requires forall y :: y in next ==> Step(g, tip, y)
    ensures Exploring(g, seeds + {tip}, visited + {tip} + absent, pending + next)
  {
    ExploreSeed(g, seeds, visited + absent, pending, tip, pending + next);
    assert visited + absent + {tip} == visited + {tip} + absent;
  }

  lemma SeedAbsent(es: Held, g: Edges, seeds: set<Id>, visited: set<Id>, stack: seq<Id>, tip: Id)
    requires Walking(es, g, seeds, visited, stack) && tip !in es && tip !in g
    ensures Walking(es, g, seeds + {tip}, visited, stack)
  {
    var done := visited + Absent(es, seeds);
    ExploreSeed(g, seeds, done, Elems(stack), tip, Elems(stack));
    AbsentAdd(es, seeds, tip);
    assert done + {tip} == visited + (Absent(es, seeds) + {tip});
  }

  /** The tips `seeds` have been seeded. */
  ghost predicate Seeded(es: Held, tree: Id, floor: U64, seeds: set<Id>, visited: set<Id>, stack: seq<Id>) {
    && Walking(es, AboveEdges(es, tree, floor), seeds, visited, stack)
    && visited <= es.Keys
    && forall x :: x in seeds ==> !Foreign(es, tree, x)
  }

  lemma SeededNext(es: Held, tree: Id, floor: U64, seeds: set<Id>, visited: set<Id>, stack: seq<Id>, tip: Id,
                   pushed: seq<Id>)
    requires Seeded(es, tree, floor, seeds, visited, stack) && !Foreign(es, tree, tip)
    requires pushed == if tip in es && tip !in visited && es[tip].height > floor then es[tip].parents else []
    ensures Seeded(es, tree, floor, seeds + {tip}, if tip in es then visited + {tip} else visited, stack + pushed)
  {
    WalkingNext(es, tree, floor, seeds, visited, stack, tip, pushed);
  }

  lemma WalkingNext(es: Held, tree: Id, floor: U64, seeds: set<Id>, visited: set<Id>, stack: seq<Id>, tip: Id,
                    pushed: seq<Id>)
    requires Walking(es, AboveEdges(es, tree, floor), seeds, visited, stack) && !Foreign(es, tree, tip)
    requires pushed == if tip in es && tip !in visited && es[tip].height > floor then es[tip].parents else []
    ensures Walking(es, AboveEdges(es, tree, floor), seeds + {tip},
                    if tip in es then visited + {tip} else visited, stack + pushed)
  {
    if tip in es {
      SeedHeld(es, AboveEdges(es, tree, floor), seeds, visited, stack, tip, pushed);
    } else {
      assert stack + pushed == stack;
      SeedAbsent(es, AboveEdges(es, tree, floor), seeds, visited, stack, tip);
    }
  }

  /** Seed the walk with the `from` tips. */
  method SeedWalk(es: Held, tree: Id, from: seq<Id>, floor: U64, missing0: seq<Id>)
    returns (foreign: Option<Id>, visited: set<Id>, stack: seq<Id>, missing: seq<Id>)
    ensures foreign == FirstForeign(es, tree, from)
    ensures foreign.None? ==>
              Walking(es, AboveEdges(es, tree, floor), Elems(from), visited, stack) && visited <= es.Keys
    ensures foreign.None? ==> forall x :: x in missing <==> x in missing0 || (x in from && x !in es)
  {
    visited, stack, missing := {}, [], missing0;
    SeededStart(es, tree, floor);
    assert Elems(from[..0]) == {};
    for i := 0 to |from|
      invariant Seeded(es, tree, floor, Elems(from[..i]), visited, stack)
      invariant forall x :: x in missing <==> x in missing0 || (x in from[..i] && x !in es)
    {
      var tip := from[i];
      TakeNext(from, i);
      if tip in es && !es[tip].InTree(tree) {
        FirstForeignAt(es, tree, from, i);
        return Some(tip), visited, stack, missing;
      }
      var pushed := if tip in es && tip !in visited && es[tip].height > floor then es[tip].parents else [];
      SeededNext(es, tree, floor, Elems(from[..i]), visited, stack, tip, pushed);
      ElemsNext(from, i);
      stack := stack + pushed;
      if tip in es {
        visited := visited + {tip};
      } else {
        missing := missing + [tip];
      }
    }
    FirstForeignAt(es, tree, from, |from|);
    assert from[..|from|] == from;
    foreign := None;
  }

  lemma SeededStart(es: Held, tree: Id, floor: U64)
    ensures Seeded(es, tree, floor, {}, {}, [])
  {
    ExploreStart(AboveEdges(es, tree, floor), {});
    assert Elems([]) == {} && Absent(es, {}) == {};
  }

  method CheckTargetsReachableFrom(es: Held, tree: Id, from: seq<Id>, targets: seq<Id>)
    returns (r: Result<Reachability, Error>)
    ensures r == Answer(es, tree, from, targets)
  {
    if from == [] && targets != [] { return Ok(Unreachable); }
    var foreign, floor, missing := TakeFloor(es, tree, targets);
    if foreign.Some? { return Err(EntryNotInTree(foreign.value, tree)); }
    var visited, stack;
    foreign, visited, stack, missing := SeedWalk(es, tree, from, floor, missing);
    if foreign.Some? { return Err(EntryNotInTree(foreign.value, tree)); }
    NoForeign(es, tree, targets);
    var unmet;
    unmet, missing := Descend(es, tree, floor, Elems(from), Elems(targets), visited, stack, missing);
    if unmet == {} {
      return Ok(Reachable);
    } else if missing != [] {
      SortDedupIsSortedSet(BY_ID, missing);
      assert Elems(missing) == Missing(es, tree, from, targets);
      return Ok(Indeterminate(SortDedup(BY_ID, missing)));
    } else {
      return Ok(Unreachable);
    }
  }

  lemma WalkDown(es: Held, g: Edges, from: set<Id>, visited: set<Id>, stack: seq<Id>, pushed: seq<Id>)
    requires stack != [] && Walking(es, g, from, visited, stack)
    requires forall y :: Step(g, stack[|stack| - 1], y) <==> y in pushed
    ensures Walking(es, g, from, visited + {stack[|stack| - 1]}, stack[..|stack| - 1] + pushed)
  {
    ExploreTop(g, from, visited + Absent(es, from), stack, pushed);
    assert visited + Absent(es, from) + {stack[|stack| - 1]} == visited + {stack[|stack| - 1]} + Absent(es, from);
  }

  /** Pop until every target is met or nothing is left to expand. */
  method Descend(es: Held, tree: Id, floor: U64, ghost from: set<Id>, targets: set<Id>,
                 visited0: set<Id>, stack0: seq<Id>, missing0: seq<Id>)
    returns (unmet: set<Id>, missing: seq<Id>)
    requires Walking(es, AboveEdges(es, tree, floor), from, visited0, stack0)
    requires visited0 <= es.Keys
    requires forall t :: t in targets ==> !Foreign(es, tree, t)
    requires forall x :: x in missing0 <==> x !in es && (x in targets || x in from)
    ensures unmet == {} <==> forall t :: t in targets ==> Met(es, tree, floor, from, t)
    ensures unmet != {} ==>
              forall x :: x in missing <==> (x in targets || Reach(AboveEdges(es, tree, floor), from, x)) && x !in es
  {
    ghost var g := AboveEdges(es, tree, floor);
    var visited, stack := visited0, stack0;
    missing := missing0;
    unmet := targets - visited;
    while unmet != {} && stack != []
      invariant Walking(es, g, from, visited, stack)
      invariant forall t :: t in unmet <==> t in targets && !(t in visited && t in es)
      invariant forall x :: x in missing <==> x !in es && (x in targets || x in from || x in visited)
      decreases es.Keys - visited, |stack|
    {
      var current := stack[|stack| - 1];
      if current in visited {
        SkipTop(g, from, visited + Absent(es, from), stack);
        stack := stack[..|stack| - 1];
        continue;
      }
      var pushed := [];
      if current in es {
        if es[current].InTree(tree) {
          unmet := unmet - {current};
          if es[current].height > floor { pushed := es[current].parents; }
        }
      } else {
        missing := missing + [current];
      }
      WalkDown(es, g, from, visited, stack, pushed);
      stack := stack[..|stack| - 1] + pushed;
      visited := visited + {current};
    }
    if unmet == {} {
      assert forall t :: t in targets ==> t in visited && Holds(es, tree, t);
    } else {
      assert Elems(stack) == {};
      ExploreDone(g, from, visited + Absent(es, from));
    }
  }

  // --- The fast form equals plain reachability ---

  /** Heights strictly fall along the parent edges inside the tree. */
  ghost predicate TreeHeightsFall(es: Held, tree: Id) {
    forall x, p :: Holds(es, tree, x) && Holds(es, tree, p) && p in es[x].parents ==> es[p].height < es[x].height
  }

  /** Along a chain of the tree nothing is higher than where the chain starts. */
  lemma ChainFalls(es: Held, tree: Id, x: Id, t: Id)
    requires TreeHeightsFall(es, tree) && Holds(es, tree, x) && Joined(es, tree, {x}, t)
    ensures es[t].height <= es[x].height
  {
    ReachInduct(EdgesWithin(es, TreeIds(es, tree)), {x}, iset u | !Holds(es, tree, u) || es[u].height <= es[x].height);
  }

  /** The height floor never cuts a chain that leads to a target. */
  lemma FloorExact(es: Held, tree: Id, floor: U64, from: set<Id>, t: Id)
    requires TreeHeightsFall(es, tree) && (Holds(es, tree, t) ==> floor <= es[t].height)
    ensures Met(es, tree, floor, from, t) <==> Joined(es, tree, from, t)
  {
    var g, above := EdgesWithin(es, TreeIds(es, tree)), AboveEdges(es, tree, floor);
    ReachMono(above, g, from, from);
    if Joined(es, tree, from, t) {
      var c := iset y | Reach(g, {y}, t) ==> Reach(above, from, y);
      forall y | y in from ensures y in c { ReachSeed(above, from, y); }
      forall y, z | y in c && Step(g, y, z) ensures z in c {
        if Reach(g, {z}, t) { StepAbove(es, tree, floor, from, t, y, z); }
      }
      ReachInduct(g, from, c);
      ReachSeed(g, {t}, t);
      assert t in c;
    }
  }

  lemma StepAbove(es: Held, tree: Id, floor: U64, from: set<Id>, t: Id, y: Id, z: Id)
    requires TreeHeightsFall(es, tree) && Holds(es, tree, t) && floor <= es[t].height
    requires Step(EdgesWithin(es, TreeIds(es, tree)), y, z) && Reach(EdgesWithin(es, TreeIds(es, tree)), {z}, t)
    requires Reach(EdgesWithin(es, TreeIds(es, tree)), {y}, t) ==> Reach(AboveEdges(es, tree, floor), from, y)
    ensures Reach(AboveEdges(es, tree, floor), from, z)
  {
    var g, above := EdgesWithin(es, TreeIds(es, tree)), AboveEdges(es, tree, floor);
    ReachSeed(g, {y}, y);
    ReachStep(g, {y}, y, z);
    ReachTrans(g, {y}, {z});
    if z != t { HeldOnChain(es, tree, z, t); }
    ChainFalls(es, tree, z, t);
    assert Step(above, y, z);
    ReachStep(above, from, y, z);
  }

  lemma HeldOnChain(es: Held, tree: Id, z: Id, t: Id)
    requires Reach(EdgesWithin(es, TreeIds(es, tree)), {z}, t) && z != t
    ensures Holds(es, tree, z)
  {
    var g := EdgesWithin(es, TreeIds(es, tree));
    var only := {z};
    if z !in g { ReachInduct(g, only, iset u | u in only); }
  }

  /** Reachable means exactly that every target is joined to a `from` tip by a chain of held entries of the tree. */
  lemma ReachableExact(es: Held, tree: Id, from: seq<Id>, targets: seq<Id>)
    requires TreeHeightsFall(es, tree) && Answer(es, tree, from, targets).Ok?
    ensures Answer(es, tree, from, targets) == Ok(Reachable) <==>
            forall t :: t in targets ==> Joined(es, tree, Elems(from), t)
  {
    FloorBelow(es, targets);
    forall t | t in targets
      ensures Met(es, tree, Floor(es, targets), Elems(from), t) <==> Joined(es, tree, Elems(from), t)
    {
      FloorExact(es, tree, Floor(es, targets), Elems(from), t);
    }
    if from == [] && targets != [] {
      assert targets[0] in targets;
      NothingFromNothing(EdgesWithin(es, TreeIds(es, tree)), targets[0]);
    }
  }

  lemma NothingFromNothing(g: Edges, x: Id)
    ensures !Reach(g, {}, x)
  {
  }

  // --- Decided answers survive growth ---

  lemma {:induction false} FloorGrows(es: Held, es': Held, targets: seq<Id>)
    requires Extends(es, es') && forall t :: t in targets ==> t in es
    ensures Floor(es', targets) == Floor(es, targets)
  {
    if targets == [] {
    } else {
      FloorGrows(es, es', targets[1..]);
    }
  }

  /** A walk that met nothing absent is the same walk in every larger store. */
  lemma WalkGrows(es: Held, es': Held, tree: Id, floor: U64, from: set<Id>)
    requires Extends(es, es')
    requires forall x :: Reach(AboveEdges(es, tree, floor), from, x) ==> x in es
    ensures forall x :: Reach(AboveEdges(es', tree, floor), from, x) <==> Reach(AboveEdges(es, tree, floor), from, x)
  {
    var g, g' := AboveEdges(es, tree, floor), AboveEdges(es', tree, floor);
    ReachMono(g, g', from, from);
    forall x | x in from ensures Reach(g, from, x) { ReachSeed(g, from, x); }
    forall x, y | Reach(g, from, x) && Step(g', x, y) ensures Reach(g, from, y) {
      assert Step(g, x, y);
      ReachStep(g, from, x, y);
    }
    ReachInduct(g', from, iset x | Reach(g, from, x));
  }

  /** A proven negative stays one in every larger store. */
  lemma UnreachableGrows(es: Held, es': Held, tree: Id, from: seq<Id>, targets: seq<Id>)
    requires Extends(es, es') && Answer(es, tree, from, targets) == Ok(Unreachable)
    ensures Answer(es', tree, from, targets) == Ok(Unreachable)
  {
    if from != [] || targets == [] {
      var floor, seeds := Floor(es, targets), Elems(from);
      assert forall x :: x in Missing(es, tree, from, targets) ==> false;
      AllHeld(es, tree, from, targets);
      FloorGrows(es, es', targets);
      WalkGrows(es, es', tree, floor, seeds);
      NoForeign(es, tree, targets);
      NoForeign(es', tree, targets);
      NoForeign(es, tree, from);
      NoForeign(es', tree, from);
      assert Missing(es', tree, from, targets) == {};
      var t :| t in targets && !Met(es, tree, floor, seeds, t);
      assert !Met(es', tree, floor, seeds, t);
    }
  }

  /** ... so no larger store, however much is synced, ever joins all the targets. */
  lemma UnreachableForGood(es: Held, es': Held, tree: Id, from: seq<Id>, targets: seq<Id>)
    requires Extends(es, es') && Answer(es, tree, from, targets) == Ok(Unreachable) && TreeHeightsFall(es', tree)
    ensures exists t :: t in targets && !Joined(es', tree, Elems(from), t)
  {
    UnreachableGrows(es, es', tree, from, targets);
    ReachableExact(es', tree, from, targets);
  }

  lemma AllHeld(es: Held, tree: Id, from: seq<Id>, targets: seq<Id>)
    requires Missing(es, tree, from, targets) == {}
    ensures forall t :: t in targets ==> t in es
    ensures forall x :: x in from ==> x in es
    ensures forall x :: Reach(AboveEdges(es, tree, Floor(es, targets)), Elems(from), x) ==> x in es
  {
    var g := AboveEdges(es, tree, Floor(es, targets));
    forall x | x in Elems(targets) || Reach(g, Elems(from), x) ensures x in es {
      assert x !in Missing(es, tree, from, targets);
    }
    forall x | x in from ensures x in es { ReachSeed(g, Elems(from), x); }
  }

  /** A positive answer can only turn into an error, and only over a `from` tip that was absent and proves foreign. */
  lemma ReachableGrows(es: Held, es': Held, tree: Id, from: seq<Id>, targets: seq<Id>)
    requires Extends(es, es') && Answer(es, tree, from, targets) == Ok(Reachable)
    ensures Answer(es', tree, from, targets) == Ok(Reachable)
         || exists tip :: Answer(es', tree, from, targets) == Err(EntryNotInTree(tip, tree))
                          && tip in from && tip !in es && Foreign(es', tree, tip)
  {
    var floor, seeds := Floor(es, targets), Elems(from);
    assert forall t :: t in targets ==> Met(es, tree, floor, seeds, t);
    FloorGrows(es, es', targets);
    ReachMono(AboveEdges(es, tree, floor), AboveEdges(es', tree, floor), seeds, seeds);
    assert AllMet(es', tree, from, targets);
    NoForeign(es', tree, targets);
    NoForeign(es, tree, from);
    NoForeign(es', tree, from);
  }

  /** An ID listed as missing is absent, and is a target, a `from` tip or a parent of a walked entry above the floor. */
  lemma MissingExplained(es: Held, tree: Id, from: seq<Id>, targets: seq<Id>, x: Id)
    requires Answer(es, tree, from, targets).Ok? && Answer(es, tree, from, targets).value.Indeterminate?
    requires x in Answer(es, tree, from, targets).value.missing
    ensures x !in es
    ensures x in targets || x in from ||
            exists y :: Holds(es, tree, y) && es[y].height > Floor(es, targets) && x in es[y].parents
                        && Reach(AboveEdges(es, tree, Floor(es, targets)), Elems(from), y)
  {
    assert x in Missing(es, tree, from, targets);
    if x !in targets && x !in from {
      var y := LastStep(AboveEdges(es, tree, Floor(es, targets)), Elems(from), x);
    }
  }

  // --- Each answer, without the floor ---

  lemma {:induction false} FloorAttained(es: Held, targets: seq<Id>, h: U64)
    ensures Floor(es, targets) < h <==> exists t :: t in targets && t in es && es[t].height < h
  {
    if targets == [] {
    } else {
      FloorAttained(es, targets[1..], h);
      assert forall t :: t in targets <==> t == targets[0] || t in targets[1..];
    }
  }

  ghost predicate NoForeignInput(es: Held, tree: Id, from: seq<Id>, targets: seq<Id>) {
    forall x :: (x in from || x in targets) && x in es ==> es[x].InTree(tree)
  }

  /** `y` is joined to a tip and strictly higher than some held target, so its parents matter. */
  ghost predicate Expanded(es: Held, tree: Id, from: seq<Id>, targets: seq<Id>, y: Id) {
    Joined(es, tree, Elems(from), y) && exists t :: t in targets && t in es && es[t].height < es[y].height
  }

  /** An absent ID the question depends on: a target, a tip, or a parent of an entry that had to be expanded. */
  ghost predicate Blocking(es: Held, tree: Id, from: seq<Id>, targets: seq<Id>, x: Id) {
    && x !in es
    && (x in targets || x in from || exists y :: Expanded(es, tree, from, targets, y) && x in es[y].parents)
  }

  lemma ExpandedIff(es: Held, tree: Id, from: seq<Id>, targets: seq<Id>, y: Id)
    requires TreeHeightsFall(es, tree)
    ensures Expanded(es, tree, from, targets, y) <==>
            y in AboveEdges(es, tree, Floor(es, targets)) &&
            Reach(AboveEdges(es, tree, Floor(es, targets)), Elems(from), y)
  {
    var floor := Floor(es, targets);
    if Holds(es, tree, y) {
      FloorAttained(es, targets, es[y].height);
      if floor < es[y].height { FloorExact(es, tree, floor, Elems(from), y); }
    }
  }

  /** The want-list is what blocks the decision, no more and no less. */
  lemma MissingIff(es: Held, tree: Id, from: seq<Id>, targets: seq<Id>, x: Id)
    requires TreeHeightsFall(es, tree)
    ensures x in Missing(es, tree, from, targets) <==> Blocking(es, tree, from, targets, x)
  {
    var g, seeds := AboveEdges(es, tree, Floor(es, targets)), Elems(from);
    if x in Missing(es, tree, from, targets) && x !in targets && x !in from {
      var y := LastStep(g, seeds, x);
      ExpandedIff(es, tree, from, targets, y);
    }
    if Blocking(es, tree, from, targets, x) {
      if x in from {
        ReachSeed(g, seeds, x);
      } else if x !in targets {
        var y :| Expanded(es, tree, from, targets, y) && x in es[y].parents;
        ExpandedIff(es, tree, from, targets, y);
        assert Step(g, y, x);
        ReachStep(g, seeds, y, x);
      }
    }
  }

  /** Which of the three answers is given, and with which want-list. */
  lemma AnswerIff(es: Held, tree: Id, from: seq<Id>, targets: seq<Id>)
    requires TreeHeightsFall(es, tree) && from != [] && NoForeignInput(es, tree, from, targets)
    ensures var r := Answer(es, tree, from, targets);
            var joined := forall t :: t in targets ==> Joined(es, tree, Elems(from), t);
            && r.Ok?
            && (r == Ok(Reachable) <==> joined)
            && (r == Ok(Unreachable) <==> !joined && !exists x :: Blocking(es, tree, from, targets, x))
            && (r.value.Indeterminate? ==>
                  && (forall i, j :: 0 <= i < j < |r.value.missing| ==> r.value.missing[i] < r.value.missing[j])
                  && forall x :: x in r.value.missing <==> Blocking(es, tree, from, targets, x))
  {
    NoForeign(es, tree, targets);
    NoForeign(es, tree, from);
    ReachableExact(es, tree, from, targets);
    MissingAll(es, tree, from, targets);
  }

  lemma MissingAll(es: Held, tree: Id, from: seq<Id>, targets: seq<Id>)
    requires TreeHeightsFall(es, tree)
    ensures forall x :: x in Missing(es, tree, from, targets) <==> Blocking(es, tree, from, targets, x)
    ensures Missing(es, tree, from, targets) == {} <==> !exists x :: Blocking(es, tree, from, targets, x)
  {
    forall x ensures x in Missing(es, tree, from, targets) <==> Blocking(es, tree, from, targets, x) {
      MissingIff(es, tree, from, targets, x);
    }
    if Missing(es, tree, from, targets) != {} {
      var x :| x in Missing(es, tree, from, targets);
      assert Blocking(es, tree, from, targets, x);
    }
  }

  /** Without tips every target is out of reach; a foreign input is an error naming the first, targets before tips. */
  lemma AnswerOtherwise(es: Held, tree: Id, from: seq<Id>, targets: seq<Id>)
    ensures from == [] && targets != [] ==> Answer(es, tree, from, targets) == Ok(Unreachable)
    ensures from == [] && targets == [] ==> Answer(es, tree, from, targets) == Ok(Reachable)
    ensures from != [] && !NoForeignInput(es, tree, from, targets) ==>
              exists i, inputs :: inputs == targets + from && 0 <= i < |inputs|
                && inputs[i] in es && !es[inputs[i]].InTree(tree)
                && (forall j :: 0 <= j < i && inputs[j] in es ==> es[inputs[j]].InTree(tree))
                && Answer(es, tree, from, targets) == Err(EntryNotInTree(inputs[i], tree))
  {
    if from != [] && !NoForeignInput(es, tree, from, targets) {
      var inputs := targets + from;
      var x :| (x in from || x in targets) && x in es && !es[x].InTree(tree);
      assert x in inputs && Foreign(es, tree, x);
      var i := FirstAt(es, tree, inputs);
      if i < |targets| {
        forall x | x in Elems(targets[..i]) ensures !Foreign(es, tree, x) {
          var j :| 0 <= j < i && targets[j] == x;
          assert inputs[j] == x;
        }
        FirstForeignAt(es, tree, targets, i);
      } else {
        assert from[i - |targets|] == inputs[i];
        forall x | x in Elems(targets[..|targets|]) ensures !Foreign(es, tree, x) {
          var j :| 0 <= j < |targets| && targets[j] == x;
          assert inputs[j] == x;
        }
        FirstForeignAt(es, tree, targets, |targets|);
        forall x | x in Elems(from[..i - |targets|]) ensures !Foreign(es, tree, x) {
          var j :| 0 <= j < i - |targets| && from[j] == x;
          assert inputs[j + |targets|] == x;
        }
        FirstForeignAt(es, tree, from, i - |targets|);
      }
    }
  }

  lemma {:induction false} FirstAt(es: Held, tree: Id, ids: seq<Id>) returns (i: nat)
    requires exists x :: x in ids && Foreign(es, tree, x)
    ensures i < |ids| && Foreign(es, tree, ids[i]) && forall j :: 0 <= j < i ==> !Foreign(es, tree, ids[j])
    decreases |ids|
  {
    if Foreign(es, tree, ids[0]) {
      i := 0;
    } else {
      i := FirstAt(es, tree, ids[1..]);
      i := i + 1;
    }
  }
}
