/**
 Paths and reachability over a finite edge relation, and the bookkeeping shared
 by every worklist loop of the code: which IDs are visited, which are pending,
 and why the visited set ends up being exactly the reachable one.
 */
module Walks {
  import opened Entries

  /** `g[x]` is what a walk pushes when it expands `x`; IDs outside the map are never expanded. */
  type Edges = map<Id, set<Id>>

  ghost predicate Step(g: Edges, x: Id, y: Id) {
    x in g && y in g[x]
  }

  ghost predicate Path(g: Edges, p: seq<Id>) {
    && p != []
    && forall i | 0 <= i < |p| - 1 :: Step(g, p[i], p[i + 1])
  }

  ghost predicate Reach(g: Edges, seeds: set<Id>, x: Id) {
    exists p :: Path(g, p) && p[0] in seeds && p[|p| - 1] == x
  }

  ghost function Targets(g: Edges): set<Id> {
    set x, y | x in g && y in g[x] :: y
  }

  /** The reachable IDs as a finite set. */
  ghost function ReachSet(g: Edges, seeds: set<Id>): (r: set<Id>)
    ensures forall x :: x in r <==> Reach(g, seeds, x)
  {
    forall x | Reach(g, seeds, x) ensures x in seeds + Targets(g) {
      if x !in seeds { var y := LastStep(g, seeds, x); assert Step(g, y, x); }
    }
    set x | x in seeds + Targets(g) && Reach(g, seeds, x)
  }

  ghost predicate Closed(g: Edges, c: iset<Id>) {
    forall x, y :: x in c && Step(g, x, y) ==> y in c
  }

  lemma {:induction false} PathStays(g: Edges, p: seq<Id>, c: iset<Id>)
    requires Path(g, p) && p[0] in c && Closed(g, c)
    ensures forall i :: 0 <= i < |p| ==> p[i] in c
  {
    for i := 1 to |p|
      invariant forall j :: 0 <= j < i ==> p[j] in c
    {
      assert Step(g, p[i - 1], p[i - 1 + 1]);
    }
  }

  /** Induction over reachability: a set holding the seeds and closed under steps holds all. */
  lemma ReachInduct(g: Edges, seeds: set<Id>, c: iset<Id>)
    requires forall x :: x in seeds ==> x in c
    requires Closed(g, c)
    ensures forall x :: Reach(g, seeds, x) ==> x in c
  {
    forall x | Reach(g, seeds, x) ensures x in c {
      var p :| Path(g, p) && p[0] in seeds && p[|p| - 1] == x;
      PathStays(g, p, c);
    }
  }

  lemma ReachSeed(g: Edges, seeds: set<Id>, x: Id)
    requires x in seeds
    ensures Reach(g, seeds, x)
  {
    assert Path(g, [x]);
  }

  lemma ReachStep(g: Edges, seeds: set<Id>, x: Id, y: Id)
    requires Reach(g, seeds, x) && Step(g, x, y)
    ensures Reach(g, seeds, y)
  {
    var p :| Path(g, p) && p[0] in seeds && p[|p| - 1] == x;
    var q := p + [y];
    forall i | 0 <= i < |q| - 1 ensures Step(g, q[i], q[i + 1]) {
      if i < |p| - 1 { assert Step(g, p[i], p[i + 1]); }
    }
    assert Path(g, q);
  }

  lemma ReachClosed(g: Edges, seeds: set<Id>)
    ensures Closed(g, iset x | Reach(g, seeds, x))
  {
    forall x, y | Reach(g, seeds, x) && Step(g, x, y) ensures Reach(g, seeds, y) {
      ReachStep(g, seeds, x, y);
    }
  }

  lemma LastStep(g: Edges, seeds: set<Id>, x: Id) returns (y: Id)
    requires Reach(g, seeds, x) && x !in seeds
    ensures Reach(g, seeds, y) && Step(g, y, x)
  {
    var p :| Path(g, p) && p[0] in seeds && p[|p| - 1] == x;
    var q := p[..|p| - 1];
    assert Path(g, q) by {
      forall i | 0 <= i < |q| - 1 ensures Step(g, q[i], q[i + 1]) {
        assert Step(g, p[i], p[i + 1]);
      }
    }
    y := p[|p| - 2];
    assert Step(g, p[|p| - 2], p[|p| - 2 + 1]);
  }

  lemma ReachMono(g: Edges, g': Edges, seeds: set<Id>, seeds': set<Id>)
    requires forall x, y :: Step(g, x, y) ==> Step(g', x, y)
    requires seeds <= seeds'
    ensures forall x :: Reach(g, seeds, x) ==> Reach(g', seeds', x)
  {
    var c := iset x | Reach(g', seeds', x);
    ReachClosed(g', seeds');
    forall x | x in seeds ensures x in c { ReachSeed(g', seeds', x); }
    ReachInduct(g, seeds, c);
  }

  lemma ReachTrans(g: Edges, seeds: set<Id>, mid: set<Id>)
    requires forall x :: x in mid ==> Reach(g, seeds, x)
    ensures forall y :: Reach(g, mid, y) ==> Reach(g, seeds, y)
  {
    ReachClosed(g, seeds);
    ReachInduct(g, mid, iset x | Reach(g, seeds, x));
  }

  /** Two graphs that agree on a set neither leaves reach the same from inside it. */
  lemma SameReach(within: set<Id>, g: Edges, g': Edges, seeds: set<Id>)
    requires seeds <= within
    requires forall x, y :: Step(g, x, y) ==> Step(g', x, y) && y in within
    requires forall x, y :: x in within && Step(g', x, y) ==> Step(g, x, y)
    ensures forall x :: Reach(g', seeds, x) <==> Reach(g, seeds, x)
    ensures forall x :: Reach(g', seeds, x) ==> x in within
  {
    var c := iset x | x in within && Reach(g, seeds, x);
    forall x | x in seeds ensures x in c { ReachSeed(g, seeds, x); }
    forall x, y | x in c && Step(g', x, y) ensures y in c { ReachStep(g, seeds, x, y); }
    ReachInduct(g', seeds, c);
    ReachMono(g, g', seeds, seeds);
  }

  /** Everything reachable is reachable from one of the seeds alone. */
  lemma ReachSource(g: Edges, seeds: set<Id>, y: Id) returns (s: Id)
    requires Reach(g, seeds, y)
    ensures s in seeds && Reach(g, {s}, y)
  {
    var p :| Path(g, p) && p[0] in seeds && p[|p| - 1] == y;
    s := p[0];
  }

  // --- Worklist loops ---

  /**
   The invariant of a worklist loop: seeds and pushed successors are visited or
   pending, and nothing unreachable is either.
   */
  ghost predicate Exploring(g: Edges, seeds: set<Id>, visited: set<Id>, pending: set<Id>) {
    && seeds <= visited + pending
    && (forall x, y :: x in visited && Step(g, x, y) ==> y in visited + pending)
    && (forall x :: x in visited + pending ==> Reach(g, seeds, x))
  }

  lemma ExploreStart(g: Edges, seeds: set<Id>)
    ensures Exploring(g, seeds, {}, seeds)
  {
    forall x | x in seeds ensures Reach(g, seeds, x) { ReachSeed(g, seeds, x); }
  }

  /** Popping a new `x`, marking it visited and pushing its successors keeps the invariant. */
  lemma ExploreVisit(g: Edges, seeds: set<Id>, visited: set<Id>, pending: set<Id>, x: Id, pending': set<Id>)
    requires Exploring(g, seeds, visited, pending)
    requires x in pending
    requires pending <= pending' + {x}
    requires forall y :: Step(g, x, y) ==> y in pending'
    requires forall y :: y in pending' ==> y in pending || Step(g, x, y)
    ensures Exploring(g, seeds, visited + {x}, pending')
  {
    forall y | Step(g, x, y) ensures Reach(g, seeds, y) { ReachStep(g, seeds, x, y); }
  }

  /** Taking the front of a queue (or the top of a stack) that is new, and pushing its successors. */
  lemma ExploreFront(g: Edges, seeds: set<Id>, visited: set<Id>, queue: seq<Id>, pushed: seq<Id>)
    requires queue != [] && Exploring(g, seeds, visited, Elems(queue))
    requires forall y :: Step(g, queue[0], y) <==> y in pushed
    ensures Exploring(g, seeds, visited + {queue[0]}, Elems(queue[1..] + pushed))
  {
    assert forall x :: x in queue <==> x == queue[0] || x in queue[1..];
    ExploreVisit(g, seeds, visited, Elems(queue), queue[0], Elems(queue[1..] + pushed));
  }

  lemma ExploreTop(g: Edges, seeds: set<Id>, visited: set<Id>, stack: seq<Id>, pushed: seq<Id>)
    requires stack != [] && Exploring(g, seeds, visited, Elems(stack))
    requires forall y :: Step(g, stack[|stack| - 1], y) <==> y in pushed
    ensures Exploring(g, seeds, visited + {stack[|stack| - 1]}, Elems(stack[..|stack| - 1] + pushed))
  {
    var n := |stack| - 1;
    TakeNext(stack, n);
    assert stack[..n + 1] == stack;
    assert forall x :: x in stack <==> x == stack[n] || x in stack[..n];
    ExploreVisit(g, seeds, visited, Elems(stack), stack[n], Elems(stack[..n] + pushed));
  }

  /** Taking one that is never expanded. */
  lemma ExploreLeaf(g: Edges, seeds: set<Id>, visited: set<Id>, queue: seq<Id>)
    requires queue != [] && queue[0] !in g && Exploring(g, seeds, visited, Elems(queue))
    ensures Exploring(g, seeds, visited + {queue[0]}, Elems(queue[1..]))
  {
    ExploreFront(g, seeds, visited, queue, []);
    assert queue[1..] + [] == queue[1..];
  }

  /** Dropping one that was visited before. */
  lemma SkipFront(g: Edges, seeds: set<Id>, visited: set<Id>, queue: seq<Id>)
    requires queue != [] && queue[0] in visited && Exploring(g, seeds, visited, Elems(queue))
    ensures Exploring(g, seeds, visited, Elems(queue[1..]))
  {
    assert forall x :: x in queue <==> x == queue[0] || x in queue[1..];
  }

  lemma SkipTop(g: Edges, seeds: set<Id>, visited: set<Id>, stack: seq<Id>)
    requires stack != [] && stack[|stack| - 1] in visited && Exploring(g, seeds, visited, Elems(stack))
    ensures Exploring(g, seeds, visited, Elems(stack[..|stack| - 1]))
  {
    var n := |stack| - 1;
    TakeNext(stack, n);
    assert stack[..n + 1] == stack;
    assert forall x :: x in stack <==> x == stack[n] || x in stack[..n];
  }

  lemma PendingReached(g: Edges, seeds: set<Id>, visited: set<Id>, pending: seq<Id>, x: Id)
    requires x in pending && Exploring(g, seeds, visited, Elems(pending))
    ensures Reach(g, seeds, x)
  {
  }

  /** Visiting a further seed and pushing its successors. */
  lemma ExploreSeed(g: Edges, seeds: set<Id>, visited: set<Id>, pending: set<Id>, x: Id, pending': set<Id>)
    requires Exploring(g, seeds, visited, pending)
    requires pending <= pending'
    requires forall y :: Step(g, x, y) ==> y in visited + pending' + {x}
    requires forall y :: y in pending' ==> y in pending || Step(g, x, y)
    ensures Exploring(g, seeds + {x}, visited + {x}, pending')
  {
    ReachSeed(g, seeds + {x}, x);
    ReachMono(g, g, seeds, seeds + {x});
    forall y | Step(g, x, y) ensures Reach(g, seeds + {x}, y) { ReachStep(g, seeds + {x}, x, y); }
  }

  lemma ExploreDone(g: Edges, seeds: set<Id>, visited: set<Id>)
    requires Exploring(g, seeds, visited, {})
    ensures visited == ReachSet(g, seeds)
  {
    ReachInduct(g, seeds, iset x | x in visited);
  }
}
