/**
 Entry heights. Under either strategy, in any mixture and for any clock
 readings, a run of commits gives every entry the best chain below it.
 */
module Heights {
  import opened Entries
  import opened Walks
  import Dag

  datatype HeightStrategy = Incremental | Timestamp

  function MaxOf(a: nat, b: nat): nat {
    if a > b then a else b
  }

  /** `calculate_height`, before the result is squeezed into 64 bits. */
  function CalculateHeight(strategy: HeightStrategy, now: nat, maxParent: Option<nat>): nat {
    var minHeight := if maxParent.Some? then maxParent.value + 1 else 0;
    match strategy
    case Incremental => minHeight
    case Timestamp => MaxOf(now, minHeight)
  }

  /** A committed entry: its parents, how its height was chosen, and the height. */
  datatype Record = Record(parents: seq<Id>, strategy: HeightStrategy, now: nat, height: nat)

  datatype Commit = Commit(id: Id, parents: seq<Id>, strategy: HeightStrategy, now: nat)

  type History = map<Id, Record>

  /** The highest held parent; parents that cannot be fetched are skipped. */
  function MaxParent(h: History, parents: seq<Id>): nat {
    if parents == [] then 0
    else MaxOf(if parents[0] in h then h[parents[0]].height else 0, MaxParent(h, parents[1..]))
  }

  function HeightFor(h: History, c: Commit): nat {
    CalculateHeight(c.strategy, c.now, if c.parents == [] then None else Some(MaxParent(h, c.parents)))
  }

  function Apply(h: History, c: Commit): History {
    h[c.id := Record(c.parents, c.strategy, c.now, HeightFor(h, c))]
  }

  function Committed(commits: seq<Commit>): History {
    if commits == [] then map[]
    else Apply(Committed(commits[..|commits| - 1]), commits[|commits| - 1])
  }

  /** Each commit is new and sits on parents committed before it. */
  ghost predicate ValidRun(commits: seq<Commit>) {
    commits != [] ==>
      var earlier, last := commits[..|commits| - 1], commits[|commits| - 1];
      && ValidRun(earlier)
      && last.id !in Committed(earlier)
      && forall p :: p in last.parents ==> p in Committed(earlier)
  }

  function Down(h: History): Edges {
    map x | x in h :: Elems(h[x].parents)
  }

  /** What an entry contributes by itself: its clock reading under Timestamp, nothing under Incremental. */
  function Base(r: Record): nat {
    match r.strategy
    case Incremental => 0
    case Timestamp => r.now
  }

  ghost predicate ChainFrom(h: History, x: Id, p: seq<Id>) {
    Path(Down(h), p) && p[0] == x && p[|p| - 1] in h
  }

  /** The length of a chain plus what its far end contributes. */
  ghost function Weight(h: History, p: seq<Id>): nat
    requires p != [] && p[|p| - 1] in h
  {
    |p| - 1 + Base(h[p[|p| - 1]])
  }

  lemma {:induction false} MaxParentIs(h: History, parents: seq<Id>)
    ensures forall p :: p in parents && p in h ==> h[p].height <= MaxParent(h, parents)
    ensures (forall p :: p in parents ==> p in h) && parents != [] ==>
              exists p :: p in parents && p in h && h[p].height == MaxParent(h, parents)
  {
    if parents == [] {
    } else {
      MaxParentIs(h, parents[1..]);
      assert parents == [parents[0]] + parents[1..];
      if parents[1..] == [] { assert parents[0] in parents; }
    }
  }

  /** Everything committed sits on committed parents. */
  lemma {:induction false} RunClosed(commits: seq<Commit>)
    requires ValidRun(commits)
    ensures forall x, p :: x in Committed(commits) && p in Committed(commits)[x].parents ==> p in Committed(commits)
  {
    if commits == [] {
    } else {
      RunClosed(commits[..|commits| - 1]);
    }
  }

  /** Heights strictly increase from parent to child. */
  lemma {:induction false} HeightsIncrease(commits: seq<Commit>)
    requires ValidRun(commits)
    ensures forall x, p :: x in Committed(commits) && p in Committed(commits)[x].parents && p in Committed(commits) ==>
              Committed(commits)[p].height < Committed(commits)[x].height
  {
    if commits == [] {
    } else {
      var earlier, last := commits[..|commits| - 1], commits[|commits| - 1];
      HeightsIncrease(earlier);
      RunClosed(earlier);
      MaxParentIs(Committed(earlier), last.parents);
    }
  }

  /** One above the highest parent, or the clock reading if that is higher and the strategy asks for it. */
  ghost predicate Chosen(h: History, x: Id) {
    && x in h
    && (forall p :: p in h[x].parents ==> p in h && h[p].height < h[x].height)
    && (h[x].strategy == Timestamp ==> h[x].now <= h[x].height)
    && (|| (h[x].parents == [] && h[x].strategy == Incremental && h[x].height == 0)
        || (h[x].strategy == Timestamp && h[x].height == h[x].now)
        || exists p :: p in h[x].parents && p in h && h[x].height == h[p].height + 1)
  }

  lemma {:induction false} HeightsChosen(commits: seq<Commit>)
    requires ValidRun(commits)
    ensures forall x :: x in Committed(commits) ==> Chosen(Committed(commits), x)
  {
    if commits == [] {
    } else {
      var earlier, last := commits[..|commits| - 1], commits[|commits| - 1];
      var h := Committed(earlier);
      HeightsChosen(earlier);
      forall x | x in h ensures Chosen(Apply(h, last), x) { OldChosen(h, last, x); }
      NewChosen(h, last);
    }
  }

  lemma OldChosen(h: History, c: Commit, x: Id)
    requires c.id !in h && Chosen(h, x)
    ensures Chosen(Apply(h, c), x)
  {
    var h' := Apply(h, c);
    assert forall p :: p in h ==> h'[p] == h[p];
  }

  lemma NewChosen(h: History, c: Commit)
    requires c.id !in h && forall p :: p in c.parents ==> p in h
    ensures Chosen(Apply(h, c), c.id)
  {
    MaxParentIs(h, c.parents);
    var h' := Apply(h, c);
    if c.parents != [] {
      var p :| p in c.parents && p in h && h[p].height == MaxParent(h, c.parents);
      assert h'[p] == h[p];
    }
  }

  /** Hence heights fall along the parent edges of any part of a run that is held somewhere. */
  lemma RunHeightsFall(commits: seq<Commit>, es: Held)
    requires ValidRun(commits) && es.Keys <= Committed(commits).Keys
    requires forall x :: x in es ==>
               es[x].parents == Committed(commits)[x].parents && es[x].height == Committed(commits)[x].height
    ensures Dag.HeightsFall(es)
  {
    HeightsIncrease(commits);
  }

  // --- The height is the best chain ---

  /** No chain outweighs the height, and some chain has exactly its weight. */
  ghost predicate BestChain(h: History, x: Id) {
    && x in h
    && (forall p :: ChainFrom(h, x, p) ==> Weight(h, p) <= h[x].height)
    && exists p :: ChainFrom(h, x, p) && Weight(h, p) == h[x].height
  }

  /** Chains below an earlier entry are untouched by a later commit. */
  lemma ChainSame(h: History, c: Commit, x: Id, p: seq<Id>)
    requires c.id !in h && x in h && forall y, q :: y in h && q in h[y].parents ==> q in h
    ensures ChainFrom(Apply(h, c), x, p) <==> ChainFrom(h, x, p)
    ensures ChainFrom(h, x, p) ==> Weight(Apply(h, c), p) == Weight(h, p)
  {
    var h' := Apply(h, c);
    if ChainFrom(h', x, p) {
      assert Closed(Down(h'), iset y | y in h);
      PathStays(Down(h'), p, iset y | y in h);
      forall i | 0 <= i < |p| - 1 ensures Step(Down(h), p[i], p[i + 1]) {
        assert Step(Down(h'), p[i], p[i + 1]);
      }
    }
    if ChainFrom(h, x, p) {
      forall i | 0 <= i < |p| - 1 ensures Step(Down(h'), p[i], p[i + 1]) {
        assert Step(Down(h), p[i], p[i + 1]);
      }
    }
  }

  lemma ChainTail(h: History, x: Id, p: seq<Id>)
    requires ChainFrom(h, x, p) && |p| > 1
    ensures ChainFrom(h, p[1], p[1..]) && p[1] in h[x].parents && Weight(h, p) == 1 + Weight(h, p[1..])
  {
    assert Step(Down(h), p[0], p[0 + 1]);
    forall i | 0 <= i < |p[1..]| - 1 ensures Step(Down(h), p[1..][i], p[1..][i + 1]) {
      assert Step(Down(h), p[i + 1], p[i + 1 + 1]);
    }
  }

  lemma ChainPrepend(h: History, x: Id, q: Id, p: seq<Id>)
    requires x in h && q in h[x].parents && ChainFrom(h, q, p)
    ensures ChainFrom(h, x, [x] + p) && Weight(h, [x] + p) == 1 + Weight(h, p)
  {
    var r := [x] + p;
    forall i | 0 <= i < |r| - 1 ensures Step(Down(h), r[i], r[i + 1]) {
      if i > 0 { assert Step(Down(h), p[i - 1], p[i - 1 + 1]); }
    }
  }

  lemma OldBest(h: History, c: Commit, x: Id)
    requires c.id !in h && (forall y, q :: y in h && q in h[y].parents ==> q in h) && BestChain(h, x)
    ensures BestChain(Apply(h, c), x)
  {
    var h' := Apply(h, c);
    forall p | ChainFrom(h', x, p) ensures Weight(h', p) <= h'[x].height { ChainSame(h, c, x, p); }
    var p :| ChainFrom(h, x, p) && Weight(h, p) == h[x].height;
    ChainSame(h, c, x, p);
  }

  lemma NewUpper(h: History, c: Commit, p: seq<Id>)
    requires c.id !in h && forall q :: q in c.parents ==> q in h && BestChain(Apply(h, c), q)
    requires ChainFrom(Apply(h, c), c.id, p)
    ensures Weight(Apply(h, c), p) <= HeightFor(h, c)
  {
    var h' := Apply(h, c);
    if |p| > 1 {
      ChainTail(h', c.id, p);
      assert BestChain(h', p[1]);
      MaxParentIs(h, c.parents);
    }
  }

  lemma NewWitness(h: History, c: Commit) returns (p: seq<Id>)
    requires c.id !in h && forall q :: q in c.parents ==> q in h && BestChain(Apply(h, c), q)
    ensures ChainFrom(Apply(h, c), c.id, p) && Weight(Apply(h, c), p) == HeightFor(h, c)
  {
    var h', x := Apply(h, c), c.id;
    if HeightFor(h, c) == Base(h'[x]) {
      p := [x];
    } else {
      MaxParentIs(h, c.parents);
      var q :| q in c.parents && q in h && h[q].height == MaxParent(h, c.parents);
      assert BestChain(h', q);
      p :| ChainFrom(h', q, p) && Weight(h', p) == h'[q].height;
      ChainPrepend(h', x, q, p);
      p := [x] + p;
    }
  }

  lemma NewBest(h: History, c: Commit)
    requires c.id !in h && forall q :: q in c.parents ==> q in h && BestChain(Apply(h, c), q)
    ensures BestChain(Apply(h, c), c.id)
  {
    forall p | ChainFrom(Apply(h, c), c.id, p) ensures Weight(Apply(h, c), p) <= HeightFor(h, c) { NewUpper(h, c, p); }
    var p := NewWitness(h, c);
  }

  /**
   After any run, every height is exactly the best over all chains down from the
   entry of chain length plus the far end's clock reading. Under Incremental alone
   this is the longest path to the root.
   */
  lemma {:induction false} HeightIsBestChain(commits: seq<Commit>)
    requires ValidRun(commits)
    ensures forall x :: x in Committed(commits) ==> BestChain(Committed(commits), x)
  {
    if commits == [] {
    } else {
      var earlier, last := commits[..|commits| - 1], commits[|commits| - 1];
      var h := Committed(earlier);
      HeightIsBestChain(earlier);
      RunClosed(earlier);
      forall y | y in h ensures BestChain(Apply(h, last), y) { OldBest(h, last, y); }
      NewBest(h, last);
    }
  }

  lemma ChainAppend(h: History, x: Id, p: seq<Id>, q: Id)
    requires ChainFrom(h, x, p) && q in h && q in h[p[|p| - 1]].parents
    ensures ChainFrom(h, x, p + [q])
  {
    var r := p + [q];
    forall i | 0 <= i < |r| - 1 ensures Step(Down(h), r[i], r[i + 1]) {
      if i < |p| - 1 { assert Step(Down(h), p[i], p[i + 1]); }
    }
  }

  ghost predicate AllIncremental(h: History) {
    forall y :: y in h ==> h[y].strategy == Incremental
  }

  /** A best chain of incremental heights cannot be extended, so it ends at a parentless entry. */
  lemma BestEndsAtRoot(h: History, x: Id, p: seq<Id>)
    requires AllIncremental(h) && (forall y, q :: y in h && q in h[y].parents ==> q in h)
    requires BestChain(h, x) && ChainFrom(h, x, p) && Weight(h, p) == h[x].height
    ensures h[p[|p| - 1]].parents == []
  {
    var parents := h[p[|p| - 1]].parents;
    if parents != [] {
      var q := parents[0];
      assert q in parents && q in h;
      ChainAppend(h, x, p, q);
      assert false;
    }
  }

  /** With the default strategy, the height is the length of the longest chain, which ends at a parentless entry. */
  lemma IncrementalIsLongestPath(commits: seq<Commit>, x: Id) returns (p: seq<Id>)
    requires ValidRun(commits) && x in Committed(commits) && AllIncremental(Committed(commits))
    ensures ChainFrom(Committed(commits), x, p) && |p| - 1 == Committed(commits)[x].height
    ensures Committed(commits)[p[|p| - 1]].parents == []
    ensures forall q :: ChainFrom(Committed(commits), x, q) ==> |q| - 1 <= Committed(commits)[x].height
  {
    HeightIsBestChain(commits);
    RunClosed(commits);
    p := LongestIn(Committed(commits), x);
  }

  lemma LongestIn(h: History, x: Id) returns (p: seq<Id>)
    requires AllIncremental(h) && (forall y, q :: y in h && q in h[y].parents ==> q in h) && BestChain(h, x)
    ensures ChainFrom(h, x, p) && |p| - 1 == h[x].height && h[p[|p| - 1]].parents == []
    ensures forall q :: ChainFrom(h, x, q) ==> |q| - 1 <= h[x].height
  {
    p :| ChainFrom(h, x, p) && Weight(h, p) == h[x].height;
    BestEndsAtRoot(h, x, p);
    assert forall q :: ChainFrom(h, x, q) ==> Weight(h, q) == |q| - 1;
  }

  // --- 64 bits are enough ---

  lemma {:induction false} FallingPathShort(h: History, p: seq<Id>, xs: set<Id>)
    requires Path(Down(h), p) && p[|p| - 1] in h && (forall i :: 0 <= i < |p| ==> p[i] in xs)
    requires forall x, q :: x in h && q in h[x].parents && q in h ==> h[q].height < h[x].height
    ensures |p| <= |xs|
    decreases |p|
  {
    if |p| > 1 {
      assert ChainFrom(h, p[0], p);
      ChainTail(h, p[0], p);
      FallingPathBelow(h, p);
      FallingPathShort(h, p[1..], xs - {p[0]});
    } else {
      assert p[0] in xs && {p[0]} <= xs;
      assert |xs - {p[0]}| == |xs| - 1;
    }
  }

  lemma {:induction false} FallingPathBelow(h: History, p: seq<Id>)
    requires Path(Down(h), p) && p[|p| - 1] in h
    requires forall x, q :: x in h && q in h[x].parents && q in h ==> h[q].height < h[x].height
    ensures forall i :: 0 <= i < |p| ==> p[i] in h
    ensures forall i :: 0 < i < |p| ==> h[p[i]].height < h[p[0]].height
    decreases |p|
  {
    if |p| == 1 {
    } else {
      assert ChainFrom(h, p[0], p);
      ChainTail(h, p[0], p);
      FallingPathBelow(h, p[1..]);
      assert forall i :: 0 < i < |p| ==> p[i] == p[1..][i - 1];
    }
  }

  /**
   With clocks up to `bound`, no height exceeds the bound plus the number of other
   entries, so 64 bits hold it below that limit.
   */
  lemma HeightsFit(commits: seq<Commit>, bound: nat, x: Id)
    requires ValidRun(commits) && x in Committed(commits)
    requires forall y :: y in Committed(commits) ==> Base(Committed(commits)[y]) <= bound
    ensures Committed(commits)[x].height <= bound + |Committed(commits).Keys| - 1
    ensures bound + |Committed(commits).Keys| - 1 <= U64_MAX ==> Committed(commits)[x].height <= U64_MAX
  {
    HeightIsBestChain(commits);
    HeightsIncrease(commits);
    BestChainBounded(Committed(commits), bound, x);
  }

  lemma BestChainBounded(h: History, bound: nat, x: Id)
    requires BestChain(h, x) && forall y :: y in h ==> Base(h[y]) <= bound
    requires forall y, q :: y in h && q in h[y].parents && q in h ==> h[q].height < h[y].height
    ensures h[x].height <= bound + |h.Keys| - 1
  {
    var p :| ChainFrom(h, x, p) && Weight(h, p) == h[x].height;
    FallingPathBelow(h, p);
    FallingPathShort(h, p, h.Keys);
  }
}
