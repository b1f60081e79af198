/**
 The scoped Kahn sort shared by `verify` and `ids_added`: in-degrees count only
 parents inside the given set, with multiplicity, and ready entries are taken
 from a queue seeded in hash-map (arbitrary) order.
 */
module TopoSort {
  import opened Entries
  import opened Dag

  /** How many positions of `ps` name a member of `xs`. */
  function CountIn(ps: seq<Id>, xs: set<Id>): nat {
    if ps == [] then 0 else (if ps[0] in xs then 1 else 0) + CountIn(ps[1..], xs)
  }

  lemma {:induction false} CountInDrop(ps: seq<Id>, xs: set<Id>, p: Id)
    requires p in xs
    ensures CountIn(ps, xs) == CountIn(ps, xs - {p}) + CountIn(ps, {p})
  {
    if ps == [] {
    } else {
      CountInDrop(ps[1..], xs, p);
    }
  }

  lemma {:induction false} CountInZero(ps: seq<Id>, xs: set<Id>)
    ensures CountIn(ps, xs) == 0 <==> forall p :: p in ps ==> p !in xs
  {
    if ps == [] {
    } else {
      CountInZero(ps[1..], xs);
      assert ps == [ps[0]] + ps[1..];
    }
  }

  lemma {:induction false} CountInConcat(ps: seq<Id>, qs: seq<Id>, xs: set<Id>)
    ensures CountIn(ps + qs, xs) == CountIn(ps, xs) + CountIn(qs, xs)
  {
    if ps == [] {
      assert ps + qs == qs;
    } else {
      assert (ps + qs)[1..] == ps[1..] + qs;
      CountInConcat(ps[1..], qs, xs);
    }
  }

  ghost predicate Distinct(order: seq<Id>) {
    forall i, j | 0 <= i < j < |order| :: order[i] != order[j]
  }

  /** Each entry's parents inside the set stand before it. */
  ghost predicate ParentsFirst(nodes: Held, order: seq<Id>) {
    forall i, p | 0 <= i < |order| && order[i] in nodes && p in nodes[order[i]].parents && p in nodes :: p in order[..i]
  }

  /** A parents-first listing of exactly the given entries. */
  ghost predicate Topological(nodes: Held, order: seq<Id>) {
    && Distinct(order)
    && (forall x :: x in order <==> x in nodes)
    && ParentsFirst(nodes, order)
  }

  /** In-degrees and the children index, filled from the entries in arbitrary order. */
  method Index(nodes: Held) returns (inDegree: map<Id, nat>, children: map<Id, seq<Id>>)
    ensures inDegree.Keys == nodes.Keys
    ensures forall x :: x in nodes ==> inDegree[x] == CountIn(nodes[x].parents, nodes.Keys)
    ensures ChildIndex(nodes, nodes.Keys, children)
  {
    inDegree, children := map[], map[];
    var rest := nodes.Keys;
    while rest != {}
      invariant rest <= nodes.Keys
      invariant inDegree.Keys == nodes.Keys - rest
      invariant forall x :: x in inDegree ==> inDegree[x] == CountIn(nodes[x].parents, nodes.Keys)
      invariant ChildIndex(nodes, nodes.Keys - rest, children)
      decreases rest
    {
      var id :| id in rest;
      var d;
      d, children := IndexOne(nodes, nodes.Keys - rest, id, children);
      rest := rest - {id};
      assert nodes.Keys - rest == nodes.Keys - (rest + {id}) + {id};
      inDegree := inDegree[id := d];
    }
    assert nodes.Keys - rest == nodes.Keys;
  }

  /** `children[p]` lists each indexed entry once per mention of `p` among its parents, and nothing else. */
  ghost predicate ChildIndex(nodes: Held, indexed: set<Id>, children: map<Id, seq<Id>>) {
    && (forall p, x :: p in nodes && x in indexed && x in nodes ==>
          CountIn(Kids(children, p), {x}) == CountIn(nodes[x].parents, {p}))
    && (forall p, x :: p in nodes && x in Kids(children, p) ==> x in indexed)
  }

  /** The index while the parents of `id` are being entered; `done` are the ones already entered. */
  ghost predicate Entering(nodes: Held, indexed: set<Id>, id: Id, done: seq<Id>, children: map<Id, seq<Id>>) {
    && indexed <= nodes.Keys
    && (forall p :: p in nodes ==> CountIn(Kids(children, p), {id}) == CountIn(done, {p}))
    && (forall p, x :: p in nodes && x in indexed ==> CountIn(Kids(children, p), {x}) == CountIn(nodes[x].parents, {p}))
    && (forall p, x :: p in nodes && x in Kids(children, p) ==> x in indexed + {id})
  }

  lemma EnterStart(nodes: Held, indexed: set<Id>, id: Id, children: map<Id, seq<Id>>)
    requires id !in indexed && indexed <= nodes.Keys && ChildIndex(nodes, indexed, children)
    ensures Entering(nodes, indexed, id, [], children)
  {
    forall p | p in nodes ensures CountIn(Kids(children, p), {id}) == CountIn([], {p}) {
      CountInZero(Kids(children, p), {id});
    }
  }

  lemma EnterOne(nodes: Held, indexed: set<Id>, id: Id, done: seq<Id>, children: map<Id, seq<Id>>, q: Id)
    requires id !in indexed && Entering(nodes, indexed, id, done, children)
    ensures Entering(nodes, indexed, id, done + [q],
                     if q in nodes then children[q := Kids(children, q) + [id]] else children)
  {
    var children' := if q in nodes then children[q := Kids(children, q) + [id]] else children;
    forall p | p in nodes ensures CountIn(Kids(children', p), {id}) == CountIn(done + [q], {p}) {
      CountInConcat(done, [q], {p});
      CountInConcat(Kids(children, p), [id], {id});
    }
    forall p, x | p in nodes && x in indexed
      ensures CountIn(Kids(children', p), {x}) == CountIn(nodes[x].parents, {p})
    {
      CountInConcat(Kids(children, p), [id], {x});
    }
  }

  method IndexOne(nodes: Held, ghost indexed: set<Id>, id: Id, children0: map<Id, seq<Id>>)
    returns (d: nat, children: map<Id, seq<Id>>)
    requires id in nodes && id !in indexed && indexed <= nodes.Keys
    requires ChildIndex(nodes, indexed, children0)
    ensures d == CountIn(nodes[id].parents, nodes.Keys)
    ensures ChildIndex(nodes, indexed + {id}, children)
  {
    d, children := 0, children0;
    var parents := nodes[id].parents;
    EnterStart(nodes, indexed, id, children);
    assert parents[..0] == [];
    for i := 0 to |parents|
      invariant d == CountIn(parents[..i], nodes.Keys)
      invariant Entering(nodes, indexed, id, parents[..i], children)
    {
      var p := parents[i];
      assert parents[..i + 1] == parents[..i] + [p];
      EnterOne(nodes, indexed, id, parents[..i], children, p);
      CountInConcat(parents[..i], [p], nodes.Keys);
      if p in nodes {
        d := d + 1;
        children := children[p := Kids(children, p) + [id]];
      }
    }
    assert parents[..|parents|] == parents;
  }

  /** The ready queue after `id`'s kids have been counted down. */
  ghost predicate Counting(nodes: Held, left: set<Id>, inDegree: map<Id, nat>, queue: seq<Id>, due: seq<Id>) {
    && inDegree.Keys == nodes.Keys && left <= nodes.Keys
    && Distinct(queue)
    && (forall x :: x in queue ==> x in left)
    && (forall x :: x in nodes ==> inDegree[x] == CountIn(nodes[x].parents, left) + CountIn(due, {x}))
    && (forall x :: x in left ==> (inDegree[x] == 0 <==> x in queue))
    && (forall x, p :: x in nodes && x !in left && p in nodes[x].parents ==> p !in left)
  }

  /** Count down one taken entry's kids, queueing those that become ready. */
  method Release(nodes: Held, ghost left: set<Id>, kids: seq<Id>, inDegree0: map<Id, nat>, queue0: seq<Id>)
    returns (inDegree: map<Id, nat>, queue: seq<Id>)
    requires Counting(nodes, left, inDegree0, queue0, kids)
    requires forall x :: x in kids ==> x in left
    ensures Counting(nodes, left, inDegree, queue, [])
  {
    inDegree, queue := inDegree0, queue0;
    var i := 0;
    assert kids[0..] == kids;
    while i < |kids|
      invariant 0 <= i <= |kids|
      invariant Counting(nodes, left, inDegree, queue, kids[i..])
    {
      var kid := kids[i];
      assert kids[i..] == [kid] + kids[i + 1..];
      forall x ensures CountIn(kids[i..], {x}) == CountIn([kid], {x}) + CountIn(kids[i + 1..], {x}) {
        CountInConcat([kid], kids[i + 1..], {x});
      }
      var d := inDegree[kid] - 1;
      inDegree := inDegree[kid := d];
      if d == 0 { queue := queue + [kid]; }
      i := i + 1;
    }
    assert kids[i..] == [];
  }

  /** Seed the queue with the entries of in-degree zero, in arbitrary order. */
  method Seed(inDegree: map<Id, nat>) returns (queue: seq<Id>)
    ensures Distinct(queue)
    ensures forall x :: x in queue <==> x in inDegree && inDegree[x] == 0
  {
    queue := [];
    var ready := set x | x in inDegree && inDegree[x] == 0;
    while ready != {}
      invariant Distinct(queue)
      invariant forall x :: x in queue || x in ready <==> x in inDegree && inDegree[x] == 0
      invariant forall x :: x in ready ==> x !in queue
      decreases ready
    {
      var x :| x in ready;
      ready := ready - {x};
      queue := queue + [x];
    }
  }

  /** Kahn's algorithm over `nodes`. */
  method Sort(nodes: Held) returns (order: seq<Id>)
    requires Acyclic(nodes)
    ensures Topological(nodes, order)
  {
    var inDegree, children := Index(nodes);
    var queue := Seed(inDegree);
    order := [];
    ghost var left := nodes.Keys;
    while queue != []
      invariant Distinct(order) && ParentsFirst(nodes, order)
      invariant forall x :: x in order <==> x in nodes && x !in left
      invariant Counting(nodes, left, inDegree, queue, [])
      decreases left
    {
      var id := queue[0];
      TakeReady(nodes, left, inDegree, queue, children);
      OrderGrows(nodes, left, order, id);
      order := order + [id];
      left := left - {id};
      inDegree, queue := Release(nodes, left, Kids(children, id), inDegree, queue[1..]);
    }
    if left != {} {
      var x := Minimal(nodes, left);
      CountInZero(nodes[x].parents, left);
      assert false;
    }
  }

  lemma OrderGrows(nodes: Held, left: set<Id>, order: seq<Id>, id: Id)
    requires Distinct(order) && ParentsFirst(nodes, order)
    requires forall x :: x in order <==> x in nodes && x !in left
    requires id in nodes && id in left
    requires forall p :: p in nodes[id].parents ==> p !in left
    ensures Distinct(order + [id]) && ParentsFirst(nodes, order + [id])
  {
    var order' := order + [id];
    forall i, p | 0 <= i < |order'| && order'[i] in nodes && p in nodes[order'[i]].parents && p in nodes
      ensures p in order'[..i]
    {
      assert order'[..i] == order[..i];
    }
  }

  lemma TakeReady(nodes: Held, left: set<Id>, inDegree: map<Id, nat>, queue: seq<Id>, children: map<Id, seq<Id>>)
    requires queue != []
    requires Counting(nodes, left, inDegree, queue, [])
    requires ChildIndex(nodes, nodes.Keys, children)
    ensures Counting(nodes, left - {queue[0]}, inDegree, queue[1..], Kids(children, queue[0]))
    ensures forall x :: x in Kids(children, queue[0]) ==> x in left - {queue[0]}
    ensures forall p :: p in nodes[queue[0]].parents ==> p !in left
  {
    var id := queue[0];
    forall x | x in nodes
      ensures inDegree[x] == CountIn(nodes[x].parents, left - {id}) + CountIn(Kids(children, id), {x})
    {
      CountInDrop(nodes[x].parents, left, id);
    }
    CountInZero(nodes[id].parents, left);
    forall x | x in Kids(children, id) ensures x in left - {id} {
      CountInZero(Kids(children, id), {x});
      CountInZero(nodes[x].parents, {id});
    }
  }
}
