/**
 The `_settings` an entry's signature is pinned to: which tips it pins, whether
 their whole closure is held, and the auth config folded from them.
 */
module Settings {
  import opened Entries
  import opened Walks
  import opened Sorting

  /** A merged settings document and the auth config inside it; their contents are not modelled. */
  type Doc(!new)
  type Auth(!new)

  /**
   The foreign parts of validation: decoders, the CRDT merge, and the verdict of
   the signature and permission check (a validator error counts as a negative verdict).
   */
  datatype Policy = Policy(
    decodeMetadata: RawData -> Option<seq<Id>>,
    decodeDoc: RawData -> Option<Doc>,
    defaultDoc: Doc,
    merge: (Doc, Doc) -> Option<Doc>,
    authOf: Doc -> Auth,
    noAuth: Auth,
    valid: (Entry, Auth) -> bool)

  datatype Pinned = Complete(auth: Auth) | Incomplete

  /** Where an entry's settings come from. */
  datatype Pin = Unparsable | Unconfigured | Tips(ids: seq<Id>)

  function PinOf(pol: Policy, e: Entry): Pin {
    var recorded := if e.metadata.None? then Some([]) else pol.decodeMetadata(e.metadata.value);
    if recorded.None? then Unparsable
    else if recorded.value != [] then Tips(recorded.value)
    else if e.InSubtree(SETTINGS) then Tips([e.id])
    else Unconfigured
  }

  /** Main parents and `_settings` parents alike. */
  function ClosureEdges(es: Held): Edges {
    map id | id in es :: Elems(es[id].SubtreeParents(SETTINGS)) + Elems(es[id].parents)
  }

  /** The pinned tips and everything below them, along both kinds of edge, is held. */
  ghost predicate PinHeld(es: Held, tips: seq<Id>) {
    forall x :: Reach(ClosureEdges(es), Elems(tips), x) ==> x in es
  }

  function StoreEdges(es: Held, tree: Id): Edges {
    map id | id in es && es[id].InTree(tree) && es[id].InSubtree(SETTINGS) :: Elems(es[id].SubtreeParents(SETTINGS))
  }

  function StoreKey(es: Held): Key {
    (id: Id) => if id in es then es[id].SubtreeHeight(SETTINGS) else 0
  }

  ghost function StoreSet(es: Held, tree: Id, tips: seq<Id>): set<Id> {
    set x | x in StoreEdges(es, tree) && Reach(StoreEdges(es, tree), Elems(tips), x)
  }

  /** `store_at`: the `_settings` entries at or below the tips, root first. */
  ghost function StoreAt(es: Held, tree: Id, tips: seq<Id>): (r: seq<Id>)
    ensures forall x :: x in r ==> x in es
  {
    SortedSet(StoreKey(es), StoreSet(es, tree, tips))
  }

  /** Merge the documents of the listed entries, in order; malformed data is an error. */
  function Fold(pol: Policy, es: Held, ids: seq<Id>, doc: Doc): Option<Doc>
    requires forall x :: x in ids ==> x in es
  {
    if ids == [] then Some(doc)
    else
      match es[ids[0]].Data(SETTINGS)
      case None => Fold(pol, es, ids[1..], doc)
      case Some(data) =>
        match pol.decodeDoc(data)
        case None => None
        case Some(part) =>
          match pol.merge(doc, part)
          case None => None
          case Some(doc') => Fold(pol, es, ids[1..], doc')
  }

  /** What `get_historical_settings_for_entry` answers. */
  ghost function PinnedFor(es: Held, pol: Policy, tree: Id, e: Entry): Result<Pinned, Error> {
    match PinOf(pol, e)
    case Unparsable => Ok(Incomplete)
    case Unconfigured => Ok(Complete(pol.noAuth))
    case Tips(tips) =>
      if !PinHeld(es, tips) then Ok(Incomplete)
      else
        match Fold(pol, es, StoreAt(es, tree, tips), pol.defaultDoc)
        case None => Err(MalformedSettings)
        case Some(doc) => Ok(Complete(pol.authOf(doc)))
  }

  /** A pinned tip that is not held leaves the pin incomplete. */
  lemma AbsentTip(es: Held, pol: Policy, tree: Id, e: Entry, tips: seq<Id>, t: Id)
    requires PinOf(pol, e) == Tips(tips) && t in tips && t !in es
    ensures PinnedFor(es, pol, tree, e) == Ok(Incomplete)
  {
    ReachSeed(ClosureEdges(es), Elems(tips), t);
  }

  /** `c` is held and closed under main and settings parents. */
  ghost predicate ClosedUnderParents(es: Held, c: set<Id>) {
    forall x :: x in c ==> x in es && Elems(es[x].parents) <= c && Elems(es[x].SubtreeParents(SETTINGS)) <= c
  }

  lemma PinHeldIff(es: Held, tips: seq<Id>)
    ensures PinHeld(es, tips) <==> exists c :: ClosedUnderParents(es, c) && Elems(tips) <= c
  {
    var g, seeds := ClosureEdges(es), Elems(tips);
    if PinHeld(es, tips) {
      var c := ReachSet(g, seeds);
      forall x | x in seeds ensures x in c { ReachSeed(g, seeds, x); }
      forall x | x in c ensures Elems(es[x].parents) <= c && Elems(es[x].SubtreeParents(SETTINGS)) <= c {
        forall y | y in g[x] ensures y in c {
          assert Step(g, x, y);
          ReachStep(g, seeds, x, y);
        }
      }
      assert ClosedUnderParents(es, c);
    }
    if c :| ClosedUnderParents(es, c) && Elems(tips) <= c {
      ReachInduct(g, seeds, iset x | x in c);
    }
  }

  /** A recorded pin is complete exactly when all its tips lie in a held set closed under both kinds of parent. */
  lemma RecordedPinIff(es: Held, pol: Policy, tree: Id, e: Entry, m: RawData, ids: seq<Id>)
    requires e.metadata == Some(m) && pol.decodeMetadata(m) == Some(ids) && ids != []
    ensures PinnedFor(es, pol, tree, e) != Ok(Incomplete) <==>
            exists c :: ClosedUnderParents(es, c) && Elems(ids) <= c
  {
    PinHeldIff(es, ids);
  }

  /** Without a recorded pin an entry with settings is pinned to itself, and any other to no settings at all. */
  lemma NoRecordedPin(es: Held, pol: Policy, tree: Id, e: Entry)
    requires e.metadata.None? || pol.decodeMetadata(e.metadata.value) == Some([])
    ensures e.InSubtree(SETTINGS) ==>
              (PinnedFor(es, pol, tree, e) != Ok(Incomplete) <==>
               exists c :: ClosedUnderParents(es, c) && e.id in c)
    ensures !e.InSubtree(SETTINGS) ==> PinnedFor(es, pol, tree, e) == Ok(Complete(pol.noAuth))
  {
    PinHeldIff(es, [e.id]);
    assert forall c: set<Id> :: Elems([e.id]) <= c <==> e.id in c;
  }

  /** Metadata that cannot be read leaves the pin open. */
  lemma UnreadablePin(es: Held, pol: Policy, tree: Id, e: Entry)
    requires e.metadata.Some? && pol.decodeMetadata(e.metadata.value).None?
    ensures PinnedFor(es, pol, tree, e) == Ok(Incomplete)
  {
  }

  /** A chain of settings entries of the tree from a tip down settings parents. */
  ghost predicate SettingsChain(es: Held, tree: Id, tips: seq<Id>, p: seq<Id>) {
    && p != [] && p[0] in tips
    && (forall i :: 0 <= i < |p| ==> p[i] in es && es[p[i]].InTree(tree) && es[p[i]].InSubtree(SETTINGS))
    && forall i :: 0 <= i < |p| - 1 ==> p[i + 1] in es[p[i]].SubtreeParents(SETTINGS)
  }

  /** `store_at` lists exactly the far ends of such chains. */
  lemma StoreAtIff(es: Held, tree: Id, tips: seq<Id>, x: Id)
    ensures x in StoreAt(es, tree, tips) <==> exists p :: SettingsChain(es, tree, tips, p) && p[|p| - 1] == x
  {
    var g, seeds := StoreEdges(es, tree), Elems(tips);
    assert x in StoreAt(es, tree, tips) <==> x in g && Reach(g, seeds, x);
    if x in StoreAt(es, tree, tips) {
      var p :| Path(g, p) && p[0] in seeds && p[|p| - 1] == x;
      forall i | 0 <= i < |p| ensures p[i] in g {
        if i < |p| - 1 { assert Step(g, p[i], p[i + 1]); }
      }
      forall i | 0 <= i < |p| - 1 ensures p[i + 1] in es[p[i]].SubtreeParents(SETTINGS) {
        assert Step(g, p[i], p[i + 1]);
      }
      assert SettingsChain(es, tree, tips, p);
    }
    if p :| SettingsChain(es, tree, tips, p) && p[|p| - 1] == x {
      assert forall i :: 0 <= i < |p| - 1 ==> Step(g, p[i], p[i + 1]);
      assert Path(g, p);
    }
  }

  /** The completeness walk: a stack, a seen set, and an early exit at the first absent ID. */
  method PinComplete(es: Held, tips: seq<Id>) returns (complete: bool)
    ensures complete <==> PinHeld(es, tips)
  {
    ghost var g, seeds := ClosureEdges(es), Elems(tips);
    var stack := tips;
    var seen: set<Id> := {};
    ExploreStart(g, seeds);
    while stack != []
      invariant seen <= es.Keys
      invariant Exploring(g, seeds, seen, Elems(stack))
      decreases es.Keys - seen, |stack|
    {
      var id := stack[|stack| - 1];
      if id in seen {
        SkipTop(g, seeds, seen, stack);
        stack := stack[..|stack| - 1];
        continue;
      }
      if id !in es {
        PendingReached(g, seeds, seen, stack, id);
        return false;
      }
      var pushed := es[id].SubtreeParents(SETTINGS) + es[id].parents;
      ExploreTop(g, seeds, seen, stack, pushed);
      stack := stack[..|stack| - 1] + pushed;
      seen := seen + {id};
    }
    ExploreDone(g, seeds, seen);
    return true;
  }

  /** `store_at`'s breadth-first collection, then the (height, ID) sort. */
  method CollectStore(es: Held, tree: Id, tips: seq<Id>) returns (r: seq<Id>)
    ensures r == StoreAt(es, tree, tips)
  {
    var g := StoreEdges(es, tree);
    ghost var seeds := Elems(tips);
    var queue := tips;
    var processed: set<Id> := {};
    ghost var seen: set<Id> := {};
    ExploreStart(g, seeds);
    while queue != []
      invariant forall x :: x in processed <==> x in seen && x in g
      invariant Exploring(g, seeds, seen, Elems(queue))
      decreases g.Keys - processed, |queue|
    {
      var id := queue[0];
      if id in processed {
        SkipFront(g, seeds, seen, queue);
        queue := queue[1..];
        continue;
      }
      var pushed := if id in g then es[id].SubtreeParents(SETTINGS) else [];
      ExploreFront(g, seeds, seen, queue, pushed);
      queue := queue[1..] + pushed;
      seen := seen + {id};
      if id in g { processed := processed + {id}; }
    }
    ExploreDone(g, seeds, seen);
    assert processed == StoreSet(es, tree, tips);
    r := Listing(StoreKey(es), processed);
  }

  method FoldDocs(pol: Policy, es: Held, ids: seq<Id>) returns (r: Option<Doc>)
    requires forall x :: x in ids ==> x in es
    ensures r == Fold(pol, es, ids, pol.defaultDoc)
  {
    var doc := pol.defaultDoc;
    assert ids[0..] == ids;
    for i := 0 to |ids|
      invariant Fold(pol, es, ids, pol.defaultDoc) == Fold(pol, es, ids[i..], doc)
    {
      assert ids[i..][0] == ids[i] && ids[i..][1..] == ids[i + 1..];
      var data := es[ids[i]].Data(SETTINGS);
      if data.Some? {
        var part := pol.decodeDoc(data.value);
        if part.None? { return None; }
        var merged := pol.merge(doc, part.value);
        if merged.None? { return None; }
        doc := merged.value;
      }
    }
    r := Some(doc);
  }

  method HistoricalSettings(es: Held, pol: Policy, tree: Id, e: Entry) returns (r: Result<Pinned, Error>)
    ensures r == PinnedFor(es, pol, tree, e)
    ensures PinOf(pol, e).Tips? ==> (r == Ok(Incomplete) <==> !PinHeld(es, PinOf(pol, e).ids))
  {
    match PinOf(pol, e)
    case Unparsable => return Ok(Incomplete);
    case Unconfigured => return Ok(Complete(pol.noAuth));
    case Tips(tips) =>
      var complete := PinComplete(es, tips);
      if !complete { return Ok(Incomplete); }
      var ids := CollectStore(es, tree, tips);
      var doc := FoldDocs(pol, es, ids);
      r := if doc.None? then Err(MalformedSettings) else Ok(Complete(pol.authOf(doc.value)));
  }

  // --- Stability ---

  /** The whole closure is held: from a held closure the larger store's closure is the same set. */
  lemma PinHeldGrows(es: Held, es': Held, tips: seq<Id>)
    requires Extends(es, es') && PinHeld(es, tips)
    ensures PinHeld(es', tips)
    ensures forall x :: Reach(ClosureEdges(es'), Elems(tips), x) <==> Reach(ClosureEdges(es), Elems(tips), x)
  {
    var seeds := Elems(tips);
    var c := iset x | Reach(ClosureEdges(es), seeds, x);
    ReachClosed(ClosureEdges(es), seeds);
    forall x | x in seeds ensures x in c { ReachSeed(ClosureEdges(es), seeds, x); }
    forall x, y | x in c && Step(ClosureEdges(es'), x, y) ensures y in c {
      assert Step(ClosureEdges(es), x, y);
    }
    ReachInduct(ClosureEdges(es'), seeds, c);
    ReachMono(ClosureEdges(es), ClosureEdges(es'), seeds, seeds);
  }

  lemma StoreReachHeld(es: Held, tree: Id, seeds: set<Id>)
    requires forall x :: Reach(ClosureEdges(es), seeds, x) ==> x in es
    ensures forall x :: Reach(StoreEdges(es, tree), seeds, x) ==> x in es
  {
    ReachMono(StoreEdges(es, tree), ClosureEdges(es), seeds, seeds);
  }

  lemma StoreReachGrows(es: Held, es': Held, tree: Id, seeds: set<Id>)
    requires Extends(es, es') && forall x :: Reach(StoreEdges(es, tree), seeds, x) ==> x in es
    ensures forall x :: Reach(StoreEdges(es', tree), seeds, x) <==> Reach(StoreEdges(es, tree), seeds, x)
  {
    var g, g' := StoreEdges(es, tree), StoreEdges(es', tree);
    var c := iset x | Reach(g, seeds, x);
    forall x | x in seeds ensures x in c { ReachSeed(g, seeds, x); }
    forall x, y | x in c && Step(g', x, y) ensures y in c {
      assert x in es && Step(g, x, y);
      ReachStep(g, seeds, x, y);
    }
    ReachInduct(g', seeds, c);
    ReachMono(g, g', seeds, seeds);
  }

  /** Below held tips, `store_at` sees the same entries in every larger store. */
  lemma StoreAtGrows(es: Held, es': Held, tree: Id, tips: seq<Id>)
    requires Extends(es, es') && PinHeld(es, tips)
    ensures StoreAt(es', tree, tips) == StoreAt(es, tree, tips)
  {
    StoreReachHeld(es, tree, Elems(tips));
    StoreReachGrows(es, es', tree, Elems(tips));
    assert StoreSet(es', tree, tips) == StoreSet(es, tree, tips);
    SortedSetAgree(StoreKey(es), StoreKey(es'), StoreSet(es, tree, tips));
  }

  lemma {:induction false} FoldAgree(pol: Policy, es: Held, es': Held, ids: seq<Id>, doc: Doc)
    requires Extends(es, es') && forall x :: x in ids ==> x in es
    ensures Fold(pol, es, ids, doc) == Fold(pol, es', ids, doc)
  {
    if ids == [] {
    } else {
      var data := es[ids[0]].Data(SETTINGS);
      if data.None? {
        FoldAgree(pol, es, es', ids[1..], doc);
      } else {
        var part := pol.decodeDoc(data.value);
        if part.Some? && pol.merge(doc, part.value).Some? {
          FoldAgree(pol, es, es', ids[1..], pol.merge(doc, part.value).value);
        }
      }
    }
  }

  /** A complete pin, or a malformed one, gives the same answer in every larger store. */
  lemma PinnedStable(es: Held, es': Held, pol: Policy, tree: Id, e: Entry)
    requires Extends(es, es')
    requires PinnedFor(es, pol, tree, e) != Ok(Incomplete)
    ensures PinnedFor(es', pol, tree, e) == PinnedFor(es, pol, tree, e)
  {
    if PinOf(pol, e).Tips? {
      var tips := PinOf(pol, e).ids;
      PinHeldGrows(es, es', tips);
      StoreAtGrows(es, es', tree, tips);
      FoldAgree(pol, es, es', StoreAt(es, tree, tips), pol.defaultDoc);
    }
  }

  /** Two nodes of one network that both hold the pinned closure reconstruct the same auth config. */
  lemma PinnedAgree(world: Held, es: Held, es': Held, pol: Policy, tree: Id, e: Entry)
    requires Extends(es, world) && Extends(es', world)
    requires PinnedFor(es, pol, tree, e) != Ok(Incomplete)
    requires PinnedFor(es', pol, tree, e) != Ok(Incomplete)
    ensures PinnedFor(es, pol, tree, e) == PinnedFor(es', pol, tree, e)
  {
    PinnedStable(es, world, pol, tree, e);
    PinnedStable(es', world, pol, tree, e);
  }

  // --- What the config is made of ---

  /** Settings heights fall along settings parents among the held entries. */
  ghost predicate StoreHeightsFall(es: Held) {
    forall x, p :: x in es && p in es[x].SubtreeParents(SETTINGS) && p in es ==>
      es[p].SubtreeHeight(SETTINGS) < es[x].SubtreeHeight(SETTINGS)
  }

  /** Entries come back by settings height, and by ID among equals, each once. */
  lemma StoreAtSorted(es: Held, tree: Id, tips: seq<Id>, i: nat, j: nat)
    requires i < j < |StoreAt(es, tree, tips)|
    ensures var a, b := StoreAt(es, tree, tips)[i], StoreAt(es, tree, tips)[j];
            && a in es && b in es
            && (|| es[a].SubtreeHeight(SETTINGS) < es[b].SubtreeHeight(SETTINGS)
                || (es[a].SubtreeHeight(SETTINGS) == es[b].SubtreeHeight(SETTINGS) && a < b))
  {
    var r := StoreAt(es, tree, tips);
    assert r[i] in r && r[j] in r;
    assert Before(StoreKey(es), r[i], r[j]);
  }

  /** Entries come back root first: each one's settings parents stand before it. */
  lemma StoreAtRootFirst(es: Held, tree: Id, tips: seq<Id>, i: nat, p: Id)
    requires StoreHeightsFall(es) && i < |StoreAt(es, tree, tips)|
    requires p in es[StoreAt(es, tree, tips)[i]].SubtreeParents(SETTINGS) && p in StoreAt(es, tree, tips)
    ensures p in StoreAt(es, tree, tips)[..i]
  {
    var r := StoreAt(es, tree, tips);
    var k :| 0 <= k < |r| && r[k] == p;
    assert r[i] in r;
    OrderedIndex(StoreKey(es), r, k, i);
    assert r[..i][k] == p;
  }

  /** Later entries are merged on top of earlier ones. */
  lemma {:induction false} FoldLast(pol: Policy, es: Held, ids: seq<Id>, x: Id, doc: Doc)
    requires x in es && forall y :: y in ids ==> y in es
    ensures Fold(pol, es, ids + [x], doc) ==
            match Fold(pol, es, ids, doc) case None => None case Some(d) => Fold(pol, es, [x], d)
  {
    if ids == [] {
      assert ids + [x] == [x];
    } else {
      assert (ids + [x])[0] == ids[0] && (ids + [x])[1..] == ids[1..] + [x];
      var data := es[ids[0]].Data(SETTINGS);
      if data.None? {
        FoldLast(pol, es, ids[1..], x, doc);
      } else if pol.decodeDoc(data.value).Some? && pol.merge(doc, pol.decodeDoc(data.value).value).Some? {
        FoldLast(pol, es, ids[1..], x, pol.merge(doc, pol.decodeDoc(data.value).value).value);
      }
    }
  }

  /** A genesis entry records no pin and is judged against the settings it itself establishes. */
  lemma GenesisPinsItself(es: Held, pol: Policy, tree: Id, e: Entry, data: RawData, part: Doc, doc: Doc)
    requires e.id in es && es[e.id] == e && e.InTree(tree) && e.InSubtree(SETTINGS)
    requires e.metadata == None && e.parents == [] && e.SubtreeParents(SETTINGS) == []
    requires e.Data(SETTINGS) == Some(data) && pol.decodeDoc(data) == Some(part)
    requires pol.merge(pol.defaultDoc, part) == Some(doc)
    ensures PinnedFor(es, pol, tree, e) == Ok(Complete(pol.authOf(doc)))
  {
    LoneEntry(es, tree, e);
    FoldOne(pol, es, e.id, data, part, pol.defaultDoc, doc);
    PinnedToFold(es, pol, tree, e, [e.id], [e.id], doc);
  }

  lemma PinnedToFold(es: Held, pol: Policy, tree: Id, e: Entry, tips: seq<Id>, ids: seq<Id>, doc: Doc)
    requires PinOf(pol, e) == Tips(tips) && PinHeld(es, tips) && StoreAt(es, tree, tips) == ids
    requires Fold(pol, es, ids, pol.defaultDoc) == Some(doc)
    ensures PinnedFor(es, pol, tree, e) == Ok(Complete(pol.authOf(doc)))
  {
  }

  lemma FoldOne(pol: Policy, es: Held, x: Id, data: RawData, part: Doc, doc: Doc, doc': Doc)
    requires x in es && es[x].Data(SETTINGS) == Some(data) && pol.decodeDoc(data) == Some(part)
    requires pol.merge(doc, part) == Some(doc')
    ensures Fold(pol, es, [x], doc) == Some(doc')
  {
    assert Fold(pol, es, [x][1..], doc') == Some(doc');
  }

  lemma LoneEntry(es: Held, tree: Id, e: Entry)
    requires e.id in es && es[e.id] == e && e.InTree(tree) && e.InSubtree(SETTINGS)
    requires e.parents == [] && e.SubtreeParents(SETTINGS) == []
    ensures PinHeld(es, [e.id]) && StoreAt(es, tree, [e.id]) == [e.id]
  {
    var tips := [e.id];
    var only := Elems(tips);
    ReachInduct(ClosureEdges(es), only, iset x | x in only);
    ReachInduct(StoreEdges(es, tree), only, iset x | x in only);
    ReachSeed(StoreEdges(es, tree), only, e.id);
    assert StoreSet(es, tree, tips) == {e.id};
    OrderedUnique(StoreKey(es), StoreAt(es, tree, tips), tips);
  }
}
