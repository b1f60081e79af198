/**
 Entries of the Merkle DAG: their fields, the accessors the walks rely on, the
 structural check every backend runs before storing, and the store itself.

 IDs are digests. They are modelled as naturals, which gives them the total
 order the code sorts by; 0 is the empty ID, which sorts before every other.
 */
module Entries {

  datatype Option<+T> = None | Some(value: T)

  datatype Result<+T, +E> = Ok(value: T) | Err(error: E)

  type Id = nat

  const EMPTY_ID: Id := 0

  const U64_MAX: nat := 0xFFFF_FFFF_FFFF_FFFF

  type U64 = n: nat | n <= 0xFFFF_FFFF_FFFF_FFFF

  type Byte = n: nat | n < 256

  type RawData = seq<Byte>

  /** Reserved subtree names. */
  const ROOT := "_root"
  const SETTINGS := "_settings"

  datatype SubTree = SubTree(name: string, parents: seq<Id>, data: Option<RawData>, height: Option<U64>)

  /** An immutable entry, together with its content-derived ID. */
  datatype Entry = Entry(
    id: Id,
    root: Option<Id>,
    parents: seq<Id>,
    metadata: Option<RawData>,
    height: U64,
    subtrees: seq<SubTree>)
  {
    function Find(name: string): Option<SubTree> {
      FindIn(subtrees, name)
    }

    predicate InSubtree(name: string) {
      Find(name).Some?
    }

    predicate InTree(tree: Id) {
      root == Some(tree) || id == tree
    }

    predicate IsRoot() {
      InSubtree(ROOT) && parents == [] && root == None
    }

    /** `subtree_parents(..).unwrap_or_default()`. */
    function SubtreeParents(name: string): seq<Id> {
      match Find(name)
      case None => []
      case Some(node) => node.parents
    }

    /** `subtree_height(..).unwrap_or(0)`: a subtree without its own height inherits the tree's. */
    function SubtreeHeight(name: string): U64 {
      match Find(name)
      case None => 0
      case Some(node) => if node.height.Some? then node.height.value else height
    }

    function Data(name: string): Option<RawData> {
      match Find(name)
      case None => None
      case Some(node) => node.data
    }

    /** The structural check run before an entry is stored. */
    predicate Validates() {
      && (InSubtree(ROOT) ==> parents == [])
      && root != Some(EMPTY_ID)
      && (forall i | 0 <= i < |subtrees| ::
            && subtrees[i].name != ""
            && (subtrees[i].name != ROOT ==> EMPTY_ID !in subtrees[i].parents))
      && (!IsRoot() ==> parents != [] && EMPTY_ID !in parents)
    }
  }

  function FindIn(subtrees: seq<SubTree>, name: string): Option<SubTree> {
    if subtrees == [] then None
    else if subtrees[0].name == name then Some(subtrees[0])
    else FindIn(subtrees[1..], name)
  }

  /** The subtree found under a name is the first listed one of that name. */
  lemma {:induction false} FindIs(subtrees: seq<SubTree>, name: string)
    ensures FindIn(subtrees, name).None? <==> forall i :: 0 <= i < |subtrees| ==> subtrees[i].name != name
    ensures FindIn(subtrees, name).Some? ==>
              exists i :: 0 <= i < |subtrees| && subtrees[i].name == name && FindIn(subtrees, name) == Some(subtrees[i])
                && forall j :: 0 <= j < i ==> subtrees[j].name != name
  {
    if subtrees == [] {
    } else if subtrees[0].name == name {
      assert FindIn(subtrees, name) == Some(subtrees[0]);
    } else {
      FindIs(subtrees[1..], name);
      var rest := subtrees[1..];
      assert forall i :: 0 < i < |subtrees| ==> subtrees[i] == rest[i - 1];
      if FindIn(subtrees, name).Some? {
        var i :| 0 <= i < |rest| && rest[i].name == name && FindIn(rest, name) == Some(rest[i])
                 && forall j :: 0 <= j < i ==> rest[j].name != name;
        var k := i + 1;
        assert subtrees[k] == rest[i];
        forall j | 0 <= j < k ensures subtrees[j].name != name {
          if j > 0 { assert subtrees[j] == rest[j - 1]; }
        }
      }
    }
  }

  predicate Named(e: Entry, name: string) {
    exists i | 0 <= i < |e.subtrees| :: e.subtrees[i].name == name
  }

  /** An entry is in a subtree exactly when it lists one of that name. */
  lemma InSubtreeIff(e: Entry, name: string)
    ensures e.InSubtree(name) <==> Named(e, name)
  {
    FindIs(e.subtrees, name);
  }

  /** Parents, data and height are those of the first subtree listed; without its own height it has the entry's. */
  lemma SubtreeFields(e: Entry, name: string, i: nat)
    requires i < |e.subtrees| && e.subtrees[i].name == name && forall j :: 0 <= j < i ==> e.subtrees[j].name != name
    ensures e.SubtreeParents(name) == e.subtrees[i].parents && e.Data(name) == e.subtrees[i].data
    ensures match e.subtrees[i].height
            case None => e.SubtreeHeight(name) == e.height
            case Some(h) => e.SubtreeHeight(name) == h
  {
    FindIs(e.subtrees, name);
  }

  /** A subtree that is not listed has no parents, no data and height 0. */
  lemma NoSubtreeFields(e: Entry, name: string)
    requires !Named(e, name)
    ensures e.SubtreeParents(name) == [] && e.Data(name) == None && e.SubtreeHeight(name) == 0
  {
    FindIs(e.subtrees, name);
  }

  /** Subtrees have names, and outside the root marker no parent ID is empty. */
  predicate SubtreesWellFormed(e: Entry) {
    forall i | 0 <= i < |e.subtrees| ::
      e.subtrees[i].name != "" && (e.subtrees[i].name == ROOT || EMPTY_ID !in e.subtrees[i].parents)
  }

  /**
   What is accepted: entries with the root marker that have no parents and no root
   (genesis), and entries without the marker that have parents, any number, none of
   them the empty ID.
   */
  lemma ValidatesIff(e: Entry)
    ensures e.Validates() <==>
            && SubtreesWellFormed(e)
            && (|| (Named(e, ROOT) && e.parents == [] && e.root == None)
                || (!Named(e, ROOT) && e.parents != [] && EMPTY_ID !in e.parents && e.root != Some(EMPTY_ID)))
  {
    InSubtreeIff(e, ROOT);
  }

  datatype VerificationStatus = Verified | Unverified | Failed

  datatype Error =
    | EntryNotFound(id: Id)
    | EntryNotInTree(id: Id, tree: Id)
    | ValidationFailed(id: Id)
    | MalformedSettings

  type Held = map<Id, Entry>

  /** What a local backend holds: entries and one verification status for each. */
  datatype Store = Store(entries: Held, status: map<Id, VerificationStatus>) {

    /** One status per entry, each entry under its own ID. */
    ghost predicate Valid() {
      && status.Keys == entries.Keys
      && forall id | id in entries :: entries[id].id == id
    }

    predicate Is(id: Id, s: VerificationStatus) {
      id in status && status[id] == s
    }

    /** `put`: a new entry is stored Unverified, a held one is left untouched. */
    function Put(e: Entry): Store {
      if e.id in entries || !e.Validates() then this
      else Store(entries[e.id := e], status[e.id := Unverified])
    }

    function PutAll(batch: seq<Entry>): Store
      decreases |batch|
    {
      if batch == [] then this else Put(batch[0]).PutAll(batch[1..])
    }

    /** `write_entry`: put, then promote unless the asked-for status is Unverified. */
    function WriteEntry(e: Entry, verification: VerificationStatus): Store {
      if !e.Validates() then this
      else
        var s := Put(e);
        if verification == Unverified then s else s.(status := s.status[e.id := verification])
    }
  }

  ghost predicate AllValidate(es: Held) {
    forall id | id in es :: es[id].Validates()
  }

  /** `es'` holds everything `es` does. An ID fixes its entry, so shared IDs agree. */
  ghost predicate Extends(es: Held, es': Held) {
    forall id | id in es :: id in es' && es'[id] == es[id]
  }

  function Elems(s: seq<Id>): set<Id> {
    set x | x in s
  }

  lemma TakeNext<T>(s: seq<T>, i: nat)
    requires i < |s|
    ensures s[..i + 1] == s[..i] + [s[i]]
  {
  }

  lemma ElemsNext(s: seq<Id>, i: nat)
    requires i < |s|
    ensures Elems(s[..i + 1]) == Elems(s[..i]) + {s[i]}
  {
    TakeNext(s, i);
  }
}
