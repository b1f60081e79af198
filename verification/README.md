# Eidetica verification core, in Dafny

Eidetica stores signed entries in a content-addressed Merkle DAG and decides,
on each node separately, which entries it trusts. This project models that
core and proves what it promises: the status machine (Verified, Unverified,
Failed) driven by verification passes, remote batches, commits and cascading
demotions; the views and cursors built on it; three-state reachability; and
replica convergence.

All parts share one theory of the parent DAG. An ID is a natural number (the
code's total order on IDs; 0 is the empty ID), a store maps IDs to entries and
statuses, and "an ID fixes its entry" becomes: stores of one network are parts
of one map. That an entry's bytes contain its parents' IDs becomes: held entries
can be numbered with parents first (`Dag.Acyclic`). Entry heights are
self-declared, so falling heights are assumed only where a result rests on them.
The signature and permission check is a verdict on an entry and an auth config,
the CRDT merge and the decoders are arbitrary functions, and clocks are
parameters. Hash-map iteration order is an arbitrary choice in the code and
every contract holds for all choices. Async locking is a step relation: one step
is what runs under one acquisition of the tree lock, and registrations and
removals may fall between any two steps.

Modules, bottom up:

- `Entries`, `Walks`, `Sorting`, `Snapshots`, `Dag`, `Induction`: entries and
  stores, paths and worklist loops, canonical order, tips and ancestry, runs.
- `TopoSort`, `Settings`, `Backends`, `Verification`: the scoped Kahn sort, the
  pinned settings, the backend, and `verify` itself.
- `Passes`, `Frontier`, `Views`, `Demotion`, `Runs`, `Worlds`, `Delivery`: what
  passes mean, what readers see, what demotion undoes, what every run keeps, a
  node's part of a closed world, and delivery-order convergence.
- `Reachability`, `IdsAdded`, `Cursors`, `Instances`: bounded reachability,
  cursor expansion, write callbacks, and the operations of a local instance as
  steps of the callback protocol.
- `Clusters`, `Heights`: replica convergence and entry heights.

## Where the code and its comments differ

The model follows the code. Each difference has a lemma with a concrete input
and a lemma that says exactly when the promise holds.

- `verify` relies on no Unverified entry being hidden behind a settled one. A
  pass can hide one itself, by failing a child with one failed and one waiting
  parent (`Passes.ForkedStrands`; exactly when: `Passes.PassCoversIff`,
  `Passes.StrandsIff`, `Passes.NoSettledChildIff`).
- The cascade of `demote_to_unverified` indexes children of one tree only, so a
  Verified child in another tree survives it (`Runs.CrossTreeEscapes`,
  `Demotion.DemotionClosedIff`).
- A commit is stored Verified without looking at its parents, which can hide a
  parent that has to wait from every later pass (`Runs.CommitOnUnverified`,
  `Runs.WriteClosedIff`, `Runs.StrandedForGood`).
- `ids_added` calls halting at a complete previous frontier exact. It lists old
  entries again when a new entry forks off below that frontier
  (`IdsAdded.SiblingOverReported`, `IdsAdded.AddedExactIff`).
- `ids_added` promises never to under-report. Its backward guard trusts declared
  heights, and hides a new entry below a parent that declares too high a height
  (`IdsAdded.HighParentHides`, `IdsAdded.NothingLostIff`).
- `verified_frontier` takes `get_tree` to be topologically sorted. It is only as
  sorted as the declared heights (`Frontier.EarlyChildMissed`,
  `Frontier.OnePassExact`).
- The looser view is described as the default view plus Unverified entries. A
  failed tip takes its Verified parents out of it (`Views.FailedTipHides`,
  `Views.HiddenIff`, `Views.LooseViewIff`).
- `put_remote_entries` promises the number of stored entries and one event per
  batch. While the tree root is absent it fails although the batch stays stored
  (`Instances.OrphanBatch`), and it announces promotions only
  (`Instances.WaitingBatch`). Exactly when it succeeds and announces is told from
  the store before its pass (`Instances.Instance.PutRemoteEntries`,
  `Passes.CompletesIff`, `Passes.PromotesIff`).

## Model

| member | source | states |
|---|---|---|
| `Entries.InSubtreeIff` | crates/lib/src/entry/mod.rs:234-239 | an entry is in a subtree exactly when it lists one of that name, wherever in the list |
| `Entries.SubtreeFields` | crates/lib/src/entry/mod.rs:289-327 | parents, data and height of a subtree are those of the first listed one of its name; without its own height it has the entry's |
| `Entries.NoSubtreeFields` | crates/lib/src/entry/mod.rs:289-327 | a subtree that is not listed reads as no parents, no data and height 0 |
| `Entries.ValidatesIff` | crates/lib/src/entry/mod.rs:433-556 | accepted are exactly genesis entries (root marker, no parents, no root) and unmarked entries with any number of non-empty parent IDs, with named subtrees and no empty subtree parent |
| `Sorting.OrderedUnique` | crates/lib/src/backend/database/in_memory/cache.rs:96-111 | a set of IDs has one listing in (height, ID) order, so every sort of the code is determined by the set it sorts |
| `Sorting.SortDedup` | crates/lib/src/snapshot.rs:60-64 | sort and dedup gives a strictly ordered vector with the same members |
| `Snapshots.New` | crates/lib/src/snapshot.rs:57-64 | a snapshot is canonical and names exactly the given tips |
| `Snapshots.CanonicalIff` | crates/lib/src/snapshot.rs:57-64 | canonical means strictly ascending IDs |
| `Snapshots.SetEquality` | crates/lib/src/snapshot.rs:87-93 | vector equality of canonical snapshots is set equality of their tips, both ways |
| `Snapshots.NewSetEquality` | crates/lib/src/snapshot.rs:103-131 | two input vectors give equal snapshots exactly when they have the same members, whatever order and repetition |
| `Snapshots.NewRoundTrip` | crates/lib/src/snapshot.rs:43-51 | reading back the wire form of a snapshot gives it back |
| `Dag.TakeSnapshot` | crates/lib/src/backend/mod.rs:327-336 | the backend snapshot lists exactly the tree's entries that no entry of the tree names as parent |
| `Dag.Climb` | crates/lib/src/backend/mod.rs:330-332 | every entry held in a tree is an ancestor-or-equal of one of its raw tips |
| `Dag.ClimbWithin` | crates/lib/src/database/mod.rs:1964-1968 | a set whose non-seed members each have a child in it is reached from the seeds without leaving it |
| `Dag.SnapshotIdentifiesState` | crates/lib/src/snapshot.rs:3-7 | two parent-complete stores have equal snapshots of a tree exactly when they hold the same entries of it, whatever else they hold |
| `TopoSort.Index` | crates/lib/src/database/mod.rs:2001-2012 | in-degrees and the children index count parent mentions inside the set with multiplicity |
| `TopoSort.Release` | crates/lib/src/database/mod.rs:2021-2029 | counting down the kids of a taken entry never underflows and queues exactly the newly ready ones |
| `TopoSort.Sort` | crates/lib/src/database/mod.rs:1997-2030 | for every hash-map order the result lists the set once each, parents before children, with nothing left over (the sort of `ids_added` is the same) |
| `Settings.PinComplete` | crates/lib/src/database/mod.rs:1685-1706 | the completeness walk answers true exactly when the whole closure of the pinned tips under main and settings parents is held |
| `Settings.CollectStore` | crates/lib/src/backend/database/in_memory/storage.rs:313-368 | `store_at` lists, root first, the settings entries of the tree joined to the tips by settings parents |
| `Settings.StoreAtIff` | crates/lib/src/backend/database/in_memory/storage.rs:313-368 | an entry is listed exactly when a chain of settings entries of the tree leads from a tip to it along settings parents |
| `Settings.StoreAtSorted` | crates/lib/src/backend/database/in_memory/storage.rs:313-368 | the listing ascends by settings height, and by ID among equals, each entry once |
| `Settings.StoreAtRootFirst` | crates/lib/src/database/mod.rs:1708-1714 | with settings heights falling, every listed entry comes after each of its listed settings parents |
| `Settings.FoldDocs` | crates/lib/src/database/mod.rs:1715-1721 | documents are merged in listing order; malformed data is an error |
| `Settings.FoldLast` | crates/lib/src/database/mod.rs:1715-1721 | the fold adds the last listed entry to the fold of the entries before it: later settings are merged over earlier ones |
| `Settings.HistoricalSettings` | crates/lib/src/database/mod.rs:1652-1728 | the pinned settings of an entry, Incomplete exactly when the metadata does not parse or the pinned closure is not held |
| `Settings.RecordedPinIff` | crates/lib/src/database/mod.rs:1657-1706 | a recorded pin is complete exactly when all its tips lie in a held set closed under main and settings parents |
| `Settings.NoRecordedPin` | crates/lib/src/database/mod.rs:1666-1680 | without a recorded pin an entry with settings needs its own closure, and any other entry is judged against no settings |
| `Settings.UnreadablePin` | crates/lib/src/database/mod.rs:1658-1662 | metadata that cannot be decoded leaves the pin incomplete |
| `Settings.GenesisPinsItself` | crates/lib/src/database/mod.rs:1667-1675 | a genesis entry without recorded pin is judged against the settings it itself establishes |
| `Settings.PinnedStable` | crates/lib/src/database/mod.rs:1641-1651 | once complete (or malformed), the answer is the same in every larger store |
| `Settings.PinnedAgree` | crates/lib/src/database/mod.rs:1644-1648 | any two nodes holding the closure reconstruct the same auth config |
| `Backends.Backend.Put` | crates/lib/src/backend/mod.rs:269-291 | a new entry is stored Unverified, a held one keeps content and status, an invalid one is refused, and stored entries stay structurally valid |
| `Backends.Backend.UpdateVerificationStatus` | crates/lib/src/backend/mod.rs:293-310 | changes the status of that held entry only, and fails exactly when it is not held |
| `Verification.WalkUnverified` | crates/lib/src/database/mod.rs:1969-1995 | collects exactly the Unverified entries joined to a given tip by a chain of Unverified entries |
| `Verification.CollectUnverified` | crates/lib/src/database/mod.rs:1956-1995 | started at the raw tips, the walk collects exactly the region |
| `Verification.CheckParents` | crates/lib/src/database/mod.rs:2040-2050 | compromised iff some parent has failed; blocked iff some parent is absent or Unverified |
| `Verification.Judge` | crates/lib/src/database/mod.rs:2051-2084 | a failed parent gives Failed; else a blocked one gives Unverified; else the verdict against the pinned settings |
| `Verification.SettleInOrder` | crates/lib/src/database/mod.rs:2032-2085 | settling parents first leaves every processed entry with the status the rule gives it in the final state, and counts it |
| `Verification.Verify` | crates/lib/src/database/mod.rs:1935-2089 | a completed pass is a fixed point of the rule on the region with all other statuses untouched and exact report counts; a pass cut short by unreadable settings has settled a parents-first part of it |
| `Passes.SettledUnique` | crates/lib/src/database/mod.rs:2003-2030 | the rule has one solution, so any two completed passes over a store end in the same state |
| `Passes.CompletesIff` | crates/lib/src/database/mod.rs:2063 | a pass completes exactly when no walked entry with unreadable settings has only walked entries below it that are Verified or judged valid: a condition on the store before the pass |
| `Passes.PassesAgree` | crates/lib/src/database/mod.rs:2003-2087 | for every two orders the sort can produce, both passes complete and end in the same state, or both are cut short |
| `Passes.VerifiedIff` | crates/lib/src/database/mod.rs:2039-2076 | a walked entry ends up Verified exactly when it is judged valid and everything found walking on from its parents is Verified or judged valid |
| `Passes.FailedIff` | crates/lib/src/database/mod.rs:2039-2084 | it ends up Failed exactly when, at it or walking on from it, there is an entry that had failed or is judged invalid with everything below it valid: failure spreads to all descendants in the region |
| `Passes.AbortError` | crates/lib/src/database/mod.rs:1715-1721 | only settings data that does not parse or merge cuts a pass short |
| `Passes.VerifyIdempotent` | crates/lib/src/database/mod.rs:1935-2087 | a second pass over an unchanged store changes no status and reports zero verified and zero failed |
| `Passes.RegionShrinks` | crates/lib/src/database/mod.rs:1961-1968 | a pass never brings an entry into sight that it could not see before |
| `Passes.ReportTotals` | crates/lib/src/database/mod.rs:2035-2085 | the three counts add up to the size of the walked region |
| `Passes.RegionCoversIff` | crates/lib/src/database/mod.rs:1961-1995 | the walk reaches everything Unverified at or below the raw tips exactly when each such entry is a tip or the parent of another one |
| `Passes.NoSettledChildCovers` | crates/lib/src/database/mod.rs:1961-1968 | when no Unverified entry has a settled child, everything Unverified at or below the raw tips is walked |
| `Passes.PassCoversIff` | crates/lib/src/database/mod.rs:1961-1968 | from such a store, a pass leaves all of it in reach of the next pass exactly when every entry it leaves waiting is a tip or has a child without failed parents |
| `Passes.NoSettledChildIff` | crates/lib/src/database/mod.rs:2040-2062 | a pass keeps the assumption of the walk exactly when it meets no entry with a failed and a waiting parent |
| `Passes.PromotesIff` | crates/lib/src/database/mod.rs:2063-2076 | a completed pass promotes something exactly when some walked entry had only Verified parents and a favourable verdict before it |
| `Passes.StrandedStays` | crates/lib/src/database/mod.rs:1985-1987 | an Unverified non-tip whose children are all settled is untouched by every pass, completed or cut short, whatever its verdict, and stays so |
| `Passes.StrandsIff` | crates/lib/src/database/mod.rs:2040-2062 | a completed pass strands an entry it leaves waiting exactly when each of its waiting children was walked and has a failed parent |
| `Passes.ForkedStrands` | crates/lib/src/database/mod.rs:2040-2057 | a concrete four-entry store, with one entry pinned to absent settings, on which every pass strands that entry |
| `Frontier.PrefixPass` | crates/lib/src/database/mod.rs:1393-1410 | the forward pass computes the largest parent-closed Verified set in which parents sort first, and its covered members |
| `Frontier.VerifiedFrontier` | crates/lib/src/database/mod.rs:1385-1418 | the frontier lists exactly the members of that set that are nobody's parent in it |
| `Frontier.OnePassExact` | crates/lib/src/database/mod.rs:1389-1391 | the pass finds the largest parent-closed Verified set exactly when parents sort before children throughout it |
| `Frontier.EarlyChildMissed` | crates/lib/src/database/mod.rs:1389-1391 | a concrete store with misdeclared heights on which the pass misses a Verified entry |
| `Frontier.HeightsSort` | crates/lib/src/database/mod.rs:1376-1384 | with heights falling along parent edges the pass always finds it |
| `Frontier.FrontierAncestry` | crates/lib/src/database/mod.rs:1376-1381 | the ancestry of the frontier is exactly the prefix |
| `Frontier.FrontierAntichain` | crates/lib/src/database/mod.rs:1379-1381 | no frontier tip is an ancestor of another |
| `Frontier.RootInPrefix` | crates/lib/src/database/mod.rs:1383-1384 | a non-empty prefix contains the tree root, so nothing is visible before the root is Verified |
| `Frontier.MaxPrefixIsAllVerified` | crates/lib/src/database/mod.rs:1927-1930 | with an ancestor-closed Verified set inside the tree, the default view shows every Verified entry |
| `Instances.Instance.ReadSnapshot` | crates/lib/src/database/mod.rs:1314-1374 | a read with an Unverified raw tip first runs a pass and announces its promotions, as steps of the protocol; it then shows the frontier or the raw tips that have not failed, all of them held entries of the tree |
| `Views.HiddenIff` | crates/lib/src/database/mod.rs:1366-1373 | the looser view hides an entry of the tree exactly when a failed raw tip stands above it and no other raw tip does |
| `Views.LooseViewIff` | crates/lib/src/database/mod.rs:1366-1373 | the looser view contains the default one exactly when every frontier tip below a failed raw tip is also below one that has not failed |
| `Views.LooseViewWider` | crates/lib/src/database/mod.rs:1366-1373 | in particular when no raw tip has failed |
| `Views.FailedTipHides` | crates/lib/src/database/mod.rs:1366-1373 | a concrete store on which a failed tip hides a Verified parent from the looser view |
| `Demotion.ChildIndex` | crates/lib/src/instance/mod.rs:1912-1918 | the children index lists exactly the tree's entries naming the key as parent |
| `Demotion.DemoteToUnverified` | crates/lib/src/instance/mod.rs:1907-1950 | the breadth-first cascade writes exactly the reached Verified entries and the target |
| `Demotion.DescendantIff` | crates/lib/src/instance/mod.rs:1912-1948 | what the cascade reaches is what leads back to the target along parents inside the tree |
| `Demotion.DemotionExact` | crates/lib/src/instance/mod.rs:1920-1942 | exactly the target and its descendants leave the Verified set, and only the target can change otherwise |
| `Demotion.DemotionClosedIff` | crates/lib/src/instance/mod.rs:1872-1882 | the cascade keeps the Verified set ancestor-closed exactly when no Verified entry of another tree has a reached parent |
| `Demotion.DemoteThenVerify` | crates/lib/src/instance/mod.rs:1876-1882 | from a fixed point with an ancestor-closed Verified set, no failed descendant of the target and its Verified descendants still judged valid, demoting and verifying restores every status |
| `Runs.WriteClosedIff` | crates/lib/src/instance/mod.rs:1740-1743 | storing an entry with a status keeps the Verified set ancestor-closed exactly under the stated condition (for a commit: all parents Verified) |
| `Runs.PassedClosed` | crates/lib/src/database/mod.rs:1927-1930 | every pass, completed or cut short, keeps the Verified set ancestor-closed |
| `Runs.RunClosed` | crates/lib/src/database/mod.rs:1927-1930 | over every run of puts, writes, passes and cascades the Verified set stays ancestor-closed |
| `Runs.RunHistoryVerified` | crates/lib/src/database/mod.rs:1927-1930 | hence the whole history below a Verified entry is held and Verified |
| `Runs.CrossTreeEscapes` | crates/lib/src/instance/mod.rs:1912-1918 | a concrete store, reached by commits, a put and a pass, on which a demotion leaves a Verified child of another tree behind |
| `Runs.AwaitingPass` | crates/lib/src/database/tests.rs:1163-1170 | a concrete entry pinned to absent settings, which every pass leaves Unverified |
| `Runs.CommitOnUnverified` | crates/lib/src/database/tests.rs:1147-1170 | committing on it after any such pass breaks the closure and strands it |
| `Runs.StrandedForGood` | crates/lib/src/database/mod.rs:1961-1987 | over every run of puts, writes and passes a stranded entry stays Unverified, unless it gets a new child, is written itself or something is demoted |
| `Delivery.StoreBatch` | crates/lib/src/instance/mod.rs:1843-1858 | the batch is put entry by entry, refused ones skipped, and the successes counted |
| `Delivery.RefusedSkipped` | crates/lib/src/instance/mod.rs:1816-1818 | one accepted entry is enough: it is stored and the pass runs, whatever else the batch holds |
| `Delivery.AllRefused` | crates/lib/src/instance/mod.rs:1843-1867 | a batch that is refused altogether changes nothing and runs no pass |
| `Instances.Instance.PutRemoteEntries` | crates/lib/src/instance/mod.rs:1832-1870 | stores the batch, then runs one pass if anything was stored and the root is held; from the store before that pass it states exactly when the call succeeds and when it fires once per callback; its effect is a storing step, a pass step and an announcement of the protocol |
| `Instances.AnnouncesIff` | crates/lib/src/instance/mod.rs:1806-1817 | the call succeeds exactly when its pass completed, and announces exactly when that pass promoted something |
| `Instances.OrphanBatch` | crates/lib/src/instance/mod.rs:1865-1867 | a concrete batch, a child without its root, that is stored while the call fails and announces nothing |
| `Instances.WaitingBatch` | crates/lib/src/instance/mod.rs:1860-1867 | a concrete batch pinned to absent settings that is stored while the call succeeds and announces nothing |
| `Worlds.WorldVerdict` | crates/lib/src/database/mod.rs:2063-2084 | in a world closed under parents, settings parents and pinned tips every pin is complete, so every verdict is favourable |
| `Worlds.PartPassed` | crates/lib/src/database/mod.rs:1935-2089 | on a node that holds a part of such a world and anything of other trees, a pass is never cut short, acts on the part as if it were alone, and touches nothing else |
| `Worlds.PassHealthy` | crates/lib/src/database/mod.rs:1935-2089 | hence it fails nothing of the world, keeps its part ancestor-closed, and verifies everything below the tips once the world is complete |
| `Delivery.DeliveryConverges` | crates/lib/src/instance/mod.rs:1832-1870 | on a node that holds any part of the world and any other trees, every order, duplication and batching of what is missing, children before parents included, ends with the whole world held and Verified and the rest of the store as it was |
| `Delivery.OtherKeeps` | crates/lib/src/instance/mod.rs:1841-1867 | puts, writes, passes and demotions of other trees leave a detached world as it is |
| `Delivery.InterleavedConverges` | crates/lib/src/instance/mod.rs:1841-1867 | however the locked halves of any number of finished deliveries, other passes, and the operations of other trees interleave, a run that brings what is missing ends with the whole world held and Verified |
| `Delivery.ForeignPassFails` | crates/lib/src/database/mod.rs:1707-1714 | a pass over another tree that walks into an entry pinned to settings of its own tree judges it by empty settings, and fails it unless these accept it |
| `Worlds.SmallWorld` | crates/lib/src/database/mod.rs:1676-1680 | a root and a child form such a world under any validator that accepts entries of a tree without settings |
| `Worlds.SmallNode` | crates/lib/src/instance/mod.rs:1072-1073 | a node that holds another tree, a failed entry included, meets what the convergence results ask of the start |
| `Reachability.TakeFloor` | crates/lib/src/backend/mod.rs:523-548 | the first foreign target is the error; otherwise the floor is the lowest held target and the absent targets are listed |
| `Reachability.SeedWalk` | crates/lib/src/backend/mod.rs:553-574 | the first foreign tip is the error; otherwise the walk is seeded and absent tips are listed |
| `Reachability.Descend` | crates/lib/src/backend/mod.rs:576-595 | the bounded walk meets all targets exactly when each is reached above the floor, and otherwise lists every absent ID it ran into |
| `Reachability.CheckTargetsReachableFrom` | crates/lib/src/backend/mod.rs:507-606 | the three-state answer as a function of the sets involved, for every stack order and with duplicate inputs |
| `Reachability.AnswerIff` | crates/lib/src/backend/mod.rs:597-605 | with heights falling: Reachable exactly when every target is joined; Unreachable exactly when one is not and no absent ID blocks the decision; else the ascending list of exactly the blocking IDs |
| `Reachability.MissingIff` | crates/lib/src/backend/mod.rs:144-153 | an absent ID blocks exactly when it is a target, a tip, or a parent of a joined entry strictly higher than some held target |
| `Reachability.AnswerOtherwise` | crates/lib/src/backend/mod.rs:507-567 | no tips and some target is a proven negative; a foreign input is the error, targets before tips, the first one named |
| `Reachability.FloorExact` | crates/lib/src/backend/mod.rs:481-487 | with heights falling, the floor never cuts a chain that leads to a target |
| `Reachability.ReachableExact` | crates/lib/src/backend/mod.rs:498-499 | Reachable exactly when every target is joined to a `from` tip by a chain of held entries of the tree |
| `Reachability.UnreachableGrows` | crates/lib/src/backend/mod.rs:140-143 | a proven negative stays one in every larger store |
| `Reachability.UnreachableForGood` | crates/lib/src/backend/mod.rs:140-143 | so no larger store ever joins all the targets |
| `Reachability.ReachableGrows` | crates/lib/src/backend/mod.rs:489-496 | a positive answer can only become an error, over a tip that was absent and proves foreign |
| `Reachability.MissingExplained` | crates/lib/src/backend/mod.rs:144-153 | every listed ID is absent and is a target, a tip or a parent of a walked entry above the floor |
| `IdsAdded.DetectBackward` | crates/lib/src/database/mod.rs:1823-1855 | the guard fires exactly when all tips resolve and every previous tip is strictly higher than every post tip |
| `IdsAdded.CollectAdded` | crates/lib/src/database/mod.rs:1857-1872 | collects exactly the entries joined to a post tip by a chain avoiding all previous tips; an absent one is the error |
| `IdsAdded.IdsBetween` | crates/lib/src/database/mod.rs:1767-1909 | empty for equal or backward cursors, else the added set once each and parents first, else an error naming an absent added entry |
| `IdsAdded.NothingLost` | crates/lib/src/database/mod.rs:1787-1791 | no entry of the post ancestry outside the previous ancestry is lost |
| `IdsAdded.NothingLostIff` | crates/lib/src/database/mod.rs:1787-1822 | the listing misses nothing new exactly when the guard is silent or every post tip is already below the previous cursor |
| `IdsAdded.HighParentHides` | crates/lib/src/database/mod.rs:1802-1822 | a concrete advance on which a misdeclared height makes the guard fire, so that a new entry is not listed |
| `IdsAdded.AddedExactIff` | crates/lib/src/database/mod.rs:1787-1791 | the result is that difference exactly when post tips and parents of new entries are previous tips or new |
| `IdsAdded.GuardSilent` | crates/lib/src/database/mod.rs:1802-1822 | when a previous tip is an ancestor-or-equal of a post tip the guard never fires |
| `IdsAdded.BackwardListsNothing` | crates/lib/src/database/mod.rs:1802-1854 | when every post tip lies strictly below every previous tip the listing is empty |
| `IdsAdded.AdvanceExact` | crates/lib/src/database/mod.rs:1787-1791 | for a previous cursor behind an antichain of post tips, cut cleanly, the result is exactly the difference |
| `IdsAdded.SiblingOverReported` | crates/lib/src/database/mod.rs:1787-1791 | a concrete advance between two complete frontiers that lists an already observed entry again |
| `Cursors.Registry.Register` | crates/lib/src/instance/mod.rs:1555-1583 | an ID no callback of any tree carries, appended to the tree's callbacks with the given cursor |
| `Cursors.Registry.Remove` | crates/lib/src/instance/mod.rs:1635-1651 | drops the callback, leaves other trees alone, and reports whether it was the tree's last |
| `Cursors.Registry.Spawn` | crates/lib/src/instance/mod.rs:2088-2122 | one event per callback in registration order, all cursors advanced, other trees untouched; each event is the one the protocol's announcement appends to that callback's log |
| `Cursors.EventsAnnounced` | crates/lib/src/instance/mod.rs:2090-2101 | the events handed out lead from where the callback's last event or its registration left the cursor to the post tips: they are what the chain and coverage results speak of |
| `Cursors.NextKeeps` | crates/lib/src/instance/mod.rs:1669-1675 | every step of every writer and registration keeps the chain invariant |
| `Cursors.ReachableInv` | crates/lib/src/instance/mod.rs:86-91 | in every reachable state every callback's events form a chain: first previous is the registration snapshot, each later previous the last post |
| `Cursors.ReportedStable` | crates/lib/src/instance/mod.rs:86-91 | an event expands to the same set on every parent-complete store from its announcement on, so it does not matter when the callback runs |
| `Cursors.CoverageIfForward` | crates/lib/src/instance/mod.rs:1708-1804 | whatever heights are declared, unless the guard fires on an event of the callback, its expansions, each on the store it runs on, together list every entry of the tree held at the latest event outside the registration ancestry |
| `Cursors.CursorCoverage` | crates/lib/src/instance/mod.rs:1708-1804 | with heights falling along parent edges the guard never fires, so this holds of every callback in every reachable state |
| `Cursors.ExpansionSucceeds` | crates/lib/src/database/mod.rs:1760-1766 | on a parent-complete store every expansion succeeds and returns exactly the reported set |
| `Instances.Instance.PutEntry` | crates/lib/src/instance/mod.rs:1708-1804 | stores the entry with the asked-for status and touches nothing else; a Verified write fires; its effect is a commit step followed by an announcement of the protocol, and the returned events are the logged ones |
| `Runs.WriteExact` | crates/lib/src/instance/backend/local.rs:104-119 | a write holds the entry with its status, keeps a held entry's status for Unverified, and leaves all other entries and statuses alone |
| `Instances.Instance.VerifyAndFire` | crates/lib/src/database/mod.rs:2091-2117 | succeeds and fires once per callback with the raw tips exactly when the store before it says so; its effect is a pass step of the protocol, followed by an announcement if it fired, and the returned events are the logged ones |
| `Instances.PromotedIff` | crates/lib/src/database/mod.rs:2071-2076 | a pass promoted something exactly when its report says so |
| `Instances.VerifyPromoting` | crates/lib/src/database/mod.rs:2035-2087 | the pass under the lock also tells whether it promoted, which is whether it completed with a ready entry in its region |
| `Clusters.Cluster.Exchange` | crates/lib/src/testing.rs:276-290 | both peers end up with everything either held |
| `Clusters.Cluster.ConvergedAll` | crates/lib/src/testing.rs:392-414 | true exactly when all peers' snapshots are equal |
| `Clusters.Cluster.Row` | crates/lib/src/testing.rs:435-439 | after peer i has met every later peer, it and the last peer hold everything from i on |
| `Clusters.Cluster.Sweep` | crates/lib/src/testing.rs:435-439 | one i<j sweep leaves every peer with the union of all entry sets |
| `Clusters.Cluster.Converge` | crates/lib/src/testing.rs:429-442 | always returns true: the peers are untouched if they agreed at the start, and otherwise all hold the union |
| `Clusters.AgreementIsUnion` | crates/lib/src/testing.rs:446-450 | for parent-complete peers, agreeing snapshots of a tree mean every peer holds all entries of it that any peer holds, whatever else they hold |
| `Clusters.TipsAloneMislead` | crates/lib/src/testing.rs:446-450 | two concrete peers with equal snapshots and different entries, one of them not parent-complete |
| `Heights.HeightsIncrease` | crates/lib/src/height.rs:95-119 | in every run, under any mixture of strategies and clock readings, heights strictly increase from parent to child |
| `Heights.HeightsChosen` | crates/lib/src/height.rs:95-119 | every height is one above the highest parent, or the clock reading where the strategy looks at it and it is higher; a parentless incremental entry has height 0 |
| `Heights.RunHeightsFall` | crates/lib/src/height.rs:95-119 | so heights fall along the parent edges of any held part of a run, which is what the frontier, reachability and cursor results assume |
| `Heights.HeightIsBestChain` | crates/lib/src/height.rs:95-119 | every height is the maximum over chains down from the entry of length plus the far end's clock reading |
| `Heights.IncrementalIsLongestPath` | crates/lib/src/height.rs:27-36 | with the default strategy the height is the length of the longest chain, which ends at a parentless entry |
| `Heights.HeightsFit` | crates/lib/src/height.rs:95-119 | no height exceeds the largest clock reading plus the number of other entries, so 64 bits suffice below that bound |

## Left out

- Signatures, hashing, CID encoding and key parsing: IDs are abstract and the validator's answer is an arbitrary verdict.
- Delegation inside the validator: the verdict is a function of the entry and its pinned auth config, not of other databases.
- `Doc` merge internals: merging is an arbitrary partial function, folded in the order `store_at` returns.
- SQL, Postgres and remote backends, the in-memory tip cache, and connected instances: only the local path and the backend contract are modelled.
- Global write callbacks, callback execution after the lock is released, and wrap-around of the 64-bit callback counter.
- Writes that bypass the tree lock, such as `insert_raw`, for entries of the tree a cursor watches; other trees' writers and status changes are covered by the `Elsewhere` step.
- Sync handlers, `SimNetwork`, `flush_all` and `auto_sync`: an exchange is taken to give both peers the union.
- Store-level snapshots, merge bases and path queries of the backend; the status codec; entry-builder setters; permission clamping; URL parsing; CLI and web front ends.
- Delivery.InterleavedConverges: while other trees are at work it asks that nothing outside the world has a parent in it, because their passes would judge such parents by the wrong settings (`Delivery.ForeignPassFails`).
- Heights.CalculateHeight: computed on unbounded naturals; `Heights.HeightsFit` says below which bound the 64-bit sum cannot overflow.
