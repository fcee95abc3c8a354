# The library index of godlna, modelled and proved in Dafny

godlna watches directories with videos, keeps an index of them in a database table, and answers
DLNA browse requests from that table. Three things have to stay in agreement: the file tree, the
watcher's map between inotify descriptors and paths, and the `objects` table. This project models the
code that keeps them so and proves when it does.

Layers, from the bottom:

| Files | What they hold |
|---|---|
| `Paths`, `Ordering`, `Ignore`, `Walk` | Paths as strings compared by prefix, and the bridge to lists of names; sorting; `ignoreFn`; the pruned `filepath.Walk` |
| `WatchMap`, `Objects` | The two-way watch map and the table with its stored procedures, as classes and as functions on their values |
| `DeleteEvents`, `Coalescing`, `MoveEvents`, `DirtyFlag` | The goroutine protocols as step machines: a step is one region under a lock, one arm of a `select`, one handler call, one atomic operation or one statement; any interleaving is a run |
| `Pipeline`, `Scan`, `Driver`, `Inotify` | What one event does, as functions, and the watcher object that does it one map or table change at a time, proved equal |
| `Changes`, `Effects`, `Simulation`, `MoveSimulation`, `DeleteSimulation`, `System`, `Drain` | The whole system: tree, kernel, queue, goroutines, watch map and table together, with each handler call of a move in two steps; what its runs keep, and that they come to rest |
| `SqlLike`, `Queries`, `Updates`, `Reindex`, `Browse`, `Library` | LIKE, the query builders, the reindexer, and the browse tree |
| `Wakeup`, `Together` | Watcher and reindexer on one table: the flag protocol on real rows, and agreement while the reindexer runs |
| `Roots`, `Records`, `XmlLight` | Root validation, the inotify record decoder, the XML escaper |
| `Example` | One small library for which the premises of the main results hold |

The environment appears as parameters: the clock (`now`), the kernel as an oracle that hands out watch
descriptors and queues events, what `os.Stat` or a file probe reports, and whether a query fails.

## What is proved

- Starting from the first scan, with whatever the table held before, after any sequence of legal tree
  changes (a tree appears, is moved in, renamed into, out of or between ignored and visible names, moved
  out, or deleted entry by entry; a file is written), each followed by its events and goroutine steps in
  any order until nothing is left to do, tree, kernel, watch map and table agree again, as long as no
  move loses the race described below (`System.AlwaysAgrees`). A call of the move handler is two steps,
  the watch map and then the table, so calls of the reader and of the timer goroutines overlap freely.
- No schedule runs on for ever (`Drain.StepLowers`) or gets stuck (`Drain.Progress`): whatever has been
  scheduled can be continued until everything is drained (`Drain.EveryScheduleEnds`), and after every
  change some schedule ends in agreement (`Drain.EveryChangeSettles`).
- The same holds while the reindexer works on the same table (`Together.AlwaysAgreesWhileReindexing`),
  and in every run of both no row that waits for reindexing is forgotten, if the final checks of the
  passes succeed (`Wakeup.NoRowForgotten`).
- From agreement it follows that the browse tree is consistent and complete: every visible path whose row
  is public is reached from the root container, and asking for parents leads back (`Library.TreeIsBrowsed`).
- The protocols keep their promises in every interleaving: no delete is lost by coalescing,
  each move half has at most one outcome of each kind, and no dirty row is forgotten.

## Where the code does not do what it is meant to

Each of these is a lemma that gives the exact condition, and where it is an interleaving, a run that reaches it.

- A move whose 100 ms timer fires although the MOVED_TO is about to be paired causes both a removal and a
  renaming, whose handler calls may come in either order and may overlap. The library disagrees
  afterwards exactly if the removal changed the table before the renaming did, or if a directory was
  moved and the removal changed the watch map before the renaming did
  (`System.ChangeRestoresAgreement`). Every move between two visible names can lose its rows
  (`Drain.EveryMoveCanBeLost`), and every move of a directory can keep its rows and lose only its
  watches (`Drain.EveryMoveCanOverlap`).
- A rename onto an indexed path violates the unique constraint; the table keeps the old path
  (`Objects.RenameOutcome`, `System.RenameOntoFile`: it works exactly if the target did not exist).
- A file that appears without being written, such as a hard link, is not indexed; agreement is kept
  exactly if it is ignored (`System.LinkIsMissed`).
- The "direct children" query means that exactly for parents without `%`, `_` and backslash
  (`SqlLike.LikeMeansDirectChild`, and on clean paths alone `SqlLike.LikeOnCleanPaths`).
- A final check that fails after a reindexing pass loses the wakeup (`DirtyFlag.StepKeepsWatched`,
  `DirtyFlag.FailedCheckLosesWakeup`).
- A file written again while it is being probed loses its dirty mark (`DirtyFlag.StepKeepsFresh`,
  `DirtyFlag.WriteDuringProbeIsLost`).
- The root "/" is not recognised as containing other roots (`Roots.SlashIsNotSeen`).
- `watchMap.add` with a path or descriptor that is already paired otherwise leaves the two maps
  inconsistent (`WatchMap.AddedInverse`).

## Model

| member | source | states |
|---|---|---|
| `System.AlwaysAgrees` | pkg/fswatcher/driver_inotify.go:67-95 | from the first scan over any earlier table, and after any history of drained changes in which no move lost that race, watch map and table hold exactly the non-ignored directories and paths |
| `System.ChangeRestoresAgreement` | pkg/fswatcher/driver_inotify.go:303-385 | one legal change, then events, goroutine steps and the two halves of each handler call in any order, drained: agreement is restored if and only if a move's removal reached neither the table nor, for a directory, the watch map before its renaming |
| `System.HistoryKeepsAgreement` | pkg/fswatcher/driver_inotify.go:303-385 | agreement survives any sequence of changes, each drained before the next, in which no such race is lost |
| `System.RepeatedCreate` | pkg/fswatcher/driver_inotify.go:319-326 | the event of a directory that a walk has already covered does not disturb agreement |
| `System.RenameOntoFile` | pkg/fswatcher/driver_inotify.go:353-360 | moving a visible file over another name restores agreement if and only if that name did not exist |
| `System.LinkIsMissed` | pkg/fswatcher/driver_inotify.go:319-343 | a new file that only causes IN_CREATE leaves the library in agreement if and only if it is ignored |
| `Drain.StepLowers` | pkg/fswatcher/driver_inotify.go:230-301 | every step of reader and goroutines takes an event from the queue or lowers the work that is left: no run is endless |
| `Drain.Progress` | pkg/fswatcher/driver_inotify_move_events.go:44-70 | while anything is left to do some step is possible, whatever was scheduled so far |
| `Drain.EveryScheduleEnds` | pkg/fswatcher/driver_inotify.go:230-301 | after every legal change each partial schedule can be continued until everything is drained |
| `Drain.EveryChangeSettles` | pkg/fswatcher/driver_inotify.go:303-385 | after every legal change some schedule drains the system in agreement with the tree |
| `Drain.HistoryGoesOn` | pkg/fswatcher/driver_inotify.go:303-385 | from agreement a history can go on with any legal change |
| `Together.AlwaysAgreesWhileReindexing` | dlna/backend/backend.go:381-438 | the same as `System.AlwaysAgrees` with the reindexer running: its steps come before, between, during and after the changes of the tree, on the same table |
| `Together.ChangeWhileReindexing` | dlna/backend/backend.go:334-350 | one legal change, with the steps of the reindexer anywhere among those of reader and goroutines: agreement is restored in exactly the same cases as without it |
| `Together.ReindexingKeepsAgreement` | dlna/backend/backend.go:398-425 | passes of the reindexer alone leave an agreeing library in agreement |
| `Wakeup.NoRowForgotten` | dlna/backend/backend.go:193-438 | from the first scan on, however changes, events, handler calls and passes overlap: if the final checks succeed, a row with `reindex_at` implies that the flag is set or a pass is running |
| `Wakeup.AlwaysFlagged` | dlna/backend/backend.go:204-207 | after any history from the first scan, with the reindexer at rest, a row with `reindex_at` implies the flag |
| `Wakeup.StepKeepsFlag` | dlna/backend/backend.go:193-214 | no step of the reader or of a goroutine clears the flag or leaves a waiting row without it |
| `Wakeup.EventIsRun` | dlna/backend/backend.go:193-214 | on rows and flag each event is a run of handler steps of the protocol: index of a video inserts its row and then stores the flag, index of a folder takes its row off and stores the flag, a removal deletes the rows that go, and nothing else touches waiting rows or flag |
| `Wakeup.PassStepRefines` | dlna/backend/backend.go:381-438 | each step of the reindexer on the real table is the protocol's step, so the theorems of `DirtyFlag` speak of real rows |
| `Example.PremisesHold` | pkg/fswatcher/driver_inotify.go:67-95 | a small library that meets the premises of the main results after its first scan, for each of the six kinds of change |
| `Drain.EveryMoveCanBeLost` | pkg/fswatcher/driver_inotify_move_events.go:44-70 | after every move between two visible names some schedule drains the system without agreement |
| `Drain.EveryMoveCanOverlap` | pkg/fswatcher/driver_inotify.go:353-371 | after every such move the two handler calls can overlap so that the rows are right and, exactly for a directory, the library disagrees |
| `MoveSimulation.MoveDrained` | pkg/fswatcher/driver_inotify.go:353-385 | every move-in, move and move-out, visible or ignored at either end, with overlapping handler calls, ends in agreement if and only if the race was not lost |
| `DeleteSimulation.DeleteDrained` | pkg/fswatcher/driver_inotify.go:329-336 | a bottom-up recursive delete ends in agreement whatever the batching of its removals |
| `Simulation.DrainedIsForgotten` | pkg/fswatcher/common_delete_events.go:71-73 | in a drained system neither event merger remembers anything |
| `Scan.StartAgrees` | pkg/fswatcher/driver_inotify.go:80-90 | mark, walk and sweep leave exactly the walked paths, whatever the table held |
| `Scan.StartRetains` | scripts/schema.psql.sql:27-49 | a path present before and after the scan keeps id, bookmark and media columns; folders are public, videos pending, and a pending row comes with the dirty flag |
| `Scan.ScanVisitsOnce` | pkg/fswatcher/driver_inotify.go:82-87 | with roots that do not contain each other one scan visits no path twice, parents first |
| `Walk.PrunedWalkIsFilter` | pkg/fswatcher/driver_inotify.go:193-228 | skipping ignored directories acts on exactly the visible paths of the full tree, in the same order, each once, parents before children |
| `Walk.VisibleParent` | pkg/fswatcher/driver_inotify.go:203-208 | a visible path has a visible directory |
| `Ignore.Hereditary` | dlna/backend/backend.go:21-35 | whatever lies below an ignored directory is ignored |
| `Ignore.IgnoredMeans` | dlna/backend/backend.go:21-35 | for every name: a directory is ignored exactly if it is or lies below an "@eaDir", a file exactly if it lies below one or does not end in a dot and one of the 21 extensions, up to case |
| `Ignore.CaseDoesNotMatter` | dlna/backend/backend.go:28-34 | changing the case of letters after the last dot changes for no file whether it is ignored |
| `Ignore.RenameKeepsIgnored` | dlna/backend/backend.go:21-35 | renaming a visible directory to a visible name changes for no descendant whether it is ignored |
| `Paths.RebaseRoundTrip` | pkg/fswatcher/driver_inotify_watch_map.go:42-46 | rebasing moves into the target subtree and back |
| `Paths.SubtreesNest` | pkg/fswatcher/common.go:30-37 | two paths that contain a common path contain one another |
| `Paths.UnderIsProperPrefix` | pkg/fswatcher/driver_inotify_watch_map.go:44 | the string prefix test is the proper-prefix relation on lists of names |
| `Paths.RebaseOnNames` | pkg/fswatcher/driver_inotify_watch_map.go:45 | string rebasing replaces the leading names |
| `Paths.RenderClean` | pkg/fswatcher/driver_inotify.go:308-309 | rendering a list of valid names gives a clean path with just these names |
| `Paths.NamesRender` | pkg/fswatcher/driver_inotify.go:308-309 | every clean path is the rendering of its names |
| `Paths.DirOnNames` | pkg/fswatcher/common_delete_events.go:38 | `Dir` drops the last name |
| `Paths.RenamedKeysBack` | pkg/fswatcher/driver_inotify_watch_map.go:38-54 | renaming keys into a free subtree and back restores a map |
| `WatchMap.WatchMap.Add` | pkg/fswatcher/driver_inotify_watch_map.go:24-29 | both maps take the new pair |
| `WatchMap.WatchMap.Rename` | pkg/fswatcher/driver_inotify_watch_map.go:38-54 | for every iteration order the loop rebases exactly the paths at or under the old one, in both maps |
| `WatchMap.WatchMap.RmByPath` | pkg/fswatcher/driver_inotify_watch_map.go:56-63 | removes one pair |
| `WatchMap.WatchMap.RmByPathRecursive` | pkg/fswatcher/driver_inotify_watch_map.go:65-79 | removes exactly the subtree and returns exactly its descriptors, each once |
| `WatchMap.AddedInverse` | pkg/fswatcher/driver_inotify_watch_map.go:24-29 | the maps stay inverse if and only if neither side was paired with something else |
| `WatchMap.RenamedInverse` | pkg/fswatcher/driver_inotify_watch_map.go:38-54 | the maps stay inverse if and only if no rebased path was already watched |
| `WatchMap.RenameBack` | pkg/fswatcher/driver_inotify_watch_map.go:38-54 | renaming back restores both maps |
| `WatchMap.RemovedInverse` | pkg/fswatcher/driver_inotify_watch_map.go:56-79 | both removals keep the maps inverse, and the returned descriptors are the ones that went |
| `Objects.ObjectsTable.IndexAdd` | scripts/schema.psql.sql:27-49 | the upsert |
| `Objects.ObjectsTable.IndexDelete` | scripts/schema.psql.sql:51-59 | the row, and for a directory everything below it |
| `Objects.ObjectsTable.IndexRename` | scripts/schema.psql.sql:61-78 | two statements in one transaction, rolled back on a unique violation |
| `Objects.ObjectsTable.DeleteOfflineObjects` | dlna/backend/db_driver_postgres.go:250-253 | the sweep |
| `Objects.RenameOutcome` | scripts/schema.psql.sql:61-78 | succeeds if and only if no produced path is indexed; then exactly the subtree is rebased and nothing but paths changes; otherwise nothing changes |
| `Objects.SubstringIsRebase` | scripts/schema.psql.sql:70-75 | the `length + 2` substring is the watch map's rebasing |
| `Objects.RenameBack` | scripts/schema.psql.sql:61-78 | renaming into a free subtree and back restores the table |
| `Objects.RenameKeepsParentClosed` | scripts/schema.psql.sql:61-78 | with the new parent indexed, the table stays closed under parents |
| `Objects.AddOutcome` | scripts/schema.psql.sql:27-49 | one row has the path afterwards, online, with its type, public or pending for ten seconds; an old row keeps id, bookmark and media columns, a new one gets a fresh id; no other row changes |
| `DeleteEvents.DeleteCoverage` | pkg/fswatcher/common_delete_events.go:37-79 | in every reachable state before stop each added path, or a directory above it, is delivered or held by an uncancelled goroutine; only added items are delivered; no channel is closed twice |
| `DeleteEvents.StepKeepsInvariant` | pkg/fswatcher/common_delete_events.go:37-79 | what every step of every interleaving keeps, including an expiring timer that deletes a newer entry |
| `DeleteEvents.QuiescentDelivered` | pkg/fswatcher/common_delete_events.go:66-78 | once all goroutines are over, every added path or a directory above it has been delivered |
| `DeleteEvents.DrainProgress` | pkg/fswatcher/common_delete_events.go:66-78 | until then some goroutine can take a step |
| `DeleteEvents.DrainDecreases` | pkg/fswatcher/common_delete_events.go:66-78 | each goroutine step brings the end nearer |
| `DeleteEvents.DelEvents.Add` | pkg/fswatcher/common_delete_events.go:37-65 | the locked region with its loop over the map does what the step machine's step does |
| `DeleteEvents.DelEvents.Expire` | pkg/fswatcher/common_delete_events.go:70-77 | the timer arm delivers all items in order |
| `Coalescing.CoalescingRefinesNaive` | pkg/fswatcher/common_delete_events.go:49-76 | drained, the table equals the one from deleting every added path at once, whatever the batching |
| `Coalescing.CoverSameFilter` | scripts/schema.psql.sql:51-59 | lists of removals that cover each other delete the same rows, in any order and with repetitions |
| `Coalescing.AddsCoalesce` | pkg/fswatcher/common_delete_events.go:37-65 | while no timer expires, at most one goroutine per directory is left to run, and together they hold exactly the items that no later removed directory has taken along |
| `Coalescing.TreeIsOneRemoval` | pkg/fswatcher/common_delete_events.go:49-58 | a tree deleted from the bottom up within the delay leaves one goroutine, which removes its top and nothing else |
| `MoveEvents.MovePairing` | pkg/fswatcher/driver_inotify_move_events.go:33-71 | in every reachable state: at most one Remove and one Rename per cookie, a Rename carries its own cookie's old name, no channel is closed twice, entries leave the map only with an outcome or at stop |
| `MoveEvents.MoveOutcomes` | pkg/fswatcher/driver_inotify_move_events.go:33-71 | which calls a drained cookie has caused, case by case |
| `MoveEvents.RemoveThenRenameOccurs` | pkg/fswatcher/driver_inotify_move_events.go:44-70 | a reachable state in which the removal precedes the renaming |
| `MoveEvents.MvEvents.AddMvTo` | pkg/fswatcher/driver_inotify_move_events.go:58-69 | the locked region does what the step machine's step does |
| `Inotify.Watcher.WalkFrom` | pkg/fswatcher/driver_inotify.go:193-228 | the recursive walk, adding watches and indexing as it goes, equals the walk function of the whole-system model |
| `Inotify.Watcher.HandleMoveEvent` | pkg/fswatcher/driver_inotify.go:353-385 | the three branches on the watcher's own maps and table equal the model's handler |
| `Inotify.Watcher.DropWatches` | pkg/fswatcher/driver_inotify.go:362-370 | the loop over the removed descriptors takes exactly the subtree's watches from the kernel |
| `Inotify.Watcher.HandleInotifyEvent` | pkg/fswatcher/driver_inotify.go:303-347 | the whole new state after one event, branch by branch; an unknown descriptor or an ignored path changes nothing |
| `Inotify.Watcher.Start` | pkg/fswatcher/driver_inotify.go:67-95 | performs the first scan; without roots changes nothing; stops after the walks before the first root that is gone |
| `Inotify.Watcher.SendEvent` | dlna/backend/backend.go:193-214 | which stored procedure each event calls; the flag afterwards is set exactly if it was set before or the event is an Index |
| `DirtyFlag.NoLostWakeup` | dlna/backend/backend.go:204-207 | in every interleaving with successful final checks, a dirty row implies that the flag is set, a handler owes the store, or a pass has its final check ahead |
| `DirtyFlag.StepKeepsWatched` | dlna/backend/backend.go:428-437 | every step keeps this, except exactly a failing final check |
| `DirtyFlag.FailedCheckLosesWakeup` | dlna/backend/backend.go:431-432 | a run in which the failing check leaves a dirty row with nobody due to look at it |
| `DirtyFlag.PassVisitsReady` | dlna/backend/backend.go:398-425 | whatever interleaves, a pass visits every row ready at its start that is not written again or removed, if its page queries succeed |
| `DirtyFlag.StepKeepsFresh` | dlna/backend/backend.go:334-350 | changed rows stay dirty except exactly when a row is indexed between its probe and its update |
| `DirtyFlag.WriteDuringProbeIsLost` | dlna/backend/backend.go:334-350 | that happens from every state in which a row is being probed |
| `Reindex.Reindexer.ReindexDirty` | dlna/backend/backend.go:381-438 | the paging loop ends and visits every row ready at its start exactly once in ascending order of id; every visited video whose file could be read has its media columns and bookmark from the file and is public, every other row is unchanged, and no path, type or online mark changes; the flag is set again if and only if a dirty row is left |
| `Reindex.Reindexer.Reindex` | dlna/backend/backend.go:334-350 | a readable video gets media columns and bookmark from its file and is public; a folder, an unreadable file and every other row stay as they are |
| `Reindex.ScannedPage` | dlna/backend/backend.go:398-425 | one page continues the scan without gap or repetition |
| `Reindex.PageIsFirst` | dlna/backend/db_driver_postgres.go:37-39 | a page query by id answers the first ready rows past the last visited one |
| `Reindex.ChunksDoNotMatter` | dlna/backend/backend.go:390-396 | two passes over equal tables at one time visit the same rows in the same order and leave equal tables, whatever their chunk sizes |
| `SqlLike.LikeMeansDirectChild` | dlna/backend/db_driver_postgres.go:41-48 | the two LIKE conditions select exactly the direct children, for every path, if and only if the parent has no `%`, `_` or backslash |
| `SqlLike.MetacharactersMean` | dlna/backend/db_driver_postgres.go:41-48 | `%` matches any string, `_` any one character, and a backslash takes the next one literally |
| `SqlLike.LikeOnCleanPaths` | dlna/backend/db_driver_postgres.go:41-48 | on clean paths alone the query means "has this directory" if and only if the parent has no `%`, `_` or backslash |
| `SqlLike.ChildrenStillSelected` | dlna/backend/db_driver_postgres.go:41-48 | with `%` or `_` but no backslash every direct child is still selected |
| `SqlLike.BackslashHidesChildren` | dlna/backend/db_driver_postgres.go:41-48 | with a backslash and no wildcard no direct child is selected |
| `SqlLike.SlashCount` | dlna/backend/db_driver_postgres.go:46 | whatever matches a pattern has at least its slashes |
| `SqlLike.DirectChildIsDir` | dlna/backend/db_driver_postgres.go:41-48 | on clean paths a direct child is what has the parent as its directory |
| `Queries.BuildWhere` | dlna/backend/db_driver_postgres.go:29-74 | the built clause means the filter for every row at every time, and placeholders are numbered like the parameters |
| `Queries.GetObjects` | dlna/backend/db_driver_postgres.go:24-143 | the items are the matching rows, each once, in the order asked for, from the offset on and no more than a positive limit; without limit and offset all of them; in the default order folders come before videos and paths ascend; the total counts all matches if asked for |
| `Queries.AnswerUnique` | dlna/backend/db_driver_postgres.go:86-103 | with an order asked for there is only one right answer |
| `Queries.PagesTile` | dlna/backend/db_driver_postgres.go:98-103 | pages of any size laid end to end are the listing |
| `Updates.UpdateObject` | dlna/backend/db_driver_postgres.go:145-243 | row and object after the call; no other row, no path, type or online mark changes, and no column that was found as it was in memory; the query fails exactly if there is something to write and the database refuses |
| `Updates.Object.BuildUpdates` | dlna/backend/db_driver_postgres.go:155-226 | executing the SET list writes exactly the columns that differed in memory, with parameters numbered in step |
| `Updates.UpdateOverwrites` | dlna/backend/db_driver_postgres.go:159-226 | updating by differences equals overwriting if and only if no skipped column is out of date |
| `Updates.FreshObjectOverwrites` | dlna/backend/db_driver_postgres.go:159-226 | an object that mirrors its row is updated by overwriting and mirrors the new row |
| `Browse.Children` | dlna/backend/backend.go:241-263 | the items are the list of all children, each once, folders first and each type by path, from the offset on and at most a positive limit of them; the total is the number of children; nothing without roots |
| `Browse.AllPages` | dlna/backend/backend.go:241-263 | a player that asks for page after page gets that list, without gap or repetition |
| `Browse.ChildrenUnique` | dlna/backend/backend.go:241-263 | there is only one such list |
| `Browse.Object` | dlna/backend/backend.go:228-239 | the root container for an id that is not positive, otherwise the public row with this id or none |
| `Browse.ParentId` | dlna/backend/backend.go:265-293 | -1 for the root container; 0 for one of several roots and for what lies directly in the single one; otherwise the public row of the object's directory, or none if there is none |
| `Browse.ChildDir` | dlna/backend/backend.go:241-263 | a container lists exactly the public rows whose directory it is |
| `Browse.ChildrenNameTheirParent` | dlna/backend/backend.go:265-293 | every listed object reports the listing container as its parent, in both root modes |
| `Browse.ClimbsBack` | dlna/backend/backend.go:265-293 | an object found n levels down is n parents below the root container |
| `Browse.ClimbsOnce` | dlna/backend/backend.go:265-293 | the way up from an object n levels down meets the root container after n steps and at no other time, and then -1 |
| `Browse.OneParent` | dlna/backend/backend.go:241-263 | no object is listed by two containers |
| `Browse.EverythingPublicIsReached` | dlna/backend/backend.go:241-263 | every public row is reached by browsing, except the row of a single root |
| `Browse.WildcardFolderMisleads` | dlna/backend/db_driver_postgres.go:41-48 | for every folder name with a wildcard a library in which the folder lists another folder's object |
| `Library.AgreementIsBrowsable` | dlna/backend/backend.go:241-293 | a table in agreement with its tree has everything the browse tree needs |
| `Library.TreeIsBrowsed` | dlna/backend/backend.go:241-293 | every visible path with a public row is reached and climbs back |
| `Library.BrowsedIsInTree` | dlna/backend/backend.go:241-263 | whatever is reached is visible in the tree |
| `Library.ScanOfAcceptedRoots` | pkg/fswatcher/driver_inotify.go:58-65 | accepted roots never make a scan visit a path twice |
| `Roots.ValidatedAddDir` | pkg/fswatcher/common.go:10-41 | accepts exactly directories disjoint from all roots; otherwise the first root in the way decides the error |
| `Roots.AgainstMeans` | pkg/fswatcher/common.go:26-38 | the prefix tests with added slashes mean equal, below and above, and each error names both paths |
| `Roots.RootList.AddDirectory` | pkg/fswatcher/driver_inotify.go:58-65 | appends an accepted root and keeps the list an antichain |
| `Roots.AddAllAntichain` | pkg/fswatcher/common.go:26-38 | after any sequence of calls no root equals or contains another |
| `Roots.AtMostOneRoot` | pkg/fswatcher/common.go:26-38 | every path lies under at most one root |
| `Roots.SlashIsNotSeen` | pkg/fswatcher/common.go:30-37 | accepted roots truly do not nest if and only if "/" is not one of several |
| `Records.Decode` | pkg/fswatcher/driver_inotify.go:273-299 | the loop over the buffer yields what the record format says, or panics on a length past the buffer |
| `Records.RoundTrip` | pkg/fswatcher/driver_inotify.go:273-299 | for every list of encoded records, whatever stale bytes follow, exactly that list is decoded; a piece of a header at the end is dropped |
| `Records.Overrun` | pkg/fswatcher/driver_inotify.go:284-296 | a record after these whose length runs past the buffer is a panic; one that only runs past the bytes read is still decoded |
| `Records.WordDigits` | pkg/fswatcher/driver_inotify.go:282-295 | the four bytes of a header field are its digits, lowest first |
| `XmlLight.EncodeIsEscape` | pkg/soap/types.go:69-76 | the four replacements in this order escape each character once |
| `XmlLight.EntityOfEach` | pkg/soap/types.go:69-76 | each special character becomes its own entity, and strings are encoded piece by piece |
| `XmlLight.EncodeRoundTrip` | pkg/soap/types.go:69-76 | no raw quote or angle bracket is left, every ampersand starts an entity, and one-pass unescaping undoes it |

## Left out

- Real time: the 100 ms timers, the 11 and 30 second delays and the ten second gap appear as nondeterministic steps and as numbers on a given clock.
- Tree changes happen only while the system is drained. Changes that overlap with pending events, such as re-creating a path while its delete is pending, are not part of the whole-system runs; the delete and move protocols by themselves are proved for every interleaving.
- The tree holds regular files and directories; symbolic links are not modelled.
- Roots in the whole-system runs are clean absolute paths other than "/"; they are not themselves renamed, moved or deleted.
- A directory renamed over an existing empty directory is not part of the whole-system runs; for files the outcome is `System.RenameOntoFile`.
- Watch descriptors and cookies are unbounded numbers; reuse after 2^31 watches or 2^32 moves is not modelled, and each cookie is used at most once on each side.
- Errors of the kernel and the database are modelled only where a property speaks of them: a start path that is gone, a unique violation, a failing page, check or update query.
- `strings.ToLower` is modelled on ASCII letters and the two other characters that lower to ASCII.
- Collation: `ORDER BY path` is by character code.
- In the whole-system runs, the removal from the watch map and the `InotifyRmWatch` calls that follow it are one step, and so are the delete record and the map entry that one IN_DELETE changes: nothing that runs meanwhile reads both.
- The shutdown after a walk that fails during `start`.
- Row locks and concurrent statements inside one stored procedure call: a call is one step.
- `append` on the items of an older delete entry may share its array; the older goroutine never reads past its own length, so items are sequences here.
- The walk is one step of the reader: a tree that changes while it is walked is not modelled.
- Start and stop of the watcher beyond the `Stop` steps of the two event mergers.
- Probing files, thumbnails, bookmark cache files, HTTP, SOAP envelopes, SSDP and the macOS driver.
- Reindex.Reindexer.Reindex: the thumbnail made afterwards, and an error from making it, do not change the table and are left out.
- Reindex.Reindexer.ReindexDirty: runs alone; its interleavings with the event handlers are the steps of `DirtyFlag`, and with the whole watcher those of `Wakeup` and `Together`.
- `SetBookmark`: it only combines the query of `Object` with `UpdateObject`.
- In the runs of `Wakeup` and `Together` a handler call writes the table and sets the flag in one step; `DirtyFlag` also separates the two.
- Inotify.Watcher.HandleInotifyEvent: the steps of concurrent goroutines do not interleave inside this method; they interleave in the step machines.
