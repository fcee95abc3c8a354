/** What the watcher and the backend do with the watch map and the index:
    the walk, the move handler, the event handler, and the first scan. */
module Pipeline {
  import opened Paths
  import opened Ignore
  import opened Walk
  import opened WatchMap
  import opened Objects
  import Moves = MoveEvents

  datatype Event =
    | WalkStart
    | WalkComplete
    | Index(name: string, isDir: bool)
    | Remove(name: string, isDir: bool)
    | Rename(name: string, isDir: bool, renamedFrom: string)

  /** The kernel's side of the watches: descriptors of directories inside the trees by their current path,
      descriptors of directories that have left them, and the next descriptor to hand out. */
  datatype Kernel = Kernel(at: map<string, nat>, outside: set<nat>, next: nat)

  datatype App = App(kernel: Kernel, watch: Watches, table: Table, dirtyFlag: bool)

  /** `InotifyAddWatch`: the descriptor the directory already has, or a fresh one. */
  function WdFor(k: Kernel, path: string): nat {
    if path in k.at then k.at[path] else k.next
  }

  function WatchAdded(k: Kernel, path: string): Kernel {
    if path in k.at then k else k.(at := k.at[path := k.next], next := k.next + 1)
  }

  /** `InotifyRmWatch` for each descriptor; unknown ones are EINVAL, which the code accepts. */
  function WatchesDropped(k: Kernel, wds: set<nat>): Kernel {
    k.(at := map p | p in k.at && k.at[p] !in wds :: k.at[p], outside := k.outside - wds)
  }

  function OnWatcherEvent(app: App, e: Event, now: int): App {
    match e
    case WalkStart => app.(table := AllOffline(app.table))
    case WalkComplete => app.(table := OfflineDeleted(app.table))
    case Index(name, isDir) => app.(table := IndexAdded(app.table, isDir, name, now), dirtyFlag := true)
    case Remove(name, isDir) => app.(table := IndexDeleted(app.table, isDir, name))
    case Rename(name, isDir, renamedFrom) => app.(table := IndexRenamed(app.table, isDir, renamedFrom, name).0)
  }

  /** The walk callback on one path. */
  function Visit(fs: Tree, app: App, x: string, now: int): App {
    if x !in Visible(fs) then app
    else
      var app1 :=
        if fs[x] then app.(kernel := WatchAdded(app.kernel, x), watch := Added(app.watch, WdFor(app.kernel, x), x))
        else app;
      OnWatcherEvent(app1, Index(x, fs[x]), now)
  }

  function VisitEach(fs: Tree, app: App, xs: seq<string>, now: int): App
    decreases |xs|
  {
    if xs == [] then app else VisitEach(fs, Visit(fs, app, xs[0], now), xs[1..], now)
  }

  /** A start path that no longer exists is an error and changes nothing. */
  function WalkStartingAt(fs: Tree, app: App, p: string, now: int): App
    requires Closed(fs)
  {
    if p in fs then VisitEach(fs, app, Visits(fs, p, true), now) else app
  }

  /** The first part of a call of the move handler: the watch map and, for a removal, the kernel's watches. */
  function MoveWatch(app: App, op: Moves.Op, oldName: string, newName: string, isDir: bool): App {
    if !isDir then app
    else
      match op
      case Rename => app.(watch := RenamedWatches(app.watch, oldName, newName))
      case Remove => app.(watch := RemovedRecursively(app.watch, oldName),
                          kernel := WatchesDropped(app.kernel, WdsWithin(app.watch, oldName)))
      case Index => app
  }

  /** The second part: the event sent to the backend, or the walk. */
  function MoveTable(fs: Tree, app: App, op: Moves.Op, oldName: string, newName: string, isDir: bool, now: int): App
    requires Closed(fs)
  {
    match op
    case Rename => OnWatcherEvent(app, Rename(newName, isDir, oldName), now)
    case Remove => OnWatcherEvent(app, Remove(oldName, isDir), now)
    case Index =>
      if isDir then WalkStartingAt(fs, app, newName, now)
      else OnWatcherEvent(app, Index(newName, isDir), now)
  }

  /** A whole call, with nothing in between. */
  function HandleMoveEvent(fs: Tree, app: App, op: Moves.Op, oldName: string, newName: string, isDir: bool,
      now: int): App
    requires Closed(fs)
  {
    MoveTable(fs, MoveWatch(app, op, oldName, newName, isDir), op, oldName, newName, isDir, now)
  }

  function WalkRoots(fs: Tree, app: App, roots: seq<string>, now: int): App
    requires Closed(fs)
    decreases |roots|
  {
    if roots == [] then app else WalkRoots(fs, WalkStartingAt(fs, app, roots[0], now), roots[1..], now)
  }

  /** `start` up to its first walk: no watches, an empty watch map, every row offline. */
  function BeforeWalks(table: Table, dirtyFlag: bool, firstWd: nat): App {
    App(Kernel(map[], {}, firstWd), NO_WATCHES, AllOffline(table), dirtyFlag)
  }

  /** `start`: WalkStart, one walk per root, WalkComplete. */
  function Start(fs: Tree, roots: seq<string>, table: Table, dirtyFlag: bool, firstWd: nat, now: int): App
    requires Closed(fs)
  {
    OnWatcherEvent(WalkRoots(fs, BeforeWalks(table, dirtyFlag, firstWd), roots, now), WalkComplete, now)
  }

  // What the watch map and the index stand for.

  function DirsOf(nodes: Tree): set<string> {
    set x | x in nodes && nodes[x]
  }

  /** Kernel and watch map agree, on exactly these directories. */
  ghost predicate WatchHolds(k: Kernel, w: Watches, dirs: set<string>) {
    && w.Inverse()
    && w.wdByPath.Keys == dirs
    && k.at == w.wdByPath
    && k.outside == {}
    && forall wd :: wd in w.pathByWd ==> wd < k.next
  }

  /** The online rows are exactly these nodes, with the right type, and folders are public. */
  ghost predicate OnlineHolds(t: Table, nodes: Tree) {
    && WellFormed(t)
    && (forall id :: id in t.rows ==> RowHolds(t.rows[id], nodes))
    && (forall x :: x in nodes ==> HasPath(t.rows, x))
  }

  predicate RowHolds(row: Row, nodes: Tree) {
    if row.path in nodes then
      row.online && row.typ == TypeOf(nodes[row.path]) && (nodes[row.path] ==> row.reindexAt == None)
    else !row.online
  }

  ghost predicate TableHolds(t: Table, nodes: Tree) {
    OnlineHolds(t, nodes) && AllWithin(t, nodes)
  }

  ghost predicate AllWithin(t: Table, nodes: Tree) {
    forall id :: id in t.rows ==> t.rows[id].path in nodes
  }

  /** The library is in agreement with the file tree. */
  ghost predicate Agrees(fs: Tree, app: App) {
    WatchHolds(app.kernel, app.watch, DirsOf(Visible(fs))) && TableHolds(app.table, Visible(fs))
  }

  // Effects on what is held.

  lemma WatchAddHolds(k: Kernel, w: Watches, dirs: set<string>, x: string)
    requires WatchHolds(k, w, dirs)
    ensures WatchHolds(WatchAdded(k, x), Added(w, WdFor(k, x), x), dirs + {x})
  {
  }

  lemma IndexAddHolds(t: Table, nodes: Tree, x: string, isDir: bool, now: int)
    requires OnlineHolds(t, nodes)
    ensures OnlineHolds(IndexAdded(t, isDir, x, now), nodes[x := isDir])
    ensures AllWithin(t, nodes) ==> AllWithin(IndexAdded(t, isDir, x, now), nodes[x := isDir])
  {
    var t', nodes' := IndexAdded(t, isDir, x, now), nodes[x := isDir];
    AddKeepsWellFormed(t, isDir, x, now);
    forall y | y in nodes' ensures HasPath(t'.rows, y) {
      AddPaths(t, isDir, x, now, y);
    }
    forall id | id in t'.rows
      ensures RowHolds(t'.rows[id], nodes')
      ensures AllWithin(t, nodes) ==> t'.rows[id].path in nodes'
    {
      if id in t.rows { assert RowHolds(t.rows[id], nodes); }
    }
  }

  lemma IndexDeleteHolds(t: Table, nodes: Tree, x: string, isDir: bool)
    requires TableHolds(t, nodes)
    ensures TableHolds(IndexDeleted(t, isDir, x), map y | y in nodes && !Hits(x, isDir, y) :: nodes[y])
  {
    var t', nodes' := IndexDeleted(t, isDir, x), map y | y in nodes && !Hits(x, isDir, y) :: nodes[y];
    DeleteKeepsWellFormed(t, isDir, x);
    forall y | y in nodes' ensures HasPath(t'.rows, y) {
      DeletePaths(t, isDir, x, y);
    }
    forall id | id in t'.rows ensures RowHolds(t'.rows[id], nodes') {
      assert RowHolds(t.rows[id], nodes);
    }
  }

  /** Watch map and index together. */
  ghost predicate AppHolds(app: App, dirs: set<string>, nodes: Tree, only: bool) {
    && WatchHolds(app.kernel, app.watch, dirs)
    && OnlineHolds(app.table, nodes)
    && (only ==> AllWithin(app.table, nodes))
  }

  /** The kept paths, with their kinds. */
  function KeptNodes(fs: Tree, xs: seq<string>): Tree {
    map x | x in Visible(fs) && x in xs :: fs[x]
  }

  lemma KeptOne(fs: Tree, x: string, dirs: set<string>, nodes: Tree)
    ensures nodes + KeptNodes(fs, [x]) == if x in Visible(fs) then nodes[x := fs[x]] else nodes
    ensures dirs + DirsOf(KeptNodes(fs, [x])) == if x in Visible(fs) && fs[x] then dirs + {x} else dirs
  {
  }

  lemma VisitHolds(fs: Tree, app: App, x: string, now: int, dirs: set<string>, nodes: Tree, only: bool)
    requires AppHolds(app, dirs, nodes, only)
    ensures AppHolds(Visit(fs, app, x, now), dirs + DirsOf(KeptNodes(fs, [x])), nodes + KeptNodes(fs, [x]), only)
  {
    hide WatchHolds, OnlineHolds, AllWithin, Added, IndexAdded, IgnoreFn;
    KeptOne(fs, x, dirs, nodes);
    if x in Visible(fs) {
      IndexAddHolds(app.table, nodes, x, fs[x], now);
      if fs[x] {
        WatchAddHolds(app.kernel, app.watch, dirs, x);
      }
    }
  }

  /** Adding two parts of one tree in turn adds the whole. */
  lemma UnionTwice(first: Tree, rest: Tree, all: Tree, dirs: set<string>, nodes: Tree)
    requires all.Keys == first.Keys + rest.Keys
    requires forall x :: x in first ==> first[x] == all[x]
    requires forall x :: x in rest ==> rest[x] == all[x]
    ensures (nodes + first) + rest == nodes + all
    ensures (dirs + DirsOf(first)) + DirsOf(rest) == dirs + DirsOf(all)
  {
    assert DirsOf(first) + DirsOf(rest) == DirsOf(all);
  }

  lemma KeptSplit(fs: Tree, xs: seq<string>, dirs: set<string>, nodes: Tree)
    requires xs != []
    ensures var first, rest := KeptNodes(fs, [xs[0]]), KeptNodes(fs, xs[1..]);
            && (nodes + first) + rest == nodes + KeptNodes(fs, xs)
            && (dirs + DirsOf(first)) + DirsOf(rest) == dirs + DirsOf(KeptNodes(fs, xs))
  {
    var first, rest := KeptNodes(fs, [xs[0]]), KeptNodes(fs, xs[1..]);
    assert forall x :: x in xs <==> x in [xs[0]] || x in xs[1..];
    UnionTwice(first, rest, KeptNodes(fs, xs), dirs, nodes);
  }

  lemma KeptNone(fs: Tree, dirs: set<string>, nodes: Tree)
    ensures nodes + KeptNodes(fs, []) == nodes && dirs + DirsOf(KeptNodes(fs, [])) == dirs
  {
  }

  lemma {:induction false} VisitEachHolds(fs: Tree, app: App, xs: seq<string>, now: int, dirs: set<string>,
      nodes: Tree, only: bool)
    requires AppHolds(app, dirs, nodes, only)
    ensures AppHolds(VisitEach(fs, app, xs, now), dirs + DirsOf(KeptNodes(fs, xs)), nodes + KeptNodes(fs, xs), only)
    decreases |xs|
  {
    if xs == [] {
      KeptNone(fs, dirs, nodes);
    } else {
      var first := KeptNodes(fs, [xs[0]]);
      VisitHolds(fs, app, xs[0], now, dirs, nodes, only);
      VisitEachHolds(fs, Visit(fs, app, xs[0], now), xs[1..], now, dirs + DirsOf(first), nodes + first, only);
      KeptSplit(fs, xs, dirs, nodes);
    }
  }

  /** The visible part of the subtree at p. */
  function VisibleWithin(fs: Tree, p: string): Tree {
    map x | x in Visible(fs) && AtOrUnder(x, p) :: fs[x]
  }

  /** A walk adds exactly the visible part of the subtree, whatever of it was there before. */
  lemma WalkHolds(fs: Tree, app: App, p: string, now: int, dirs: set<string>, nodes: Tree, only: bool)
    requires Closed(fs) && p in fs
    requires AppHolds(app, dirs, nodes, only)
    ensures AppHolds(WalkStartingAt(fs, app, p, now), dirs + DirsOf(VisibleWithin(fs, p)),
                     nodes + VisibleWithin(fs, p), only)
  {
    var xs := Visits(fs, p, true);
    VisitEachHolds(fs, app, xs, now, dirs, nodes, only);
    assert KeptNodes(fs, xs) == VisibleWithin(fs, p) by {
      PrunedWalkIsFilter(fs, p);
      forall x ensures x in KeptNodes(fs, xs) <==> x in VisibleWithin(fs, p) {
        KeptIn(fs, xs, x);
      }
    }
  }

  /** Removing a subtree from map, kernel and index. The kernel may already have moved or lost it. */
  lemma RemoveWatchHolds(k: Kernel, w: Watches, dirs: set<string>, p: string)
    requires w.Inverse() && w.wdByPath.Keys == dirs
    requires forall wd :: wd in w.pathByWd ==> wd < k.next
    requires k.outside <= WdsWithin(w, p)
    requires forall x :: x in w.wdByPath && !AtOrUnder(x, p) ==> x in k.at && k.at[x] == w.wdByPath[x]
    requires forall x :: x in k.at ==>
      k.at[x] in WdsWithin(w, p) || (x in w.wdByPath && k.at[x] == w.wdByPath[x] && !AtOrUnder(x, p))
    ensures WatchHolds(WatchesDropped(k, WdsWithin(w, p)), RemovedRecursively(w, p),
                       set x | x in dirs && !AtOrUnder(x, p))
  {
    RemovedInverse(w, p);
  }

  lemma RenamePaths(t: Table, nodes: Tree, isDir: bool, p: string, q: string, y: string)
    requires TableHolds(t, nodes) && Disjoint(p, q)
    requires !isDir ==> forall x :: x in nodes ==> !Under(x, p)
    requires y in RenamedKeys(nodes, p, q)
    ensures HasPath(MovedRows(t.rows, isDir, p, q), y)
  {
    RenamedKeysAt(nodes, y, p, q);
    var x := if AtOrUnder(y, q) && Rebase(y, q, p) in nodes then Rebase(y, q, p) else y;
    if x != y { RebaseRoundTrip(y, q, p); }
    assert x in nodes && MovedPath(x, isDir, p, q) == y;
    var id :| id in t.rows && t.rows[id].path == x;
    assert MovedRows(t.rows, isDir, p, q)[id].path == y;
  }

  lemma IndexRenameHolds(t: Table, nodes: Tree, isDir: bool, p: string, q: string)
    requires TableHolds(t, nodes) && Disjoint(p, q)
    requires forall x :: x in nodes ==> !AtOrUnder(x, q)
    requires !isDir ==> forall x :: x in nodes ==> !Under(x, p)
    ensures TableHolds(IndexRenamed(t, isDir, p, q).0, RenamedKeys(nodes, p, q))
  {
    FreeTarget(t, isDir, p, q);
    RenameOutcome(t, isDir, p, q);
    var t', nodes' := IndexRenamed(t, isDir, p, q).0, RenamedKeys(nodes, p, q);
    forall id | id in t'.rows ensures RowHolds(t'.rows[id], nodes') && t'.rows[id].path in nodes' {
      assert RowHolds(t.rows[id], nodes);
      RenamedKeysMoves(nodes, t.rows[id].path, p, q);
    }
    forall y | y in nodes' ensures HasPath(t'.rows, y) {
      RenamePaths(t, nodes, isDir, p, q, y);
    }
  }

  lemma RenameWatchHolds(k: Kernel, w: Watches, dirs: set<string>, p: string, q: string)
    requires w.Inverse() && w.wdByPath.Keys == dirs && Disjoint(p, q)
    requires forall x :: x in dirs ==> !AtOrUnder(x, q)
    requires k.at == RenamedKeys(w.wdByPath, p, q) && k.outside == {}
    requires forall wd :: wd in w.pathByWd ==> wd < k.next
    ensures WatchHolds(k, RenamedWatches(w, p, q), RenamedKeys(w.wdByPath, p, q).Keys)
  {
    forall x | x in w.wdByPath && AtOrUnder(x, p) ensures Rebase(x, p, q) !in w.wdByPath {
      RebaseRoundTrip(x, p, q);
    }
    RenamedInverse(w, p, q);
  }
}
