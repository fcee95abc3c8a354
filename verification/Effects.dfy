/** What each handler call makes of a watch map and index that hold a known set of paths. */
module Effects {
  import opened Paths
  import opened Ignore
  import opened Walk
  import opened WatchMap
  import opened Objects
  import opened Pipeline
  import opened Changes
  import Moves = MoveEvents

  // Removal

  /** The watch map holds exactly the directories of `nodes`; the kernel may already have moved or lost
      the subtree at p. */
  ghost predicate WatchRemovable(k: Kernel, w: Watches, nodes: Tree, p: string, isDir: bool) {
    && w.Inverse() && w.wdByPath.Keys == DirsOf(nodes)
    && (forall wd :: wd in w.pathByWd ==> wd < k.next)
    && if isDir then
         && k.outside <= WdsWithin(w, p)
         && (forall x :: x in w.wdByPath && !AtOrUnder(x, p) ==> x in k.at && k.at[x] == w.wdByPath[x])
         && (forall x :: x in k.at ==>
               k.at[x] in WdsWithin(w, p) || (x in w.wdByPath && k.at[x] == w.wdByPath[x] && !AtOrUnder(x, p)))
       else k.at == w.wdByPath && k.outside == {}
  }

  /** A file has nothing below it. */
  predicate LeafUnless(nodes: Tree, p: string, isDir: bool) {
    !isDir ==> forall x | x in nodes && AtOrUnder(x, p) :: x == p && !nodes[x]
  }

  lemma RemovedNodes(nodes: Tree, p: string, isDir: bool)
    requires LeafUnless(nodes, p, isDir)
    ensures (map y | y in nodes && !Hits(p, isDir, y) :: nodes[y]) == Without(nodes, p)
    ensures DirsOf(Without(nodes, p)) == set x | x in DirsOf(nodes) && !AtOrUnder(x, p)
    ensures !isDir ==> DirsOf(Without(nodes, p)) == DirsOf(nodes)
  {
  }

  lemma RemoveWatchEffect(app: App, nodes: Tree, p: string, isDir: bool)
    requires WatchRemovable(app.kernel, app.watch, nodes, p, isDir) && LeafUnless(nodes, p, isDir)
    ensures var app' := MoveWatch(app, Moves.Remove, p, "", isDir);
            WatchHolds(app'.kernel, app'.watch, DirsOf(Without(nodes, p))) && app'.table == app.table
  {
    RemovedNodes(nodes, p, isDir);
    if isDir {
      RemoveWatchHolds(app.kernel, app.watch, DirsOf(nodes), p);
    }
  }

  lemma RemoveTableEffect(t: Table, nodes: Tree, p: string, isDir: bool)
    requires TableHolds(t, nodes) && LeafUnless(nodes, p, isDir)
    ensures TableHolds(IndexDeleted(t, isDir, p), Without(nodes, p))
  {
    RemovedNodes(nodes, p, isDir);
    IndexDeleteHolds(t, nodes, p, isDir);
  }

  /** Removing what is not there changes nothing. */
  lemma RemoveNoWatch(app: App, dirs: set<string>, p: string, isDir: bool)
    requires WatchHolds(app.kernel, app.watch, dirs) && forall x :: x in dirs ==> !AtOrUnder(x, p)
    ensures var app' := MoveWatch(app, Moves.Remove, p, "", isDir);
            WatchHolds(app'.kernel, app'.watch, dirs)
  {
    forall wd | wd in app.watch.pathByWd ensures !AtOrUnder(app.watch.pathByWd[wd], p) {
      assert app.watch.pathByWd[wd] in dirs;
    }
    assert (set x | x in dirs && !AtOrUnder(x, p)) == dirs;
    RemoveWatchHolds(app.kernel, app.watch, dirs, p);
  }

  lemma RemoveNoRow(t: Table, nodes: Tree, p: string, isDir: bool)
    requires TableHolds(t, nodes) && forall x :: x in nodes ==> !AtOrUnder(x, p)
    ensures TableHolds(IndexDeleted(t, isDir, p), nodes)
  {
    assert Without(nodes, p) == nodes;
    RemoveTableEffect(t, nodes, p, isDir);
  }

  // Renaming

  /** The watch map holds exactly the directories of `nodes`; the kernel has already moved the subtree. */
  ghost predicate WatchRenamable(k: Kernel, w: Watches, nodes: Tree, p: string, q: string) {
    && w.Inverse() && w.wdByPath.Keys == DirsOf(nodes)
    && (forall wd :: wd in w.pathByWd ==> wd < k.next)
    && k.at == RenamedKeys(w.wdByPath, p, q) && k.outside == {}
  }

  ghost predicate Target(nodes: Tree, p: string, q: string) {
    Disjoint(p, q) && forall x :: x in nodes ==> !AtOrUnder(x, q)
  }

  lemma DirsRenamed<V>(nodes: Tree, m: map<string, V>, p: string, q: string)
    requires Target(nodes, p, q) && m.Keys == DirsOf(nodes)
    ensures RenamedKeys(m, p, q).Keys == DirsOf(RenamedKeys(nodes, p, q))
  {
    forall y ensures y in RenamedKeys(m, p, q) <==> y in RenamedKeys(nodes, p, q) && RenamedKeys(nodes, p, q)[y] {
      if y in RenamedKeys(m, p, q) {
        var x := RenamedFrom(m, y, p, q);
        RenamedKeysMoves(nodes, x, p, q);
      }
      if y in RenamedKeys(nodes, p, q) && RenamedKeys(nodes, p, q)[y] {
        var x := RenamedFrom(nodes, y, p, q);
        RenamedKeysMoves(m, x, p, q);
      }
    }
  }

  lemma RenameWatchEffect(app: App, nodes: Tree, p: string, q: string, isDir: bool)
    requires WatchRenamable(app.kernel, app.watch, nodes, p, q) && Target(nodes, p, q) && LeafUnless(nodes, p, isDir)
    ensures var app' := MoveWatch(app, Moves.Rename, p, q, isDir);
            WatchHolds(app'.kernel, app'.watch, DirsOf(RenamedKeys(nodes, p, q))) && app'.table == app.table
  {
    DirsRenamed(nodes, app.watch.wdByPath, p, q);
    if isDir {
      RenameWatchHolds(app.kernel, app.watch, DirsOf(nodes), p, q);
    } else {
      RenamedNothing(app.watch.wdByPath, p, q);
    }
  }

  lemma RenameTableEffect(t: Table, nodes: Tree, p: string, q: string, isDir: bool)
    requires TableHolds(t, nodes) && Target(nodes, p, q) && LeafUnless(nodes, p, isDir)
    ensures TableHolds(IndexRenamed(t, isDir, p, q).0, RenamedKeys(nodes, p, q))
  {
    IndexRenameHolds(t, nodes, isDir, p, q);
  }

  /** Renaming what is not there changes nothing: the moved tree stays unwatched, and unindexed. */
  lemma RenameNoWatch(app: App, nodes: Tree, p: string, q: string, isDir: bool)
    requires WatchHolds(app.kernel, app.watch, DirsOf(nodes)) && Target(nodes, p, q)
    requires forall x :: x in nodes ==> !AtOrUnder(x, p)
    ensures var app' := MoveWatch(app, Moves.Rename, p, q, isDir);
            WatchHolds(app'.kernel, app'.watch, DirsOf(nodes))
  {
    RenamedNothing(nodes, p, q);
    RenamedNothing(app.watch.wdByPath, p, q);
    RenameWatchEffect(app, nodes, p, q, isDir);
  }

  lemma RenameNoRow(t: Table, nodes: Tree, p: string, q: string, isDir: bool)
    requires TableHolds(t, nodes) && Target(nodes, p, q) && forall x :: x in nodes ==> !AtOrUnder(x, p)
    ensures TableHolds(IndexRenamed(t, isDir, p, q).0, nodes)
  {
    RenamedNothing(nodes, p, q);
    RenameTableEffect(t, nodes, p, q, isDir);
  }

  /** A whole call of the handler. */
  lemma RenameEffect(fs: Tree, app: App, nodes: Tree, p: string, q: string, isDir: bool, now: int)
    requires Closed(fs) && TableHolds(app.table, nodes)
    requires WatchRenamable(app.kernel, app.watch, nodes, p, q) && Target(nodes, p, q) && LeafUnless(nodes, p, isDir)
    ensures var nodes' := RenamedKeys(nodes, p, q);
            AppHolds(HandleMoveEvent(fs, app, Moves.Rename, p, q, isDir, now), DirsOf(nodes'), nodes', true)
  {
    RenameWatchEffect(app, nodes, p, q, isDir);
    RenameTableEffect(app.table, nodes, p, q, isDir);
  }

  // Indexing

  lemma IndexDirEffect(fs: Tree, app: App, nodes: Tree, q: string, now: int)
    requires Closed(fs) && q in fs && AppHolds(app, DirsOf(nodes), nodes, true)
    requires Visible(fs) == nodes + VisibleWithin(fs, q)
    requires forall x :: x in nodes ==> !AtOrUnder(x, q)
    ensures Agrees(fs, WalkStartingAt(fs, app, q, now))
  {
    var part := VisibleWithin(fs, q);
    WalkHolds(fs, app, q, now, DirsOf(nodes), nodes, true);
    UnionDirs(nodes, part);
  }

  lemma AddFileNode(nodes: Tree, q: string)
    requires q !in nodes
    ensures nodes + map[q := false] == nodes[q := false]
    ensures DirsOf(nodes[q := false]) == DirsOf(nodes)
  {
  }

  lemma IndexFileEffect(fs: Tree, app: App, nodes: Tree, q: string, now: int)
    requires Closed(fs) && q in Visible(fs) && !fs[q] && AppHolds(app, DirsOf(nodes), nodes, true)
    requires Visible(fs) == nodes + VisibleWithin(fs, q)
    requires q !in nodes
    ensures Agrees(fs, OnWatcherEvent(app, Index(q, false), now))
  {
    OneFile(fs, q);
    AddFileNode(nodes, q);
    IndexAddHolds(app.table, nodes, q, false, now);
  }

  /** Indexing a subtree completes what was held of it. */
  lemma IndexEffect(fs: Tree, app: App, nodes: Tree, q: string, now: int)
    requires Closed(fs) && q in Visible(fs) && AppHolds(app, DirsOf(nodes), nodes, true)
    requires Visible(fs) == nodes + VisibleWithin(fs, q)
    requires forall x :: x in nodes ==> !AtOrUnder(x, q)
    ensures Agrees(fs, MoveTable(fs, app, Moves.Index, "", q, fs[q], now))
  {
    if fs[q] {
      IndexDirEffect(fs, app, nodes, q, now);
    } else {
      IndexFileEffect(fs, app, nodes, q, now);
    }
  }

  lemma UnionDirs(a: Tree, b: Tree)
    requires forall x :: x in a && x in b ==> a[x] == b[x]
    ensures DirsOf(a) + DirsOf(b) == DirsOf(a + b)
  {
  }

  lemma OneFile(fs: Tree, q: string)
    requires Closed(fs) && q in Visible(fs) && !fs[q]
    ensures VisibleWithin(fs, q) == map[q := false]
  {
    forall x | x in fs && AtOrUnder(x, q) ensures x == q {
      if x != q { FileHasNothingBelow(fs, q, x); }
    }
  }
}
