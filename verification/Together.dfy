/** Watcher and reindexer at work on one table: the reindexer never disturbs the agreement between the
    library and the file tree. A run of both is followed by a run of the watcher alone whose rows differ
    only in what the reindexer writes. */
module Together {
  import opened Paths
  import opened Ignore
  import opened Walk
  import opened WatchMap
  import opened Objects
  import opened Pipeline
  import opened Driver
  import opened Changes
  import opened Simulation
  import opened Wakeup
  import D = DirtyFlag
  import Dels = DeleteEvents
  import Moves = MoveEvents
  import R = Reindex
  import S = System
  import Scan
  import U = Updates

  /** The same object: only media columns, bookmark and the pending time of a video may differ. */
  predicate Alike(a: Row, b: Row) {
    && a.path == b.path && a.typ == b.typ && a.online == b.online
    && (a.typ == Folder ==> a.reindexAt == None && b.reindexAt == None)
  }

  ghost predicate AlikeTables(a: Table, b: Table) {
    && a.nextId == b.nextId && a.rows.Keys == b.rows.Keys
    && forall id :: id in a.rows ==> Alike(a.rows[id], b.rows[id])
  }

  ghost predicate AlikeApps(a: App, b: App) {
    a.kernel == b.kernel && a.watch == b.watch && AlikeTables(a.table, b.table)
  }

  ghost predicate AlikeSys(a: Sys, b: Sys) {
    && a.fs == b.fs && a.roots == b.roots && a.queue == b.queue && a.calls == b.calls
    && a.state.del == b.state.del && a.state.mv == b.state.mv && AlikeApps(a.state.app, b.state.app)
  }

  // The stored procedures look only at what is alike.

  lemma AddedAlike(a: Table, b: Table, isDir: bool, path: string, now: int)
    requires AlikeTables(a, b)
    ensures AlikeTables(IndexAdded(a, isDir, path, now), IndexAdded(b, isDir, path, now))
  {
    assert HasPath(a.rows, path) <==> HasPath(b.rows, path) by {
      if id :| id in a.rows && a.rows[id].path == path { assert Alike(a.rows[id], b.rows[id]); }
      if id :| id in b.rows && b.rows[id].path == path { assert Alike(a.rows[id], b.rows[id]); }
    }
  }

  lemma DeletedAlike(a: Table, b: Table, isDir: bool, path: string)
    requires AlikeTables(a, b)
    ensures AlikeTables(IndexDeleted(a, isDir, path), IndexDeleted(b, isDir, path))
  {
    hide Hits;
    var a', b' := IndexDeleted(a, isDir, path), IndexDeleted(b, isDir, path);
    forall id ensures id in a'.rows <==> id in b'.rows {
      if id in a.rows { assert Alike(a.rows[id], b.rows[id]); }
    }
  }

  ghost predicate AlikeRows(a: map<nat, Row>, b: map<nat, Row>) {
    a.Keys == b.Keys && forall id :: id in a ==> Alike(a[id], b[id])
  }

  lemma UniqueAlike(a: map<nat, Row>, b: map<nat, Row>)
    requires AlikeRows(a, b)
    ensures UniquePaths(a) <==> UniquePaths(b)
  {
  }

  lemma RenamedSelfAlike(a: map<nat, Row>, b: map<nat, Row>, from: string, to: string)
    requires AlikeRows(a, b)
    ensures AlikeRows(RenameSelf(a, from, to), RenameSelf(b, from, to))
  {
  }

  lemma RenamedBelowAlike(a: map<nat, Row>, b: map<nat, Row>, from: string, to: string)
    requires AlikeRows(a, b)
    ensures AlikeRows(RenameBelow(a, from, to), RenameBelow(b, from, to))
  {
    hide SqlSubstring;
  }

  lemma RenamedAlike(a: Table, b: Table, isDir: bool, from: string, to: string)
    requires AlikeTables(a, b)
    ensures AlikeTables(IndexRenamed(a, isDir, from, to).0, IndexRenamed(b, isDir, from, to).0)
  {
    assert AlikeRows(a.rows, b.rows);
    hide Alike, UniquePaths, RenameSelf, RenameBelow;
    var a1, b1 := RenameSelf(a.rows, from, to), RenameSelf(b.rows, from, to);
    RenamedSelfAlike(a.rows, b.rows, from, to);
    UniqueAlike(a1, b1);
    RenamedBelowAlike(a1, b1, from, to);
    UniqueAlike(RenameBelow(a1, from, to), RenameBelow(b1, from, to));
  }

  lemma ScanAlike(a: Table, b: Table)
    requires AlikeTables(a, b)
    ensures AlikeTables(AllOffline(a), AllOffline(b)) && AlikeTables(OfflineDeleted(a), OfflineDeleted(b))
  {
    assert forall id :: id in a.rows ==> Alike(a.rows[id], b.rows[id]);
  }

  lemma EventAlike(a: App, b: App, e: Event, now: int)
    requires AlikeApps(a, b)
    ensures AlikeApps(OnWatcherEvent(a, e, now), OnWatcherEvent(b, e, now))
  {
    hide AlikeTables, IndexAdded, IndexDeleted, IndexRenamed, AllOffline, OfflineDeleted;
    match e
    case Index(name, isDir) => AddedAlike(a.table, b.table, isDir, name, now);
    case Remove(name, isDir) => DeletedAlike(a.table, b.table, isDir, name);
    case Rename(name, isDir, from) => RenamedAlike(a.table, b.table, isDir, from, name);
    case _ => ScanAlike(a.table, b.table);
  }

  lemma VisitAlike(fs: Tree, a: App, b: App, x: string, now: int)
    requires AlikeApps(a, b)
    ensures AlikeApps(Visit(fs, a, x, now), Visit(fs, b, x, now))
  {
    hide AlikeTables, OnWatcherEvent;
    if x in Visible(fs) {
      if fs[x] {
        EventAlike(
          a.(kernel := WatchAdded(a.kernel, x), watch := Added(a.watch, WdFor(a.kernel, x), x)),
          b.(kernel := WatchAdded(b.kernel, x), watch := Added(b.watch, WdFor(b.kernel, x), x)), Index(x, true), now);
      } else {
        EventAlike(a, b, Index(x, false), now);
      }
    }
  }

  lemma {:induction false} VisitEachAlike(fs: Tree, a: App, b: App, xs: seq<string>, now: int)
    requires AlikeApps(a, b)
    ensures AlikeApps(VisitEach(fs, a, xs, now), VisitEach(fs, b, xs, now))
    decreases |xs|
  {
    hide AlikeApps, Visit;
    if xs != [] {
      VisitAlike(fs, a, b, xs[0], now);
      VisitEachAlike(fs, Visit(fs, a, xs[0], now), Visit(fs, b, xs[0], now), xs[1..], now);
    }
  }

  lemma WalkAlike(fs: Tree, a: App, b: App, p: string, now: int)
    requires Closed(fs) && AlikeApps(a, b)
    ensures AlikeApps(WalkStartingAt(fs, a, p, now), WalkStartingAt(fs, b, p, now))
  {
    hide AlikeApps, VisitEach, Visits;
    if p in fs { VisitEachAlike(fs, a, b, Visits(fs, p, true), now); }
  }

  lemma TableAlike(fs: Tree, a: App, b: App, op: Moves.Op, oldName: string, newName: string, isDir: bool, now: int)
    requires Closed(fs) && AlikeApps(a, b)
    ensures AlikeApps(MoveTable(fs, a, op, oldName, newName, isDir, now),
                      MoveTable(fs, b, op, oldName, newName, isDir, now))
  {
    hide AlikeApps, OnWatcherEvent, WalkStartingAt;
    match op
    case Rename => EventAlike(a, b, Rename(newName, isDir, oldName), now);
    case Remove => EventAlike(a, b, Remove(oldName, isDir), now);
    case Index =>
      if isDir { WalkAlike(fs, a, b, newName, now); } else { EventAlike(a, b, Index(newName, isDir), now); }
  }

  lemma WatchAlike(a: App, b: App, op: Moves.Op, oldName: string, newName: string, isDir: bool)
    requires AlikeApps(a, b)
    ensures AlikeApps(MoveWatch(a, op, oldName, newName, isDir), MoveWatch(b, op, oldName, newName, isDir))
  {
    hide AlikeTables, RenamedWatches, RemovedRecursively, WatchesDropped, WdsWithin;
  }

  ghost predicate AlikeStates(a: State, b: State) {
    a.del == b.del && a.mv == b.mv && AlikeApps(a.app, b.app)
  }

  lemma ReadAlike(fs: Tree, a: State, b: State, e: Raw, now: int)
    requires Closed(fs) && Dels.EvInRange(a.del) && AlikeStates(a, b)
    ensures AlikeStates(ReadEvent(fs, a, e, now), ReadEvent(fs, b, e, now))
  {
    hide AlikeTables, OnWatcherEvent, WalkStartingAt, IgnoreFn, Dels.AfterAdd, Moves.AfterFrom, Moves.AfterTo, Has;
    if e.wd in a.app.watch.pathByWd {
      var path, isDir := Join(a.app.watch.pathByWd[e.wd], e.name), Has(e.mask, IN_ISDIR);
      WalkAlike(fs, a.app, b.app, path, now);
      EventAlike(a.app, b.app, Index(path, isDir), now);
    }
  }

  /** The watcher alone can take the same step. */
  lemma NextAlike(a: Sys, b: Sys, step: Step, b': Sys) returns (a': Sys)
    requires Closed(b.fs) && AlikeSys(a, b) && Next(b, step, b')
    ensures Next(a, step, a') && AlikeSys(a', b')
  {
    assert step.CallTo? ==> step.cookie in a.state.mv.arrivals;
    assert step.CallRemove? ==> step.cookie in a.state.mv.halves;
    hide AlikeTables, OnWatcherEvent, ReadEvent, MoveTable, MoveWatch, Dels.Next, Moves.Next, Closed;
    var app := a.state.app;
    match step
    case Read(now) =>
      ReadAlike(a.fs, a.state, b.state, a.queue[0], now);
      a' := b'.(state := ReadEvent(a.fs, a.state, a.queue[0], now));
    case CallTo(c) =>
      var r := a.state.mv.arrivals[c];
      WatchAlike(app, b.state.app, r.op, r.oldName, r.name, r.isDir);
      a' := b'.(state := b'.state.(app := WatchAfterTo(app, r)));
    case ReturnTo(c, now) =>
      var r := a.state.mv.arrivals[c];
      TableAlike(a.fs, app, b.state.app, r.op, r.oldName, r.name, r.isDir, now);
      a' := b'.(state := b'.state.(app := TableAfterTo(a.fs, app, r, now)));
    case CallRemove(c) =>
      var h := a.state.mv.halves[c];
      WatchAlike(app, b.state.app, Moves.Remove, h.name, "", h.isDir);
      a' := b'.(state := b'.state.(app := WatchAfterRemove(app, h)));
    case ReturnRemove(c, now) =>
      var h := a.state.mv.halves[c];
      TableAlike(a.fs, app, b.state.app, Moves.Remove, h.name, "", h.isDir, now);
      a' := b'.(state := b'.state.(app := TableAfterRemove(a.fs, app, h, now)));
    case MoveStep(_) => a' := b'.(state := b'.state.(app := app));
    case DeleteStep(del, now) =>
      DeliverAlike(a.state, b.state, del, now);
      a' := b'.(state := b'.state.(app := AppAfterDelete(a.state, del, now)));
  }

  lemma DeliverAlike(a: State, b: State, del: Dels.Step, now: int)
    requires AlikeStates(a, b)
    ensures AlikeApps(AppAfterDelete(a, del, now), AppAfterDelete(b, del, now))
  {
    hide AlikeApps, OnWatcherEvent;
    if && del.Deliver? && del.g < |a.del.gs| && a.del.gs[del.g].phase.Delivering?
       && a.del.gs[del.g].phase.k < |a.del.gs[del.g].items| {
      var item := a.del.gs[del.g].items[a.del.gs[del.g].phase.k];
      EventAlike(a.app, b.app, Remove(item.path, item.isDir), now);
    }
  }

  /** A step of the reindexer is nothing to the watcher. */
  lemma ReindexerAlike(a: Sys, j: Joint, step: JointStep, j': Joint)
    requires AlikeSys(a, j.sys) && JointNext(j, step, j') && !step.Lib? && !step.Changed?
    ensures AlikeSys(a, j'.sys)
  {
    hide R.FirstOf, R.ReadyAhead, AnyWaits;
    if step.Update? {
      UpdateAlike(a.state.app.table, j.sys.state.app.table, j.pass.id, step.mem, step.typ, step.probe);
    }
  }

  lemma UpdateAlike(a: Table, b: Table, id: nat, mem: U.Memory, typ: ObjectType, probe: R.Probe)
    requires AlikeTables(a, b)
    ensures AlikeTables(a, b.(rows := RowsAfter(b.rows, id, mem, typ, probe)))
  {
    hide U.Merged;
    var rows := RowsAfter(b.rows, id, mem, typ, probe);
    forall i | i in a.rows ensures Alike(a.rows[i], rows[i]) {
      assert Alike(a.rows[i], b.rows[i]);
    }
  }

  lemma AgreesAlike(fs: Tree, a: App, b: App)
    requires AlikeApps(a, b)
    ensures Agrees(fs, a) <==> Agrees(fs, b)
  {
    hide Visible, WatchHolds;
    TableAgrees(a.table, b.table, Visible(fs));
  }

  lemma TableAgrees(a: Table, b: Table, nodes: Tree)
    requires AlikeTables(a, b)
    ensures TableHolds(a, nodes) <==> TableHolds(b, nodes)
  {
    assert forall id :: id in a.rows ==> Alike(a.rows[id], b.rows[id]);
    if TableHolds(a, nodes) { TableHoldsToo(a, b, nodes); }
    if TableHolds(b, nodes) { TableHoldsToo(b, a, nodes); }
  }

  lemma TableHoldsToo(a: Table, b: Table, nodes: Tree)
    requires AlikeTables(a, b) && TableHolds(a, nodes)
    ensures TableHolds(b, nodes)
  {
    forall id | id in b.rows ensures RowHolds(b.rows[id], nodes) && b.rows[id].path in nodes {
      assert Alike(a.rows[id], b.rows[id]) && RowHolds(a.rows[id], nodes);
    }
    forall x | x in nodes ensures HasPath(b.rows, x) {
      var id :| id in a.rows && a.rows[id].path == x;
      assert Alike(a.rows[id], b.rows[id]);
    }
  }

  /** In an agreeing library folders never wait, so its table is alike to itself. */
  lemma AgreesAlikeItself(fs: Tree, app: App)
    requires Agrees(fs, app)
    ensures AlikeApps(app, app)
  {
    hide Visible, WatchHolds;
    forall id | id in app.table.rows ensures Alike(app.table.rows[id], app.table.rows[id]) {
      assert RowHolds(app.table.rows[id], Visible(fs));
    }
  }

  // Runs of both.

  /** Both at work on one change of the tree; the next one waits until the watcher is drained. */
  predicate NoChange(steps: seq<JointStep>) {
    forall i | 0 <= i < |steps| :: !steps[i].Changed?
  }

  /** A run of both is a run of the watcher alone, on a library that is alike. */
  lemma {:induction false} WatcherAlone(j: Joint, steps: seq<JointStep>, j': Joint, a: Sys)
    returns (plain: seq<Step>, a': Sys)
    requires Closed(a.fs) && JointRun(j, steps, j') && NoChange(steps) && AlikeSys(a, j.sys)
    ensures S.Run(a, plain, a') && AlikeSys(a', j'.sys)
    decreases |steps|
  {
    hide JointNext, Next, AlikeApps, Closed;
    if steps == [] {
      plain, a' := [], a;
    } else {
      var mid :| JointNext(j, steps[0], mid) && JointRun(mid, steps[1..], j');
      assert NoChange(steps[1..]) && !steps[0].Changed?;
      var a1 := AlikeAfter(j, steps[0], mid, a);
      plain, a' := WatcherAlone(mid, steps[1..], j', a1);
      if steps[0].Lib? {
        assert ([steps[0].step] + plain)[1..] == plain;
        plain := [steps[0].step] + plain;
      }
    }
  }

  lemma AlikeAfter(j: Joint, step: JointStep, j': Joint, a: Sys) returns (a': Sys)
    requires Closed(a.fs) && JointNext(j, step, j') && !step.Changed? && AlikeSys(a, j.sys)
    ensures AlikeSys(a', j'.sys) && a'.fs == a.fs
    ensures if step.Lib? then Next(a, step.step, a') else a' == a
  {
    hide Next, AlikeApps, Closed;
    if step.Lib? {
      a' := NextAlike(a, j.sys, step.step, j'.sys);
      FsStays(j.sys, step.step, j'.sys);
    } else {
      a' := a;
      ReindexerAlike(a, j, step, j');
    }
  }

  lemma FsStays(s: Sys, step: Step, s': Sys)
    requires Closed(s.fs) && Next(s, step, s')
    ensures s'.fs == s.fs
  {
  }

  /** While the reindexer works through its passes, a legal change of the tree and everything that follows
      from it, drained, restores agreement in exactly the same cases as without it. */
  lemma ChangeWhileReindexing(j: Joint, c: Change, steps: seq<JointStep>, j': Joint)
    requires WellFormedTree(j.sys.fs, j.sys.roots) && Agrees(j.sys.fs, j.sys.state.app)
    requires Legal(j.sys.fs, j.sys.roots, c)
    requires JointRun(j.(sys := After(j.sys, c)), steps, j') && NoChange(steps) && Drained(j'.sys)
    ensures j'.sys.fs == TreeAfter(j.sys.fs, c) && j'.sys.roots == j.sys.roots
    ensures WellFormedTree(j'.sys.fs, j'.sys.roots)
    ensures Agrees(j'.sys.fs, j'.sys.state.app) <==> !S.Raced(j'.sys, c)
  {
    hide JointRun, Agrees, WellFormedTree, Legal, S.Run, Alike, TreeAfter, KernelAfter, QueueAfter;
    var s1 := After(j.sys, c);
    AgreesAlikeItself(j.sys.fs, j.sys.state.app);
    ChangedIsClosed(j.sys, c);
    var plain, a' := WatcherAlone(j.(sys := s1), steps, j', s1);
    S.ChangeRestoresAgreement(j.sys, c, plain, a');
    AgreesAlike(a'.fs, a'.state.app, j'.sys.state.app);
  }

  lemma ChangedIsClosed(s: Sys, c: Change)
    requires WellFormedTree(s.fs, s.roots) && Legal(s.fs, s.roots, c)
    ensures Closed(TreeAfter(s.fs, c))
  {
    ChangeKeepsWellFormed(s.fs, s.roots, c);
    TreeClosed(TreeAfter(s.fs, c), s.roots);
  }

  predicate OnlyReindexer(steps: seq<JointStep>) {
    forall i | 0 <= i < |steps| :: !steps[i].Lib? && !steps[i].Changed?
  }

  /** Changes one after the other, the watcher drained before the next one and no race lost, with the
      reindexer at work before, between, during and after them. */
  ghost predicate JointHistory(j: Joint, cs: seq<Change>, j': Joint)
    decreases |cs|
  {
    exists steps, mid :: JointRun(j, steps, mid) && OnlyReindexer(steps) &&
      if cs == [] then j' == mid
      else
        && Legal(mid.sys.fs, mid.sys.roots, cs[0])
        && exists more, next :: Round(mid, cs[0], more, next) && JointHistory(next, cs[1..], j')
  }

  ghost predicate Round(j: Joint, c: Change, steps: seq<JointStep>, j': Joint) {
    JointRun(j.(sys := After(j.sys, c)), steps, j') && NoChange(steps) && Drained(j'.sys) && !S.Raced(j'.sys, c)
  }

  lemma {:induction false} ReindexerRunAlike(a: Sys, j: Joint, steps: seq<JointStep>, j': Joint)
    requires AlikeSys(a, j.sys) && JointRun(j, steps, j') && OnlyReindexer(steps)
    ensures AlikeSys(a, j'.sys)
    decreases |steps|
  {
    hide JointNext, AlikeSys;
    if steps != [] {
      var mid :| JointNext(j, steps[0], mid) && JointRun(mid, steps[1..], j');
      ReindexerAlike(a, j, steps[0], mid);
      ReindexerRunAlike(a, mid, steps[1..], j');
    }
  }

  /** Passes of the reindexer leave an agreeing library in agreement. */
  lemma ReindexingKeepsAgreement(j: Joint, steps: seq<JointStep>, j': Joint)
    requires Agrees(j.sys.fs, j.sys.state.app) && JointRun(j, steps, j') && OnlyReindexer(steps)
    ensures j'.sys.fs == j.sys.fs && j'.sys.roots == j.sys.roots && Agrees(j'.sys.fs, j'.sys.state.app)
  {
    hide JointRun, Agrees, AlikeApps;
    AgreesAlikeItself(j.sys.fs, j.sys.state.app);
    ReindexerRunAlike(j.sys, j, steps, j');
    AgreesAlike(j.sys.fs, j.sys.state.app, j'.sys.state.app);
  }

  lemma {:induction false} JointHistoryKeepsAgreement(j: Joint, cs: seq<Change>, j': Joint)
    requires WellFormedTree(j.sys.fs, j.sys.roots) && Agrees(j.sys.fs, j.sys.state.app) && JointHistory(j, cs, j')
    ensures WellFormedTree(j'.sys.fs, j'.sys.roots) && Agrees(j'.sys.fs, j'.sys.state.app)
    decreases |cs|
  {
    hide JointRun, Agrees, WellFormedTree, Legal, After, TreeAfter;
    var steps, mid :| JointRun(j, steps, mid) && OnlyReindexer(steps) &&
      if cs == [] then j' == mid
      else
        && Legal(mid.sys.fs, mid.sys.roots, cs[0])
        && exists more, next :: Round(mid, cs[0], more, next) && JointHistory(next, cs[1..], j');
    ReindexingKeepsAgreement(j, steps, mid);
    if cs != [] {
      var more, next :| Round(mid, cs[0], more, next) && JointHistory(next, cs[1..], j');
      ChangeWhileReindexing(mid, cs[0], more, next);
      JointHistoryKeepsAgreement(next, cs[1..], j');
    }
  }

  /** From the first scan on, with the reindexer running all the time: whatever happens to the tree, the
      library agrees with it whenever the watcher is drained, as long as no move loses its race. */
  lemma AlwaysAgreesWhileReindexing(fs: Tree, roots: seq<string>, table: Table, dirtyFlag: bool, firstWd: nat, now: int,
      cs: seq<Change>, j': Joint)
    requires WellFormedTree(fs, roots) && WellFormed(table) && Closed(fs)
    requires JointHistory(Joint(S.Scanned(fs, roots, table, dirtyFlag, firstWd, now), D.Idle, now), cs, j')
    ensures Agrees(j'.sys.fs, j'.sys.state.app)
  {
    hide JointHistory, WellFormedTree, WellFormed, Agrees;
    Scan.StartAgrees(fs, roots, table, dirtyFlag, firstWd, now);
    JointHistoryKeepsAgreement(Joint(S.Scanned(fs, roots, table, dirtyFlag, firstWd, now), D.Idle, now), cs, j');
  }
}
