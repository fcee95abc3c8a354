/** The library's handlers and the reindexer as one system: pending rows are never forgotten.
    Every handler call is a run of the steps of DirtyFlag, whose theorems then speak of real rows. */
module Wakeup {
  import opened Paths
  import opened Ignore
  import opened Walk
  import opened WatchMap
  import opened Objects
  import opened Pipeline
  import opened Driver
  import opened Changes
  import opened Simulation
  import D = DirtyFlag
  import Dels = DeleteEvents
  import Moves = MoveEvents
  import R = Reindex
  import S = System
  import Scan
  import U = Updates

  /** The rows that wait for reindexing, with their times. */
  function Waiting(t: Table): map<nat, int> {
    map id | id in t.rows && t.rows[id].reindexAt.Some? :: t.rows[id].reindexAt.value
  }

  /** The protocol state s shows this library. */
  ghost predicate Shows(s: D.State, app: App) {
    s.dirty == Waiting(app.table) && s.flag == app.dirtyFlag
  }

  // One event.

  predicate ByHandler(step: D.Step) {
    step.Insert? || step.Touch? || step.Store? || step.Delete?
  }

  ghost predicate HandlerRun(s: D.State, steps: seq<D.Step>, s': D.State) {
    D.Run(s, steps, s') && forall i :: 0 <= i < |steps| ==> ByHandler(steps[i])
  }

  function RowsAt(t: Table, path: string): set<nat> {
    set id | id in t.rows && t.rows[id].path == path
  }

  /** The steps of one event: what a removal deletes are the rows that are gone, and a folder's row is no
      video any more. */
  ghost predicate StepsOf(e: Event, t: Table, t': Table, steps: seq<D.Step>) {
    match e
    case Index(name, isDir) =>
      if isDir then steps == [D.Delete(RowsAt(t', name)), D.Touch, D.Store]
      else exists id :: id in t'.rows && t'.rows[id].path == name && steps == [D.Insert(id), D.Store]
    case Remove(_, _) => steps == [D.Delete(t.rows.Keys - t'.rows.Keys)]
    case WalkComplete => steps == [D.Delete(t.rows.Keys - t'.rows.Keys)]
    case _ => steps == []
  }

  lemma OneStep(s: D.State, step: D.Step, s': D.State)
    requires D.Next(s, step, s')
    ensures D.Run(s, [step], s')
  {
    D.RunStep(s, step, s', [], s');
    assert [step] + [] == [step];
  }

  lemma AddedWaits(t: Table, isDir: bool, name: string, now: int) returns (id: nat)
    requires WellFormed(t)
    ensures var t' := IndexAdded(t, isDir, name, now);
            && id in t'.rows && t'.rows[id].path == name
            && Waiting(t') == if isDir then Waiting(t) - RowsAt(t', name) else Waiting(t)[id := now + 10]
  {
    hide IndexAdded, WellFormed;
    id := AddOutcome(t, isDir, name, now);
    var rows := IndexAdded(t, isDir, name, now).rows;
    assert forall i :: i in rows && i != id ==> i in t.rows;
  }

  lemma VideoIndexed(app: App, name: string, now: int, s: D.State) returns (steps: seq<D.Step>, s': D.State)
    requires WellFormed(app.table) && Shows(s, app) && s.clock == now
    ensures var app' := OnWatcherEvent(app, Index(name, false), now);
            StepsOf(Index(name, false), app.table, app'.table, steps) && D.Run(s, steps, s') && Shows(s', app')
    ensures s'.pass == s.pass && s'.owed == s.owed && s'.clock == now
  {
    hide IndexAdded, WellFormed, Waiting, D.Run;
    var id := AddedWaits(app.table, false, name, now);
    var mid := s.(dirty := s.dirty[id := now + 10], owed := s.owed + 1, stale := s.stale + {id});
    s' := mid.(flag := true, owed := s.owed);
    steps := [D.Insert(id)] + [D.Store];
    OneStep(mid, D.Store, s');
    D.RunStep(s, D.Insert(id), mid, [D.Store], s');
    assert steps == [D.Insert(id), D.Store];
  }

  lemma FolderIndexed(app: App, name: string, now: int, s: D.State) returns (steps: seq<D.Step>, s': D.State)
    requires WellFormed(app.table) && Shows(s, app) && s.clock == now
    ensures var app' := OnWatcherEvent(app, Index(name, true), now);
            StepsOf(Index(name, true), app.table, app'.table, steps) && D.Run(s, steps, s') && Shows(s', app')
    ensures s'.pass == s.pass && s'.owed == s.owed && s'.clock == now
  {
    hide IndexAdded, WellFormed, Waiting, RowsAt, D.Run;
    var id := AddedWaits(app.table, true, name, now);
    var ids := RowsAt(IndexAdded(app.table, true, name, now), name);
    var s1 := s.(dirty := s.dirty - ids, stale := s.stale - ids);
    var s2 := s1.(owed := s.owed + 1);
    s' := s2.(flag := true, owed := s.owed);
    OneStep(s2, D.Store, s');
    D.RunStep(s1, D.Touch, s2, [D.Store], s');
    D.RunStep(s, D.Delete(ids), s1, [D.Touch] + [D.Store], s');
    steps := [D.Delete(ids), D.Touch, D.Store];
    assert steps == [D.Delete(ids)] + ([D.Touch] + [D.Store]);
  }

  lemma RowsGone(app: App, e: Event, now: int, s: D.State) returns (steps: seq<D.Step>, s': D.State)
    requires WellFormed(app.table) && Shows(s, app) && s.clock == now && (e.Remove? || e.WalkComplete?)
    ensures var app' := OnWatcherEvent(app, e, now);
            StepsOf(e, app.table, app'.table, steps) && D.Run(s, steps, s') && Shows(s', app')
    ensures s'.pass == s.pass && s'.owed == s.owed && s'.clock == now
  {
    var app' := OnWatcherEvent(app, e, now);
    var ids := app.table.rows.Keys - app'.table.rows.Keys;
    s' := s.(dirty := s.dirty - ids, stale := s.stale - ids);
    steps := [D.Delete(ids)];
    OneStep(s, D.Delete(ids), s');
    assert s'.dirty == Waiting(app'.table);
  }

  lemma RenameSelfWaits(rows: map<nat, Row>, from: string, to: string, n: nat)
    ensures Waiting(Table(RenameSelf(rows, from, to), n)) == Waiting(Table(rows, n))
  {
  }

  lemma RenameBelowWaits(rows: map<nat, Row>, from: string, to: string, n: nat)
    ensures Waiting(Table(RenameBelow(rows, from, to), n)) == Waiting(Table(rows, n))
  {
    hide SqlSubstring;
  }

  /** Both statements of a rename change paths only. */
  lemma RenameWaits(t: Table, isDir: bool, from: string, to: string)
    ensures Waiting(IndexRenamed(t, isDir, from, to).0) == Waiting(t)
  {
    hide UniquePaths, RenameSelf, RenameBelow, Waiting;
    RenameSelfWaits(t.rows, from, to, t.nextId);
    RenameBelowWaits(RenameSelf(t.rows, from, to), from, to, t.nextId);
  }

  lemma NothingWaits(app: App, e: Event, now: int)
    requires e.Rename? || e.WalkStart?
    ensures Waiting(OnWatcherEvent(app, e, now).table) == Waiting(app.table)
  {
    hide IndexRenamed;
    if e.Rename? { RenameWaits(app.table, e.isDir, e.renamedFrom, e.name); }
  }

  lemma EventKeepsWellFormed(app: App, e: Event, now: int)
    requires WellFormed(app.table)
    ensures WellFormed(OnWatcherEvent(app, e, now).table)
  {
    if e.Index? { AddKeepsWellFormed(app.table, e.isDir, e.name, now); }
  }

  /** Whatever the reindexer is doing meanwhile, an event does to the rows and the flag what a few steps
      of the protocol do: a video becomes dirty before the flag is set, and nothing else sets it; rows
      only leave the dirty ones when they are removed or turn out to be folders; the flag is never
      cleared. */
  lemma EventIsRun(app: App, e: Event, now: int, s: D.State) returns (steps: seq<D.Step>, s': D.State)
    requires WellFormed(app.table) && Shows(s, app) && s.clock == now
    ensures var app' := OnWatcherEvent(app, e, now);
            StepsOf(e, app.table, app'.table, steps) && HandlerRun(s, steps, s') && Shows(s', app')
    ensures s'.pass == s.pass && s'.owed == s.owed && s'.clock == now
  {
    hide IndexAdded, IndexDeleted, IndexRenamed, AllOffline, OfflineDeleted, D.Run;
    match e
    case Index(name, isDir) =>
      if isDir { steps, s' := FolderIndexed(app, name, now, s); } else { steps, s' := VideoIndexed(app, name, now, s); }
    case Remove(_, _) => steps, s' := RowsGone(app, e, now, s);
    case WalkComplete => steps, s' := RowsGone(app, e, now, s);
    case _ =>
      steps, s' := [], s;
      NothingWaits(app, e, now);
      NoSteps(s);
  }

  lemma NoSteps(s: D.State)
    ensures D.Run(s, [], s)
  {
  }

  // Sequences of events: walks, handler calls, and every step of the library.

  ghost predicate Rests(s: D.State, s': D.State) {
    s'.pass == s.pass && s'.owed == s.owed && s'.clock == s.clock
  }

  /** What happened to rows and flag is a run of handler steps. */
  ghost predicate Handled(app: App, app': App, now: int) {
    WellFormed(app.table) ==>
      && WellFormed(app'.table)
      && forall s :: Shows(s, app) && s.clock == now ==>
           exists steps, s' :: HandlerRun(s, steps, s') && Shows(s', app') && Rests(s, s')
  }

  lemma {:induction false} RunThen(s: D.State, first: seq<D.Step>, mid: D.State, rest: seq<D.Step>, s': D.State)
    requires D.Run(s, first, mid) && D.Run(mid, rest, s')
    ensures D.Run(s, first + rest, s')
    decreases |first|
  {
    if first == [] {
      assert first + rest == rest;
    } else {
      var next :| D.Next(s, first[0], next) && D.Run(next, first[1..], mid);
      RunThen(next, first[1..], mid, rest, s');
      D.RunStep(s, first[0], next, first[1..] + rest, s');
      assert [first[0]] + (first[1..] + rest) == first + rest;
    }
  }

  lemma HandledEvent(app: App, e: Event, now: int)
    ensures Handled(app, OnWatcherEvent(app, e, now), now)
  {
    hide OnWatcherEvent, HandlerRun, Shows, StepsOf, WellFormed;
    if WellFormed(app.table) {
      EventKeepsWellFormed(app, e, now);
      forall s | Shows(s, app) && s.clock == now
        ensures exists steps, s' ::
          HandlerRun(s, steps, s') && Shows(s', OnWatcherEvent(app, e, now)) && Rests(s, s')
      {
        var steps, s' := EventIsRun(app, e, now, s);
      }
    }
  }

  lemma HandledNothing(app: App, app': App, now: int)
    requires app'.table == app.table && app'.dirtyFlag == app.dirtyFlag
    ensures Handled(app, app', now)
  {
    forall s | Shows(s, app) && s.clock == now
      ensures exists steps, s' :: HandlerRun(s, steps, s') && Shows(s', app') && Rests(s, s')
    {
      NoSteps(s);
      assert HandlerRun(s, [], s);
    }
  }

  lemma HandlerRunThen(s: D.State, first: seq<D.Step>, mid: D.State, rest: seq<D.Step>, s': D.State)
    requires HandlerRun(s, first, mid) && HandlerRun(mid, rest, s')
    ensures HandlerRun(s, first + rest, s')
  {
    hide D.Run;
    RunThen(s, first, mid, rest, s');
  }

  lemma HandledThen(app: App, mid: App, app': App, now: int)
    requires Handled(app, mid, now) && Handled(mid, app', now)
    ensures Handled(app, app', now)
  {
    hide HandlerRun, Shows, WellFormed;
    if WellFormed(app.table) {
      forall s | Shows(s, app) && s.clock == now
        ensures exists steps, s' :: HandlerRun(s, steps, s') && Shows(s', app') && Rests(s, s')
      {
        var first, s1 :| HandlerRun(s, first, s1) && Shows(s1, mid) && Rests(s, s1);
        var rest, s' :| HandlerRun(s1, rest, s') && Shows(s', app') && Rests(s1, s');
        HandlerRunThen(s, first, s1, rest, s');
      }
    }
  }

  lemma VisitHandled(fs: Tree, app: App, x: string, now: int)
    ensures Handled(app, Visit(fs, app, x, now), now)
  {
    hide Handled, OnWatcherEvent;
    if x in Visible(fs) {
      var app1 :=
        if fs[x] then app.(kernel := WatchAdded(app.kernel, x), watch := Added(app.watch, WdFor(app.kernel, x), x))
        else app;
      HandledNothing(app, app1, now);
      HandledEvent(app1, Index(x, fs[x]), now);
      HandledThen(app, app1, Visit(fs, app, x, now), now);
    } else {
      HandledNothing(app, app, now);
    }
  }

  lemma {:induction false} VisitEachHandled(fs: Tree, app: App, xs: seq<string>, now: int)
    ensures Handled(app, VisitEach(fs, app, xs, now), now)
    decreases |xs|
  {
    hide Handled, Visit;
    if xs == [] {
      HandledNothing(app, app, now);
    } else {
      VisitHandled(fs, app, xs[0], now);
      VisitEachHandled(fs, Visit(fs, app, xs[0], now), xs[1..], now);
      HandledThen(app, Visit(fs, app, xs[0], now), VisitEach(fs, app, xs, now), now);
    }
  }

  lemma WalkHandled(fs: Tree, app: App, p: string, now: int)
    requires Closed(fs)
    ensures Handled(app, WalkStartingAt(fs, app, p, now), now)
  {
    hide Handled, VisitEach, Visits;
    if p in fs {
      VisitEachHandled(fs, app, Visits(fs, p, true), now);
    } else {
      HandledNothing(app, app, now);
    }
  }

  lemma TableHandled(fs: Tree, app: App, op: Moves.Op, oldName: string, newName: string, isDir: bool, now: int)
    requires Closed(fs)
    ensures Handled(app, MoveTable(fs, app, op, oldName, newName, isDir, now), now)
  {
    hide Handled, OnWatcherEvent, WalkStartingAt;
    match op
    case Rename => HandledEvent(app, Rename(newName, isDir, oldName), now);
    case Remove => HandledEvent(app, Remove(oldName, isDir), now);
    case Index =>
      if isDir { WalkHandled(fs, app, newName, now); } else { HandledEvent(app, Index(newName, isDir), now); }
  }

  lemma ReadHandled(fs: Tree, st: State, e: Raw, now: int)
    requires Closed(fs) && Dels.EvInRange(st.del)
    ensures Handled(st.app, ReadEvent(fs, st, e, now).app, now)
  {
    hide Handled, OnWatcherEvent, WalkStartingAt, IgnoreFn;
    var app' := ReadEvent(fs, st, e, now).app;
    if app'.table == st.app.table && app'.dirtyFlag == st.app.dirtyFlag {
      HandledNothing(st.app, app', now);
    } else {
      var path, isDir := Join(st.app.watch.pathByWd[e.wd], e.name), Has(e.mask, IN_ISDIR);
      if Has(e.mask, IN_CREATE) {
        WalkHandled(fs, st.app, path, now);
      } else {
        HandledEvent(st.app, Index(path, isDir), now);
      }
    }
  }

  /** The time a step happens at. */
  predicate HappensAt(step: Step, now: int) {
    match step
    case Read(n) => n == now
    case ReturnTo(_, n) => n == now
    case ReturnRemove(_, n) => n == now
    case DeleteStep(_, n) => n == now
    case _ => true
  }

  /** Every step of the library, of the reader or of a goroutine, is a run of handler steps. */
  lemma NextHandled(s: Sys, step: Step, s': Sys, now: int)
    requires Closed(s.fs) && Next(s, step, s') && HappensAt(step, now)
    ensures Handled(s.state.app, s'.state.app, now)
  {
    hide Handled, OnWatcherEvent, ReadEvent, MoveTable, Dels.Next, Moves.Next;
    var app := s.state.app;
    match step
    case Read(_) => ReadHandled(s.fs, s.state, s.queue[0], now);
    case ReturnTo(c, _) =>
      var a := s.state.mv.arrivals[c];
      TableHandled(s.fs, app, a.op, a.oldName, a.name, a.isDir, now);
    case ReturnRemove(c, _) =>
      var h := s.state.mv.halves[c];
      TableHandled(s.fs, app, Moves.Remove, h.name, "", h.isDir, now);
    case DeleteStep(del, _) =>
      if AppAfterDelete(s.state, del, now) == app {
        HandledNothing(app, app, now);
      } else {
        var item := s.state.del.gs[del.g].items[s.state.del.gs[del.g].phase.k];
        HandledEvent(app, Remove(item.path, item.isDir), now);
      }
    case _ => HandledNothing(app, s'.state.app, now);
  }

  // While the reindexer rests: the flag is up whenever a row waits.

  lemma {:induction false} HandlersOnlySet(s: D.State, steps: seq<D.Step>, s': D.State)
    requires HandlerRun(s, steps, s')
    ensures s.flag ==> s'.flag
    decreases |steps|
  {
    if steps != [] {
      var mid :| D.Next(s, steps[0], mid) && D.Run(mid, steps[1..], s');
      assert ByHandler(steps[0]);
      HandlersOnlySet(mid, steps[1..], s');
    }
  }

  /** Rows that wait for the reindexer come with the flag. */
  ghost predicate Flagged(app: App) {
    forall id :: id in app.table.rows && app.table.rows[id].reindexAt.Some? ==> app.dirtyFlag
  }

  lemma HandledKeepsFlagged(app: App, app': App, now: int)
    requires Handled(app, app', now) && WellFormed(app.table)
    ensures app.dirtyFlag ==> app'.dirtyFlag
    ensures Flagged(app) ==> Flagged(app')
  {
    hide D.Run;
    var s := D.State(Waiting(app.table), app.dirtyFlag, 0, D.Idle, now, {}, []);
    assert Shows(s, app);
    var steps, s' :| HandlerRun(s, steps, s') && Shows(s', app') && Rests(s, s');
    HandlersOnlySet(s, steps, s');
    if Flagged(app) {
      assert D.Watched(s) by {
        if s.dirty != map[] { var id :| id in s.dirty; }
      }
      D.NoLostWakeup(s, steps, s');
      assert forall id :: id in app'.table.rows && app'.table.rows[id].reindexAt.Some? ==> id in s'.dirty;
    }
  }

  /** No step of the library clears the flag, or leaves a waiting row without it. */
  lemma StepKeepsFlag(s: Sys, step: Step, s': Sys)
    requires Closed(s.fs) && Next(s, step, s') && WellFormed(s.state.app.table)
    ensures WellFormed(s'.state.app.table)
    ensures s.state.app.dirtyFlag ==> s'.state.app.dirtyFlag
    ensures Flagged(s.state.app) ==> Flagged(s'.state.app)
  {
    hide Next, Flagged, D.Run;
    var now := match step case Read(n) => n case ReturnTo(_, n) => n case ReturnRemove(_, n) => n
                          case DeleteStep(_, n) => n case _ => 0;
    NextHandled(s, step, s', now);
    HandledKeepsFlagged(s.state.app, s'.state.app, now);
  }

  lemma {:induction false} RunKeepsFlagged(s: Sys, steps: seq<Step>, s': Sys)
    requires S.Run(s, steps, s') && WellFormed(s.state.app.table) && Flagged(s.state.app)
    ensures WellFormed(s'.state.app.table) && Flagged(s'.state.app)
    ensures s.state.app.dirtyFlag ==> s'.state.app.dirtyFlag
    decreases |steps|
  {
    hide Next, Flagged;
    if steps != [] {
      var mid :| Next(s, steps[0], mid) && S.Run(mid, steps[1..], s');
      StepKeepsFlag(s, steps[0], mid);
      RunKeepsFlagged(mid, steps[1..], s');
    }
  }

  lemma {:induction false} HistoryKeepsFlagged(s: Sys, cs: seq<Change>, s': Sys)
    requires S.History(s, cs, s') && WellFormed(s.state.app.table) && Flagged(s.state.app)
    ensures WellFormed(s'.state.app.table) && Flagged(s'.state.app)
    ensures s.state.app.dirtyFlag ==> s'.state.app.dirtyFlag
    decreases |cs|
  {
    hide Drained, S.Raced;
    if cs != [] {
      var steps, mid :| S.Run(After(s, cs[0]), steps, mid) && Drained(mid) && !S.Raced(mid, cs[0])
        && S.History(mid, cs[1..], s');
      RunKeepsFlagged(After(s, cs[0]), steps, mid);
      HistoryKeepsFlagged(mid, cs[1..], s');
    }
  }

  /** From the first scan on, whatever happens to the tree: a row that waits for reindexing comes with
      the flag, and an indexed library has the flag up until the reindexer takes it. */
  lemma AlwaysFlagged(fs: Tree, roots: seq<string>, table: Table, dirtyFlag: bool, firstWd: nat, now: int,
      cs: seq<Change>, s': Sys)
    requires WellFormedTree(fs, roots) && WellFormed(table) && Closed(fs)
    requires S.History(S.Scanned(fs, roots, table, dirtyFlag, firstWd, now), cs, s')
    ensures forall id :: id in s'.state.app.table.rows && s'.state.app.table.rows[id].reindexAt.Some? ==>
      s'.state.app.dirtyFlag
  {
    hide S.History;
    ScanFlags(fs, roots, table, dirtyFlag, firstWd, now);
    HistoryKeepsFlagged(S.Scanned(fs, roots, table, dirtyFlag, firstWd, now), cs, s');
  }

  lemma ScanFlags(fs: Tree, roots: seq<string>, table: Table, dirtyFlag: bool, firstWd: nat, now: int)
    requires WellFormedTree(fs, roots) && WellFormed(table) && Closed(fs)
    ensures var app := Start(fs, roots, table, dirtyFlag, firstWd, now);
            WellFormed(app.table) && Flagged(app)
  {
    hide Visible, WatchHolds;
    Scan.StartAgrees(fs, roots, table, dirtyFlag, firstWd, now);
    forall id { Scan.StartRetains(fs, roots, table, dirtyFlag, firstWd, now, id); }
  }

  // With the reindexer running.

  /** The library and the pass of the reindexer over its table. */
  datatype Joint = Joint(sys: Sys, pass: D.Pass, clock: int)

  /** An update comes with the object as it was on its page, and with what its file holds. */
  datatype JointStep =
    | Lib(step: Step)
    | Changed(c: Change)
    | Tick(now: int)
    | Begin
    | Page(page: seq<nat>)
    | PageFails
    | Probe
    | Update(mem: U.Memory, typ: ObjectType, probe: R.Probe)
    | Load
    | Query(ok: bool)
    | SetFlag

  function WithApp(j: Joint, app: App): Joint {
    j.(sys := j.sys.(state := j.sys.state.(app := app)))
  }

  predicate AnyWaits(app: App) {
    exists id | id in app.table.rows :: app.table.rows[id].reindexAt.Some?
  }

  /** Objects on a page were waiting when it was read. */
  function RowsAfter(rows: map<nat, Row>, id: nat, mem: U.Memory, typ: ObjectType, probe: R.Probe): map<nat, Row> {
    if typ == Video && probe.Found? then U.RowsUpdated(rows, id, mem, Some(probe.info), Some(probe.bookmark)) else rows
  }

  ghost predicate JointNext(j: Joint, step: JointStep, j': Joint) {
    var app := j.sys.state.app;
    match step
    case Lib(step) =>
      Closed(j.sys.fs) && Next(j.sys, step, j'.sys) && HappensAt(step, j.clock) && j' == j.(sys := j'.sys)
    case Changed(c) => Drained(j.sys) && j' == j.(sys := After(j.sys, c))
    case Tick(now) => now >= j.clock && j' == j.(clock := now)
    case Begin =>
      j.pass.Idle? && app.dirtyFlag
      && j' == WithApp(j, app.(dirtyFlag := false)).(pass := D.Paging(0, []))
    case Page(page) =>
      j.pass.Paging? && j.pass.page == []
      && R.FirstOf(R.ReadyAhead(app.table.rows, j.pass.last, j.clock), page)
      && j' == j.(pass := if page == [] then D.Loading else D.Paging(j.pass.last, page))
    case PageFails => j.pass.Paging? && j.pass.page == [] && j' == j.(pass := D.Loading)
    case Probe =>
      j.pass.Paging? && j.pass.page != [] && j' == j.(pass := D.Probing(j.pass.page[0], j.pass.page[1..]))
    case Update(mem, typ, probe) =>
      j.pass.Probing? && mem.reindexAt.Some?
      && j' == WithApp(j, app.(table := app.table.(rows := RowsAfter(app.table.rows, j.pass.id, mem, typ, probe))))
               .(pass := D.Paging(j.pass.id, j.pass.page))
    case Load => j.pass.Loading? && j' == j.(pass := if app.dirtyFlag then D.Idle else D.Querying)
    case Query(ok) => j.pass.Querying? && j' == j.(pass := if ok && AnyWaits(app) then D.Storing else D.Idle)
    case SetFlag => j.pass.Storing? && j' == WithApp(j, app.(dirtyFlag := true)).(pass := D.Idle)
  }

  ghost predicate JointRun(j: Joint, steps: seq<JointStep>, j': Joint)
    decreases |steps|
  {
    if steps == [] then j' == j
    else exists mid :: JointNext(j, steps[0], mid) && JointRun(mid, steps[1..], j')
  }

  ghost predicate ShowsJoint(s: D.State, j: Joint) {
    Shows(s, j.sys.state.app) && s.owed == 0 && s.pass == j.pass && s.clock == j.clock
  }

  /** The protocol's step for a step of the reindexer. */
  function PassStep(step: JointStep): D.Step
    requires !step.Lib? && !step.Changed?
  {
    match step
    case Tick(now) => D.Tick(now)
    case Begin => D.Begin
    case Page(page) => D.Page(page)
    case PageFails => D.PageFails
    case Probe => D.Probe
    case Update(_, typ, probe) => D.Update(typ == Video && probe.Found?)
    case Load => D.Load
    case Query(ok) => D.Query(ok)
    case SetFlag => D.SetFlag
  }

  lemma UpdateClears(app: App, id: nat, mem: U.Memory, typ: ObjectType, probe: R.Probe)
    requires mem.reindexAt.Some? && WellFormed(app.table)
    ensures var t := app.table.(rows := RowsAfter(app.table.rows, id, mem, typ, probe));
            && WellFormed(t)
            && Waiting(t) == if typ == Video && probe.Found? then Waiting(app.table) - {id} else Waiting(app.table)
  {
  }

  lemma ReadyIsReady(s: D.State, app: App, last: nat)
    requires Shows(s, app)
    ensures D.Ready(s, last) == R.ReadyAhead(app.table.rows, last, s.clock)
  {
  }

  lemma WaitsIsDirty(s: D.State, app: App)
    requires Shows(s, app)
    ensures AnyWaits(app) <==> s.dirty != map[]
  {
    if id :| id in app.table.rows && app.table.rows[id].reindexAt.Some? { assert id in s.dirty; }
    if id :| id in s.dirty { assert app.table.rows[id].reindexAt.Some?; }
  }

  /** A step of the reindexer on the real table is the protocol's step. */
  lemma PassStepRefines(j: Joint, step: JointStep, j': Joint, s: D.State) returns (s': D.State)
    requires !step.Lib? && !step.Changed? && JointNext(j, step, j')
    requires WellFormed(j.sys.state.app.table) && ShowsJoint(s, j)
    ensures D.Next(s, PassStep(step), s') && ShowsJoint(s', j') && WellFormed(j'.sys.state.app.table)
  {
    hide RowsAfter, Waiting, WellFormed, AnyWaits;
    var app := j.sys.state.app;
    match step
    case Begin => s' := s.(flag := false, pass := j'.pass, visited := []);
    case Page(page) =>
      ReadyIsReady(s, app, j.pass.last);
      s' := s.(pass := j'.pass);
    case Probe =>
      s' := s.(pass := j'.pass, stale := s.stale - {j.pass.page[0]}, visited := s.visited + [j.pass.page[0]]);
    case Update(mem, typ, probe) =>
      UpdateClears(app, j.pass.id, mem, typ, probe);
      s' := s.(pass := j'.pass, dirty := if typ == Video && probe.Found? then s.dirty - {j.pass.id} else s.dirty);
    case Query(ok) =>
      WaitsIsDirty(s, app);
      s' := s.(pass := j'.pass);
    case SetFlag => s' := s.(flag := true, pass := j'.pass);
    case _ => s' := s.(pass := j'.pass, clock := j'.clock);
  }

  /** The joint system refines the protocol. */
  lemma JointStepRefines(j: Joint, step: JointStep, j': Joint, s: D.State) returns (steps: seq<D.Step>, s': D.State)
    requires JointNext(j, step, j') && WellFormed(j.sys.state.app.table) && ShowsJoint(s, j)
    ensures D.Run(s, steps, s') && ShowsJoint(s', j') && WellFormed(j'.sys.state.app.table)
    ensures step != Query(false) ==> D.NoCheckFails(steps)
  {
    hide Next, Drained, D.Run, D.Next, WellFormed;
    match step
    case Lib(step) =>
      NextHandled(j.sys, step, j'.sys, j.clock);
      assert Shows(s, j.sys.state.app);
      steps, s' :| HandlerRun(s, steps, s') && Shows(s', j'.sys.state.app) && Rests(s, s');
    case Changed(c) =>
      steps, s' := [], s;
      NoSteps(s);
    case _ =>
      s' := PassStepRefines(j, step, j', s);
      steps := [PassStep(step)];
      OneStep(s, PassStep(step), s');
  }

  lemma {:induction false} JointRunRefines(j: Joint, steps: seq<JointStep>, j': Joint, s: D.State)
    returns (run: seq<D.Step>, s': D.State)
    requires JointRun(j, steps, j') && WellFormed(j.sys.state.app.table) && ShowsJoint(s, j)
    ensures D.Run(s, run, s') && ShowsJoint(s', j')
    ensures Query(false) !in steps ==> D.NoCheckFails(run)
    decreases |steps|
  {
    hide JointNext, D.Run, WellFormed;
    if steps == [] {
      run, s' := [], s;
      NoSteps(s);
    } else {
      var mid :| JointNext(j, steps[0], mid) && JointRun(mid, steps[1..], j');
      var first, s1 := JointStepRefines(j, steps[0], mid, s);
      var rest;
      rest, s' := JointRunRefines(mid, steps[1..], j', s1);
      RunThen(s, first, s1, rest, s');
      run := first + rest;
    }
  }

  /** From the first scan on, however tree changes, events, handler calls and passes of the reindexer follow
      and overlap: if the final checks of the passes succeed, no waiting row is forgotten. The flag is up or
      a pass is running; and then that pass sets the flag again or another one follows. */
  lemma NoRowForgotten(fs: Tree, roots: seq<string>, table: Table, dirtyFlag: bool, firstWd: nat, now: int,
      steps: seq<JointStep>, j': Joint)
    requires WellFormedTree(fs, roots) && WellFormed(table) && Closed(fs)
    requires JointRun(Joint(S.Scanned(fs, roots, table, dirtyFlag, firstWd, now), D.Idle, now), steps, j')
    requires Query(false) !in steps
    ensures forall id :: id in j'.sys.state.app.table.rows && j'.sys.state.app.table.rows[id].reindexAt.Some? ==>
      j'.sys.state.app.dirtyFlag || !j'.pass.Idle?
  {
    hide JointRun, D.Run;
    var j := Joint(S.Scanned(fs, roots, table, dirtyFlag, firstWd, now), D.Idle, now);
    var app := j.sys.state.app;
    ScanFlags(fs, roots, table, dirtyFlag, firstWd, now);
    var s := D.State(Waiting(app.table), app.dirtyFlag, 0, D.Idle, now, {}, []);
    if s.dirty != map[] { var id :| id in s.dirty; }
    var run, s' := JointRunRefines(j, steps, j', s);
    D.NoLostWakeup(s, run, s');
    forall id | id in j'.sys.state.app.table.rows && j'.sys.state.app.table.rows[id].reindexAt.Some?
      ensures j'.sys.state.app.dirtyFlag || !j'.pass.Idle?
    {
      assert id in s'.dirty;
    }
  }
}
