/** The watcher object: the same handlers as in Driver and Pipeline, written as the program runs them,
    one change of a map or table at a time. */
module Inotify {
  import opened Paths
  import opened Ordering
  import opened Ignore
  import opened Walk
  import opened WatchMap
  import opened Objects
  import opened Pipeline
  import opened Driver
  import Dels = DeleteEvents
  import Moves = MoveEvents

  lemma {:induction false} VisitEachAppend(fs: Tree, app: App, xs: seq<string>, ys: seq<string>, now: int)
    ensures VisitEach(fs, app, xs + ys, now) == VisitEach(fs, VisitEach(fs, app, xs, now), ys, now)
    decreases |xs|
  {
    hide Visit;
    if xs == [] {
      assert xs + ys == ys;
    } else {
      assert (xs + ys)[0] == xs[0] && (xs + ys)[1..] == xs[1..] + ys;
      VisitEachAppend(fs, Visit(fs, app, xs[0], now), xs[1..], ys, now);
    }
  }

  lemma {:induction false} VisitsAllAppend(fs: Tree, p: string, cs: seq<string>, c: string)
    requires Closed(fs) && p in fs && (forall d :: d in cs ==> d in Children(fs, p)) && c in Children(fs, p)
    ensures VisitsOfAll(fs, p, cs + [c], true) == VisitsOfAll(fs, p, cs, true) + Visits(fs, c, true)
    decreases |cs|
  {
    hide Visits, Closed, Children;
    if cs == [] {
      assert [] + [c] == [c] && [c][1..] == [];
    } else {
      assert (cs + [c])[0] == cs[0] && (cs + [c])[1..] == cs[1..] + [c];
      VisitsAllAppend(fs, p, cs[1..], c);
    }
  }

  lemma DropOne(k: Kernel, wds: set<nat>, wd: nat)
    ensures WatchesDropped(WatchesDropped(k, wds), {wd}) == WatchesDropped(k, wds + {wd})
  {
  }

  function SetOf(wds: seq<nat>): set<nat> {
    set wd | wd in wds
  }

  lemma VisitOne(fs: Tree, app: App, x: string, now: int)
    ensures VisitEach(fs, app, [x], now) == Visit(fs, app, x, now)
  {
    hide Visit;
    assert [x][1..] == [];
  }

  lemma NothingToVisit(fs: Tree, app: App, p: string, now: int)
    requires Closed(fs) && p in fs
    ensures VisitEach(fs, app, VisitsOfAll(fs, p, [], true), now) == app
  {
  }

  lemma IsInTree(fs: Tree, p: string, c: string)
    requires c in Children(fs, p)
    ensures c in fs
  {
  }

  /** What one event comes to, with the handler call that ends a MOVED_TO. */
  function Handled(fs: Tree, s: State, e: Raw, now: int): State
    requires Closed(fs) && Dels.EvInRange(s.del)
  {
    var s1 := ReadEvent(fs, s, e, now);
    if e.cookie in s1.mv.arrivals && e.cookie !in s.mv.arrivals then HandleArrival(fs, s1, e.cookie, now) else s1
  }

  /** What the kernel sees to: names are valid, each cookie is used once on each side, and no directory
      is moved into itself. */
  ghost predicate Plausible(s: State, e: Raw) {
    && Dels.Invariant(s.del) && Moves.Invariant(s.mv) && s.app.watch.Inverse()
    && (e.wd in s.app.watch.pathByWd ==>
          var absPath := Join(s.app.watch.pathByWd[e.wd], e.name);
          && (Has(e.mask, IN_DELETE) ==> Clean(absPath))
          && (Has(e.mask, IN_MOVED_FROM) ==> e.cookie !in s.mv.halves)
          && (Has(e.mask, IN_MOVED_TO) ==>
                e.cookie !in s.mv.arrivals && absPath != "" &&
                (e.cookie in s.mv.halves ==> Disjoint(s.mv.halves[e.cookie].name, absPath))))
  }

  class Watcher {
    const watchMap: WatchMap
    const table: ObjectsTable
    const delEvents: Dels.DelEvents
    const mvEvents: Moves.MvEvents
    var roots: seq<string>
    var kernel: Kernel
    var dirtyFlag: bool

    ghost function Value(): App
      reads this, watchMap, table
    {
      App(kernel, watchMap.State(), table.State(), dirtyFlag)
    }

    constructor (roots: seq<string>, table: ObjectsTable, firstWd: nat)
      ensures this.roots == roots && this.table == table && fresh(watchMap) && fresh(delEvents) && fresh(mvEvents)
      ensures Value() == App(Kernel(map[], {}, firstWd), NO_WATCHES, table.State(), false)
      ensures delEvents.Value() == Dels.INITIAL && mvEvents.Value() == Moves.INITIAL
    {
      this.roots := roots;
      this.table := table;
      kernel := Kernel(map[], {}, firstWd);
      dirtyFlag := false;
      watchMap := new WatchMap();
      delEvents := new Dels.DelEvents();
      mvEvents := new Moves.MvEvents();
    }

    /** `sendEvent`, as the backend's `onWatcherEvent` handles it. */
    method SendEvent(e: Event, now: int)
      modifies this`dirtyFlag, table
      ensures Value() == OnWatcherEvent(old(Value()), e, now)
      ensures dirtyFlag == (old(dirtyFlag) || e.Index?)
    {
      hide IndexAdded, IndexDeleted, IndexRenamed, AllOffline, OfflineDeleted;
      match e {
        case WalkStart => table.AllObjectsToOffline();
        case WalkComplete => table.DeleteOfflineObjects();
        case Index(name, isDir) =>
          table.IndexAdd(isDir, name, now);
          dirtyFlag := true;
        case Remove(name, isDir) => table.IndexDelete(isDir, name);
        case Rename(name, isDir, renamedFrom) =>
          var ok := table.IndexRename(isDir, renamedFrom, name);
      }
    }

    /** The walk callback; skip is `filepath.SkipDir`. */
    method Callback(fs: Tree, x: string, now: int) returns (skip: bool)
      requires x in fs
      modifies this`kernel, this`dirtyFlag, watchMap, table
      ensures Value() == Visit(fs, old(Value()), x, now)
      ensures skip <==> fs[x] && IgnoreFn(x, true)
    {
      hide OnWatcherEvent, IgnoreFn;
      var isDir := fs[x];
      if IgnoreFn(x, isDir) {
        return isDir;
      }
      if isDir {
        var wd := WdFor(kernel, x);
        kernel := WatchAdded(kernel, x);
        watchMap.Add(wd, x);
      }
      SendEvent(Event.Index(x, isDir), now);
      skip := false;
    }

    /** `filepath.Walk` from a path that exists: the callback, then the children in name order. */
    method Walk(fs: Tree, p: string, now: int)
      requires Closed(fs) && p in fs
      modifies this`kernel, this`dirtyFlag, watchMap, table
      ensures Value() == VisitEach(fs, old(Value()), Visits(fs, p, true), now)
      decreases |Within(fs, p)|, 1
    {
      hide Visit, VisitEach, IgnoreFn, Closed, Children, Within;
      ghost var app := Value();
      var skip := Callback(fs, p, now);
      VisitOne(fs, app, p, now);
      if !fs[p] || skip {
        return;
      }
      StringOrder(Children(fs, p));
      var names := Sort(Children(fs, p), StringLess);
      WalkAll(fs, p, names, now);
      VisitEachAppend(fs, app, [p], VisitsOfAll(fs, p, names, true), now);
    }

    method WalkAll(fs: Tree, p: string, names: seq<string>, now: int)
      requires Closed(fs) && p in fs && forall c :: c in names ==> c in Children(fs, p)
      modifies this`kernel, this`dirtyFlag, watchMap, table
      ensures Value() == VisitEach(fs, old(Value()), VisitsOfAll(fs, p, names, true), now)
      decreases |Within(fs, p)|, 0
    {
      hide Visit, VisitEach, Closed, Within, Visits, VisitsOfAll, Children;
      ghost var app := Value();
      NothingToVisit(fs, app, p, now);
      for i := 0 to |names|
        invariant Value() == VisitEach(fs, app, VisitsOfAll(fs, p, names[..i], true), now)
      {
        ChildSmaller(fs, p, names[i]);
        IsInTree(fs, p, names[i]);
        Walk(fs, names[i], now);
        assert names[..i + 1] == names[..i] + [names[i]];
        VisitsAllAppend(fs, p, names[..i], names[i]);
        VisitEachAppend(fs, app, VisitsOfAll(fs, p, names[..i], true), Visits(fs, names[i], true), now);
      }
      assert names[..|names|] == names;
    }

    method WalkFrom(fs: Tree, p: string, now: int) returns (ok: bool)
      requires Closed(fs)
      modifies this`kernel, this`dirtyFlag, watchMap, table
      ensures Value() == WalkStartingAt(fs, old(Value()), p, now)
      ensures ok <==> p in fs
    {
      if p !in fs {
        return false;
      }
      Walk(fs, p, now);
      ok := true;
    }

    method HandleMoveEvent(fs: Tree, op: Moves.Op, oldName: string, newName: string, isDir: bool, now: int)
      requires Closed(fs) && watchMap.State().Inverse()
      requires op == Moves.Rename ==> Disjoint(oldName, newName) && newName != ""
      modifies this`kernel, this`dirtyFlag, watchMap, table
      ensures Value() == Pipeline.HandleMoveEvent(fs, old(Value()), op, oldName, newName, isDir, now)
    {
      hide OnWatcherEvent, WalkStartingAt, Closed;
      match op {
        case Rename =>
          if isDir {
            watchMap.Rename(oldName, newName);
          }
          SendEvent(Event.Rename(newName, isDir, oldName), now);
        case Remove =>
          if isDir {
            DropWatches(oldName);
          }
          SendEvent(Event.Remove(oldName, isDir), now);
        case Index =>
          if isDir {
            var _ := WalkFrom(fs, newName, now);
          } else {
            SendEvent(Event.Index(newName, isDir), now);
          }
      }
    }

    /** `rmByPathRecursive`, and `InotifyRmWatch` for each descriptor it returns. */
    method DropWatches(path: string)
      requires watchMap.State().Inverse()
      modifies this`kernel, watchMap
      ensures watchMap.State() == RemovedRecursively(old(watchMap.State()), path)
      ensures kernel == WatchesDropped(old(kernel), WdsWithin(old(watchMap.State()), path))
    {
      ghost var k0 := kernel;
      var wds := watchMap.RmByPathRecursive(path);
      assert WatchesDropped(k0, {}) == k0;
      for i := 0 to |wds|
        invariant kernel == WatchesDropped(k0, SetOf(wds[..i]))
        invariant watchMap.State() == RemovedRecursively(old(watchMap.State()), path)
      {
        DropOne(k0, SetOf(wds[..i]), wds[i]);
        kernel := WatchesDropped(kernel, {wds[i]});
        assert wds[..i + 1] == wds[..i] + [wds[i]];
        assert SetOf(wds[..i]) + {wds[i]} == SetOf(wds[..i + 1]);
      }
      assert wds[..|wds|] == wds;
      assert SetOf(wds) == WdsWithin(old(watchMap.State()), path);
    }

    ghost function FullState(): State
      reads this, watchMap, table, delEvents, mvEvents
    {
      State(Value(), delEvents.Value(), mvEvents.Value())
    }

    /** One inotify event. */
    method HandleInotifyEvent(fs: Tree, e: Raw, now: int)
      requires Closed(fs) && Plausible(FullState(), e)
      modifies this`kernel, this`dirtyFlag, watchMap, table, delEvents, mvEvents
      ensures FullState() == Handled(fs, old(FullState()), e, now)
      ensures e.wd !in old(watchMap.pathByWd) ==> FullState() == old(FullState())
      ensures e.wd in old(watchMap.pathByWd) ==>
        var absPath := Join(old(watchMap.pathByWd)[e.wd], e.name);
        IgnoreFn(absPath, Has(e.mask, IN_ISDIR)) ==> FullState() == old(FullState())
    {
      hide OnWatcherEvent, WalkStartingAt, Closed, IgnoreFn, Has, Pipeline.HandleMoveEvent, Clean, Moves.Invariant;
      var isDir := Has(e.mask, IN_ISDIR);
      var parent, ok := watchMap.Path(e.wd);
      if !ok {
        return;
      }
      var absPath := Join(parent, e.name);
      if IgnoreFn(absPath, isDir) {
        return;
      }
      if Has(e.mask, IN_CREATE) {
        if isDir {
          var _ := WalkFrom(fs, absPath, now);
        }
      } else if Has(e.mask, IN_IGNORED) {
      } else if Has(e.mask, IN_DELETE) {
        delEvents.Add(absPath, isDir);
        if isDir {
          watchMap.RmByPath(absPath);
        }
      } else if Has(e.mask, IN_MOVED_FROM) {
        mvEvents.AddMvFrom(e.cookie, absPath, isDir);
      } else if Has(e.mask, IN_MOVED_TO) {
        MovedTo(fs, e.cookie, absPath, isDir, now);
      } else if !isDir && Has(e.mask, IN_CLOSE_WRITE) {
        SendEvent(Event.Index(absPath, isDir), now);
      }
    }

    /** `addMvTo`: the region under the lock, and the handler call after it. */
    method MovedTo(fs: Tree, cookie: nat, absPath: string, isDir: bool, now: int)
      requires Closed(fs) && watchMap.State().Inverse() && Moves.Invariant(mvEvents.Value())
      requires cookie !in mvEvents.arrivals && absPath != ""
      requires cookie in mvEvents.halves ==> Disjoint(mvEvents.halves[cookie].name, absPath)
      modifies this`kernel, this`dirtyFlag, watchMap, table, mvEvents
      ensures var s := old(FullState());
              var s1 := s.(mv := Moves.AfterTo(s.mv, cookie, absPath, isDir));
              FullState() == HandleArrival(fs, s1, cookie, now)
    {
      hide Pipeline.HandleMoveEvent, Closed, Moves.Invariant;
      var op, oldName := mvEvents.AddMvTo(cookie, absPath, isDir);
      HandleMoveEvent(fs, op, oldName, absPath, isDir, now);
      ghost var a := mvEvents.arrivals[cookie];
      mvEvents.sent := mvEvents.sent + [Moves.OutOfArrival(cookie, a)];
      mvEvents.arrivals := mvEvents.arrivals[cookie := a.(sent := true)];
    }

    /** `start`, with a new inotify descriptor: no watches, and descriptors counted from firstWd. It stops
        at the first root that is gone. */
    method Start(fs: Tree, firstWd: nat, now: int) returns (ok: bool)
      requires Closed(fs)
      modifies this`kernel, this`dirtyFlag, watchMap, table
      ensures ok <==> roots != [] && forall r :: r in roots ==> r in fs
      ensures ok ==> Value() == Pipeline.Start(fs, roots, old(table.State()), old(dirtyFlag), firstWd, now)
      ensures roots == [] ==> Value() == old(Value())
      ensures !ok && roots != [] ==>
        var app := BeforeWalks(old(table.State()), old(dirtyFlag), firstWd);
        exists i: nat :: FirstGone(fs, roots, i) && Value() == WalkRoots(fs, app, roots[..i], now)
    {
      hide OnWatcherEvent, WalkStartingAt, Closed;
      if |roots| == 0 {
        return false;
      }
      kernel := Kernel(map[], {}, firstWd);
      watchMap.Reset();
      SendEvent(WalkStart, now);
      ghost var app := BeforeWalks(old(table.State()), old(dirtyFlag), firstWd);
      WalkStartIsOffline(old(Value()), firstWd, now);
      for i := 0 to |roots|
        invariant Value() == WalkRoots(fs, app, roots[..i], now)
        invariant forall j :: 0 <= j < i ==> roots[j] in fs
      {
        assert roots[..i + 1] == roots[..i] + [roots[i]];
        WalkRootsSnoc(fs, app, roots[..i], roots[i], now);
        ok := WalkFrom(fs, roots[i], now);
        if !ok {
          NothingGone(fs, WalkRoots(fs, app, roots[..i], now), roots[i], now);
          assert FirstGone(fs, roots, i);
          return;
        }
      }
      assert roots[..|roots|] == roots;
      SendEvent(WalkComplete, now);
      ok := true;
    }
  }

  predicate FirstGone(fs: Tree, roots: seq<string>, i: nat) {
    i < |roots| && roots[i] !in fs && forall j | 0 <= j < i :: roots[j] in fs
  }

  lemma WalkStartIsOffline(app: App, firstWd: nat, now: int)
    ensures OnWatcherEvent(App(Kernel(map[], {}, firstWd), NO_WATCHES, app.table, app.dirtyFlag), WalkStart, now)
            == BeforeWalks(app.table, app.dirtyFlag, firstWd)
  {
  }

  lemma NothingGone(fs: Tree, app: App, p: string, now: int)
    requires Closed(fs) && p !in fs
    ensures WalkStartingAt(fs, app, p, now) == app
  {
  }

  lemma {:induction false} WalkRootsSnoc(fs: Tree, app: App, roots: seq<string>, r: string, now: int)
    requires Closed(fs)
    ensures WalkRoots(fs, app, roots + [r], now) == WalkStartingAt(fs, WalkRoots(fs, app, roots, now), r, now)
    decreases |roots|
  {
    hide WalkStartingAt, Closed;
    if roots == [] {
      assert [] + [r] == [r] && [r][1..] == [];
    } else {
      assert (roots + [r])[0] == roots[0] && (roots + [r])[1..] == roots[1..] + [r];
      WalkRootsSnoc(fs, WalkStartingAt(fs, app, roots[0], now), roots[1..], r, now);
    }
  }
}
