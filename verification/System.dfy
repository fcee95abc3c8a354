/** The main results about the whole library: every drained tree change restores agreement between
    file tree, watch map and index, with the exact exceptions. */
module System {
  import opened Paths
  import opened Ignore
  import opened Walk
  import opened WatchMap
  import opened Objects
  import opened Pipeline
  import opened Scan
  import opened Driver
  import opened Changes
  import opened Effects
  import opened Simulation
  import Dels = DeleteEvents
  import Moves = MoveEvents
  import MoveSim = MoveSimulation
  import DeleteSim = DeleteSimulation

  // New directories and written files: nothing happens until the last queued event is read.

  ghost predicate MidPlain(fs: Tree, roots: seq<string>, app: App, queue: seq<Raw>, s: Sys) {
    && s.fs == fs && s.roots == roots && s.calls == NO_CALLS
    && s.state.del == Dels.INITIAL && s.state.mv == Moves.INITIAL
    && |s.queue| <= |queue| && s.queue == queue[|queue| - |s.queue|..]
    && if s.queue == [] then Agrees(fs, s.state.app) else s.state.app == app
  }

  lemma {:induction false} EventKnown(s0: Sys, p: string, mask: bv32)
    requires Good(s0) && Clean(p)
    ensures var queue := EventAt(s0.state.app.kernel, p, mask, 0);
            && |queue| <= 1 && (queue != [] ==> IsAbout(s0.state.app.watch, queue[0], p) && queue[0].mask == mask)
            && (IsDir(s0.fs, Dir(p)) && !IgnoreFn(Dir(p), true) ==> queue != [])
  {
    if Dir(p) in s0.state.app.kernel.at { MoveSim.EventKnown(s0, p); }
    if IsDir(s0.fs, Dir(p)) && !IgnoreFn(Dir(p), true) { assert Dir(p) in DirsOf(Visible(s0.fs)); }
  }

  /** A visible path has a directory that is not ignored. */
  lemma ParentNotIgnored(p: string, isDir: bool)
    requires Clean(p) && !IgnoreFn(p, isDir) && Dir(p) != "/"
    ensures !IgnoreFn(Dir(p), true)
  {
    CleanShape(p);
    if IgnoreFn(Dir(p), true) { Hereditary(p, Dir(p), isDir); }
  }

  /** The tree that appeared, and what is visible of it. */
  lemma MakeTreeFacts(s0: Sys, c: Change)
    requires Good(s0) && c.MakeTree? && Legal(s0.fs, s0.roots, c)
    ensures var fs := TreeAfter(s0.fs, c);
            && Closed(fs) && c.p in fs && fs[c.p]
            && (forall x :: x in Visible(s0.fs) ==> !AtOrUnder(x, c.p))
            && Visible(fs) == Visible(s0.fs) + VisibleWithin(fs, c.p)
            && (IgnoreFn(c.p, true) ==> Visible(fs) == Visible(s0.fs))
  {
    AddTreeWellFormed(s0.fs, s0.roots, c.p, c.tree);
    TreeClosed(TreeAfter(s0.fs, c), s0.roots);
    VisibleAdded(s0.fs, c.tree, c.p);
    if IgnoreFn(c.p, true) {
      HiddenWithin(TreeAfter(s0.fs, c), c.p);
      PlusNothing(Visible(s0.fs), VisibleWithin(TreeAfter(s0.fs, c), c.p));
    }
  }

  lemma MakeTreeInit(s0: Sys, c: Change)
    requires Good(s0) && c.MakeTree? && Legal(s0.fs, s0.roots, c)
    ensures var s1 := After(s0, c);
            MidPlain(s1.fs, s1.roots, s1.state.app, s1.queue, s1)
  {
    EventKnown(s0, c.p, IN_CREATE | IN_ISDIR);
    MakeTreeFacts(s0, c);
    DirIsClean(s0, c.p);
    if !IgnoreFn(c.p, true) { ParentNotIgnored(c.p, true); }
  }

  lemma DirIsClean(s0: Sys, p: string)
    requires Good(s0) && IsDir(s0.fs, Dir(p))
    ensures Dir(p) != "/"
  {
    if Dir(p) == "/" { CleanShape("/"); }
  }

  lemma CreateEffect(fs: Tree, nodes: Tree, st: State, e: Raw, p: string, now: int)
    requires Closed(fs) && Dels.EvInRange(st.del) && p in fs && fs[p]
    requires AppHolds(st.app, DirsOf(nodes), nodes, true) && forall x :: x in nodes ==> !AtOrUnder(x, p)
    requires Visible(fs) == nodes + VisibleWithin(fs, p)
    requires IgnoreFn(p, true) ==> Visible(fs) == nodes
    requires IsAbout(st.app.watch, e, p) && e.mask == IN_CREATE | IN_ISDIR
    ensures var st' := ReadEvent(fs, st, e, now);
            Agrees(fs, st'.app) && st'.del == st.del && st'.mv == st.mv
  {
    ReadCreate(fs, st, e, p, true, now);
    if !IgnoreFn(p, true) {
      IndexDirEffect(fs, st.app, nodes, p, now);
    }
  }

  lemma SuffixHead<T>(queue: seq<T>, rest: seq<T>)
    requires 0 < |rest| <= |queue| && rest == queue[|queue| - |rest|..]
    ensures rest[0] == queue[|queue| - |rest|] && rest[0] in queue
    ensures rest[1..] == queue[|queue| - |rest[1..]|..]
  {
  }

  lemma ReadPlain(fs: Tree, roots: seq<string>, app: App, queue: seq<Raw>, s: Sys, s': Sys, now: int)
    requires Closed(fs) && MidPlain(fs, roots, app, queue, s) && Next(s, Read(now), s')
    requires var st := ReadEvent(fs, s.state, s.queue[0], now);
             && st.del == Dels.INITIAL && st.mv == Moves.INITIAL
             && (if |s.queue| == 1 then Agrees(fs, st.app) else st.app == app)
    ensures MidPlain(fs, roots, app, queue, s')
  {
    hide Closed, Agrees, ReadEvent;
    SuffixHead(queue, s.queue);
  }

  lemma ReadNewDirectory(fs: Tree, roots: seq<string>, nodes: Tree, app: App, queue: seq<Raw>,
                                            p: string, s: Sys, s': Sys, now: int)
    requires Closed(fs) && MidPlain(fs, roots, app, queue, s) && Next(s, Read(now), s')
    requires |queue| <= 1 && (queue != [] ==> IsAbout(app.watch, queue[0], p) && queue[0].mask == IN_CREATE | IN_ISDIR)
    requires p in fs && fs[p] && forall x :: x in nodes ==> !AtOrUnder(x, p)
    requires AppHolds(app, DirsOf(nodes), nodes, true)
    requires Visible(fs) == nodes + VisibleWithin(fs, p) && (IgnoreFn(p, true) ==> Visible(fs) == nodes)
    ensures MidPlain(fs, roots, app, queue, s')
  {
    hide Closed, IgnoreFn, AppHolds, Agrees, ReadEvent, Visible, VisibleWithin, IsAbout;
    SuffixHead(queue, s.queue);
    CreateEffect(fs, nodes, s.state, s.queue[0], p, now);
    ReadPlain(fs, roots, app, queue, s, s', now);
  }

  lemma HoldsBefore(s0: Sys)
    requires Good(s0)
    ensures AppHolds(s0.state.app, DirsOf(Visible(s0.fs)), Visible(s0.fs), true)
  {
  }

  lemma MakeTreeRead(s0: Sys, c: Change, s: Sys, s': Sys, now: int)
    requires Good(s0) && c.MakeTree? && Legal(s0.fs, s0.roots, c)
    requires var s1 := After(s0, c); MidPlain(s1.fs, s1.roots, s1.state.app, s1.queue, s)
    requires Closed(s.fs) && Next(s, Read(now), s')
    ensures var s1 := After(s0, c); MidPlain(s1.fs, s1.roots, s1.state.app, s1.queue, s')
  {
    hide WellFormedTree, Visible, IgnoreFn, Agrees, Closed, AppHolds, VisibleWithin, IsAbout, Next, IsDir, DirsOf;
    HoldsBefore(s0);
    EventKnown(s0, c.p, IN_CREATE | IN_ISDIR);
    MakeTreeFacts(s0, c);
    var s1 := After(s0, c);
    ReadNewDirectory(s1.fs, s1.roots, Visible(s0.fs), s1.state.app, s1.queue, c.p, s, s', now);
  }

  lemma VisibleWritten(fs: Tree, p: string)
    requires p in fs ==> !fs[p]
    ensures Visible(fs[p := false]) == if IgnoreFn(p, false) then Visible(fs) else Visible(fs)[p := false]
  {
  }

  lemma WriteFacts(s0: Sys, c: Change)
    requires Good(s0) && c.WriteFile? && Legal(s0.fs, s0.roots, c)
    ensures var fs := TreeAfter(s0.fs, c);
            && Closed(fs)
            && Visible(fs) == (if IgnoreFn(c.p, false) then Visible(s0.fs) else Visible(s0.fs)[c.p := false])
            && (c.p in Visible(s0.fs) ==> !Visible(s0.fs)[c.p])
  {
    ChangeKeepsWellFormed(s0.fs, s0.roots, c);
    TreeClosed(TreeAfter(s0.fs, c), s0.roots);
    VisibleWritten(s0.fs, c.p);
  }

  lemma WriteInit(s0: Sys, c: Change)
    requires Good(s0) && c.WriteFile? && Legal(s0.fs, s0.roots, c)
    ensures var s1 := After(s0, c);
            MidPlain(s1.fs, s1.roots, s1.state.app, s1.queue, s1)
  {
    EventKnown(s0, c.p, IN_CLOSE_WRITE);
    WriteFacts(s0, c);
    DirIsClean(s0, c.p);
    if !IgnoreFn(c.p, false) { ParentNotIgnored(c.p, false); }
  }

  /** Indexing a written file makes a library that held everything else agree. */
  lemma WriteEffect(fs: Tree, nodes: Tree, app: App, p: string, now: int)
    requires Visible(fs) == nodes[p := false] && (p in nodes ==> !nodes[p])
    requires AppHolds(app, DirsOf(nodes), nodes, true)
    ensures Agrees(fs, OnWatcherEvent(app, Index(p, false), now))
  {
    IndexAddHolds(app.table, nodes, p, false, now);
    assert DirsOf(nodes[p := false]) == DirsOf(nodes);
  }

  lemma WriteEvents(fs: Tree, nodes: Tree, st: State, e: Raw, p: string, now: int)
    requires Closed(fs) && Dels.EvInRange(st.del) && IsAbout(st.app.watch, e, p)
    requires AppHolds(st.app, DirsOf(nodes), nodes, true) && (p in nodes ==> !nodes[p])
    requires Visible(fs) == if IgnoreFn(p, false) then nodes else nodes[p := false]
    ensures e.mask == IN_CREATE ==> ReadEvent(fs, st, e, now) == st
    ensures e.mask == IN_CLOSE_WRITE ==>
      var st' := ReadEvent(fs, st, e, now);
      Agrees(fs, st'.app) && st'.del == st.del && st'.mv == st.mv
  {
    if e.mask == IN_CREATE {
      ReadCreate(fs, st, e, p, false, now);
    } else if e.mask == IN_CLOSE_WRITE {
      ReadWrite(fs, st, e, p, now);
      if !IgnoreFn(p, false) {
        WriteEffect(fs, nodes, st.app, p, now);
      }
    }
  }

  lemma TwoEvents(w: Watches, first: seq<Raw>, last: seq<Raw>, p: string)
    requires |first| <= 1 && |last| <= 1 && (first != [] ==> last != [])
    requires first != [] ==> IsAbout(w, first[0], p) && first[0].mask == IN_CREATE
    requires last != [] ==> IsAbout(w, last[0], p) && last[0].mask == IN_CLOSE_WRITE
    ensures var queue := first + last;
            && |queue| <= 2
            && (forall e :: e in queue ==> IsAbout(w, e, p))
            && (queue != [] ==> queue[|queue| - 1].mask == IN_CLOSE_WRITE)
            && (|queue| == 2 ==> queue[0].mask == IN_CREATE)
  {
  }

  /** A written file queues at most a creation, and the end of the writing as the last event. */
  lemma WriteQueue(fs: Tree, k: Kernel, w: Watches, p: string)
    requires Dir(p) in k.at ==> IsAbout(w, Raw(k.at[Dir(p)], IN_CREATE, 0, Base(p)), p)
    ensures var queue := QueueAfter(fs, k, WriteFile(p));
            && |queue| <= 2
            && (forall e :: e in queue ==> IsAbout(w, e, p))
            && (queue != [] ==> queue[|queue| - 1].mask == IN_CLOSE_WRITE)
            && (|queue| == 2 ==> queue[0].mask == IN_CREATE)
  {
    TwoEvents(w, if p in fs then [] else EventAt(k, p, IN_CREATE, 0), EventAt(k, p, IN_CLOSE_WRITE, 0), p);
  }

  lemma WriteKnown(s0: Sys, p: string)
    requires Good(s0) && Clean(p) && Dir(p) in s0.state.app.kernel.at
    ensures IsAbout(s0.state.app.watch, Raw(s0.state.app.kernel.at[Dir(p)], IN_CREATE, 0, Base(p)), p)
  {
    MoveSim.EventKnown(s0, p);
  }

  lemma ReadWritten(fs: Tree, roots: seq<string>, nodes: Tree, app: App, queue: seq<Raw>,
                                       p: string, s: Sys, s': Sys, now: int)
    requires Closed(fs) && MidPlain(fs, roots, app, queue, s) && Next(s, Read(now), s')
    requires |queue| <= 2 && forall e :: e in queue ==> IsAbout(app.watch, e, p)
    requires queue != [] ==> queue[|queue| - 1].mask == IN_CLOSE_WRITE
    requires |queue| == 2 ==> queue[0].mask == IN_CREATE
    requires AppHolds(app, DirsOf(nodes), nodes, true) && (p in nodes ==> !nodes[p])
    requires Visible(fs) == if IgnoreFn(p, false) then nodes else nodes[p := false]
    ensures MidPlain(fs, roots, app, queue, s')
  {
    hide Closed, IgnoreFn, AppHolds, Agrees, ReadEvent, Visible, IsAbout;
    SuffixHead(queue, s.queue);
    WriteEvents(fs, nodes, s.state, s.queue[0], p, now);
    ReadPlain(fs, roots, app, queue, s, s', now);
  }

  lemma WriteRead(s0: Sys, c: Change, s: Sys, s': Sys, now: int)
    requires Good(s0) && c.WriteFile? && Legal(s0.fs, s0.roots, c)
    requires var s1 := After(s0, c); MidPlain(s1.fs, s1.roots, s1.state.app, s1.queue, s)
    requires Closed(s.fs) && Next(s, Read(now), s')
    ensures var s1 := After(s0, c); MidPlain(s1.fs, s1.roots, s1.state.app, s1.queue, s')
  {
    hide WellFormedTree, Visible, IgnoreFn, Agrees, Closed, AppHolds, IsAbout, Next, QueueAfter, IsDir, DirsOf, Clean;
    HoldsBefore(s0);
    if Dir(c.p) in s0.state.app.kernel.at { WriteKnown(s0, c.p); }
    WriteQueue(s0.fs, s0.state.app.kernel, s0.state.app.watch, c.p);
    WriteFacts(s0, c);
    var s1 := After(s0, c);
    ReadWritten(s1.fs, s1.roots, Visible(s0.fs), s1.state.app, s1.queue, c.p, s, s', now);
  }

  lemma OnlyReads(s: Sys, step: Step, s': Sys)
    requires Closed(s.fs) && Next(s, step, s')
    requires s.state.mv == Moves.INITIAL && s.state.del == Dels.INITIAL && s.calls == NO_CALLS
    ensures step.Read?
  {
  }

  // All kinds of change together.

  ghost predicate Mid(s0: Sys, c: Change, s: Sys) {
    if IsMove(c) then MoveSim.MidMove(MoveSim.ContextOf(s0, c), s)
    else if c.DeleteTree? then DeleteSim.MidDelete(DeleteSim.ContextOf(s0, c), s)
    else var s1 := After(s0, c); MidPlain(s1.fs, s1.roots, s1.state.app, s1.queue, s)
  }

  ghost predicate Begun(s0: Sys, c: Change) {
    Good(s0) && Legal(s0.fs, s0.roots, c)
  }

  lemma DeleteInit(s0: Sys, c: Change)
    requires Begun(s0, c) && c.DeleteTree?
    ensures DeleteSim.MidDelete(DeleteSim.ContextOf(s0, c), After(s0, c))
  {
    DeleteSim.ContextFacts(s0, c);
    DeleteSim.MidDeleteInit(DeleteSim.ContextOf(s0, c), After(s0, c));
  }

  lemma MoveInit(s0: Sys, c: Change)
    requires Begun(s0, c) && IsMove(c)
    ensures MoveSim.MidMove(MoveSim.ContextOf(s0, c), After(s0, c))
  {
    MoveSim.ContextEvents(s0, c);
    MoveSim.ProtocolInit(MoveSim.ContextOf(s0, c));
  }

  lemma MidInit(s0: Sys, c: Change)
    requires Begun(s0, c)
    ensures Mid(s0, c, After(s0, c))
  {
    if IsMove(c) {
      MoveInit(s0, c);
    } else if c.DeleteTree? {
      DeleteInit(s0, c);
    } else if c.MakeTree? {
      MakeTreeInit(s0, c);
    } else {
      WriteInit(s0, c);
    }
  }

  lemma PlainStep(s0: Sys, c: Change, s: Sys, step: Step, s': Sys)
    requires Begun(s0, c) && (c.MakeTree? || c.WriteFile?)
    requires var s1 := After(s0, c); MidPlain(s1.fs, s1.roots, s1.state.app, s1.queue, s)
    requires Closed(s.fs) && Next(s, step, s')
    ensures var s1 := After(s0, c); MidPlain(s1.fs, s1.roots, s1.state.app, s1.queue, s')
  {
    OnlyReads(s, step, s');
    if c.MakeTree? {
      MakeTreeRead(s0, c, s, s', step.now);
    } else {
      WriteRead(s0, c, s, s', step.now);
    }
  }

  lemma MidStep(s0: Sys, c: Change, s: Sys, step: Step, s': Sys)
    requires Begun(s0, c) && Mid(s0, c, s) && Closed(s.fs) && Next(s, step, s')
    ensures Mid(s0, c, s')
  {
    if IsMove(c) {
      MoveSim.ContextEvents(s0, c);
      MoveSim.ContextApp(s0, c);
      MoveSim.MoveStepKeepsMid(MoveSim.ContextOf(s0, c), s, step, s');
    } else if c.DeleteTree? {
      DeleteSim.ContextFacts(s0, c);
      DeleteSim.DeleteStepKeepsMid(DeleteSim.ContextOf(s0, c), s, step, s');
    } else {
      PlainStep(s0, c, s, step, s');
    }
  }

  /** Whether the removal of a move changed the table before its renaming did or, for a directory, the
      watch map. */
  predicate Raced(s: Sys, c: Change) {
    IsMove(c) && MoveSim.LostRace(s.state.mv.sent, s.calls.done)
  }

  lemma MidDrained(s0: Sys, c: Change, s: Sys)
    requires Begun(s0, c) && Mid(s0, c, s) && Drained(s)
    ensures Agrees(s.fs, s.state.app) <==> !Raced(s, c)
  {
    if IsMove(c) {
      MoveSim.ContextEvents(s0, c);
      MoveSim.ContextApp(s0, c);
      MoveSim.MoveDrained(MoveSim.ContextOf(s0, c), s);
    } else if c.DeleteTree? {
      DeleteSim.DeleteDrained(s0, c, s);
    }
  }

  // Runs

  ghost predicate Run(s: Sys, steps: seq<Step>, s': Sys)
    decreases |steps|
  {
    if steps == [] then s' == s
    else Closed(s.fs) && exists mid :: Next(s, steps[0], mid) && Run(mid, steps[1..], s')
  }

  lemma {:induction false} RunKeepsMid(s0: Sys, c: Change, s: Sys, steps: seq<Step>, s': Sys)
    requires Begun(s0, c) && Mid(s0, c, s) && Run(s, steps, s')
    ensures Mid(s0, c, s') && s'.fs == s.fs && s'.roots == s.roots
    decreases |steps|
  {
    if steps != [] {
      var mid :| Next(s, steps[0], mid) && Run(mid, steps[1..], s');
      MidStep(s0, c, s, steps[0], mid);
      RunKeepsMid(s0, c, mid, steps[1..], s');
    }
  }

  /** From agreement, any legal change of the tree, followed by its events, goroutine steps and handler
      calls in any order, overlapping as they may, until nothing is left to do: tree, kernel, watch map
      and index agree again, exactly unless a move's removal reached the table, or with a directory the
      watch map, before its renaming. */
  lemma ChangeRestoresAgreement(s0: Sys, c: Change, steps: seq<Step>, s: Sys)
    requires WellFormedTree(s0.fs, s0.roots) && Agrees(s0.fs, s0.state.app)
    requires Legal(s0.fs, s0.roots, c)
    requires Run(After(s0, c), steps, s) && Drained(s)
    ensures s.fs == TreeAfter(s0.fs, c) && s.roots == s0.roots && WellFormedTree(s.fs, s.roots)
    ensures Agrees(s.fs, s.state.app) <==> !Raced(s, c)
  {
    MidInit(s0, c);
    RunKeepsMid(s0, c, After(s0, c), steps, s);
    MidDrained(s0, c, s);
    ChangeKeepsWellFormed(s0.fs, s0.roots, c);
  }

  /** A history: changes one after the other, each drained before the next, no race lost. */
  ghost predicate History(s: Sys, cs: seq<Change>, s': Sys)
    decreases |cs|
  {
    if cs == [] then s' == s
    else
      Legal(s.fs, s.roots, cs[0]) &&
      exists steps, mid :: Run(After(s, cs[0]), steps, mid) && Drained(mid) && !Raced(mid, cs[0])
          && History(mid, cs[1..], s')
  }

  lemma {:induction false} HistoryKeepsAgreement(s: Sys, cs: seq<Change>, s': Sys)
    requires Good(s) && History(s, cs, s')
    ensures Good(s')
    decreases |cs|
  {
    if cs != [] {
      var steps, mid :| Run(After(s, cs[0]), steps, mid) && Drained(mid) && !Raced(mid, cs[0])
          && History(mid, cs[1..], s');
      ChangeRestoresAgreement(s, cs[0], steps, mid);
      HistoryKeepsAgreement(mid, cs[1..], s');
    }
  }

  /** Right after the first scan. */
  function Scanned(fs: Tree, roots: seq<string>, table: Table, dirtyFlag: bool, firstWd: nat, now: int): Sys
    requires Closed(fs)
  {
    var app := Start(fs, roots, table, dirtyFlag, firstWd, now);
    Sys(fs, roots, State(app, Dels.INITIAL, Moves.INITIAL), [], NO_CALLS)
  }

  /** From the first scan on, whatever the table held before and whatever happens to the tree,
      the library agrees with the tree whenever it is drained. */
  lemma AlwaysAgrees(fs: Tree, roots: seq<string>, table: Table, dirtyFlag: bool, firstWd: nat, now: int,
                                        cs: seq<Change>, s': Sys)
    requires WellFormedTree(fs, roots) && WellFormed(table) && Closed(fs)
    requires History(Scanned(fs, roots, table, dirtyFlag, firstWd, now), cs, s')
    ensures Agrees(s'.fs, s'.state.app)
  {
    StartAgrees(fs, roots, table, dirtyFlag, firstWd, now);
    HistoryKeepsAgreement(Scanned(fs, roots, table, dirtyFlag, firstWd, now), cs, s');
  }

  // Events that tell the library what it already knows.

  /** A creation that the walk of its parent has already covered is read once more without effect on agreement. */
  lemma RepeatedCreate(fs: Tree, s: State, e: Raw, p: string, isDir: bool, now: int)
    requires Closed(fs) && Agrees(fs, s.app) && Dels.EvInRange(s.del)
    requires p in fs && fs[p] == isDir
    requires IsAbout(s.app.watch, e, p) && e.mask == IN_CREATE | DirBit(isDir)
    ensures Agrees(fs, ReadEvent(fs, s, e, now).app)
  {
    ReadCreate(fs, s, e, p, isDir, now);
    if isDir {
      WalkHolds(fs, s.app, p, now, DirsOf(Visible(fs)), Visible(fs), true);
      NothingNew(fs, p);
    }
  }

  lemma NothingNew(fs: Tree, p: string)
    ensures Visible(fs) + VisibleWithin(fs, p) == Visible(fs)
    ensures DirsOf(Visible(fs)) + DirsOf(VisibleWithin(fs, p)) == DirsOf(Visible(fs))
  {
  }

  // Two things the library does not follow.

  /** A visible file p, and another visible name q in an existing directory. */
  ghost predicate FileAndName(s0: Sys, p: string, q: string) {
    && Good(s0) && p in Visible(s0.fs) && !s0.fs[p] && p !in s0.roots
    && Clean(q) && IsDir(s0.fs, Dir(q)) && (q in s0.fs ==> !s0.fs[q])
    && !IgnoreFn(q, false) && Disjoint(p, q)
  }

  /** A rename that the database refuses leaves the old path in the index. */
  lemma RefusedDisagrees(fs: Tree, app: App, p: string, q: string, now: int)
    requires Closed(fs) && p !in fs && HasPath(app.table.rows, p)
    requires IndexRenamed(app.table, false, p, q) == (app.table, false)
    ensures !Agrees(fs, HandleMoveEvent(fs, app, Moves.Rename, p, q, false, now))
  {
    var id :| id in app.table.rows && app.table.rows[id].path == p;
    assert app.table.rows[id].path !in Visible(fs);
    assert !AllWithin(app.table, Visible(fs));
  }

  lemma RenameOntoExisting(s0: Sys, fs: Tree, p: string, q: string, now: int)
    requires FileAndName(s0, p, q) && q in s0.fs && Closed(fs) && p !in fs
    ensures !Agrees(fs, HandleMoveEvent(fs, s0.state.app, Moves.Rename, p, q, false, now))
  {
    OverwriteFails(s0, p, q);
    RefusedDisagrees(fs, s0.state.app, p, q, now);
  }

  lemma FileRenamable(fs: Tree, app: App, p: string, q: string)
    requires CanRename(fs, p, q) && !fs[p] && Agrees(fs, app)
    ensures WatchRenamable(app.kernel, app.watch, Visible(fs), p, q)
    ensures Target(Visible(fs), p, q) && LeafUnless(Visible(fs), p, false)
  {
    MoveSim.VisibleSubtree(fs, p);
    assert forall x :: x in app.watch.wdByPath ==> x in DirsOf(Visible(fs));
    RenamedNothing(app.watch.wdByPath, p, q);
  }

  lemma RenameOntoFree(fs: Tree, app: App, p: string, q: string, now: int)
    requires CanRename(fs, p, q) && !fs[p] && Agrees(fs, app) && Closed(RenamedKeys(fs, p, q))
    ensures var fs' := RenamedKeys(fs, p, q);
            Agrees(fs', HandleMoveEvent(fs', app, Moves.Rename, p, q, false, now))
  {
    FileRenamable(fs, app, p, q);
    VisibleRenamed(fs, p, q);
    RenameEffect(RenamedKeys(fs, p, q), app, Visible(fs), p, q, false, now);
  }

  lemma FreeName(s0: Sys, p: string, q: string)
    requires FileAndName(s0, p, q) && q !in s0.fs
    ensures CanRename(s0.fs, p, q) && !s0.fs[p]
    ensures RenamedKeys(s0.fs, p, q) == Without(s0.fs, p)[q := false]
  {
    TreeClosed(s0.fs, s0.roots);
    TargetIsFree(s0.fs, s0.roots, q);
    FileRenamed(s0.fs, p, q);
  }

  lemma RenameOntoNew(s0: Sys, fs: Tree, p: string, q: string, now: int)
    requires FileAndName(s0, p, q) && q !in s0.fs && Closed(fs) && fs == Without(s0.fs, p)[q := false]
    ensures Agrees(fs, HandleMoveEvent(fs, s0.state.app, Moves.Rename, p, q, false, now))
  {
    FreeName(s0, p, q);
    RenameOntoFree(s0.fs, s0.state.app, p, q, now);
  }

  /** A move of one visible file over another name: the handler restores agreement exactly when
      that name was not there before. Otherwise the unique path makes the rename fail. */
  lemma RenameOntoFile(s0: Sys, fs: Tree, p: string, q: string, now: int)
    requires FileAndName(s0, p, q) && Closed(fs) && fs == Without(s0.fs, p)[q := false]
    ensures Agrees(fs, HandleMoveEvent(fs, s0.state.app, Moves.Rename, p, q, false, now)) <==> q !in s0.fs
  {
    if q in s0.fs {
      RenameOntoExisting(s0, fs, p, q, now);
    } else {
      RenameOntoNew(s0, fs, p, q, now);
    }
  }

  lemma FileRenamedAt(fs: Tree, p: string, q: string, y: string)
    requires p in fs && !fs[p] && Disjoint(p, q) && forall x :: x in fs ==> !AtOrUnder(x, q)
    requires forall x :: x in fs && AtOrUnder(x, p) ==> x == p
    ensures y in RenamedKeys(fs, p, q) <==> y in Without(fs, p)[q := false]
    ensures y in RenamedKeys(fs, p, q) ==> RenamedKeys(fs, p, q)[y] == Without(fs, p)[q := false][y]
  {
    assert p[|p|..] == "";
    RenamedKeysMoves(fs, p, p, q);
    if y in RenamedKeys(fs, p, q) {
      var x := RenamedFrom(fs, y, p, q);
    } else if y in Without(fs, p) {
      RenamedKeysMoves(fs, y, p, q);
    }
  }

  lemma FileRenamed(fs: Tree, p: string, q: string)
    requires Closed(fs) && p in fs && !fs[p] && Disjoint(p, q) && forall x :: x in fs ==> !AtOrUnder(x, q)
    ensures RenamedKeys(fs, p, q) == Without(fs, p)[q := false]
  {
    forall x | x in fs && AtOrUnder(x, p) ensures x == p {
      if x != p { FileHasNothingBelow(fs, p, x); }
    }
    forall y
      ensures y in RenamedKeys(fs, p, q) <==> y in Without(fs, p)[q := false]
      ensures y in RenamedKeys(fs, p, q) ==> RenamedKeys(fs, p, q)[y] == Without(fs, p)[q := false][y]
    {
      FileRenamedAt(fs, p, q, y);
    }
  }

  lemma OverwriteFails(s0: Sys, p: string, q: string)
    requires Good(s0) && p in Visible(s0.fs) && q in Visible(s0.fs) && Disjoint(p, q)
    ensures !IndexRenamed(s0.state.app.table, false, p, q).1
    ensures IndexRenamed(s0.state.app.table, false, p, q).0 == s0.state.app.table
    ensures HasPath(s0.state.app.table.rows, p)
  {
    var t := s0.state.app.table;
    assert HasPath(t.rows, p) && HasPath(t.rows, q);
    BothIndexed(t, p, q);
  }

  lemma BothIndexed(t: Table, p: string, q: string)
    requires WellFormed(t) && HasPath(t.rows, p) && HasPath(t.rows, q) && Disjoint(p, q)
    ensures IndexRenamed(t, false, p, q) == (t, false)
  {
    var i :| i in t.rows && t.rows[i].path == p;
    var j :| j in t.rows && t.rows[j].path == q;
    assert p[|p|..] == "";
    assert Hits(p, false, t.rows[i].path) && Rebase(t.rows[i].path, p, q) == t.rows[j].path;
    RenameOutcome(t, false, p, q);
  }

  /** A file that appears without being written, as a hard link does, queues only IN_CREATE, and reading
      it changes nothing: agreement is kept exactly if the file is ignored. */
  lemma LinkIsMissed(s0: Sys, p: string, e: Raw, now: int)
    requires Good(s0) && Clean(p) && p !in s0.fs
    requires IsAbout(s0.state.app.watch, e, p) && e.mask == IN_CREATE | DirBit(false)
    requires Dels.EvInRange(s0.state.del) && Closed(s0.fs[p := false])
    ensures var fs := s0.fs[p := false];
            Agrees(fs, ReadEvent(fs, s0.state, e, now).app) <==> IgnoreFn(p, false)
  {
    var fs := s0.fs[p := false];
    hide IgnoreFn, WatchHolds, ReadEvent;
    ReadCreate(fs, s0.state, e, p, false, now);
    VisibleWritten(s0.fs, p);
    if !IgnoreFn(p, false) {
      assert p in Visible(fs) && p !in Visible(s0.fs);
      assert !HasPath(s0.state.app.table.rows, p);
    }
  }
}
