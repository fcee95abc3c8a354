/** The whole system comes to rest after every change: no schedule runs on for ever, none gets stuck,
    and some schedule ends in agreement. */
module Drain {
  import opened Paths
  import opened Walk
  import opened Objects
  import opened Pipeline
  import opened Driver
  import opened Changes
  import opened Simulation
  import opened System
  import Dels = DeleteEvents
  import Moves = MoveEvents
  import MoveSim = MoveSimulation
  import DeleteSim = DeleteSimulation

  // What is still to be done for the moves that have been read.

  function Unsent(mv: Moves.State): set<nat> {
    set c | c in mv.arrivals && !mv.arrivals[c].sent
  }

  function InPhase(mv: Moves.State, phases: set<Moves.Phase>): set<nat> {
    set c | c in mv.halves && mv.halves[c].phase in phases
  }

  function MoveWeight(mv: Moves.State): nat {
    |Unsent(mv)| + |InPhase(mv, {Moves.Waiting})| + |InPhase(mv, {Moves.Waiting, Moves.Expired})|
    + |InPhase(mv, {Moves.Waiting, Moves.Expired, Moves.Leaving})|
  }

  lemma SubsetCard<T>(a: set<T>, b: set<T>)
    requires a <= b
    ensures |a| <= |b| && (a != b ==> |a| < |b|)
  {
    if a != b { SubsetSmaller(a, b); }
  }

  lemma PhaseShrinks(mv: Moves.State, mv': Moves.State, c: nat, phases: set<Moves.Phase>)
    requires c in mv.halves && mv'.halves.Keys == mv.halves.Keys
    requires forall d :: d in mv.halves && d != c ==> mv'.halves[d] == mv.halves[d]
    requires mv'.halves[c].phase in phases ==> mv.halves[c].phase in phases
    ensures InPhase(mv', phases) <= InPhase(mv, phases) && |InPhase(mv', phases)| <= |InPhase(mv, phases)|
    ensures mv.halves[c].phase in phases && mv'.halves[c].phase !in phases ==>
      |InPhase(mv', phases)| < |InPhase(mv, phases)|
  {
    SubsetCard(InPhase(mv', phases), InPhase(mv, phases));
    assert mv.halves[c].phase in phases ==> c in InPhase(mv, phases);
  }

  lemma HalfLowers(mv: Moves.State, mv': Moves.State, c: nat)
    requires c in mv.halves && mv'.halves.Keys == mv.halves.Keys && mv'.arrivals == mv.arrivals
    requires forall d :: d in mv.halves && d != c ==> mv'.halves[d] == mv.halves[d]
    requires match mv.halves[c].phase
             case Waiting => mv'.halves[c].phase != Moves.Waiting
             case Expired => mv'.halves[c].phase == Moves.Leaving
             case Leaving => mv'.halves[c].phase == Moves.Gone
             case Gone => false
    ensures MoveWeight(mv') < MoveWeight(mv)
  {
    hide InPhase;
    PhaseShrinks(mv, mv', c, {Moves.Waiting});
    PhaseShrinks(mv, mv', c, {Moves.Waiting, Moves.Expired});
    PhaseShrinks(mv, mv', c, {Moves.Waiting, Moves.Expired, Moves.Leaving});
  }

  lemma HandleLowers(mv: Moves.State, mv': Moves.State, c: nat)
    requires Moves.Next(mv, Moves.Handle(c), mv')
    ensures MoveWeight(mv') < MoveWeight(mv)
  {
    assert c in Unsent(mv) && c !in Unsent(mv');
    SubsetCard(Unsent(mv'), Unsent(mv));
    assert mv'.halves == mv.halves;
  }

  lemma MoveStepLowers(mv: Moves.State, step: Moves.Step, mv': Moves.State)
    requires Moves.Next(mv, step, mv') && (step.Expire? || step.Cancel? || step.Forget? || step.SendRemove?)
    ensures MoveWeight(mv') < MoveWeight(mv)
  {
    hide MoveWeight;
    HalfLowers(mv, mv', step.cookie);
  }

  /** A call that begins counts twice before and once after, as it has yet to end. */
  function Weight(s: Sys): nat {
    Dels.TotalWeight(s.state.del.gs) + 2 * MoveWeight(s.state.mv) + |s.calls.from| + |s.calls.to|
  }

  /** Every step of reader and goroutines, in any order, brings the rest nearer: an event is taken from
      the queue, or the queue stays and the remaining work gets less. */
  lemma StepLowers(s: Sys, step: Step, s': Sys)
    requires Closed(s.fs) && Dels.Invariant(s.state.del) && Next(s, step, s')
    ensures |s'.queue| < |s.queue| || (|s'.queue| == |s.queue| && Weight(s') < Weight(s))
  {
    hide Dels.Invariant, Closed, MoveWeight, Dels.TotalWeight, ReadEvent, AppAfterDelete;
    hide WatchAfterTo, TableAfterTo, WatchAfterRemove, TableAfterRemove;
    match step
    case Read(now) =>
    case CallTo(c) => HandleLowers(s.state.mv, s'.state.mv, c);
    case ReturnTo(c, now) =>
    case CallRemove(c) => MoveStepLowers(s.state.mv, Moves.SendRemove(c), s'.state.mv);
    case ReturnRemove(c, now) =>
    case MoveStep(move) => MoveStepLowers(s.state.mv, move, s'.state.mv);
    case DeleteStep(del, now) => Dels.DrainDecreases(s.state.del, del, s'.state.del);
  }

  // Progress. A schedule is calm if no removal is under way while something of a move is still to be
  // read or handled; the other schedules are covered as well.

  ghost predicate RemoveUnderWay(mv: Moves.State) {
    || (exists c :: c in mv.halves && mv.halves[c].phase == Moves.Expired)
    || (exists o :: o in mv.sent && o.op == Moves.Remove)
  }

  ghost predicate Calm(s: Sys) {
    && (RemoveUnderWay(s.state.mv) ==> s.queue == [] && ReaderFree(s))
    && (forall o :: o in s.calls.done && o.op == Moves.Remove ==> RemoveUnderWay(s.state.mv))
    && (forall c :: c in s.calls.from ==> c in s.state.mv.halves && RemoveUnderWay(s.state.mv))
    && (forall c :: c in s.calls.to ==> c in s.state.mv.arrivals && s.state.mv.arrivals[c].op != Moves.Remove)
    && !MoveSim.LostRace(s.state.mv.sent, s.calls.done)
  }

  /** Some step is possible, and a calm one from a calm state. */
  ghost predicate CanStep(s: Sys)
    requires Closed(s.fs)
  {
    exists step, s' :: Next(s, step, s') && (Calm(s) ==> Calm(s'))
  }

  /** What every reachable state has. */
  ghost predicate Sound(s: Sys) {
    && Closed(s.fs) && Dels.Invariant(s.state.del) && !s.state.del.stopped && Moves.Invariant(s.state.mv)
    && (forall c :: c in s.calls.from ==> c in s.state.mv.halves)
    && (forall c :: c in s.calls.to ==> c in s.state.mv.arrivals)
  }

  lemma NoRemoveByArrival(mv: Moves.State, c: nat)
    requires Moves.Invariant(mv) && c in mv.arrivals
    ensures mv.arrivals[c].op != Moves.Remove
  {
    assert Moves.GoodArrival(mv, c);
  }

  lemma CanCallTo(s: Sys, c: nat)
    requires Sound(s) && c in s.state.mv.arrivals && !s.state.mv.arrivals[c].sent
    ensures CanStep(s)
  {
    hide Moves.Invariant, Dels.Invariant, Closed, WatchAfterTo;
    var mv, a := s.state.mv, s.state.mv.arrivals[c];
    NoRemoveByArrival(mv, c);
    var mv' := mv.(arrivals := mv.arrivals[c := a.(sent := true)], sent := mv.sent + [Moves.OutOfArrival(c, a)]);
    var s' := s.(state := s.state.(app := WatchAfterTo(s.state.app, a), mv := mv'),
                 calls := s.calls.(to := s.calls.to + {c}));
    assert Next(s, CallTo(c), s');
  }

  lemma CanReturnTo(s: Sys, c: nat)
    requires Sound(s) && c in s.calls.to
    ensures CanStep(s)
  {
    hide Moves.Invariant, Dels.Invariant, Closed, TableAfterTo;
    var a := s.state.mv.arrivals[c];
    var s' := s.(state := s.state.(app := TableAfterTo(s.fs, s.state.app, a, 0)),
                 calls := s.calls.(to := s.calls.to - {c}, done := s.calls.done + [Moves.OutOfArrival(c, a)]));
    assert Next(s, ReturnTo(c, 0), s');
  }

  lemma CanReturnRemove(s: Sys, c: nat)
    requires Sound(s) && c in s.calls.from && ReaderFree(s)
    ensures CanStep(s)
  {
    hide Moves.Invariant, Dels.Invariant, Closed, TableAfterRemove, RemoveUnderWay;
    var h := s.state.mv.halves[c];
    var s' := s.(state := s.state.(app := TableAfterRemove(s.fs, s.state.app, h, 0)),
                 calls := s.calls.(from := s.calls.from - {c}, done := s.calls.done + [Moves.OutOfHalf(c, h)]));
    assert Next(s, ReturnRemove(c, 0), s');
  }

  /** Reading an event neither expires a half move nor calls its handler. */
  lemma ReadIsQuiet(fs: Tree, s: State, e: Raw, now: int)
    requires Closed(fs) && Dels.EvInRange(s.del)
    ensures var mv' := ReadEvent(fs, s, e, now).mv;
            mv'.sent == s.mv.sent && (RemoveUnderWay(mv') ==> RemoveUnderWay(s.mv))
  {
    hide Closed, Dels.EvInRange, WalkStartingAt, OnWatcherEvent, Has;
    var mv' := ReadEvent(fs, s, e, now).mv;
    if c :| c in mv'.halves && mv'.halves[c].phase == Moves.Expired {
      assert c in s.mv.halves && s.mv.halves[c].phase == Moves.Expired;
    }
  }

  lemma CanRead(s: Sys)
    requires Sound(s) && s.queue != [] && ReaderFree(s)
    ensures CanStep(s)
  {
    hide Closed, ReadEvent, RemoveUnderWay, Dels.EvInRange, Moves.Invariant;
    var s' := s.(state := ReadEvent(s.fs, s.state, s.queue[0], 0), queue := s.queue[1..]);
    ReadIsQuiet(s.fs, s.state, s.queue[0], 0);
    assert Next(s, Read(0), s');
  }

  lemma CanMove(s: Sys, c: nat)
    requires Sound(s) && s.queue == [] && ReaderFree(s) && s.calls.from == {}
    requires c in s.state.mv.halves && s.state.mv.halves[c].phase != Moves.Gone
    ensures CanStep(s)
  {
    hide Closed, WatchAfterRemove, Dels.Invariant, Moves.Invariant;
    var mv := s.state.mv;
    var h := mv.halves[c];
    match h.phase
    case Waiting =>
      var mv' := mv.(halves := mv.halves[c := h.(phase := Moves.Expired, timer := true)]);
      assert mv'.halves[c].phase == Moves.Expired && RemoveUnderWay(mv');
      assert Next(s, MoveStep(Moves.Expire(c)), s.(state := s.state.(mv := mv')));
    case Expired =>
      var mv' := Moves.WithPhase(mv, c, Moves.Leaving).(sent := mv.sent + [Moves.OutOfHalf(c, h)]);
      var s' := s.(state := s.state.(mv := mv', app := WatchAfterRemove(s.state.app, h)),
                   calls := s.calls.(from := s.calls.from + {c}));
      assert mv'.sent[|mv.sent|].op == Moves.Remove;
      assert Next(s, CallRemove(c), s');
    case Leaving =>
      var mv' := Moves.WithPhase(mv, c, Moves.Gone).(mvFrom := mv.mvFrom - {c});
      assert forall d :: d in mv.halves && mv.halves[d].phase == Moves.Expired ==> mv'.halves[d].phase == Moves.Expired;
      assert Next(s, MoveStep(Moves.Forget(c)), s.(state := s.state.(mv := mv')));
  }

  lemma CanDelete(s: Sys)
    requires Sound(s) && !Dels.Quiescent(s.state.del)
    ensures CanStep(s)
  {
    hide Closed, AppAfterDelete, RemoveUnderWay, Dels.Invariant, Moves.Invariant;
    Dels.DrainProgress(s.state.del);
    var del: Dels.Step, del' :| !del.Add? && !del.Stop? && Dels.Next(s.state.del, del, del');
    assert Next(s, DeleteStep(del, 0), s.(state := s.state.(del := del', app := AppAfterDelete(s.state, del, 0))));
  }

  /** While not everything is drained, some step is possible, whatever was scheduled so far. */
  lemma Progress(s: Sys)
    requires Sound(s) && !Drained(s)
    ensures CanStep(s)
  {
    hide Sound, CanStep;
    if c :| c in s.calls.to {
      CanReturnTo(s, c);
    } else if !ReaderFree(s) {
      var c :| c in s.state.mv.arrivals && !s.state.mv.arrivals[c].sent;
      CanCallTo(s, c);
    } else if s.queue != [] {
      CanRead(s);
    } else if c :| c in s.calls.from {
      CanReturnRemove(s, c);
    } else if !Dels.Quiescent(s.state.del) {
      CanDelete(s);
    } else {
      var c :| c in s.state.mv.halves && s.state.mv.halves[c].phase != Moves.Gone;
      CanMove(s, c);
    }
  }

  lemma InitialInvariants()
    ensures Dels.Invariant(Dels.INITIAL) && !Dels.INITIAL.stopped && Moves.Invariant(Moves.INITIAL)
  {
  }

  lemma MidSound(s0: Sys, c: Change, s: Sys)
    requires Begun(s0, c) && Mid(s0, c, s) && Closed(s.fs)
    ensures Sound(s)
  {
    hide Begun, Closed, Agrees, TableHolds, Dels.Invariant, Moves.Invariant;
    InitialInvariants();
    if IsMove(c) {
      var x := MoveSim.ContextOf(s0, c);
      assert MoveSim.Protocol(x, s.state.mv, s.calls, s.queue) && MoveSim.CallsShape(s.state.mv, s.calls, x.cookie);
    } else if c.DeleteTree? {
      var i: nat, pre :| DeleteSim.MidAt(DeleteSim.ContextOf(s0, c), s, i, pre);
      assert DeleteSim.DelAt(DeleteSim.ContextOf(s0, c), s.state.del, c.order[..i]);
    }
  }

  lemma RunOneMore(s: Sys, step: Step, mid: Sys, steps: seq<Step>, s': Sys)
    requires Closed(s.fs) && Next(s, step, mid) && Run(mid, steps, s')
    ensures Run(s, [step] + steps, s')
  {
    hide Closed, Next;
    assert ([step] + steps)[1..] == steps;
  }

  /** Running on until everything is drained, calmly from a calm state. */
  lemma {:induction false} FinishRun(s0: Sys, c: Change, s: Sys) returns (steps: seq<Step>, s': Sys)
    requires Begun(s0, c) && Mid(s0, c, s) && Closed(s.fs)
    ensures Run(s, steps, s') && Drained(s') && (Calm(s) ==> Calm(s'))
    decreases |s.queue|, Weight(s)
  {
    hide Begun, Mid, Closed, Calm, Drained, Weight, Dels.Invariant, Moves.Invariant, Run;
    if Drained(s) {
      steps, s' := [], s;
      EmptyRun(s);
    } else {
      MidSound(s0, c, s);
      Progress(s);
      var step, mid :| Next(s, step, mid) && (Calm(s) ==> Calm(mid));
      assert mid.fs == s.fs;
      StepLowers(s, step, mid);
      MidStep(s0, c, s, step, mid);
      var rest;
      rest, s' := FinishRun(s0, c, mid);
      RunOneMore(s, step, mid, rest, s');
      steps := [step] + rest;
    }
  }

  lemma EmptyRun(s: Sys)
    ensures Run(s, [], s)
  {
  }

  lemma AfterIsCalm(s0: Sys, c: Change)
    ensures Calm(After(s0, c))
  {
  }

  lemma AfterIsClosed(s0: Sys, c: Change)
    requires Begun(s0, c)
    ensures Closed(After(s0, c).fs)
  {
    ChangeKeepsWellFormed(s0.fs, s0.roots, c);
    TreeClosed(TreeAfter(s0.fs, c), s0.roots);
  }

  /** Whatever has been scheduled after a legal change can be continued until everything is drained. */
  lemma EveryScheduleEnds(s0: Sys, c: Change, steps: seq<Step>, s: Sys) returns (more: seq<Step>, s': Sys)
    requires WellFormedTree(s0.fs, s0.roots) && Agrees(s0.fs, s0.state.app)
    requires Legal(s0.fs, s0.roots, c) && Run(After(s0, c), steps, s)
    ensures Run(s, more, s') && Run(After(s0, c), steps + more, s') && Drained(s')
  {
    hide Agrees, Legal, WellFormedTree, Run, Drained, After, Mid, Closed, Calm;
    MidInit(s0, c);
    RunKeepsMid(s0, c, After(s0, c), steps, s);
    AfterIsClosed(s0, c);
    more, s' := FinishRun(s0, c, s);
    RunsJoin(After(s0, c), steps, s, more, s');
  }

  /** After every legal change some schedule of its events and goroutines ends with everything drained
      and the library in agreement with the tree. */
  lemma EveryChangeSettles(s0: Sys, c: Change) returns (steps: seq<Step>, s: Sys)
    requires WellFormedTree(s0.fs, s0.roots) && Agrees(s0.fs, s0.state.app)
    requires Legal(s0.fs, s0.roots, c)
    ensures Run(After(s0, c), steps, s) && Drained(s) && !Raced(s, c)
    ensures s.fs == TreeAfter(s0.fs, c) && Agrees(s.fs, s.state.app)
  {
    hide Agrees, Legal, WellFormedTree, Run, Drained, After, Mid, Closed;
    MidInit(s0, c);
    AfterIsCalm(s0, c);
    AfterIsClosed(s0, c);
    steps, s := FinishRun(s0, c, After(s0, c));
    ChangeRestoresAgreement(s0, c, steps, s);
  }

  /** So a history can always go on with any legal change. */
  lemma HistoryGoesOn(s0: Sys, c: Change) returns (s: Sys)
    requires Good(s0) && Legal(s0.fs, s0.roots, c)
    ensures History(s0, [c], s) && Good(s)
  {
    hide Agrees, Legal, WellFormedTree, Run, Drained, After, Raced;
    var steps;
    steps, s := EveryChangeSettles(s0, c);
    assert History(s, [], s);
    assert [c][1..] == [];
    HistoryKeepsAgreement(s0, [c], s);
  }

  // The schedule that loses a moved tree.

  /** The half move of a visible source: recorded, timed out, and its Remove sent, still in the map. */
  function FromRead(x: MoveSim.Context): Moves.State {
    Moves.AfterFrom(Moves.INITIAL, x.cookie, x.p, x.isDir)
  }

  function TimerRan(x: MoveSim.Context): Moves.State {
    FromRead(x).(halves := map[x.cookie := Moves.Half(x.p, x.isDir, 0, Moves.Expired, true)])
  }

  function RemoveSentFirst(x: MoveSim.Context): Moves.State {
    FromRead(x).(halves := map[x.cookie := Moves.Half(x.p, x.isDir, 0, Moves.Leaving, true)],
                 sent := [Moves.Out(Moves.Remove, x.cookie, x.p, "", x.isDir)])
  }

  function PairedAfter(x: MoveSim.Context): Moves.State {
    Moves.AfterTo(RemoveSentFirst(x), x.cookie, x.q, x.isDir)
  }

  function RenameSentLast(x: MoveSim.Context): Moves.State {
    var a := Moves.Arrival(x.q, x.isDir, Moves.Rename, x.p, true, 1, true);
    PairedAfter(x).(arrivals := map[x.cookie := a], sent := BothCalls(x))
  }

  function Forgotten(x: MoveSim.Context): Moves.State {
    RenameSentLast(x).(halves := map[x.cookie := Moves.Half(x.p, x.isDir, 1, Moves.Gone, true)], mvFrom := {})
  }

  function BothCalls(x: MoveSim.Context): seq<Moves.Out> {
    [Moves.Out(Moves.Remove, x.cookie, x.p, "", x.isDir), Moves.Out(Moves.Rename, x.cookie, x.p, x.q, x.isDir)]
  }

  ghost predicate BothVisible(x: MoveSim.Context) {
    MoveSim.EventFacts(x) && x.fromVisible && x.toVisible && Closed(x.fs)
  }

  /** Two steps make a run. */
  lemma TwoSteps(s: Sys, step: Step, mid: Sys, step': Step, s': Sys)
    requires Closed(s.fs) && Next(s, step, mid) && mid.fs == s.fs && Next(mid, step', s')
    ensures Run(s, [step, step'], s')
  {
    hide Next, Closed;
    EmptyRun(s');
    RunOneMore(mid, step', s', [], s');
    RunOneMore(s, step, mid, [step'] + [], s');
    assert [step] + ([step'] + []) == [step, step'];
  }

  lemma TimerFires(x: MoveSim.Context, s: Sys) returns (steps: seq<Step>, s': Sys)
    requires BothVisible(x) && s.fs == x.fs && s.state == State(x.app, Dels.INITIAL, Moves.INITIAL)
    requires s.queue == x.from + x.to && s.calls == NO_CALLS
    ensures Run(s, steps, s') && s' == s.(state := s.state.(mv := TimerRan(x)), queue := x.to)
  {
    hide Closed, ReadEvent;
    assert s.queue[0] == x.from[0] && s.queue[1..] == x.to;
    ReadFrom(x.fs, s.state, s.queue[0], x.p, x.isDir, 0);
    var s1 := s.(state := s.state.(mv := FromRead(x)), queue := x.to);
    s' := s.(state := s.state.(mv := TimerRan(x)), queue := x.to);
    steps := [Read(0), MoveStep(Moves.Expire(x.cookie))];
    TwoSteps(s, Read(0), s1, MoveStep(Moves.Expire(x.cookie)), s');
  }

  lemma RemovedWhileQueued(x: MoveSim.Context, s: Sys) returns (steps: seq<Step>, s': Sys)
    requires BothVisible(x) && s.fs == x.fs && s.state == State(x.app, Dels.INITIAL, TimerRan(x))
    requires s.queue == x.to && s.calls == NO_CALLS
    ensures Run(s, steps, s') && s'.fs == x.fs && s'.queue == x.to && s'.calls == Calls({}, {}, BothCalls(x)[..1])
    ensures s'.state.del == Dels.INITIAL && s'.state.mv == RemoveSentFirst(x)
    ensures s'.state.app.watch == MoveWatch(x.app, Moves.Remove, x.p, "", x.isDir).watch
  {
    hide Closed, MoveWatch;
    var h := Moves.Half(x.p, x.isDir, 0, Moves.Leaving, true);
    var s1 := s.(state := State(WatchAfterRemove(x.app, h), Dels.INITIAL, RemoveSentFirst(x)),
                 calls := Calls({x.cookie}, {}, []));
    s' := s1.(state := s1.state.(app := TableAfterRemove(x.fs, s1.state.app, h, 0)),
              calls := Calls({}, {}, BothCalls(x)[..1]));
    assert Moves.Next(TimerRan(x), Moves.SendRemove(x.cookie), RemoveSentFirst(x));
    assert Next(s, CallRemove(x.cookie), s1);
    assert Next(s1, ReturnRemove(x.cookie, 0), s');
    steps := [CallRemove(x.cookie), ReturnRemove(x.cookie, 0)];
    TwoSteps(s, CallRemove(x.cookie), s1, ReturnRemove(x.cookie, 0), s');
  }

  lemma LateSteps(x: MoveSim.Context)
    ensures PairedAfter(x).arrivals == map[x.cookie := Moves.Arrival(x.q, x.isDir, Moves.Rename, x.p, true, 1, false)]
    ensures Moves.Next(PairedAfter(x), Moves.Handle(x.cookie), RenameSentLast(x))
    ensures Moves.Next(RenameSentLast(x), Moves.Forget(x.cookie), Forgotten(x))
    ensures Moves.Quiescent(Forgotten(x)) && Forgotten(x).sent == BothCalls(x)
    ensures RenameSentLast(x).arrivals == map[x.cookie := Moves.Arrival(x.q, x.isDir, Moves.Rename, x.p, true, 1, true)]
  {
    assert PairedAfter(x).halves == map[x.cookie := Moves.Half(x.p, x.isDir, 1, Moves.Leaving, true)];
  }

  lemma RenameCalled(x: MoveSim.Context, s: Sys) returns (steps: seq<Step>, s': Sys)
    requires BothVisible(x) && s.fs == x.fs && s.queue == x.to && s.calls == Calls({}, {}, BothCalls(x)[..1])
    requires s.state.del == Dels.INITIAL && s.state.mv == RemoveSentFirst(x)
    requires IsAbout(s.state.app.watch, x.to[0], x.q)
    ensures Run(s, steps, s') && s'.fs == x.fs && s'.queue == [] && s'.calls == Calls({}, {x.cookie}, BothCalls(x)[..1])
    ensures s'.state.del == Dels.INITIAL && s'.state.mv == RenameSentLast(x)
  {
    hide Closed, ReadEvent, MoveWatch, PairedAfter, RenameSentLast, Moves.Next;
    ReadLate(x, s);
    LateSteps(x);
    var s1 := s.(state := s.state.(mv := PairedAfter(x)), queue := []);
    var a := PairedAfter(x).arrivals[x.cookie];
    s' := s1.(state := s1.state.(app := WatchAfterTo(s1.state.app, a), mv := RenameSentLast(x)),
              calls := Calls({}, {x.cookie}, BothCalls(x)[..1]));
    assert Next(s1, CallTo(x.cookie), s');
    steps := [Read(0), CallTo(x.cookie)];
    TwoSteps(s, Read(0), s1, CallTo(x.cookie), s');
  }

  lemma RenamedTooLate(x: MoveSim.Context, s: Sys) returns (steps: seq<Step>, s': Sys)
    requires BothVisible(x) && s.fs == x.fs && s.queue == [] && s.calls == Calls({}, {x.cookie}, BothCalls(x)[..1])
    requires s.state.del == Dels.INITIAL && s.state.mv == RenameSentLast(x)
    ensures Run(s, steps, s') && Drained(s') && MoveSim.LostRace(s'.state.mv.sent, s'.calls.done)
  {
    hide Closed, MoveTable, RenameSentLast, Forgotten, Moves.Next, Moves.Quiescent;
    LateSteps(x);
    var a := RenameSentLast(x).arrivals[x.cookie];
    var s1 := s.(state := s.state.(app := TableAfterTo(x.fs, s.state.app, a, 0)), calls := Calls({}, {}, BothCalls(x)));
    s' := s1.(state := s1.state.(mv := Forgotten(x)));
    assert BothCalls(x)[..1] + [Moves.OutOfArrival(x.cookie, a)] == BothCalls(x);
    assert Next(s, ReturnTo(x.cookie, 0), s1);
    assert Next(s1, MoveStep(Moves.Forget(x.cookie)), s');
    steps := [ReturnTo(x.cookie, 0), MoveStep(Moves.Forget(x.cookie))];
    TwoSteps(s, ReturnTo(x.cookie, 0), s1, MoveStep(Moves.Forget(x.cookie)), s');
  }

  lemma ReadLate(x: MoveSim.Context, s: Sys)
    requires BothVisible(x) && s.fs == x.fs && s.queue == x.to && s.calls.to == {}
    requires s.state.del == Dels.INITIAL && s.state.mv == RemoveSentFirst(x)
    requires IsAbout(s.state.app.watch, x.to[0], x.q)
    ensures Next(s, Read(0), s.(state := s.state.(mv := PairedAfter(x)), queue := []))
  {
    hide Closed, ReadEvent;
    ReadTo(x.fs, s.state, s.queue[0], x.q, x.isDir, 0);
    assert s.queue[1..] == [];
  }

  lemma {:induction false} RunsJoin(s: Sys, xs: seq<Step>, mid: Sys, ys: seq<Step>, s': Sys)
    requires Run(s, xs, mid) && Run(mid, ys, s')
    ensures Run(s, xs + ys, s')
    decreases |xs|
  {
    hide Closed, Next;
    if xs == [] {
      assert xs + ys == ys;
    } else {
      var next :| Next(s, xs[0], next) && Run(next, xs[1..], mid);
      RunsJoin(next, xs[1..], mid, ys, s');
      assert (xs + ys)[1..] == xs[1..] + ys;
    }
  }

  lemma FourRuns(s: Sys, xs: seq<Step>, s1: Sys, ys: seq<Step>, s2: Sys, zs: seq<Step>, s3: Sys, us: seq<Step>, s4: Sys)
    requires Run(s, xs, s1) && Run(s1, ys, s2) && Run(s2, zs, s3) && Run(s3, us, s4)
    ensures Run(s, ((xs + ys) + zs) + us, s4)
  {
    hide Run;
    RunsJoin(s, xs, s1, ys, s2);
    RunsJoin(s, xs + ys, s2, zs, s3);
    RunsJoin(s, (xs + ys) + zs, s3, us, s4);
  }

  // The schedule in which the two calls overlap.

  lemma OverlapBegins(x: MoveSim.Context, s: Sys) returns (steps: seq<Step>, s': Sys)
    requires BothVisible(x) && s.fs == x.fs && s.state == State(x.app, Dels.INITIAL, TimerRan(x))
    requires s.queue == x.to && s.calls == NO_CALLS
    ensures Run(s, steps, s') && s'.fs == x.fs && s'.queue == [] && s'.calls == Calls({x.cookie}, {}, [])
    ensures s'.state.del == Dels.INITIAL && s'.state.mv == PairedAfter(x)
  {
    hide Closed, MoveWatch;
    var h := Moves.Half(x.p, x.isDir, 0, Moves.Leaving, true);
    var app := MoveWatch(x.app, Moves.Remove, x.p, "", x.isDir);
    var s1 := s.(state := State(app, Dels.INITIAL, RemoveSentFirst(x)), calls := Calls({x.cookie}, {}, []));
    s' := s1.(state := s1.state.(mv := PairedAfter(x)), queue := []);
    assert Moves.Next(TimerRan(x), Moves.SendRemove(x.cookie), RemoveSentFirst(x));
    assert Next(s, CallRemove(x.cookie), s1);
    TargetWatched(x);
    ReadLate(x, s1);
    steps := [CallRemove(x.cookie), Read(0)];
    TwoSteps(s, CallRemove(x.cookie), s1, Read(0), s');
  }

  lemma TargetWatched(x: MoveSim.Context)
    requires BothVisible(x)
    ensures IsAbout(MoveWatch(x.app, Moves.Remove, x.p, "", x.isDir).watch, x.to[0], x.q)
  {
    MoveSim.RemoveKeepsTarget(x, x.app);
  }

  lemma OverlapRename(x: MoveSim.Context, s: Sys) returns (steps: seq<Step>, s': Sys)
    requires BothVisible(x) && s.fs == x.fs && s.queue == [] && s.calls == Calls({x.cookie}, {}, [])
    requires s.state.del == Dels.INITIAL && s.state.mv == PairedAfter(x)
    ensures Run(s, steps, s') && s'.fs == x.fs && s'.queue == [] && s'.calls == Calls({x.cookie}, {}, BothCalls(x)[1..])
    ensures s'.state.del == Dels.INITIAL && s'.state.mv == RenameSentLast(x)
  {
    hide Closed, WatchAfterTo, TableAfterTo, PairedAfter, RenameSentLast, Moves.Next;
    LateSteps(x);
    var a, b := PairedAfter(x).arrivals[x.cookie], RenameSentLast(x).arrivals[x.cookie];
    var s1 := s.(state := s.state.(app := WatchAfterTo(s.state.app, a), mv := RenameSentLast(x)),
                 calls := Calls({x.cookie}, {x.cookie}, []));
    s' := s1.(state := s1.state.(app := TableAfterTo(x.fs, s1.state.app, b, 0)),
              calls := Calls({x.cookie}, {}, BothCalls(x)[1..]));
    assert [] + [Moves.OutOfArrival(x.cookie, b)] == BothCalls(x)[1..];
    assert Next(s, CallTo(x.cookie), s1);
    assert Next(s1, ReturnTo(x.cookie, 0), s');
    steps := [CallTo(x.cookie), ReturnTo(x.cookie, 0)];
    TwoSteps(s, CallTo(x.cookie), s1, ReturnTo(x.cookie, 0), s');
  }

  lemma OverlapEnds(x: MoveSim.Context, s: Sys) returns (steps: seq<Step>, s': Sys)
    requires BothVisible(x) && s.fs == x.fs && s.queue == [] && s.calls == Calls({x.cookie}, {}, BothCalls(x)[1..])
    requires s.state.del == Dels.INITIAL && s.state.mv == RenameSentLast(x)
    ensures Run(s, steps, s') && Drained(s') && s'.state.mv.sent == BothCalls(x)
    ensures s'.calls.done == [BothCalls(x)[1], BothCalls(x)[0]]
  {
    hide Closed, MoveTable, RenameSentLast, Forgotten, Moves.Next, Moves.Quiescent;
    LateSteps(x);
    LateHalf(x);
    var h := RenameSentLast(x).halves[x.cookie];
    var calls := Calls({}, {}, [BothCalls(x)[1], BothCalls(x)[0]]);
    var s1 := s.(state := s.state.(app := TableAfterRemove(x.fs, s.state.app, h, 0)), calls := calls);
    s' := s1.(state := s1.state.(mv := Forgotten(x)));
    assert BothCalls(x)[1..] + [Moves.OutOfHalf(x.cookie, h)] == calls.done;
    assert Next(s, ReturnRemove(x.cookie, 0), s1);
    assert Next(s1, MoveStep(Moves.Forget(x.cookie)), s');
    steps := [ReturnRemove(x.cookie, 0), MoveStep(Moves.Forget(x.cookie))];
    TwoSteps(s, ReturnRemove(x.cookie, 0), s1, MoveStep(Moves.Forget(x.cookie)), s');
  }

  lemma LateHalf(x: MoveSim.Context)
    ensures RenameSentLast(x).halves == map[x.cookie := Moves.Half(x.p, x.isDir, 1, Moves.Leaving, true)]
  {
  }

  /** After every move between two visible names the two calls can overlap: the removal takes its watches,
      the renaming runs, and the removal deletes its rows. A moved directory is then no longer watched;
      a moved file is as it should be. */
  lemma EveryMoveCanOverlap(s0: Sys, c: Change) returns (steps: seq<Step>, s: Sys)
    requires WellFormedTree(s0.fs, s0.roots) && Agrees(s0.fs, s0.state.app)
    requires Legal(s0.fs, s0.roots, c) && c.Move? && FromVisible(s0.fs, c) && ToVisible(s0.fs, c)
    ensures Run(After(s0, c), steps, s) && Drained(s) && s.fs == TreeAfter(s0.fs, c)
    ensures Agrees(s.fs, s.state.app) <==> !IsDir(s0.fs, c.p)
  {
    hide Agrees, Legal, WellFormedTree, Run, Drained, Closed, FromVisible, ToVisible, KernelAfter;
    var x := MoveSim.ContextOf(s0, c);
    MoveSim.ContextEvents(s0, c);
    AfterIsClosed(s0, c);
    var xs, s1 := TimerFires(x, After(s0, c));
    var ys, s2 := OverlapBegins(x, s1);
    var zs, s3 := OverlapRename(x, s2);
    var us;
    us, s := OverlapEnds(x, s3);
    FourRuns(After(s0, c), xs, s1, ys, s2, zs, s3, us, s);
    steps := ((xs + ys) + zs) + us;
    ChangeRestoresAgreement(s0, c, steps, s);
  }

  /** Every move between two visible names can lose what it moved: its timer may fire before the second
      event is read, and the goroutine may still be in the map when it is. */
  lemma EveryMoveCanBeLost(s0: Sys, c: Change) returns (steps: seq<Step>, s: Sys)
    requires WellFormedTree(s0.fs, s0.roots) && Agrees(s0.fs, s0.state.app)
    requires Legal(s0.fs, s0.roots, c) && c.Move? && FromVisible(s0.fs, c) && ToVisible(s0.fs, c)
    ensures Run(After(s0, c), steps, s) && Drained(s) && s.fs == TreeAfter(s0.fs, c) && !Agrees(s.fs, s.state.app)
  {
    hide Agrees, Legal, WellFormedTree, Run, Drained, Closed, FromVisible, ToVisible, MoveWatch, KernelAfter;
    var x := MoveSim.ContextOf(s0, c);
    MoveSim.ContextEvents(s0, c);
    AfterIsClosed(s0, c);
    var xs, s1 := TimerFires(x, After(s0, c));
    var ys, s2 := RemovedWhileQueued(x, s1);
    MoveSim.RemoveKeepsTarget(x, x.app);
    var zs, s3 := RenameCalled(x, s2);
    var us;
    us, s := RenamedTooLate(x, s3);
    FourRuns(After(s0, c), xs, s1, ys, s2, zs, s3, us, s);
    steps := ((xs + ys) + zs) + us;
    ChangeRestoresAgreement(s0, c, steps, s);
  }
}
