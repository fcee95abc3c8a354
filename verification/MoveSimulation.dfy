/** A move into, within or out of the watched trees, from the change of the tree to the last handler call. */
module MoveSimulation {
  import opened Paths
  import opened Ignore
  import opened Walk
  import opened WatchMap
  import opened Objects
  import opened Pipeline
  import opened Driver
  import opened Changes
  import opened Effects
  import opened Simulation
  import Dels = DeleteEvents
  import Moves = MoveEvents

  ghost predicate MoveStart(s0: Sys, c: Change) {
    Good(s0) && IsMove(c) && Legal(s0.fs, s0.roots, c)
  }

  // The state right after the change.

  lemma VisibleSubtree(fs: Tree, p: string)
    requires Closed(fs) && p in fs && !fs[p]
    ensures forall x :: x in Visible(fs) && AtOrUnder(x, p) ==> x == p && !Visible(fs)[x]
  {
    forall x | x in fs && AtOrUnder(x, p) ensures x == p {
      if x != p { FileHasNothingBelow(fs, p, x); }
    }
  }

  lemma KernelMoved(m: map<string, nat>, p: string, q: string, x: string)
    requires Disjoint(p, q) && forall y :: y in m ==> !AtOrUnder(y, q)
    requires x in RenamedKeys(m, p, q)
    ensures (x in m && !AtOrUnder(x, p) && RenamedKeys(m, p, q)[x] == m[x])
         || exists y :: y in m && AtOrUnder(y, p) && RenamedKeys(m, p, q)[x] == m[y]
  {
    var y := RenamedFrom(m, x, p, q);
  }

  /** What the kernel's side looks like, seen from the watch map, after a directory was moved. */
  lemma MovedAway(w: Watches, p: string, q: string)
    requires w.Inverse() && Disjoint(p, q) && forall x :: x in w.wdByPath ==> !AtOrUnder(x, q)
    ensures var at := RenamedKeys(w.wdByPath, p, q);
            && (forall x :: x in w.wdByPath && !AtOrUnder(x, p) ==> x in at && at[x] == w.wdByPath[x])
            && (forall x :: x in at ==>
                  at[x] in WdsWithin(w, p) || (x in w.wdByPath && at[x] == w.wdByPath[x] && !AtOrUnder(x, p)))
  {
    var at := RenamedKeys(w.wdByPath, p, q);
    forall x | x in w.wdByPath && !AtOrUnder(x, p) ensures x in at && at[x] == w.wdByPath[x] {
      RenamedKeysMoves(w.wdByPath, x, p, q);
    }
    forall x | x in at
      ensures at[x] in WdsWithin(w, p) || (x in w.wdByPath && at[x] == w.wdByPath[x] && !AtOrUnder(x, p))
    {
      KernelMoved(w.wdByPath, p, q, x);
    }
  }

  lemma MovedOut(w: Watches, p: string)
    requires w.Inverse()
    ensures (set x | x in w.wdByPath && AtOrUnder(x, p) :: w.wdByPath[x]) <= WdsWithin(w, p)
  {
  }

  lemma StartRemovable(s0: Sys, c: Change)
    requires MoveStart(s0, c) && FromVisible(s0.fs, c)
    ensures WatchRemovable(After(s0, c).state.app.kernel, s0.state.app.watch, Visible(s0.fs), c.p, s0.fs[c.p])
    ensures LeafUnless(Visible(s0.fs), c.p, s0.fs[c.p])
  {
    var w, p := s0.state.app.watch, c.p;
    if !s0.fs[p] {
      TreeClosed(s0.fs, s0.roots);
      VisibleSubtree(s0.fs, p);
      KernelUntouched(s0, c);
    } else if c.Move? {
      TargetIsFree(s0.fs, s0.roots, c.q);
      assert forall x :: x in w.wdByPath ==> x in s0.fs;
      MovedAway(w, p, c.q);
    } else {
      MovedOut(w, p);
    }
  }

  /** With nothing watched at or under the source, the kernel's watches are what they were. */
  lemma KernelUntouched(s0: Sys, c: Change)
    requires MoveStart(s0, c)
    requires !c.MoveIn? ==> forall x :: x in DirsOf(Visible(s0.fs)) ==> !AtOrUnder(x, c.p)
    ensures KernelAfter(s0.state.app.kernel, c) == s0.state.app.kernel
  {
    var k := s0.state.app.kernel;
    match c
    case MoveIn(_, _, _) =>
    case Move(p, q, _) =>
      TargetIsFree(s0.fs, s0.roots, q);
      RenamedNothing(k.at, p, q);
    case MoveOut(p, _) =>
      assert Without(k.at, p) == k.at;
      assert (set x | x in k.at && AtOrUnder(x, p) :: k.at[x]) == {};
  }

  lemma StartRenamable(s0: Sys, c: Change)
    requires MoveStart(s0, c) && c.Move?
    requires FromVisible(s0.fs, c) && ToVisible(s0.fs, c)
    ensures WatchRenamable(After(s0, c).state.app.kernel, s0.state.app.watch, Visible(s0.fs), c.p, c.q)
    ensures Target(Visible(s0.fs), c.p, c.q)
    ensures RenamedKeys(Visible(s0.fs), c.p, c.q) == Visible(TreeAfter(s0.fs, c))
  {
    TreeClosed(s0.fs, s0.roots);
    TargetIsFree(s0.fs, s0.roots, c.q);
    ToEntry(s0.fs, s0.roots, c);
    VisibleRenamed(s0.fs, c.p, c.q);
  }

  lemma StartStays(s0: Sys, c: Change)
    requires MoveStart(s0, c) && !FromVisible(s0.fs, c)
    ensures Staying(s0.fs, c) == Visible(s0.fs)
    ensures AppHolds(After(s0, c).state.app, DirsOf(Visible(s0.fs)), Visible(s0.fs), true)
  {
    InvisibleSource(s0.fs, s0.roots, c);
    KernelUntouched(s0, c);
  }

  // The events.

  lemma EventKnown(s0: Sys, p: string)
    requires Good(s0) && Clean(p) && Dir(p) in s0.state.app.kernel.at
    ensures var w, wd := s0.state.app.watch, s0.state.app.kernel.at[Dir(p)];
            wd in w.pathByWd && w.pathByWd[wd] == Dir(p) && Join(Dir(p), Base(p)) == p
  {
    forall d | d in s0.state.app.watch.wdByPath ensures Clean(d) {
      assert d in DirsOf(Visible(s0.fs));
    }
    EventPath(s0.fs, s0.state.app.kernel, s0.state.app.watch, p);
  }

  // Everything the protocol below needs to know about the change, as plain values.

  datatype Context = Context(
    fs: Tree, roots: seq<string>, app: App, before: Tree, staying: Tree, p: string, q: string, isDir: bool,
    cookie: nat, fromVisible: bool, toVisible: bool, from: seq<Raw>, to: seq<Raw>)

  function ContextOf(s0: Sys, c: Change): Context
    requires IsMove(c)
  {
    var k := s0.state.app.kernel;
    Context(TreeAfter(s0.fs, c), s0.roots, After(s0, c).state.app, Visible(s0.fs), Staying(s0.fs, c),
            FromPath(c), ToPath(c), IsDirMove(s0.fs, c), c.cookie, FromVisible(s0.fs, c), ToVisible(s0.fs, c),
            FromEvents(s0.fs, k, c), ToEvents(s0.fs, k, c))
  }

  /** Each end gives at most one event, and a visible end gives one. */
  ghost predicate EventFacts(x: Context) {
    && |x.from| <= 1 && |x.to| <= 1
    && (x.fromVisible ==> x.from != [])
    && (x.toVisible ==> x.to != [])
    && (x.from != [] ==>
          IsAbout(x.app.watch, x.from[0], x.p) && x.from[0].mask == IN_MOVED_FROM | DirBit(x.isDir)
          && x.from[0].cookie == x.cookie && (x.fromVisible <==> !IgnoreFn(x.p, x.isDir)))
    && (x.to != [] ==>
          TargetKnown(x, x.app.watch) && x.to[0].mask == IN_MOVED_TO | DirBit(x.isDir)
          && x.to[0].cookie == x.cookie && (x.toVisible <==> !IgnoreFn(x.q, x.isDir)))
  }

  /** The MOVED_TO event names the target as long as its directory is still in the watch map. */
  ghost predicate TargetKnown(x: Context, w: Watches)
    requires x.to != []
  {
    IsAbout(w, x.to[0], x.q) && (x.fromVisible ==> !AtOrUnder(w.pathByWd[x.to[0].wd], x.p))
  }

  ghost predicate AppFacts(x: Context) {
    && Closed(x.fs)
    && (x.fromVisible ==>
          && WatchRemovable(x.app.kernel, x.app.watch, x.before, x.p, x.isDir)
          && TableHolds(x.app.table, x.before) && LeafUnless(x.before, x.p, x.isDir)
          && Without(x.before, x.p) == x.staying && forall y :: y in x.staying ==> !AtOrUnder(y, x.p))
    && (x.fromVisible && x.toVisible ==>
          && WatchRenamable(x.app.kernel, x.app.watch, x.before, x.p, x.q) && Target(x.before, x.p, x.q)
          && RenamedKeys(x.before, x.p, x.q) == Visible(x.fs)
          && (forall y :: y in Visible(x.fs) ==> !AtOrUnder(y, x.p)))
    && (!x.fromVisible ==> AppHolds(x.app, DirsOf(x.staying), x.staying, true))
    && (x.toVisible ==>
          && x.q in Visible(x.fs) && x.fs[x.q] == x.isDir
          && Visible(x.fs) == x.staying + VisibleWithin(x.fs, x.q)
          && (forall y :: y in x.staying ==> !AtOrUnder(y, x.q)))
    && (!x.toVisible ==> Visible(x.fs) == x.staying)
  }

  lemma FromFacts(s0: Sys, c: Change)
    requires MoveStart(s0, c)
    ensures var x := ContextOf(s0, c);
            && |x.from| <= 1 && (x.fromVisible ==> x.from != [])
            && (x.from != [] ==>
                  IsAbout(x.app.watch, x.from[0], x.p) && x.from[0].mask == IN_MOVED_FROM | DirBit(x.isDir)
                  && x.from[0].cookie == x.cookie && (x.fromVisible <==> !IgnoreFn(x.p, x.isDir)))
  {
    if !c.MoveIn? {
      TreeClosed(s0.fs, s0.roots);
      if FromVisible(s0.fs, c) { VisibleIsWatched(s0.fs, c.p); }
      if Dir(c.p) in s0.state.app.kernel.at { EventKnown(s0, c.p); }
    }
  }

  /** The directory of the target is neither the moved path nor below it. */
  lemma TargetDirOutside(p: string, q: string)
    requires Clean(p) && Clean(q) && !AtOrUnder(q, p)
    ensures !AtOrUnder(Dir(q), p)
  {
    CleanShape(p);
    UnderViaDir(q, p);
  }

  lemma TargetDirWatched(s0: Sys, c: Change)
    requires MoveStart(s0, c) && ToVisible(s0.fs, c)
    ensures Dir(ToPath(c)) in s0.state.app.kernel.at
  {
    ToEntry(s0.fs, s0.roots, c);
    MoveTrees(s0.fs, s0.roots, c);
    VisibleIsWatched(TreeAfter(s0.fs, c), ToPath(c));
    var d := Dir(ToPath(c));
    assert !IgnoreFn(d, true);
    assert d in DirsOf(Visible(s0.fs));
  }

  lemma ToFacts(s0: Sys, c: Change)
    requires MoveStart(s0, c)
    ensures var x := ContextOf(s0, c);
            && |x.to| <= 1 && (x.toVisible ==> x.to != [])
            && (x.to != [] ==>
                  TargetKnown(x, x.app.watch) && x.to[0].mask == IN_MOVED_TO | DirBit(x.isDir)
                  && x.to[0].cookie == x.cookie && (x.toVisible <==> !IgnoreFn(x.q, x.isDir)))
  {
    if !c.MoveOut? {
      ToEntry(s0.fs, s0.roots, c);
      if ToVisible(s0.fs, c) { TargetDirWatched(s0, c); }
      if Dir(ToPath(c)) in s0.state.app.kernel.at {
        EventKnown(s0, ToPath(c));
        if c.Move? { TargetDirOutside(c.p, c.q); }
      }
    }
  }

  lemma ContextEvents(s0: Sys, c: Change)
    requires MoveStart(s0, c)
    ensures EventFacts(ContextOf(s0, c))
    ensures QueueAfter(s0.fs, s0.state.app.kernel, c) == ContextOf(s0, c).from + ContextOf(s0, c).to
  {
    FromFacts(s0, c);
    ToFacts(s0, c);
  }

  lemma SourceIsGone(fs: Tree, p: string, q: string)
    requires Disjoint(p, q) && forall y :: y in fs ==> !AtOrUnder(y, q)
    ensures forall x :: x in RenamedKeys(fs, p, q) ==> !AtOrUnder(x, p)
  {
    forall x | x in RenamedKeys(fs, p, q) ensures !AtOrUnder(x, p) {
      var y := RenamedFrom(fs, x, p, q);
      if AtOrUnder(y, p) {
        RebaseRoundTrip(y, p, q);
        DisjointSubtrees(x, q, p);
      }
    }
  }

  lemma ContextApp(s0: Sys, c: Change)
    requires MoveStart(s0, c)
    ensures AppFacts(ContextOf(s0, c))
  {
    MoveTrees(s0.fs, s0.roots, c);
    if FromVisible(s0.fs, c) {
      StartRemovable(s0, c);
      if ToVisible(s0.fs, c) {
        StartRenamable(s0, c);
        SourceIsGone(s0.fs, c.p, c.q);
      }
    } else {
      StartStays(s0, c);
    }
    if ToVisible(s0.fs, c) {
      ToEntry(s0.fs, s0.roots, c);
    } else {
      InvisibleTarget(s0.fs, s0.roots, c);
    }
  }

  // The protocol between the change and the drain: queue, records, and calls begun and finished so far.

  predicate Arrived(mv: Moves.State, c: nat) {
    c in mv.arrivals && mv.arrivals[c].sent
  }

  /** These calls, in one of the orders that can occur: an Index only follows a removal. */
  ghost predicate InOrder(mv: Moves.State, c: nat, removed: bool, arrived: bool, outs: seq<Moves.Out>)
    requires removed ==> c in mv.halves
    requires arrived ==> c in mv.arrivals
  {
    if removed && arrived then
      var a := Moves.OutOfArrival(c, mv.arrivals[c]);
      var h := Moves.OutOfHalf(c, mv.halves[c]);
      outs == [h, a] || (outs == [a, h] && a.op == Moves.Rename)
    else if removed then outs == [Moves.OutOfHalf(c, mv.halves[c])]
    else if arrived then outs == [Moves.OutOfArrival(c, mv.arrivals[c])]
    else outs == []
  }

  ghost predicate SentShape(mv: Moves.State, c: nat, fromVisible: bool) {
    && InOrder(mv, c, Moves.RemoveSent(mv, c), Arrived(mv, c), mv.sent)
    && (Arrived(mv, c) && !Moves.RemoveSent(mv, c) && fromVisible ==> mv.arrivals[c].op == Moves.Rename)
  }

  /** Calls under way have begun and not finished. */
  ghost predicate CallsShape(mv: Moves.State, calls: Calls, c: nat) {
    && calls.from <= {c} && calls.to <= {c}
    && (c in calls.from ==> Moves.RemoveSent(mv, c) && mv.halves[c].phase == Moves.Leaving)
    && (c in calls.to ==> Arrived(mv, c))
    && InOrder(mv, c, Moves.RemoveSent(mv, c) && c !in calls.from, Arrived(mv, c) && c !in calls.to, calls.done)
  }

  ghost predicate Records(x: Context, mv: Moves.State, fromRead: bool, toRead: bool) {
    && mv.halves.Keys == (if fromRead && x.fromVisible then {x.cookie} else {})
    && (x.cookie in mv.halves ==> mv.halves[x.cookie].name == x.p && mv.halves[x.cookie].isDir == x.isDir)
    && mv.arrivals.Keys == (if toRead && x.toVisible then {x.cookie} else {})
    && (x.cookie in mv.arrivals ==>
          var a := mv.arrivals[x.cookie];
          a.name == x.q && a.isDir == x.isDir && a.hadFrom == x.fromVisible)
  }

  ghost predicate Protocol(x: Context, mv: Moves.State, calls: Calls, queue: seq<Raw>) {
    && Moves.Invariant(mv) && !mv.stopped
    && (queue == x.from + x.to || queue == x.to || queue == [])
    && Records(x, mv, |queue| <= |x.to|, queue == [])
    && SentShape(mv, x.cookie, x.fromVisible)
    && CallsShape(mv, calls, x.cookie)
  }

  lemma ProtocolInit(x: Context)
    requires EventFacts(x)
    ensures Protocol(x, Moves.INITIAL, NO_CALLS, x.from + x.to)
  {
  }

  lemma FromProtocol(x: Context, mv: Moves.State, calls: Calls, queue: seq<Raw>)
    requires EventFacts(x) && Protocol(x, mv, calls, queue) && |queue| > |x.to|
    ensures x.from != [] && queue[0] == x.from[0] && queue[1..] == x.to
    ensures var mv' := if x.fromVisible then Moves.AfterFrom(mv, x.cookie, x.p, x.isDir) else mv;
            Protocol(x, mv', calls, queue[1..]) && mv'.sent == mv.sent
  {
    assert queue[1..] == x.to;
    assert mv.halves == map[] && mv.arrivals == map[];
    assert x.to == [] ==> !x.toVisible;
    if x.fromVisible {
      var mv' := Moves.AfterFrom(mv, x.cookie, x.p, x.isDir);
      Moves.StepKeepsInvariant(mv, Moves.From(x.cookie, x.p, x.isDir), mv');
    }
  }

  lemma ToProtocol(x: Context, mv: Moves.State, calls: Calls, queue: seq<Raw>)
    requires EventFacts(x) && Protocol(x, mv, calls, queue) && queue != [] && |queue| <= |x.to|
    ensures queue == x.to && queue[1..] == []
    ensures var mv' := if x.toVisible then Moves.AfterTo(mv, x.cookie, x.q, x.isDir) else mv;
            Protocol(x, mv', calls, []) && mv'.sent == mv.sent
  {
    assert queue == x.to;
    assert mv.arrivals == map[];
    if x.toVisible {
      var step := Moves.To(x.cookie, x.q, x.isDir);
      var mv' := Moves.AfterTo(mv, x.cookie, x.q, x.isDir);
      Moves.StepKeepsInvariant(mv, step, mv');
      if x.cookie in mv.halves { assert Moves.GoodHalf(mv, x.cookie); }
    }
  }

  // A call of the reader begins and ends.

  lemma CallToRecords(x: Context, mv: Moves.State, queue: seq<Raw>, k: nat, mv': Moves.State)
    requires EventFacts(x) && Records(x, mv, |queue| <= |x.to|, queue == []) && Moves.Next(mv, Moves.Handle(k), mv')
    ensures k == x.cookie && queue == [] && mv.arrivals[k].hadFrom == x.fromVisible && x.toVisible
    ensures Records(x, mv', |queue| <= |x.to|, queue == [])
  {
    assert k in mv.arrivals.Keys;
    assert mv'.arrivals.Keys == mv.arrivals.Keys;
  }

  lemma CallToShape(mv: Moves.State, calls: Calls, k: nat, mv': Moves.State, fromVisible: bool)
    requires Moves.Invariant(mv) && Moves.Next(mv, Moves.Handle(k), mv') && !mv.stopped
    requires SentShape(mv, k, fromVisible) && CallsShape(mv, calls, k) && mv.arrivals[k].hadFrom == fromVisible
    ensures SentShape(mv', k, fromVisible) && CallsShape(mv', calls.(to := calls.to + {k}), k)
    ensures mv'.sent == mv.sent + [Moves.OutOfArrival(k, mv.arrivals[k])]
  {
    assert Moves.GoodArrival(mv, k);
    assert mv'.halves == mv.halves;
    if Moves.RemoveSent(mv, k) {
      assert mv'.sent == [Moves.OutOfHalf(k, mv.halves[k]), Moves.OutOfArrival(k, mv.arrivals[k])];
    }
  }

  lemma CallToProtocol(x: Context, mv: Moves.State, calls: Calls, queue: seq<Raw>, k: nat, mv': Moves.State)
    requires EventFacts(x) && Protocol(x, mv, calls, queue) && Moves.Next(mv, Moves.Handle(k), mv')
    ensures k == x.cookie && Protocol(x, mv', calls.(to := calls.to + {k}), queue) && queue == []
    ensures mv'.sent == mv.sent + [Moves.OutOfArrival(k, mv.arrivals[k])]
  {
    hide Records, SentShape, CallsShape, Moves.Invariant;
    CallToRecords(x, mv, queue, k, mv');
    Moves.StepKeepsInvariant(mv, Moves.Handle(k), mv');
    CallToShape(mv, calls, k, mv', x.fromVisible);
  }

  lemma ReturnToShape(mv: Moves.State, calls: Calls, k: nat)
    requires Moves.Invariant(mv) && CallsShape(mv, calls, k) && k in calls.to && !mv.stopped
    ensures CallsShape(mv, Calls(calls.from, calls.to - {k}, calls.done + [Moves.OutOfArrival(k, mv.arrivals[k])]), k)
  {
    assert Moves.GoodArrival(mv, k);
    if Moves.RemoveSent(mv, k) && k !in calls.from {
      assert calls.done + [Moves.OutOfArrival(k, mv.arrivals[k])]
          == [Moves.OutOfHalf(k, mv.halves[k]), Moves.OutOfArrival(k, mv.arrivals[k])];
    }
  }

  lemma ReturnToProtocol(x: Context, mv: Moves.State, calls: Calls, queue: seq<Raw>, k: nat)
    requires Protocol(x, mv, calls, queue) && k in calls.to
    ensures k == x.cookie && k in mv.arrivals
    ensures var out := Moves.OutOfArrival(k, mv.arrivals[k]);
            Protocol(x, mv, Calls(calls.from, calls.to - {k}, calls.done + [out]), queue)
  {
    hide Records, SentShape, Moves.Invariant;
    ReturnToShape(mv, calls, k);
  }

  // A call of the timer goroutine begins and ends.

  lemma CallRemoveShape(mv: Moves.State, calls: Calls, k: nat, mv': Moves.State)
    requires Moves.Invariant(mv) && Moves.Next(mv, Moves.SendRemove(k), mv')
    requires SentShape(mv, k, true) && CallsShape(mv, calls, k)
    ensures SentShape(mv', k, true) && CallsShape(mv', calls.(from := calls.from + {k}), k)
    ensures mv'.sent == mv.sent + [Moves.OutOfHalf(k, mv.halves[k])]
  {
    assert Moves.GoodHalf(mv, k);
    assert mv'.arrivals == mv.arrivals;
    if Arrived(mv, k) {
      assert mv'.sent == [Moves.OutOfArrival(k, mv.arrivals[k]), Moves.OutOfHalf(k, mv.halves[k])];
    }
  }

  lemma CallRemoveProtocol(x: Context, mv: Moves.State, calls: Calls, queue: seq<Raw>, k: nat, mv': Moves.State)
    requires EventFacts(x) && Protocol(x, mv, calls, queue) && Moves.Next(mv, Moves.SendRemove(k), mv')
    ensures k == x.cookie && x.fromVisible && Protocol(x, mv', calls.(from := calls.from + {k}), queue)
    ensures mv'.sent == mv.sent + [Moves.OutOfHalf(k, mv.halves[k])]
  {
    hide SentShape, CallsShape, Moves.Invariant;
    assert k in mv.halves.Keys && mv'.halves.Keys == mv.halves.Keys;
    Moves.StepKeepsInvariant(mv, Moves.SendRemove(k), mv');
    CallRemoveShape(mv, calls, k, mv');
  }

  lemma ReturnRemoveShape(mv: Moves.State, calls: Calls, k: nat)
    requires Moves.Invariant(mv) && CallsShape(mv, calls, k) && k in calls.from && !mv.stopped
    requires k in mv.arrivals ==> mv.arrivals[k].hadFrom
    ensures CallsShape(mv, Calls(calls.from - {k}, calls.to, calls.done + [Moves.OutOfHalf(k, mv.halves[k])]), k)
  {
    assert Moves.GoodHalf(mv, k);
    if Arrived(mv, k) && k !in calls.to {
      assert Moves.GoodArrival(mv, k);
      assert calls.done + [Moves.OutOfHalf(k, mv.halves[k])]
          == [Moves.OutOfArrival(k, mv.arrivals[k]), Moves.OutOfHalf(k, mv.halves[k])];
    }
  }

  lemma ReturnRemoveProtocol(x: Context, mv: Moves.State, calls: Calls, queue: seq<Raw>, k: nat)
    requires Protocol(x, mv, calls, queue) && k in calls.from && (k in mv.arrivals ==> mv.arrivals[k].hadFrom)
    ensures k == x.cookie && k in mv.halves
    ensures var out := Moves.OutOfHalf(k, mv.halves[k]);
            Protocol(x, mv, Calls(calls.from - {k}, calls.to, calls.done + [out]), queue)
  {
    hide Records, SentShape, Moves.Invariant;
    ReturnRemoveShape(mv, calls, k);
  }

  // The other steps of a move goroutine.

  lemma QuietRecords(x: Context, mv: Moves.State, queue: seq<Raw>, move: Moves.Step, mv': Moves.State)
    requires Records(x, mv, |queue| <= |x.to|, queue == []) && Moves.Next(mv, move, mv')
    requires move.Expire? || move.Cancel? || move.Forget?
    ensures Records(x, mv', |queue| <= |x.to|, queue == []) && move.cookie == x.cookie
    ensures mv'.sent == mv.sent && mv'.stopped == mv.stopped && mv'.arrivals == mv.arrivals
  {
    assert move.cookie in mv.halves.Keys;
    assert mv'.halves.Keys == mv.halves.Keys;
  }

  lemma QuietShape(mv: Moves.State, calls: Calls, move: Moves.Step, mv': Moves.State, fromVisible: bool)
    requires Moves.Invariant(mv) && Moves.Next(mv, move, mv')
    requires move.Expire? || move.Cancel? || (move.Forget? && move.cookie !in calls.from)
    requires SentShape(mv, move.cookie, fromVisible) && CallsShape(mv, calls, move.cookie)
    ensures SentShape(mv', move.cookie, fromVisible) && CallsShape(mv', calls, move.cookie)
  {
    assert Moves.GoodHalf(mv, move.cookie);
    assert mv'.arrivals == mv.arrivals && mv'.sent == mv.sent;
    assert Moves.RemoveSent(mv', move.cookie) <==> Moves.RemoveSent(mv, move.cookie);
    assert Moves.OutOfHalf(move.cookie, mv'.halves[move.cookie]) ==
        Moves.OutOfHalf(move.cookie, mv.halves[move.cookie]);
  }

  lemma QuietProtocol(x: Context, mv: Moves.State, calls: Calls, queue: seq<Raw>, move: Moves.Step, mv': Moves.State)
    requires EventFacts(x) && Protocol(x, mv, calls, queue) && Moves.Next(mv, move, mv')
    requires move.Expire? || move.Cancel? || (move.Forget? && move.cookie !in calls.from)
    ensures Protocol(x, mv', calls, queue) && mv'.sent == mv.sent
  {
    hide Records, SentShape, CallsShape, Moves.Invariant;
    QuietRecords(x, mv, queue, move, mv');
    QuietShape(mv, calls, move, mv', x.fromVisible);
    Moves.StepKeepsInvariant(mv, move, mv');
  }

  // What the library holds after these calls. The watch map follows the calls begun, the table the calls
  // finished; whichever of removal and renaming came first decides.

  predicate Indexed(done: seq<Moves.Out>) {
    done != [] && done[|done| - 1].op == Moves.Index
  }

  ghost predicate WatchMatches(x: Context, k: Kernel, w: Watches, sent: seq<Moves.Out>) {
    if sent == [] || sent[0].op == Moves.Index then k == x.app.kernel && w == x.app.watch
    else if sent[0].op == Moves.Remove then WatchHolds(k, w, DirsOf(x.staying))
    else WatchHolds(k, w, DirsOf(Visible(x.fs)))
  }

  ghost predicate TableMatches(x: Context, t: Table, done: seq<Moves.Out>) {
    if done == [] then t == x.app.table
    else if done[0].op == Moves.Remove then TableHolds(t, x.staying)
    else TableHolds(t, Visible(x.fs))
  }

  ghost predicate AppMatches(x: Context, app: App, sent: seq<Moves.Out>, done: seq<Moves.Out>) {
    if Indexed(done) then Agrees(x.fs, app)
    else WatchMatches(x, app.kernel, app.watch, sent) && TableMatches(x, app.table, done)
  }

  lemma RemoveBegins(x: Context, app: App, sent: seq<Moves.Out>, out: Moves.Out)
    requires AppFacts(x) && WatchMatches(x, app.kernel, app.watch, sent) && x.fromVisible && out.op == Moves.Remove
    requires sent == [] || (sent[0].op == Moves.Rename && x.toVisible)
    ensures var app' := MoveWatch(app, Moves.Remove, x.p, "", x.isDir);
            WatchMatches(x, app'.kernel, app'.watch, sent + [out])
  {
    hide WatchHolds, MoveWatch, WatchRemovable;
    if sent == [] {
      RemoveWatchEffect(app, x.before, x.p, x.isDir);
    } else {
      RemoveNoWatch(app, DirsOf(Visible(x.fs)), x.p, x.isDir);
    }
  }

  lemma RemoveEnds(x: Context, t: Table, done: seq<Moves.Out>, out: Moves.Out)
    requires AppFacts(x) && TableMatches(x, t, done) && x.fromVisible && out.op == Moves.Remove
    requires done == [] || (done[0].op == Moves.Rename && x.toVisible)
    ensures TableMatches(x, IndexDeleted(t, x.isDir, x.p), done + [out])
  {
    hide TableHolds, IndexDeleted;
    if done == [] {
      RemoveTableEffect(t, x.before, x.p, x.isDir);
    } else {
      RemoveNoRow(t, Visible(x.fs), x.p, x.isDir);
    }
  }

  /** What a renaming finds, before and after the removal. */
  lemma BothEnds(x: Context)
    requires AppFacts(x) && x.fromVisible && x.toVisible
    ensures WatchRenamable(x.app.kernel, x.app.watch, x.before, x.p, x.q) && TableHolds(x.app.table, x.before)
    ensures Target(x.before, x.p, x.q) && LeafUnless(x.before, x.p, x.isDir)
    ensures RenamedKeys(x.before, x.p, x.q) == Visible(x.fs)
    ensures Target(x.staying, x.p, x.q) && forall y :: y in x.staying ==> !AtOrUnder(y, x.p)
  {
    hide WatchRenamable, WatchRemovable, TableHolds, Visible, LeafUnless, RenamedKeys;
  }

  lemma RenameBegins(x: Context, app: App, sent: seq<Moves.Out>, out: Moves.Out)
    requires AppFacts(x) && x.fromVisible && x.toVisible && out.op == Moves.Rename
    requires WatchMatches(x, app.kernel, app.watch, sent) && (sent == [] || sent[0].op == Moves.Remove)
    ensures var app' := MoveWatch(app, Moves.Rename, x.p, x.q, x.isDir);
            WatchMatches(x, app'.kernel, app'.watch, sent + [out])
  {
    hide AppFacts, WatchHolds, MoveWatch, WatchRenamable, Target, Visible, LeafUnless, RenamedKeys;
    BothEnds(x);
    if sent == [] {
      RenameWatchEffect(app, x.before, x.p, x.q, x.isDir);
    } else {
      RenameNoWatch(app, x.staying, x.p, x.q, x.isDir);
    }
  }

  lemma RenameEnds(x: Context, t: Table, done: seq<Moves.Out>, out: Moves.Out)
    requires AppFacts(x) && TableMatches(x, t, done) && x.fromVisible && x.toVisible && out.op == Moves.Rename
    requires done == [] || done[0].op == Moves.Remove
    ensures TableMatches(x, IndexRenamed(t, x.isDir, x.p, x.q).0, done + [out])
  {
    hide AppFacts, TableHolds, IndexRenamed, Target, Visible, LeafUnless, RenamedKeys;
    BothEnds(x);
    if done == [] {
      RenameTableEffect(t, x.before, x.p, x.q, x.isDir);
    } else {
      RenameNoRow(t, x.staying, x.p, x.q, x.isDir);
    }
  }

  lemma IndexEnds(x: Context, app: App, sent: seq<Moves.Out>, done: seq<Moves.Out>, now: int)
    requires AppFacts(x) && WatchMatches(x, app.kernel, app.watch, sent) && TableMatches(x, app.table, done)
    requires x.toVisible
    requires (|sent| == 1 && sent[0].op == Moves.Index && done == [] && !x.fromVisible)
          || (|sent| == 2 && sent[0].op == Moves.Remove && |done| == 1 && done[0].op == Moves.Remove)
    ensures Agrees(x.fs, MoveTable(x.fs, app, Moves.Index, "", x.q, x.isDir, now))
  {
    hide WatchHolds, OnlineHolds, AllWithin, MoveTable;
    IndexEffect(x.fs, app, x.staying, x.q, now);
  }

  // The invariant between the change and the drain.

  ghost predicate MidMove(x: Context, s: Sys) {
    && s.fs == x.fs && s.roots == x.roots && s.state.del == Dels.INITIAL
    && Protocol(x, s.state.mv, s.calls, s.queue)
    && AppMatches(x, s.state.app, s.state.mv.sent, s.calls.done)
    && (x.to != [] && s.queue != [] ==> TargetKnown(x, s.state.app.watch))
  }

  lemma NoCallYet(x: Context, mv: Moves.State, calls: Calls, queue: seq<Raw>)
    requires EventFacts(x) && Protocol(x, mv, calls, queue) && |queue| > |x.to|
    ensures mv.sent == [] && calls.done == []
  {
    assert mv.halves == map[] && mv.arrivals == map[];
  }

  lemma ReadKeepsMid(x: Context, s: Sys, s': Sys, now: int)
    requires EventFacts(x) && MidMove(x, s) && Closed(s.fs) && Next(s, Read(now), s')
    ensures MidMove(x, s')
  {
    hide Closed, ReadEvent, Records, SentShape, CallsShape, Moves.Invariant, IgnoreFn, TableMatches, WatchHolds;
    if |s.queue| > |x.to| {
      FromProtocol(x, s.state.mv, s.calls, s.queue);
      NoCallYet(x, s.state.mv, s.calls, s.queue);
      ReadFrom(s.fs, s.state, s.queue[0], x.p, x.isDir, now);
    } else {
      ToProtocol(x, s.state.mv, s.calls, s.queue);
      ReadTo(s.fs, s.state, s.queue[0], x.q, x.isDir, now);
    }
  }

  /** What is known when the call of an arrival begins. */
  lemma BeforeCallTo(x: Context, mv: Moves.State, calls: Calls, queue: seq<Raw>)
    requires Protocol(x, mv, calls, queue) && x.cookie in mv.arrivals && !mv.arrivals[x.cookie].sent
    ensures var a := mv.arrivals[x.cookie];
            && a.name == x.q && a.isDir == x.isDir && x.toVisible && !Indexed(calls.done)
            && (mv.sent == [] || mv.sent[0].op == Moves.Remove)
            && if a.op == Moves.Rename then x.fromVisible && a.oldName == x.p
               else a.op == Moves.Index && a.oldName == ""
  {
    assert Moves.GoodArrival(mv, x.cookie);
    if x.cookie in mv.halves { assert Moves.GoodHalf(mv, x.cookie); }
  }

  lemma CallToKeepsMid(x: Context, s: Sys, s': Sys, k: nat)
    requires EventFacts(x) && AppFacts(x) && MidMove(x, s) && Next(s, CallTo(k), s')
    ensures MidMove(x, s')
  {
    hide Closed, AppFacts, EventFacts, Protocol, WatchMatches, TableMatches, TargetKnown;
    var mv := s.state.mv;
    CallToProtocol(x, mv, s.calls, s.queue, k, s'.state.mv);
    BeforeCallTo(x, mv, s.calls, s.queue);
    if mv.arrivals[k].op == Moves.Rename {
      RenameBegins(x, s.state.app, mv.sent, Moves.OutOfArrival(k, mv.arrivals[k]));
    } else {
      IndexBegins(x, s.state.app, mv.sent, Moves.OutOfArrival(k, mv.arrivals[k]));
    }
  }

  lemma IndexBegins(x: Context, app: App, sent: seq<Moves.Out>, out: Moves.Out)
    requires WatchMatches(x, app.kernel, app.watch, sent) && out.op == Moves.Index
    ensures WatchMatches(x, app.kernel, app.watch, sent + [out])
  {
  }

  /** What is known when it ends. */
  lemma BeforeReturnTo(x: Context, mv: Moves.State, calls: Calls, queue: seq<Raw>)
    requires Protocol(x, mv, calls, queue) && x.cookie in calls.to
    ensures x.cookie in mv.arrivals
    ensures var a, sent, done := mv.arrivals[x.cookie], mv.sent, calls.done;
            && a.name == x.q && a.isDir == x.isDir && x.toVisible && !Indexed(done) && queue == []
            && if a.op == Moves.Rename then
                 x.fromVisible && a.oldName == x.p && (done == [] || done[0].op == Moves.Remove)
               else
                 && a.op == Moves.Index && a.oldName == ""
                 && ((|sent| == 1 && sent[0].op == Moves.Index && done == [] && !x.fromVisible)
                     || (|sent| == 2 && sent[0].op == Moves.Remove && |done| == 1 && done[0].op == Moves.Remove))
  {
    assert Moves.GoodArrival(mv, x.cookie);
    if x.cookie in mv.halves { assert Moves.GoodHalf(mv, x.cookie); }
  }

  lemma ReturnToKeepsMid(x: Context, s: Sys, s': Sys, k: nat, now: int)
    requires EventFacts(x) && AppFacts(x) && MidMove(x, s) && Next(s, ReturnTo(k, now), s')
    ensures MidMove(x, s')
  {
    hide Closed, AppFacts, EventFacts, Protocol, WatchMatches, TableMatches, TargetKnown, Agrees;
    var mv := s.state.mv;
    ReturnToProtocol(x, mv, s.calls, s.queue, k);
    BeforeReturnTo(x, mv, s.calls, s.queue);
    var out := Moves.OutOfArrival(k, mv.arrivals[k]);
    if out.op == Moves.Rename {
      RenameEnds(x, s.state.app.table, s.calls.done, out);
    } else {
      IndexEnds(x, s.state.app, mv.sent, s.calls.done, now);
    }
    AppendMatches(x, s'.state.app, mv.sent, s.calls.done, out);
  }

  lemma CallsAreAbout(x: Context, s: Sys)
    requires MidMove(x, s)
    ensures forall k :: k in s.calls.to || k in s.calls.from ==> k == x.cookie
  {
  }

  /** One more finished call. */
  lemma AppendMatches(x: Context, app: App, sent: seq<Moves.Out>, done: seq<Moves.Out>, out: Moves.Out)
    requires if out.op == Moves.Index then Agrees(x.fs, app)
             else WatchMatches(x, app.kernel, app.watch, sent) && TableMatches(x, app.table, done + [out])
    ensures AppMatches(x, app, sent, done + [out])
  {
  }

  lemma BeforeCallRemove(x: Context, mv: Moves.State, calls: Calls, queue: seq<Raw>)
    requires Protocol(x, mv, calls, queue) && x.cookie in mv.halves && mv.halves[x.cookie].phase == Moves.Expired
    ensures mv.halves[x.cookie].name == x.p && mv.halves[x.cookie].isDir == x.isDir && !Indexed(calls.done)
    ensures mv.sent == [] || (mv.sent[0].op == Moves.Rename && x.toVisible)
  {
    assert Moves.GoodHalf(mv, x.cookie);
    if x.cookie in mv.arrivals { assert Moves.GoodArrival(mv, x.cookie); }
  }

  lemma RemoveKeepsTarget(x: Context, app: App)
    requires x.to != [] && TargetKnown(x, app.watch) && x.fromVisible
    ensures TargetKnown(x, MoveWatch(app, Moves.Remove, x.p, "", x.isDir).watch)
  {
  }

  lemma CallRemoveKeepsMid(x: Context, s: Sys, s': Sys, k: nat)
    requires EventFacts(x) && AppFacts(x) && MidMove(x, s) && Next(s, CallRemove(k), s')
    ensures MidMove(x, s')
  {
    hide Closed, AppFacts, EventFacts, Protocol, WatchMatches, TableMatches, TargetKnown;
    var mv := s.state.mv;
    CallRemoveProtocol(x, mv, s.calls, s.queue, k, s'.state.mv);
    BeforeCallRemove(x, mv, s.calls, s.queue);
    RemoveBegins(x, s.state.app, mv.sent, Moves.OutOfHalf(k, mv.halves[k]));
    if x.to != [] && s.queue != [] {
      RemoveKeepsTarget(x, s.state.app);
    }
  }

  lemma BeforeReturnRemove(x: Context, mv: Moves.State, calls: Calls, queue: seq<Raw>)
    requires Protocol(x, mv, calls, queue) && x.cookie in calls.from
    ensures x.cookie in mv.halves && mv.halves[x.cookie].name == x.p && mv.halves[x.cookie].isDir == x.isDir
    ensures x.fromVisible && !Indexed(calls.done) && (x.cookie in mv.arrivals ==> mv.arrivals[x.cookie].hadFrom)
    ensures calls.done == [] || (calls.done[0].op == Moves.Rename && x.toVisible)
  {
    assert Moves.GoodHalf(mv, x.cookie);
    if x.cookie in mv.arrivals { assert Moves.GoodArrival(mv, x.cookie); }
  }

  lemma ReturnRemoveKeepsMid(x: Context, s: Sys, s': Sys, k: nat, now: int)
    requires EventFacts(x) && AppFacts(x) && MidMove(x, s) && Next(s, ReturnRemove(k, now), s')
    ensures MidMove(x, s')
  {
    hide Closed, AppFacts, EventFacts, Protocol, WatchMatches, TableMatches, TargetKnown, Agrees;
    var mv := s.state.mv;
    CallsAreAbout(x, s);
    BeforeReturnRemove(x, mv, s.calls, s.queue);
    ReturnRemoveProtocol(x, mv, s.calls, s.queue, k);
    var out := Moves.OutOfHalf(k, mv.halves[k]);
    RemoveEnds(x, s.state.app.table, s.calls.done, out);
    AppendMatches(x, s'.state.app, mv.sent, s.calls.done, out);
  }

  lemma QuietKeepsMid(x: Context, s: Sys, s': Sys, move: Moves.Step)
    requires EventFacts(x) && MidMove(x, s) && Closed(s.fs) && Next(s, MoveStep(move), s')
    ensures MidMove(x, s')
  {
    hide Closed, EventFacts, Protocol, AppMatches, TargetKnown;
    QuietProtocol(x, s.state.mv, s.calls, s.queue, move, s'.state.mv);
  }

  lemma MoveStepKeepsMid(x: Context, s: Sys, step: Step, s': Sys)
    requires EventFacts(x) && AppFacts(x) && MidMove(x, s) && Next(s, step, s')
    ensures MidMove(x, s')
  {
    match step
    case Read(now) => ReadKeepsMid(x, s, s', now);
    case CallTo(k) => CallToKeepsMid(x, s, s', k);
    case ReturnTo(k, now) => ReturnToKeepsMid(x, s, s', k, now);
    case CallRemove(k) => CallRemoveKeepsMid(x, s, s', k);
    case ReturnRemove(k, now) => ReturnRemoveKeepsMid(x, s, s', k, now);
    case MoveStep(move) => QuietKeepsMid(x, s, s', move);
    case DeleteStep(del, now) =>
  }

  // The outcome.

  /** Among these calls the removal came before the renaming. */
  predicate RemovedFirst(outs: seq<Moves.Out>) {
    |outs| == 2 && outs[0].op == Moves.Remove && outs[1].op == Moves.Rename
  }

  /** The order of calls that loses the moved tree: the removal changed the table before the renaming did,
      or, for a directory, the watch map. */
  predicate LostRace(sent: seq<Moves.Out>, done: seq<Moves.Out>) {
    RemovedFirst(done) || (RemovedFirst(sent) && sent[1].isDir)
  }

  /** The records once everything is drained. */
  lemma DrainedRecords(x: Context, mv: Moves.State, calls: Calls)
    requires EventFacts(x) && Protocol(x, mv, calls, []) && Moves.Quiescent(mv)
    ensures Moves.RemoveSent(mv, x.cookie) ==> x.fromVisible
    ensures Arrived(mv, x.cookie) <==> x.toVisible
    ensures x.toVisible ==> mv.arrivals[x.cookie].op != Moves.Remove && mv.arrivals[x.cookie].isDir == x.isDir
    ensures x.toVisible && mv.arrivals[x.cookie].op == Moves.Rename ==> x.fromVisible
    ensures x.fromVisible && !Moves.RemoveSent(mv, x.cookie) ==> x.toVisible && mv.arrivals[x.cookie].op == Moves.Rename
  {
    hide SentShape, CallsShape;
    var k := x.cookie;
    if k in mv.halves { assert Moves.GoodHalf(mv, k); }
    if k in mv.arrivals { assert Moves.GoodArrival(mv, k); }
  }

  /** The calls begun and finished once everything is drained. */
  lemma DrainedCalls(x: Context, mv: Moves.State, calls: Calls)
    requires EventFacts(x) && Protocol(x, mv, calls, []) && Moves.Quiescent(mv) && calls.from == {} && calls.to == {}
    ensures |mv.sent| == |calls.done| <= 2
    ensures mv.sent == [] ==> !x.fromVisible && !x.toVisible
    ensures |mv.sent| == 1 ==>
      && calls.done == mv.sent
      && (mv.sent[0].op == Moves.Remove ==> !x.toVisible)
      && (mv.sent[0].op == Moves.Rename ==> x.toVisible)
    ensures |mv.sent| == 2 && !Indexed(calls.done) ==>
      && x.fromVisible && x.toVisible
      && (mv.sent[0].op == Moves.Rename || (RemovedFirst(mv.sent) && mv.sent[1].isDir == x.isDir))
      && (calls.done[0].op == Moves.Rename || RemovedFirst(calls.done))
    ensures Indexed(calls.done) ==> !LostRace(mv.sent, calls.done)
  {
    hide Moves.Invariant, Records, Moves.Quiescent, EventFacts;
    DrainedRecords(x, mv, calls);
  }

  lemma HeldAgrees(x: Context, app: App)
    requires AppFacts(x) && WatchHolds(app.kernel, app.watch, DirsOf(Visible(x.fs)))
    requires TableHolds(app.table, Visible(x.fs))
    ensures Agrees(x.fs, app)
  {
  }

  lemma NothingSent(x: Context, app: App)
    requires AppFacts(x) && !x.fromVisible && !x.toVisible && AppMatches(x, app, [], [])
    ensures Agrees(x.fs, app)
  {
  }

  /** Without the moved entry the index cannot agree. */
  lemma LostRow(x: Context, app: App)
    requires AppFacts(x) && x.toVisible && TableHolds(app.table, x.staying)
    ensures !Agrees(x.fs, app)
  {
    hide WatchHolds, IgnoreFn, VisibleWithin;
    assert x.q in Visible(x.fs) && x.q !in x.staying;
    assert !HasPath(app.table.rows, x.q);
  }

  /** Without the moved directory the watch map cannot agree; a moved file leaves it as it is. */
  lemma LostWatch(x: Context, app: App)
    requires AppFacts(x) && x.toVisible && WatchHolds(app.kernel, app.watch, DirsOf(x.staying))
    ensures x.isDir ==> !Agrees(x.fs, app)
    ensures !x.isDir ==> DirsOf(x.staying) == DirsOf(Visible(x.fs))
  {
    hide IgnoreFn, OnlineHolds, AllWithin;
    if x.isDir {
      assert x.q in DirsOf(Visible(x.fs)) && x.q !in DirsOf(x.staying);
    } else {
      OneFile(x.fs, x.q);
      AddFileNode(x.staying, x.q);
    }
  }

  /** A removal and a renaming, each begun and finished in either order. */
  lemma BothCalled(x: Context, app: App, sent: seq<Moves.Out>, done: seq<Moves.Out>)
    requires AppFacts(x) && x.toVisible && AppMatches(x, app, sent, done) && |sent| == 2 && |done| == 2
    requires !Indexed(done)
    requires sent[0].op == Moves.Rename || (RemovedFirst(sent) && sent[1].isDir == x.isDir)
    requires done[0].op == Moves.Rename || RemovedFirst(done)
    ensures Agrees(x.fs, app) <==> !LostRace(sent, done)
  {
    hide AppFacts, WatchHolds, TableHolds, Visible, Agrees;
    if RemovedFirst(done) {
      LostRow(x, app);
    } else {
      if RemovedFirst(sent) {
        LostWatch(x, app);
      }
      if !LostRace(sent, done) {
        HeldAgrees(x, app);
      }
    }
  }

  /** When everything is drained, the library agrees with the tree unless the race was lost. */
  lemma MoveDrained(x: Context, s: Sys)
    requires EventFacts(x) && AppFacts(x) && MidMove(x, s) && Drained(s)
    ensures Agrees(s.fs, s.state.app) <==> !LostRace(s.state.mv.sent, s.calls.done)
  {
    hide AppFacts, WatchHolds, TableHolds, Agrees, EventFacts, Protocol, Moves.Quiescent;
    var sent, done := s.state.mv.sent, s.calls.done;
    DrainedCalls(x, s.state.mv, s.calls);
    if sent == [] {
      NothingSent(x, s.state.app);
    } else if |sent| == 2 && !Indexed(done) {
      BothCalled(x, s.state.app, sent, done);
    } else if !Indexed(done) {
      if !x.toVisible { StayingIsAll(x); }
      HeldAgrees(x, s.state.app);
    }
  }

  lemma StayingIsAll(x: Context)
    requires AppFacts(x) && !x.toVisible
    ensures x.staying == Visible(x.fs)
  {
  }
}
