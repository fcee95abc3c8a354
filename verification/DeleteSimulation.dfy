/** A recursive delete, from the first removed entry to the last delivered removal. */
module DeleteSimulation {
  import opened Paths
  import opened Ignore
  import opened Walk
  import opened WatchMap
  import opened Objects
  import opened Pipeline
  import opened Driver
  import opened Changes
  import opened Effects
  import opened Simulation
  import opened Coalescing
  import Dels = DeleteEvents
  import Moves = MoveEvents

  /** What is known when the delete starts, as plain values: the tree before and after, what was visible,
      the watches, the deleted path, and the order in which its entries go. */
  datatype Context = Context(fs: Tree, fs': Tree, roots: seq<string>, shown: Tree, watch: Watches, kernel: Kernel,
                             kernel': Kernel, p: string, order: seq<string>)

  function ContextOf(s0: Sys, c: Change): Context
    requires c.DeleteTree?
  {
    Context(s0.fs, TreeAfter(s0.fs, c), s0.roots, Visible(s0.fs), s0.state.app.watch, s0.state.app.kernel,
            KernelAfter(s0.state.app.kernel, c), c.p, c.order)
  }

  ghost predicate Facts(x: Context) {
    && Closed(x.fs')
    && (forall y :: y in x.order ==> EntryFacts(x, y))
    && (forall i, j :: 0 <= i < j < |x.order| ==> !AtOrUnder(x.order[j], x.order[i]))
    && (forall y :: y in x.shown ==> (y in x.order <==> AtOrUnder(y, x.p)))
    && (forall y :: y in x.order ==> AtOrUnder(y, x.p))
    && x.watch.Inverse() && x.kernel.at == x.watch.wdByPath && x.watch.wdByPath.Keys == DirsOf(x.shown)
    && (forall d :: d in x.watch.wdByPath ==> Clean(d))
  }

  ghost predicate EntryFacts(x: Context, y: string) {
    && y in x.fs && Clean(y)
    && (y in x.shown <==> !IgnoreFn(y, x.fs[y]))
    && (y in x.shown ==> x.shown[y] == x.fs[y] && Dir(y) in x.kernel.at)
  }

  lemma ContextFacts(s0: Sys, c: Change)
    requires Good(s0) && c.DeleteTree? && Legal(s0.fs, s0.roots, c)
    ensures Facts(ContextOf(s0, c))
  {
    var x := ContextOf(s0, c);
    TreeClosed(s0.fs, s0.roots);
    ChangeKeepsWellFormed(s0.fs, s0.roots, c);
    TreeClosed(x.fs', s0.roots);
    forall y | y in c.order ensures EntryFacts(x, y) {
      EntryHasParent(s0, c, y);
    }
  }

  lemma EntryHasParent(s0: Sys, c: Change, y: string)
    requires Good(s0) && c.DeleteTree? && Legal(s0.fs, s0.roots, c) && y in c.order
    ensures y in Visible(s0.fs) ==> Dir(y) in s0.state.app.kernel.at
  {
    TreeClosed(s0.fs, s0.roots);
    if y in Visible(s0.fs) {
      if y != c.p { BelowIsNoRoot(s0.fs, s0.roots, y, c.p); }
      VisibleIsWatched(s0.fs, y);
    }
  }

  /** The delete items for the visible entries among xs. */
  function Items(shown: Tree, xs: seq<string>): seq<Dels.Item> {
    if xs == [] then []
    else
      var last := xs[|xs| - 1];
      Items(shown, xs[..|xs| - 1]) + if last in shown then [Dels.Item(last, shown[last])] else []
  }

  lemma {:induction false} ItemsIn(shown: Tree, xs: seq<string>, item: Dels.Item)
    ensures item in Items(shown, xs) <==> item.path in xs && item.path in shown && item.isDir == shown[item.path]
    decreases |xs|
  {
    if xs != [] {
      ItemsIn(shown, xs[..|xs| - 1], item);
      assert item.path in xs <==> item.path == xs[|xs| - 1] || item.path in xs[..|xs| - 1];
    }
  }

  lemma ItemsSnoc(shown: Tree, xs: seq<string>, y: string)
    ensures Items(shown, xs + [y]) == Items(shown, xs) + if y in shown then [Dels.Item(y, shown[y])] else []
  {
    assert (xs + [y])[..|xs|] == xs;
  }

  /** The watch map once the entries in `gone` have been read. */
  ghost predicate WatchAt(x: Context, w: Watches, gone: seq<string>) {
    && w.Inverse()
    && (forall y :: y in w.wdByPath <==> y in x.watch.wdByPath && y !in gone)
    && (forall y :: y in w.wdByPath ==> w.wdByPath[y] == x.watch.wdByPath[y])
    && (forall wd :: wd in w.pathByWd <==> wd in x.watch.pathByWd && x.watch.pathByWd[wd] !in gone)
    && (forall wd :: wd in w.pathByWd ==> w.pathByWd[wd] == x.watch.pathByWd[wd])
  }

  /** What the index still shows once these items have been delivered. */
  function Left(x: Context, delivered: seq<Dels.Item>): Tree {
    map y | y in x.shown && !HitBySome(delivered, y) :: x.shown[y]
  }

  ghost predicate QueueAt(x: Context, queue: seq<Raw>, rest: seq<string>, pre: seq<Raw>) {
    && (forall y :: y in rest ==> y in x.fs)
    && (pre == [] || (|pre| == 1 && pre[0].mask == IN_IGNORED))
    && queue == pre + DeleteQueue(x.fs, x.kernel, rest)
  }

  ghost predicate DelAt(x: Context, del: Dels.State, gone: seq<string>) {
    Dels.Invariant(del) && !del.stopped && del.added == Items(x.shown, gone)
  }

  ghost predicate MidAt(x: Context, s: Sys, i: nat, pre: seq<Raw>) {
    && i <= |x.order|
    && s.fs == x.fs' && s.roots == x.roots && s.state.mv == Moves.INITIAL && s.calls == NO_CALLS
    && s.state.app.kernel == x.kernel'
    && QueueAt(x, s.queue, x.order[i..], pre)
    && DelAt(x, s.state.del, x.order[..i])
    && WatchAt(x, s.state.app.watch, x.order[..i])
    && TableHolds(s.state.app.table, Left(x, s.state.del.delivered))
  }

  ghost predicate MidDelete(x: Context, s: Sys) {
    exists i, pre :: MidAt(x, s, i, pre)
  }

  lemma NothingDelivered(x: Context)
    ensures Left(x, []) == x.shown
  {
  }

  lemma MidDeleteInit(x: Context, s: Sys)
    requires Facts(x) && s.fs == x.fs' && s.roots == x.roots
    requires s.state.del == Dels.INITIAL && s.state.mv == Moves.INITIAL && s.calls == NO_CALLS
    requires (forall y :: y in x.order ==> y in x.fs) && s.queue == DeleteQueue(x.fs, x.kernel, x.order)
    requires s.state.app.kernel == x.kernel' && s.state.app.watch == x.watch && TableHolds(s.state.app.table, x.shown)
    ensures MidDelete(x, s)
  {
    assert x.order[..0] == [] && x.order[0..] == x.order;
    NothingDelivered(x);
    assert DelAt(x, s.state.del, []);
    assert WatchAt(x, s.state.app.watch, []);
    assert MidAt(x, s, 0, []);
  }

  lemma Advance(order: seq<string>, i: nat)
    requires i < |order|
    ensures order[..i + 1] == order[..i] + [order[i]]
    ensures order[i..] == [order[i]] + order[i + 1..] && order[i..][1..] == order[i + 1..]
  {
  }

  lemma QueueHead(x: Context, queue: seq<Raw>, y: string, rest: seq<string>)
    requires QueueAt(x, queue, [y] + rest, [])
    ensures y in x.fs && QueueAt(x, DeleteQueue(x.fs, x.kernel, rest), rest, [])
    ensures queue == DeleteEventsOf(x.fs, x.kernel, y) + DeleteQueue(x.fs, x.kernel, rest)
  {
    assert y in [y] + rest;
    assert ([y] + rest)[1..] == rest;
    assert forall z :: z in rest ==> z in [y] + rest;
  }

  lemma WatchStep(x: Context, w: Watches, gone: seq<string>, y: string, w': Watches)
    requires WatchAt(x, w, gone) && x.watch.Inverse() && y !in gone
    requires w' == if y in x.watch.wdByPath then Removed(w, y) else w
    ensures WatchAt(x, w', gone + [y])
  {
    RemovedInverse(w, y);
    assert forall z :: z in gone + [y] <==> z in gone || z == y;
  }

  lemma NotYetGone(x: Context, i: nat)
    requires Facts(x) && i < |x.order|
    ensures x.order[i] !in x.order[..i] && Dir(x.order[i]) !in x.order[..i]
  {
    var y := x.order[i];
    assert y in x.order && EntryFacts(x, y);
    CleanShape(y);
    forall j | 0 <= j < i ensures x.order[j] != Dir(y) && x.order[j] != y {
      assert !AtOrUnder(y, x.order[j]);
      assert x.order[j] in x.order && EntryFacts(x, x.order[j]);
      CleanShape(x.order[j]);
    }
  }

  /** An entry without events is invisible, and passing over it changes nothing. */
  lemma PassSilent(x: Context, s: Sys, i: nat)
    requires Facts(x) && MidAt(x, s, i, []) && i < |x.order|
    requires DeleteEventsOf(x.fs, x.kernel, x.order[i]) == []
    ensures MidAt(x, s, i + 1, [])
  {
    var y := x.order[i];
    assert y in x.order && EntryFacts(x, y);
    Advance(x.order, i);
    NotYetGone(x, i);
    QueueHead(x, s.queue, y, x.order[i + 1..]);
    ItemsSnoc(x.shown, x.order[..i], y);
    assert y !in x.watch.wdByPath;
    WatchStep(x, s.state.app.watch, x.order[..i], y, s.state.app.watch);
  }

  /** The directory of the next entry has not been read as deleted yet. */
  lemma ParentStillWatched(x: Context, w: Watches, i: nat)
    requires Facts(x) && i < |x.order| && WatchAt(x, w, x.order[..i])
    requires Dir(x.order[i]) in x.kernel.at
    ensures var y := x.order[i];
            y in x.fs && IsAbout(w, EventAt(x.kernel, y, IN_DELETE | DirBit(x.fs[y]), 0)[0], y)
  {
    var y := x.order[i];
    assert y in x.order && EntryFacts(x, y);
    NotYetGone(x, i);
    EventPath(x.fs, x.kernel, x.watch, y);
  }

  /** Whatever is watched is visible, so its own directory is watched too. */
  lemma FirstIsDelete(x: Context, y: string)
    requires Facts(x) && y in x.order && y in x.fs
    requires DeleteEventsOf(x.fs, x.kernel, y) != []
    ensures Dir(y) in x.kernel.at
    ensures var events := DeleteEventsOf(x.fs, x.kernel, y);
            && events[0] == EventAt(x.kernel, y, IN_DELETE | DirBit(x.fs[y]), 0)[0]
            && (events[1..] == [] || (|events[1..]| == 1 && events[1..][0].mask == IN_IGNORED))
  {
    assert EntryFacts(x, y);
  }

  lemma DelStep(x: Context, del: Dels.State, gone: seq<string>, y: string, del': Dels.State)
    requires DelAt(x, del, gone) && Clean(y)
    requires del' == if y in x.shown then Dels.AfterAdd(del, Dels.Item(y, x.shown[y])) else del
    ensures DelAt(x, del', gone + [y]) && del'.delivered == del.delivered
  {
    ItemsSnoc(x.shown, gone, y);
    if y in x.shown {
      Dels.AddKeepsInvariant(del, Dels.Item(y, x.shown[y]));
    }
  }

  lemma ReadEntryState(x: Context, st: State, fs: Tree, e: Raw, y: string, gone: seq<string>, now: int)
    requires Closed(fs) && EntryFacts(x, y) && y !in gone && x.watch.Inverse()
    requires x.watch.wdByPath.Keys == DirsOf(x.shown)
    requires DelAt(x, st.del, gone) && WatchAt(x, st.app.watch, gone)
    requires IsAbout(st.app.watch, e, y) && e.mask == IN_DELETE | DirBit(x.fs[y])
    ensures var st' := ReadEvent(fs, st, e, now);
            && DelAt(x, st'.del, gone + [y]) && st'.del.delivered == st.del.delivered
            && WatchAt(x, st'.app.watch, gone + [y])
            && st'.mv == st.mv && st'.app.kernel == st.app.kernel && st'.app.table == st.app.table
  {
    ReadDelete(fs, st, e, y, x.fs[y], now);
    var st' := ReadEvent(fs, st, e, now);
    DelStep(x, st.del, gone, y, st'.del);
    WatchStep(x, st.app.watch, gone, y, st'.app.watch);
  }

  lemma QueueStep(x: Context, queue: seq<Raw>, i: nat) returns (pre: seq<Raw>)
    requires Facts(x) && i < |x.order| && QueueAt(x, queue, x.order[i..], [])
    requires x.order[i] in x.fs && DeleteEventsOf(x.fs, x.kernel, x.order[i]) != []
    ensures queue != [] && QueueAt(x, queue[1..], x.order[i + 1..], pre)
    ensures Dir(x.order[i]) in x.kernel.at
    ensures queue[0] == EventAt(x.kernel, x.order[i], IN_DELETE | DirBit(x.fs[x.order[i]]), 0)[0]
  {
    var y, rest := x.order[i], x.order[i + 1..];
    assert y in x.order;
    Advance(x.order, i);
    QueueHead(x, queue, y, rest);
    FirstIsDelete(x, y);
    var events, later := DeleteEventsOf(x.fs, x.kernel, y), DeleteQueue(x.fs, x.kernel, rest);
    pre := events[1..];
    TailOfSum(events, later, queue);
  }

  lemma TailOfSum(a: seq<Raw>, b: seq<Raw>, all: seq<Raw>)
    requires a != [] && all == a + b
    ensures all != [] && all[0] == a[0] && all[1..] == a[1..] + b
  {
  }

  lemma StateStep(x: Context, st: State, fs: Tree, e: Raw, i: nat, now: int)
    requires Facts(x) && i < |x.order| && Closed(fs)
    requires DelAt(x, st.del, x.order[..i]) && WatchAt(x, st.app.watch, x.order[..i])
    requires x.order[i] in x.fs && Dir(x.order[i]) in x.kernel.at
    requires e == EventAt(x.kernel, x.order[i], IN_DELETE | DirBit(x.fs[x.order[i]]), 0)[0]
    ensures var st' := ReadEvent(fs, st, e, now);
            && DelAt(x, st'.del, x.order[..i + 1]) && st'.del.delivered == st.del.delivered
            && WatchAt(x, st'.app.watch, x.order[..i + 1])
            && st'.mv == st.mv && st'.app.kernel == st.app.kernel && st'.app.table == st.app.table
  {
    var y := x.order[i];
    assert y in x.order && EntryFacts(x, y);
    Advance(x.order, i);
    ParentStillWatched(x, st.app.watch, i);
    NotYetGone(x, i);
    ReadEntryState(x, st, fs, e, y, x.order[..i], now);
  }

  lemma ReadEntry(x: Context, s: Sys, i: nat, s': Sys, now: int)
    requires Facts(x) && MidAt(x, s, i, []) && i < |x.order|
    requires x.order[i] in x.fs && DeleteEventsOf(x.fs, x.kernel, x.order[i]) != []
    requires Closed(s.fs) && Next(s, Read(now), s')
    ensures MidDelete(x, s')
  {
    var pre := QueueStep(x, s.queue, i);
    StateStep(x, s.state, s.fs, s.queue[0], i, now);
    assert MidAt(x, s', i + 1, pre);
  }

  lemma ReadNotice(x: Context, s: Sys, i: nat, pre: seq<Raw>, s': Sys, now: int)
    requires MidAt(x, s, i, pre) && pre != [] && Closed(s.fs) && Next(s, Read(now), s')
    ensures MidAt(x, s', i, [])
  {
    hide DelAt, WatchAt, TableHolds, Left, DeleteQueue, Closed;
    ReadIgnored(s.fs, s.state, s.queue[0], now);
    assert s'.queue == [] + DeleteQueue(x.fs, x.kernel, x.order[i..]);
  }

  lemma {:induction false} ReadKeepsMid(x: Context, s: Sys, i: nat, pre: seq<Raw>, s': Sys, now: int)
    requires Facts(x) && MidAt(x, s, i, pre) && Closed(s.fs) && Next(s, Read(now), s')
    ensures MidDelete(x, s')
    decreases |x.order| - i
  {
    if pre != [] {
      ReadNotice(x, s, i, pre, s', now);
      assert MidAt(x, s', i, []);
    } else {
      assert i < |x.order|;
      assert x.order[i] in x.order && EntryFacts(x, x.order[i]);
      if DeleteEventsOf(x.fs, x.kernel, x.order[i]) == [] {
        PassSilent(x, s, i);
        ReadKeepsMid(x, s, i + 1, [], s', now);
      } else {
        ReadEntry(x, s, i, s', now);
      }
    }
  }

  lemma LeftAfter(x: Context, delivered: seq<Dels.Item>, item: Dels.Item)
    ensures var left := Left(x, delivered);
            (map y | y in left && !Hits(item.path, item.isDir, y) :: left[y]) == Left(x, delivered + [item])
  {
    forall y ensures HitBySome(delivered + [item], y) <==> HitBySome(delivered, y) || Hits(item.path, item.isDir, y) {
      if HitBySome(delivered + [item], y) {
        var z :| z in delivered + [item] && Hits(z.path, z.isDir, y);
        assert z in delivered || z == item;
      }
      assert item in delivered + [item];
      assert forall z :: z in delivered ==> z in delivered + [item];
    }
  }

  lemma DeliveryKeepsTable(x: Context, s: State, del: Dels.Step, s': State, now: int)
    requires Dels.Next(s.del, del, s'.del) && !del.Add? && !del.Stop?
    requires TableHolds(s.app.table, Left(x, s.del.delivered))
    requires s'.app == AppAfterDelete(s, del, now)
    ensures TableHolds(s'.app.table, Left(x, s'.del.delivered))
    ensures s'.app.watch == s.app.watch && s'.app.kernel == s.app.kernel
    ensures s'.del.added == s.del.added && s'.del.stopped == s.del.stopped
  {
    if del.Deliver? {
      var item := s.del.gs[del.g].items[s.del.gs[del.g].phase.k];
      IndexDeleteHolds(s.app.table, Left(x, s.del.delivered), item.path, item.isDir);
      LeftAfter(x, s.del.delivered, item);
    }
  }

  lemma GoroutineKeepsMid(x: Context, s: Sys, i: nat, pre: seq<Raw>, s': Sys, del: Dels.Step, now: int)
    requires MidAt(x, s, i, pre) && Closed(s.fs) && Next(s, DeleteStep(del, now), s')
    ensures MidDelete(x, s')
  {
    Dels.StepKeepsInvariant(s.state.del, del, s'.state.del);
    DeliveryKeepsTable(x, s.state, del, s'.state, now);
    assert DelAt(x, s'.state.del, x.order[..i]);
    assert MidAt(x, s', i, pre);
  }

  /** Without a move under way only the reader and the delete goroutines run. */
  lemma NoMoves(s: Sys, step: Step, s': Sys)
    requires Closed(s.fs) && Next(s, step, s') && s.state.mv == Moves.INITIAL && s.calls == NO_CALLS
    ensures step.Read? || step.DeleteStep?
  {
  }

  lemma DeleteStepKeepsMid(x: Context, s: Sys, step: Step, s': Sys)
    requires Facts(x) && MidDelete(x, s) && Closed(s.fs) && Next(s, step, s')
    ensures MidDelete(x, s')
  {
    var i, pre :| MidAt(x, s, i, pre);
    NoMoves(s, step, s');
    if step.Read? {
      ReadKeepsMid(x, s, i, pre, s', step.now);
    } else {
      GoroutineKeepsMid(x, s, i, pre, s', step.del, step.now);
    }
  }

  /** When the queue is empty every visible entry has been handed to the delete events. */
  lemma {:induction false} AllRead(x: Context, s: Sys, i: nat)
    requires Facts(x) && MidAt(x, s, i, []) && s.queue == []
    ensures MidAt(x, s, |x.order|, [])
    decreases |x.order| - i
  {
    if i < |x.order| {
      Advance(x.order, i);
      QueueHead(x, s.queue, x.order[i], x.order[i + 1..]);
      PassSilent(x, s, i);
      AllRead(x, s, i + 1);
    }
  }

  /** Everything that was delivered, and nothing else, lay at or under p. */
  lemma DeliveredIsSubtree(x: Context, del: Dels.State, y: string)
    requires Facts(x) && y in x.shown && DelAt(x, del, x.order) && Dels.Quiescent(del)
    ensures HitBySome(del.delivered, y) <==> AtOrUnder(y, x.p)
  {
    hide Dels.Quiescent, EntryFacts, Closed;
    Dels.QuiescentDelivered(del);
    if AtOrUnder(y, x.p) {
      var item := Dels.Item(y, x.shown[y]);
      ItemsIn(x.shown, x.order, item);
      var over :| over in del.delivered && Dels.Covers(over, item);
      assert Hits(over.path, over.isDir, y);
    }
    if HitBySome(del.delivered, y) {
      var z :| z in del.delivered && Hits(z.path, z.isDir, y);
      assert z in del.added;
      ItemsIn(x.shown, x.order, z);
      UnderTransitive(y, z.path, x.p);
    }
  }

  lemma WatchDone(x: Context, w: Watches)
    requires Facts(x) && WatchAt(x, w, x.order)
    ensures w.wdByPath == Without(x.watch.wdByPath, x.p)
  {
    forall y | y in x.watch.wdByPath ensures y in x.order <==> AtOrUnder(y, x.p) {
      assert y in DirsOf(x.shown);
    }
  }

  lemma DirsWithout(shown: Tree, m: map<string, nat>, p: string)
    requires m.Keys == DirsOf(shown)
    ensures Without(m, p).Keys == DirsOf(Without(shown, p))
  {
  }

  lemma LeftDone(x: Context, del: Dels.State)
    requires Facts(x) && DelAt(x, del, x.order) && Dels.Quiescent(del)
    ensures Left(x, del.delivered) == Without(x.shown, x.p)
  {
    forall y | y in x.shown ensures HitBySome(del.delivered, y) <==> AtOrUnder(y, x.p) {
      DeliveredIsSubtree(x, del, y);
    }
  }

  lemma DrainedHolds(x: Context, s: Sys)
    requires Facts(x) && MidDelete(x, s) && Drained(s)
    ensures TableHolds(s.state.app.table, Without(x.shown, x.p))
    ensures s.state.app.watch.Inverse() && s.state.app.watch.wdByPath == Without(x.watch.wdByPath, x.p)
    ensures forall wd :: wd in s.state.app.watch.pathByWd ==> wd in x.watch.pathByWd
    ensures s.fs == x.fs' && s.state.app.kernel == x.kernel'
  {
    hide Facts, TableHolds, Dels.Invariant;
    var i: nat, pre :| MidAt(x, s, i, pre);
    AllRead(x, s, i);
    assert x.order[..|x.order|] == x.order;
    WatchDone(x, s.state.app.watch);
    LeftDone(x, s.state.del);
  }

  /** Once everything is drained, watch map, kernel and index agree with what is left. */
  lemma DeleteDrained(s0: Sys, c: Change, s: Sys)
    requires Good(s0) && c.DeleteTree? && Legal(s0.fs, s0.roots, c)
    requires MidDelete(ContextOf(s0, c), s) && Drained(s)
    ensures Agrees(s.fs, s.state.app)
  {
    var x := ContextOf(s0, c);
    ContextFacts(s0, c);
    DrainedHolds(x, s);
    DirsWithout(x.shown, x.watch.wdByPath, x.p);
    VisibleWithout(x.fs, x.p);
  }
}
