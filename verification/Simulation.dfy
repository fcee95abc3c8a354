/** The whole library as one state machine: file tree, kernel, event reader, delete and move
    goroutines, watch map and index. Tree changes happen when everything is drained; between them
    the reader and the goroutines interleave freely. */
module Simulation {
  import opened Paths
  import opened Ignore
  import opened Walk
  import opened WatchMap
  import opened Objects
  import opened Pipeline
  import opened Driver
  import opened Changes
  import opened Effects
  import Dels = DeleteEvents
  import Moves = MoveEvents

  /** The calls of the move handler under way: those that expired half moves (`from`) and arrivals (`to`)
      have begun and not finished, and in `done` the finished ones in order. */
  datatype Calls = Calls(from: set<nat>, to: set<nat>, done: seq<Moves.Out>)

  const NO_CALLS := Calls({}, {}, [])

  datatype Sys = Sys(fs: Tree, roots: seq<string>, state: State, queue: seq<Raw>, calls: Calls)

  /** A call of the move handler is two steps: the watch map, then the table. Calls of the reader and of
      the goroutines overlap freely. */
  datatype Step =
    | Read(now: int)                       // the reader takes the next event
    | CallTo(cookie: nat)                  // the handler call of a MOVED_TO begins
    | ReturnTo(cookie: nat, now: int)      // and ends
    | CallRemove(cookie: nat)              // the handler call of an expired MOVED_FROM begins
    | ReturnRemove(cookie: nat, now: int)  // and ends
    | MoveStep(move: Moves.Step)           // any other step of a move goroutine
    | DeleteStep(del: Dels.Step, now: int) // a step of a delete goroutine, with its handler call

  /** `addMvTo` returns to the reader only after its handler call. */
  predicate ReaderFree(s: Sys) {
    s.calls.to == {} && forall c | c in s.state.mv.arrivals :: s.state.mv.arrivals[c].sent
  }

  function WatchAfterTo(app: App, a: Moves.Arrival): App {
    MoveWatch(app, a.op, a.oldName, a.name, a.isDir)
  }

  function TableAfterTo(fs: Tree, app: App, a: Moves.Arrival, now: int): App
    requires Closed(fs)
  {
    MoveTable(fs, app, a.op, a.oldName, a.name, a.isDir, now)
  }

  function WatchAfterRemove(app: App, h: Moves.Half): App {
    MoveWatch(app, Moves.Remove, h.name, "", h.isDir)
  }

  function TableAfterRemove(fs: Tree, app: App, h: Moves.Half, now: int): App
    requires Closed(fs)
  {
    MoveTable(fs, app, Moves.Remove, h.name, "", h.isDir, now)
  }

  ghost predicate Next(s: Sys, step: Step, s': Sys)
    requires Closed(s.fs)
  {
    var st, st' := s.state, s'.state;
    s'.fs == s.fs && s'.roots == s.roots &&
    match step
    case Read(now) =>
      s.queue != [] && ReaderFree(s) && Dels.EvInRange(st.del)
      && st' == ReadEvent(s.fs, st, s.queue[0], now) && s'.queue == s.queue[1..] && s'.calls == s.calls
    case CallTo(c) =>
      s'.queue == s.queue && st'.del == st.del && Moves.Next(st.mv, Moves.Handle(c), st'.mv)
      && st'.app == WatchAfterTo(st.app, st.mv.arrivals[c])
      && s'.calls == s.calls.(to := s.calls.to + {c})
    case ReturnTo(c, now) =>
      s'.queue == s.queue && c in s.calls.to && c in st.mv.arrivals
      && st' == st.(app := TableAfterTo(s.fs, st.app, st.mv.arrivals[c], now))
      && s'.calls == s.calls.(to := s.calls.to - {c},
                              done := s.calls.done + [Moves.OutOfArrival(c, st.mv.arrivals[c])])
    case CallRemove(c) =>
      s'.queue == s.queue && st'.del == st.del && Moves.Next(st.mv, Moves.SendRemove(c), st'.mv)
      && st'.app == WatchAfterRemove(st.app, st.mv.halves[c])
      && s'.calls == s.calls.(from := s.calls.from + {c})
    case ReturnRemove(c, now) =>
      s'.queue == s.queue && c in s.calls.from && c in st.mv.halves
      && st' == st.(app := TableAfterRemove(s.fs, st.app, st.mv.halves[c], now))
      && s'.calls == s.calls.(from := s.calls.from - {c},
                              done := s.calls.done + [Moves.OutOfHalf(c, st.mv.halves[c])])
    case MoveStep(move) =>
      (move.Expire? || move.Cancel? || (move.Forget? && move.cookie !in s.calls.from))
      && s'.queue == s.queue && st'.del == st.del && st'.app == st.app && s'.calls == s.calls
      && Moves.Next(st.mv, move, st'.mv)
    case DeleteStep(del, now) =>
      (del.Fire? || del.Cancel? || del.Lock? || del.Deliver? || del.Finish?)
      && s'.queue == s.queue && st'.mv == st.mv && s'.calls == s.calls
      && Dels.Next(st.del, del, st'.del)
      && st'.app == AppAfterDelete(st, del, now)
  }

  function AppAfterDelete(s: State, del: Dels.Step, now: int): App {
    if && del.Deliver? && del.g < |s.del.gs| && s.del.gs[del.g].phase.Delivering?
       && s.del.gs[del.g].phase.k < |s.del.gs[del.g].items| then
      var item := s.del.gs[del.g].items[s.del.gs[del.g].phase.k];
      OnWatcherEvent(s.app, Remove(item.path, item.isDir), now)
    else s.app
  }

  ghost predicate Drained(s: Sys) {
    && s.queue == [] && Dels.Quiescent(s.state.del) && Moves.Quiescent(s.state.mv)
    && s.calls.from == {} && s.calls.to == {}
  }

  // A change of the tree, the kernel's watches, and the events it queues.

  /** The event goes to the watch on the directory of p, if there is one. */
  function EventAt(k: Kernel, p: string, mask: bv32, cookie: nat): seq<Raw> {
    if Dir(p) in k.at then [Raw(k.at[Dir(p)], mask, cookie, Base(p))] else []
  }

  function KernelAfter(k: Kernel, c: Change): Kernel {
    match c
    case Move(p, q, _) => k.(at := RenamedKeys(k.at, p, q))
    case MoveOut(p, _) =>
      k.(at := Without(k.at, p), outside := k.outside + set x | x in k.at && AtOrUnder(x, p) :: k.at[x])
    case DeleteTree(p, _) => k.(at := Without(k.at, p))
    case _ => k
  }

  /** One entry of a recursive delete: IN_DELETE from the directory, and IN_IGNORED for its own watch. */
  function DeleteEventsOf(fs: Tree, k: Kernel, x: string): seq<Raw>
    requires x in fs
  {
    EventAt(k, x, IN_DELETE | DirBit(fs[x]), 0) + if x in k.at then [Raw(k.at[x], IN_IGNORED, 0, "")] else []
  }

  function DeleteQueue(fs: Tree, k: Kernel, order: seq<string>): seq<Raw>
    requires forall x | x in order :: x in fs
  {
    if order == [] then [] else DeleteEventsOf(fs, k, order[0]) + DeleteQueue(fs, k, order[1..])
  }

  function FromEvents(fs: Tree, k: Kernel, c: Change): seq<Raw> {
    match c
    case Move(p, _, cookie) => if p in fs then EventAt(k, p, IN_MOVED_FROM | DirBit(fs[p]), cookie) else []
    case MoveOut(p, cookie) => if p in fs then EventAt(k, p, IN_MOVED_FROM | DirBit(fs[p]), cookie) else []
    case _ => []
  }

  function ToEvents(fs: Tree, k: Kernel, c: Change): seq<Raw> {
    match c
    case Move(p, q, cookie) => if p in fs then EventAt(k, q, IN_MOVED_TO | DirBit(fs[p]), cookie) else []
    case MoveIn(p, tree, cookie) => if p in tree then EventAt(k, p, IN_MOVED_TO | DirBit(tree[p]), cookie) else []
    case _ => []
  }

  function QueueAfter(fs: Tree, k: Kernel, c: Change): seq<Raw> {
    match c
    case MakeTree(p, _) => EventAt(k, p, IN_CREATE | IN_ISDIR, 0)
    case WriteFile(p) => (if p in fs then [] else EventAt(k, p, IN_CREATE, 0)) + EventAt(k, p, IN_CLOSE_WRITE, 0)
    case DeleteTree(p, order) => if forall x | x in order :: x in fs then DeleteQueue(fs, k, order) else []
    case _ => FromEvents(fs, k, c) + ToEvents(fs, k, c)
  }

  /** A change starts from a drained system. The maps of both event mergers are then empty
      (`DrainedIsForgotten`), so the records of finished goroutines are dropped. */
  function After(s: Sys, c: Change): Sys {
    var app := s.state.app;
    Sys(TreeAfter(s.fs, c), s.roots,
        State(app.(kernel := KernelAfter(app.kernel, c)), Dels.INITIAL, Moves.INITIAL),
        QueueAfter(s.fs, app.kernel, c), NO_CALLS)
  }

  lemma DrainedIsForgotten(s: Sys)
    requires Drained(s) && Dels.Invariant(s.state.del) && Moves.Invariant(s.state.mv)
    requires !s.state.del.stopped
    ensures s.state.del.ev == map[] && s.state.mv.mvFrom == {}
  {
    Dels.QuiescentDelivered(s.state.del);
    var mv := s.state.mv;
    forall c | c in mv.halves ensures c !in mv.mvFrom {
      assert Moves.GoodHalf(mv, c);
    }
  }

  // Reading one event.

  /** The path an event is about is found again through the watch map. */
  lemma EventPath(fs: Tree, k: Kernel, w: Watches, p: string)
    requires w.Inverse() && k.at == w.wdByPath
    requires forall d :: d in w.wdByPath ==> Clean(d)
    requires Clean(p) && Dir(p) in k.at
    ensures k.at[Dir(p)] in w.pathByWd && w.pathByWd[k.at[Dir(p)]] == Dir(p) && Join(Dir(p), Base(p)) == p
  {
    CleanShape(p);
    CleanShape(Dir(p));
  }

  /** Whether a path is visible is decided by its own name where its directory is watched. */
  lemma VisibleIsWatched(fs: Tree, p: string)
    requires Closed(fs) && p in Visible(fs) && IsDir(fs, Dir(p))
    ensures Dir(p) in DirsOf(Visible(fs))
  {
    VisibleParent(fs, p);
  }

  // Moves: MoveIn, Move and MoveOut share one shape.

  predicate IsMove(c: Change) {
    c.MoveIn? || c.Move? || c.MoveOut?
  }

  function FromPath(c: Change): string
    requires IsMove(c)
  {
    if c.MoveIn? then "" else c.p
  }

  function ToPath(c: Change): string
    requires IsMove(c)
  {
    match c case MoveIn(p, _, _) => p case Move(_, q, _) => q case _ => ""
  }

  function IsDirMove(fs: Tree, c: Change): bool
    requires IsMove(c)
  {
    if c.MoveIn? then IsDir(c.tree, c.p) else IsDir(fs, c.p)
  }

  /** The source was visible, the target is visible. */
  predicate FromVisible(fs: Tree, c: Change)
    requires IsMove(c)
  {
    !c.MoveIn? && c.p in Visible(fs)
  }

  predicate ToVisible(fs: Tree, c: Change)
    requires IsMove(c)
  {
    !c.MoveOut? && ToPath(c) in Visible(TreeAfter(fs, c))
  }

  /** What stays visible throughout the change. */
  function Staying(fs: Tree, c: Change): Tree
    requires IsMove(c)
  {
    if c.MoveIn? then Visible(fs) else Without(Visible(fs), c.p)
  }

  /** Agreement before the change. */
  ghost predicate Good(s: Sys) {
    WellFormedTree(s.fs, s.roots) && Agrees(s.fs, s.state.app)
  }

  lemma MoveTrees(fs: Tree, roots: seq<string>, c: Change)
    requires WellFormedTree(fs, roots) && Legal(fs, roots, c) && IsMove(c)
    ensures Closed(fs) && Closed(TreeAfter(fs, c))
    ensures !c.MoveOut? ==> forall x :: x in fs ==> !AtOrUnder(x, ToPath(c))
    ensures c.MoveOut? ==> Visible(TreeAfter(fs, c)) == Staying(fs, c)
    ensures !c.MoveOut? ==> Visible(TreeAfter(fs, c)) == Staying(fs, c) + VisibleWithin(TreeAfter(fs, c), ToPath(c))
  {
    TreeClosed(fs, roots);
    ChangeKeepsWellFormed(fs, roots, c);
    TreeClosed(TreeAfter(fs, c), roots);
    match c
    case MoveIn(p, tree, _) =>
      AddTreeWellFormed(fs, roots, p, tree);
      VisibleAdded(fs, tree, p);
    case Move(p, q, _) =>
      TargetIsFree(fs, roots, q);
      VisibleMoved(fs, p, q);
    case MoveOut(p, _) =>
      VisibleWithout(fs, p);
  }

  lemma ToEntry(fs: Tree, roots: seq<string>, c: Change)
    requires WellFormedTree(fs, roots) && Legal(fs, roots, c) && IsMove(c) && !c.MoveOut?
    ensures ToPath(c) in TreeAfter(fs, c) && TreeAfter(fs, c)[ToPath(c)] == IsDirMove(fs, c)
    ensures IsDir(TreeAfter(fs, c), Dir(ToPath(c))) && Clean(ToPath(c))
    ensures IsDir(fs, Dir(ToPath(c)))
  {
    MoveTrees(fs, roots, c);
    match c
    case MoveIn(p, tree, _) => CleanShape(p);
    case Move(p, q, _) =>
      assert p[|p|..] == "";
      assert Renamed(p, p, q) == q;
      RenamedKeysMoves(fs, p, p, q);
      CleanShape(p);
      UnderViaDir(q, p);
      RenamedKeysMoves(fs, Dir(q), p, q);
  }

  /** An invisible target leaves only what stays. */
  lemma InvisibleTarget(fs: Tree, roots: seq<string>, c: Change)
    requires WellFormedTree(fs, roots) && Legal(fs, roots, c) && IsMove(c)
    requires !ToVisible(fs, c)
    ensures Visible(TreeAfter(fs, c)) == Staying(fs, c)
  {
    MoveTrees(fs, roots, c);
    if !c.MoveOut? {
      var fs' := TreeAfter(fs, c);
      ToEntry(fs, roots, c);
      HiddenWithin(fs', ToPath(c));
      PlusNothing(Staying(fs, c), VisibleWithin(fs', ToPath(c)));
    }
  }

  lemma PlusNothing(a: Tree, b: Tree)
    requires b == map[]
    ensures a + b == a
  {
  }

  /** With an invisible source everything visible stays. */
  lemma InvisibleSource(fs: Tree, roots: seq<string>, c: Change)
    requires WellFormedTree(fs, roots) && Legal(fs, roots, c) && IsMove(c)
    requires !FromVisible(fs, c)
    ensures Staying(fs, c) == Visible(fs)
  {
    if !c.MoveIn? {
      TreeClosed(fs, roots);
      WithoutHidden(fs, c.p);
    }
  }
}
