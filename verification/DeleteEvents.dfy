/** Coalescing of delete events: `delEvents.add`, its timer goroutines, and what they deliver.
    A step is one region the code runs under its lock, one arm of a `select`, or one handler call. */
module DeleteEvents {
  import opened Paths

  datatype Item = Item(path: string, isDir: bool)

  /** A goroutine waits in `select`, has taken the timer arm, is calling the handler for item k, or is over. */
  datatype Phase = Waiting | Fired | Delivering(k: nat) | Over

  /** A goroutine with the variables it captured; `closes` counts `close` calls on its `done` channel. */
  datatype Goroutine = Goroutine(parentDir: string, items: seq<Item>, closes: nat, phase: Phase)

  /** `ev` holds, per directory, the goroutine whose items and channel are the current entry. */
  datatype State = State(gs: seq<Goroutine>, ev: map<string, nat>, stopped: bool,
                         added: seq<Item>, delivered: seq<Item>)

  const INITIAL := State([], map[], false, [], [])

  datatype Step =
    | Add(item: Item)
    | Fire(g: nat)       // the timer arm of the select
    | Cancel(g: nat)     // the arm for its own done channel
    | Quit(g: nat)       // the arm for the stop channel
    | Lock(g: nat)       // delete(e.ev, parentDir) under the lock
    | Deliver(g: nat)    // one handler call
    | Finish(g: nat)     // the loop over items is done
    | Stop

  // add

  /** Whether `add` closes the entry found under directory d. */
  predicate Closes(item: Item, d: string) {
    d == Dir(item.path) || (item.isDir && AtOrUnder(d, item.path))
  }

  function ItemsAfter(s: State, item: Item): seq<Item>
    requires EvInRange(s)
  {
    var d := Dir(item.path);
    if d in s.ev then s.gs[s.ev[d]].items + [item] else [item]
  }

  predicate EvInRange(s: State) {
    forall d :: d in s.ev ==> s.ev[d] < |s.gs|
  }

  function ClosedGs(s: State, item: Item): seq<Goroutine> {
    seq(|s.gs|, i requires 0 <= i < |s.gs| =>
      if s.gs[i].parentDir in s.ev && s.ev[s.gs[i].parentDir] == i && Closes(item, s.gs[i].parentDir)
      then s.gs[i].(closes := s.gs[i].closes + 1) else s.gs[i])
  }

  function AfterAdd(s: State, item: Item): State
    requires EvInRange(s)
  {
    var d := Dir(item.path);
    s.(gs := ClosedGs(s, item) + [Goroutine(d, ItemsAfter(s, item), 0, Waiting)],
       ev := (map p | p in s.ev && !Closes(item, p) :: s.ev[p])[d := |s.gs|],
       added := s.added + [item])
  }

  function WithPhase(s: State, g: nat, phase: Phase): State
    requires g < |s.gs|
  {
    s.(gs := s.gs[g := s.gs[g].(phase := phase)])
  }

  ghost predicate Next(s: State, step: Step, s': State) {
    match step
    case Add(item) =>
      Clean(item.path) && EvInRange(s) && s' == AfterAdd(s, item)
    case Fire(g) =>
      g < |s.gs| && s.gs[g].phase == Waiting && s' == WithPhase(s, g, Fired)
    case Cancel(g) =>
      g < |s.gs| && s.gs[g].phase == Waiting && s.gs[g].closes > 0 && s' == WithPhase(s, g, Over)
    case Quit(g) =>
      g < |s.gs| && s.gs[g].phase == Waiting && s.stopped && s' == WithPhase(s, g, Over)
    case Lock(g) =>
      g < |s.gs| && s.gs[g].phase == Fired
      && s' == WithPhase(s, g, Delivering(0)).(ev := s.ev - {s.gs[g].parentDir})
    case Deliver(g) =>
      g < |s.gs| && s.gs[g].phase.Delivering? && s.gs[g].phase.k < |s.gs[g].items|
      && s' == WithPhase(s, g, Delivering(s.gs[g].phase.k + 1))
               .(delivered := s.delivered + [s.gs[g].items[s.gs[g].phase.k]])
    case Finish(g) =>
      g < |s.gs| && s.gs[g].phase == Delivering(|s.gs[g].items|) && s' == WithPhase(s, g, Over)
    case Stop =>
      s' == s.(stopped := true)
  }

  ghost predicate Run(s: State, steps: seq<Step>, s': State)
    decreases |steps|
  {
    if steps == [] then s' == s
    else exists mid :: Next(s, steps[0], mid) && Run(mid, steps[1..], s')
  }

  ghost predicate Reachable(s: State) {
    exists steps :: Run(INITIAL, steps, s)
  }

  // Coverage

  /** Removing `over` also removes everything that removing `item` would. */
  predicate Covers(over: Item, item: Item) {
    over == item || (over.isDir && Under(item.path, over.path))
  }

  /** What a goroutine can still deliver without anyone being able to call it off. */
  function Remaining(g: Goroutine): seq<Item> {
    match g.phase
    case Waiting => if g.closes == 0 then g.items else []
    case Fired => g.items
    case Delivering(k) => if k <= |g.items| then g.items[k..] else []
    case Over => []
  }

  ghost predicate LiveIn(gs: seq<Goroutine>, item: Item) {
    exists i :: 0 <= i < |gs| && item in Remaining(gs[i])
  }

  ghost predicate Promised(s: State, item: Item) {
    item in s.delivered || LiveIn(s.gs, item)
  }

  ghost predicate Covered(s: State, item: Item) {
    exists over :: Covers(over, item) && Promised(s, over)
  }

  ghost predicate GoodGoroutine(added: seq<Item>, g: Goroutine) {
    && g.closes <= 1
    && (g.phase.Delivering? ==> g.phase.k <= |g.items|)
    && forall x :: x in g.items ==> x in added && Clean(x.path) && Dir(x.path) == g.parentDir
  }

  ghost predicate EvGood(s: State) {
    && EvInRange(s)
    && forall d :: d in s.ev ==>
         var g := s.gs[s.ev[d]];
         g.parentDir == d && g.closes == 0 && (g.phase == Waiting || g.phase == Fired || s.stopped)
  }

  ghost predicate Invariant(s: State) {
    && EvGood(s)
    && (forall i :: 0 <= i < |s.gs| ==> GoodGoroutine(s.added, s.gs[i]))
    && (forall x :: x in s.delivered ==> x in s.added)
    && (!s.stopped ==> forall x :: x in s.added ==> Covered(s, x))
  }

  lemma CoversTransitive(a: Item, b: Item, c: Item)
    requires Covers(a, b) && Covers(b, c)
    ensures Covers(a, c)
  {
    if a != b && b != c {
      UnderTransitive(c.path, b.path, a.path);
    }
  }

  /** The directory of a clean path is neither the path itself nor below it,
      so `add` closes each channel at most once. */
  lemma DirNotWithin(p: string)
    requires Clean(p)
    ensures !AtOrUnder(Dir(p), p)
  {
    CleanShape(p);
  }

  /** After `add`, whatever was promised is still covered by something promised. */
  lemma AddKeepsPromise(s: State, item: Item, x: Item)
    requires Invariant(s) && Clean(item.path) && Promised(s, x)
    ensures Covered(AfterAdd(s, item), x)
  {
    var s' := AfterAdd(s, item);
    var last := s'.gs[|s.gs|];
    assert item in Remaining(last);
    if x in s.delivered {
      assert Covers(x, x) && Promised(s', x);
    } else {
      var i :| 0 <= i < |s.gs| && x in Remaining(s.gs[i]);
      var d := s.gs[i].parentDir;
      if s'.gs[i] == s.gs[i] || s.gs[i].phase != Waiting {
        assert x in Remaining(s'.gs[i]);
        assert Covers(x, x) && Promised(s', x);
      } else if d == Dir(item.path) {
        assert x in Remaining(last);
        assert Covers(x, x) && Promised(s', x);
      } else {
        assert GoodGoroutine(s.added, s.gs[i]);
        assert x in s.gs[i].items;
        CleanShape(x.path);
        CleanShape(item.path);
        UnderViaDir(x.path, item.path);
        assert Covers(item, x) && Promised(s', item);
      }
    }
  }

  lemma AddGoodGoroutines(s: State, item: Item)
    requires Invariant(s) && Clean(item.path)
    ensures EvGood(AfterAdd(s, item))
    ensures var s' := AfterAdd(s, item);
            forall i :: 0 <= i < |s'.gs| ==> GoodGoroutine(s'.added, s'.gs[i])
  {
    var s' := AfterAdd(s, item);
    forall i | 0 <= i < |s.gs| ensures GoodGoroutine(s'.added, s'.gs[i]) {
      assert GoodGoroutine(s.added, s.gs[i]);
    }
    forall d | d in s'.ev
      ensures s'.ev[d] < |s'.gs|
      ensures var g := s'.gs[s'.ev[d]];
              g.parentDir == d && g.closes == 0 && (g.phase == Waiting || g.phase == Fired || s'.stopped)
    {
      if d != Dir(item.path) {
        assert s'.ev[d] == s.ev[d] && !Closes(item, d);
      }
    }
    if Dir(item.path) in s.ev {
      assert GoodGoroutine(s.added, s.gs[s.ev[Dir(item.path)]]);
    }
  }

  lemma AddKeepsInvariant(s: State, item: Item)
    requires Invariant(s) && Clean(item.path)
    ensures Invariant(AfterAdd(s, item))
  {
    var s' := AfterAdd(s, item);
    AddGoodGoroutines(s, item);
    if !s'.stopped {
      forall x | x in s'.added ensures Covered(s', x) {
        if x == item {
          assert item in Remaining(s'.gs[|s.gs|]);
          assert Covers(x, x) && Promised(s', x);
        } else {
          var over :| Covers(over, x) && Promised(s, over);
          AddKeepsPromise(s, item, over);
          var over' :| Covers(over', over) && Promised(s', over');
          CoversTransitive(over', over, x);
        }
      }
    }
  }

  /** A goroutine step keeps every promise as it is. */
  lemma PhaseKeepsPromise(s: State, g: nat, s': State, x: Item)
    requires g < |s.gs| && |s'.gs| == |s.gs|
    requires forall i :: 0 <= i < |s.gs| && i != g ==> s'.gs[i] == s.gs[i]
    requires forall y :: y in Remaining(s.gs[g]) ==> y in Remaining(s'.gs[g]) || y in s'.delivered
    requires forall y :: y in s.delivered ==> y in s'.delivered
    requires Covered(s, x)
    ensures Covered(s', x)
  {
    var over :| Covers(over, x) && Promised(s, over);
    if over !in s.delivered {
      var i :| 0 <= i < |s.gs| && over in Remaining(s.gs[i]);
      if i != g { assert over in Remaining(s'.gs[i]); }
    }
    assert Promised(s', over);
  }

  lemma RemainingStep(s: State, step: Step, s': State, g: nat)
    requires Invariant(s) && Next(s, step, s') && !step.Add? && !step.Stop? && step.g == g
    requires !s.stopped
    ensures forall y :: y in Remaining(s.gs[g]) ==> y in Remaining(s'.gs[g]) || y in s'.delivered
  {
    assert GoodGoroutine(s.added, s.gs[g]);
    if step.Deliver? {
      var k, items := s.gs[g].phase.k, s.gs[g].items;
      assert items[k..] == [items[k]] + items[k + 1..];
    }
  }

  lemma StepGoodGoroutines(s: State, step: Step, s': State)
    requires Invariant(s) && Next(s, step, s') && !step.Add? && !step.Stop?
    ensures EvGood(s')
    ensures forall i :: 0 <= i < |s'.gs| ==> GoodGoroutine(s'.added, s'.gs[i])
    ensures forall x :: x in s'.delivered ==> x in s'.added
  {
    var g := step.g;
    assert GoodGoroutine(s.added, s.gs[g]);
    forall i | 0 <= i < |s'.gs| ensures GoodGoroutine(s'.added, s'.gs[i]) {
      assert GoodGoroutine(s.added, s.gs[i]);
    }
    assert s.stopped ==> s'.stopped;
    forall d | d in s'.ev
      ensures s'.ev[d] < |s'.gs|
      ensures var h := s'.gs[s'.ev[d]];
              h.parentDir == d && h.closes == 0 && (h.phase == Waiting || h.phase == Fired || s'.stopped)
    {
      assert d in s.ev && s'.ev[d] == s.ev[d];
    }
  }

  lemma StepKeepsInvariant(s: State, step: Step, s': State)
    requires Invariant(s) && Next(s, step, s')
    ensures Invariant(s')
  {
    if step.Add? {
      AddKeepsInvariant(s, step.item);
    } else if !step.Stop? {
      StepGoodGoroutines(s, step, s');
      if !s.stopped {
        RemainingStep(s, step, s', step.g);
        forall x | x in s'.added ensures Covered(s', x) {
          PhaseKeepsPromise(s, step.g, s', x);
        }
      }
    }
  }

  lemma {:induction false} RunKeepsInvariant(s: State, steps: seq<Step>, s': State)
    requires Invariant(s) && Run(s, steps, s')
    ensures Invariant(s')
    decreases |steps|
  {
    if steps != [] {
      var mid :| Next(s, steps[0], mid) && Run(mid, steps[1..], s');
      StepKeepsInvariant(s, steps[0], mid);
      RunKeepsInvariant(mid, steps[1..], s');
    }
  }

  /** In every reachable state: no channel has been closed twice, only added paths were delivered,
      and before `stop` every added path is covered by something delivered or still certain to be. */
  lemma DeleteCoverage(s: State)
    requires Reachable(s)
    ensures forall i :: 0 <= i < |s.gs| ==> s.gs[i].closes <= 1
    ensures forall x :: x in s.delivered ==> x in s.added
    ensures !s.stopped ==> forall x :: x in s.added ==> Covered(s, x)
  {
    var steps :| Run(INITIAL, steps, s);
    RunKeepsInvariant(INITIAL, steps, s);
    forall i | 0 <= i < |s.gs| ensures s.gs[i].closes <= 1 {
      assert GoodGoroutine(s.added, s.gs[i]);
    }
  }

  // Draining

  ghost predicate Quiescent(s: State) {
    forall i :: 0 <= i < |s.gs| ==> s.gs[i].phase == Over
  }

  /** Once every goroutine is over, each added path was delivered itself or through an ancestor
      directory, and the entry map is empty: nothing of the past can influence what comes next. */
  lemma QuiescentDelivered(s: State)
    requires Invariant(s) && Quiescent(s) && !s.stopped
    ensures forall x :: x in s.added ==> exists over :: over in s.delivered && Covers(over, x)
    ensures s.ev == map[]
  {
    forall x | x in s.added ensures exists over :: over in s.delivered && Covers(over, x) {
      var over :| Covers(over, x) && Promised(s, over);
      assert over in s.delivered;
    }
    assert forall d :: d !in s.ev;
  }

  function Weight(g: Goroutine): nat {
    match g.phase
    case Waiting => |g.items| + 3
    case Fired => |g.items| + 2
    case Delivering(k) => if k <= |g.items| then |g.items| - k + 1 else 0
    case Over => 0
  }

  function TotalWeight(gs: seq<Goroutine>): nat {
    if gs == [] then 0 else TotalWeight(gs[..|gs| - 1]) + Weight(gs[|gs| - 1])
  }

  lemma {:induction false} TotalWeightUpdate(gs: seq<Goroutine>, i: nat, g: Goroutine)
    requires i < |gs|
    ensures TotalWeight(gs[i := g]) == TotalWeight(gs) - Weight(gs[i]) + Weight(g)
    decreases |gs|
  {
    var gs' := gs[i := g];
    if i == |gs| - 1 {
      assert gs'[..|gs| - 1] == gs[..|gs| - 1];
    } else {
      assert gs'[..|gs| - 1] == gs[..|gs| - 1][i := g];
      TotalWeightUpdate(gs[..|gs| - 1], i, g);
    }
  }

  /** Draining cannot go on for ever: every goroutine step lowers a natural number. */
  lemma DrainDecreases(s: State, step: Step, s': State)
    requires Invariant(s) && Next(s, step, s') && !step.Add? && !step.Stop?
    ensures TotalWeight(s'.gs) < TotalWeight(s.gs)
  {
    var g := step.g;
    assert GoodGoroutine(s.added, s.gs[g]);
    TotalWeightUpdate(s.gs, g, s'.gs[g]);
    assert s'.gs == s.gs[g := s'.gs[g]];
  }

  /** And it cannot get stuck: while some goroutine is not over, one of its steps is possible. */
  lemma DrainProgress(s: State)
    requires Invariant(s) && !Quiescent(s)
    ensures exists step: Step, s' :: !step.Add? && !step.Stop? && Next(s, step, s')
  {
    var g :| 0 <= g < |s.gs| && s.gs[g].phase != Over;
    assert GoodGoroutine(s.added, s.gs[g]);
    match s.gs[g].phase
    case Waiting => assert Next(s, Fire(g), WithPhase(s, g, Fired));
    case Fired => assert Next(s, Lock(g), WithPhase(s, g, Delivering(0)).(ev := s.ev - {s.gs[g].parentDir}));
    case Delivering(k) =>
      if k < |s.gs[g].items| {
        assert Next(s, Deliver(g), WithPhase(s, g, Delivering(k + 1)).(delivered := s.delivered + [s.gs[g].items[k]]));
      } else {
        assert Next(s, Finish(g), WithPhase(s, g, Over));
      }
  }

  // The code of `add`.

  /** The fields of `delEvents`, with the goroutines it has started. */
  class DelEvents {
    var ev: map<string, nat>
    var gs: seq<Goroutine>
    ghost var stopped: bool
    ghost var added: seq<Item>
    ghost var delivered: seq<Item>

    ghost function Value(): State
      reads this
    {
      State(gs, ev, stopped, added, delivered)
    }

    constructor ()
      ensures Value() == INITIAL
    {
      ev, gs := map[], [];
      stopped, added, delivered := false, [], [];
    }

    /** The region of `add` under the lock, and the start of its goroutine. */
    method Add(path: string, isDir: bool)
      requires Invariant(Value()) && Clean(path)
      modifies this
      ensures Value() == AfterAdd(old(Value()), Item(path, isDir))
      ensures Invariant(Value())
    {
      hide Covered, GoodGoroutine, ClosedGs, MaybeClosed, Within, Closes;
      ghost var s0, item := Value(), Item(path, isDir);
      var parentDir := Dir(path);
      var items := [];
      if parentDir in ev {
        var g := ev[parentDir];
        gs := gs[g := gs[g].(closes := gs[g].closes + 1)];
        items := gs[g].items + [Item(path, isDir)];
      } else {
        items := items + [Item(path, isDir)];
      }
      CloseFirst(s0, item, gs);
      assert items == ItemsAfter(s0, item);
      if isDir {
        var todo := ev.Keys;
        while todo != {}
          invariant PartlyClosed(s0, item, todo, ev, gs)
          invariant stopped == s0.stopped && added == s0.added && delivered == s0.delivered
        {
          var p :| p in todo;
          ghost var ev0, gs0 := ev, gs;
          if path + "/" <= p || p == path {
            var g := ev[p];
            gs := gs[g := gs[g].(closes := gs[g].closes + 1)];
            ev := ev - {p};
          }
          CloseStep(s0, item, todo, p, ev0, gs0, ev, gs);
          todo := todo - {p};
        }
      }
      AddDone(s0, item, ev, gs);
      ev := ev[parentDir := |gs|];
      gs := gs + [Goroutine(parentDir, items, 0, Waiting)];
      added := added + [item];
    }

    /** The timer arm of a goroutine, run without interruption. */
    method Expire(g: nat)
      requires Invariant(Value()) && g < |gs| && gs[g].phase == Fired
      modifies this
      ensures ev == old(ev) - {old(gs)[g].parentDir}
      ensures gs == old(gs)[g := old(gs)[g].(phase := Over)]
      ensures delivered == old(delivered) + old(gs)[g].items
      ensures stopped == old(stopped) && added == old(added)
      ensures Invariant(Value())
    {
      ghost var s0 := Value();
      assert GoodGoroutine(added, gs[g]);
      ev := ev - {gs[g].parentDir};
      gs := gs[g := gs[g].(phase := Delivering(0))];
      StepKeepsInvariant(s0, Lock(g), Value());
      var k := 0;
      while k < |gs[g].items|
        invariant k <= |s0.gs[g].items|
        invariant gs == s0.gs[g := s0.gs[g].(phase := Delivering(k))]
        invariant ev == s0.ev - {s0.gs[g].parentDir} && stopped == s0.stopped && added == s0.added
        invariant delivered == s0.delivered + s0.gs[g].items[..k]
        invariant Invariant(Value())
      {
        ghost var s := Value();
        delivered := delivered + [gs[g].items[k]];
        k := k + 1;
        gs := gs[g := gs[g].(phase := Delivering(k))];
        StepKeepsInvariant(s, Deliver(g), Value());
      }
      ghost var s := Value();
      gs := gs[g := gs[g].(phase := Over)];
      StepKeepsInvariant(s, Finish(g), Value());
    }
  }

  /** The fields while the directories in `todo` are still to be looked at. */
  ghost predicate PartlyClosed(s0: State, item: Item, todo: set<string>, ev: map<string, nat>, gs: seq<Goroutine>) {
    && EvGood(s0) && todo <= ev.Keys
    && (forall d :: d in ev <==> d in s0.ev && !(d !in todo && Within(item, d)))
    && (forall d :: d in ev ==> ev[d] == s0.ev[d])
    && |gs| == |s0.gs|
    && forall i :: 0 <= i < |gs| ==> gs[i] == MaybeClosed(s0, item, todo, i)
  }

  ghost predicate Within(item: Item, d: string) {
    item.isDir && AtOrUnder(d, item.path)
  }

  ghost function MaybeClosed(s0: State, item: Item, todo: set<string>, i: nat): Goroutine
    requires i < |s0.gs|
  {
    var g := s0.gs[i];
    if && g.parentDir in s0.ev && s0.ev[g.parentDir] == i
       && (g.parentDir == Dir(item.path) || (g.parentDir !in todo && Within(item, g.parentDir)))
    then g.(closes := g.closes + 1) else g
  }

  lemma CloseFirst(s0: State, item: Item, gs: seq<Goroutine>)
    requires Invariant(s0) && Clean(item.path)
    requires var d := Dir(item.path);
             gs == if d in s0.ev then s0.gs[s0.ev[d] := s0.gs[s0.ev[d]].(closes := s0.gs[s0.ev[d]].closes + 1)]
                   else s0.gs
    ensures PartlyClosed(s0, item, s0.ev.Keys, s0.ev, gs)
    ensures !item.isDir ==> PartlyClosed(s0, item, {}, s0.ev, gs)
  {
  }

  lemma CloseStep(s0: State, item: Item, todo: set<string>, p: string,
                                     ev: map<string, nat>, gs: seq<Goroutine>, ev': map<string, nat>,
                                     gs': seq<Goroutine>)
    requires Clean(item.path) && item.isDir
    requires PartlyClosed(s0, item, todo, ev, gs) && p in todo
    requires if AtOrUnder(p, item.path)
             then gs' == gs[ev[p] := gs[ev[p]].(closes := gs[ev[p]].closes + 1)] && ev' == ev - {p}
             else gs' == gs && ev' == ev
    ensures PartlyClosed(s0, item, todo - {p}, ev', gs')
  {
    DirNotWithin(item.path);
    assert s0.gs[ev[p]].parentDir == p;
  }

  lemma EntriesDone(s0: State, item: Item, ev: map<string, nat>, gs: seq<Goroutine>, n: nat)
    requires PartlyClosed(s0, item, {}, ev, gs)
    ensures ev[Dir(item.path) := n] == (map p | p in s0.ev && !Closes(item, p) :: s0.ev[p])[Dir(item.path) := n]
  {
  }

  lemma AddDone(s0: State, item: Item, ev: map<string, nat>, gs: seq<Goroutine>)
    requires Invariant(s0) && Clean(item.path) && PartlyClosed(s0, item, {}, ev, gs)
    ensures State(gs + [Goroutine(Dir(item.path), ItemsAfter(s0, item), 0, Waiting)], ev[Dir(item.path) := |gs|],
                  s0.stopped, s0.added + [item], s0.delivered) == AfterAdd(s0, item)
    ensures Invariant(AfterAdd(s0, item))
  {
    hide Covered, GoodGoroutine;
    AddKeepsInvariant(s0, item);
    EntriesDone(s0, item, ev, gs, |gs|);
    assert gs == ClosedGs(s0, item) by {
      forall i | 0 <= i < |gs| ensures gs[i] == ClosedGs(s0, item)[i] {
        assert gs[i] == MaybeClosed(s0, item, {}, i);
      }
    }
  }
}
