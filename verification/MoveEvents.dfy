/** Pairing the two halves of a move by cookie, with a timeout. */
module MoveEvents {

  datatype Op = Index | Remove | Rename

  /** The goroutine of a half move waits in `select`, has taken the timer arm but not yet called the
      handler, is about to leave the map, or has left it. */
  datatype Phase = Waiting | Expired | Leaving | Gone

  /** A recorded MOVED_FROM. `timer` says that the `select` took the timer arm. */
  datatype Half = Half(name: string, isDir: bool, closes: nat, phase: Phase, timer: bool)

  /** A MOVED_TO after its region under the lock. `hadFrom` says whether a MOVED_FROM with the same
      cookie came before, `before` how much had been sent by then, `sent` whether its handler call was made. */
  datatype Arrival = Arrival(name: string, isDir: bool, op: Op, oldName: string,
                             hadFrom: bool, before: nat, sent: bool)

  /** One call of the move handler. */
  datatype Out = Out(op: Op, cookie: nat, oldName: string, newName: string, isDir: bool)

  datatype State = State(halves: map<nat, Half>, mvFrom: set<nat>, arrivals: map<nat, Arrival>,
                         stopped: bool, sent: seq<Out>)

  const INITIAL := State(map[], {}, map[], false, [])

  datatype Step =
    | From(cookie: nat, name: string, isDir: bool)   // addMvFrom
    | To(cookie: nat, name: string, isDir: bool)     // addMvTo under the lock
    | Handle(cookie: nat)                            // addMvTo calls the handler
    | Expire(cookie: nat)                            // the timer arm of the select
    | SendRemove(cookie: nat)                        // its handler call
    | Cancel(cookie: nat)                            // the arm for its own done channel
    | Quit(cookie: nat)                              // the arm for the stop channel
    | Forget(cookie: nat)                            // delete(e.mvFrom, cookie) under the lock
    | Stop

  function AfterFrom(s: State, c: nat, name: string, isDir: bool): State {
    s.(halves := s.halves[c := Half(name, isDir, 0, Waiting, false)], mvFrom := s.mvFrom + {c})
  }

  function AfterTo(s: State, c: nat, name: string, isDir: bool): State {
    var hadFrom := c in s.halves;
    if c in s.mvFrom && c in s.halves then
      var h := s.halves[c];
      s.(halves := s.halves[c := h.(closes := h.closes + 1)],
         arrivals := s.arrivals[c := Arrival(name, isDir, Rename, h.name, hadFrom, |s.sent|, false)])
    else
      s.(arrivals := s.arrivals[c := Arrival(name, isDir, Index, "", hadFrom, |s.sent|, false)])
  }

  function OutOfArrival(c: nat, a: Arrival): Out {
    Out(a.op, c, a.oldName, a.name, a.isDir)
  }

  function OutOfHalf(c: nat, h: Half): Out {
    Out(Remove, c, h.name, "", h.isDir)
  }

  function WithPhase(s: State, c: nat, phase: Phase): State
    requires c in s.halves
  {
    s.(halves := s.halves[c := s.halves[c].(phase := phase)])
  }

  /** Each cookie is used by at most one MOVED_FROM and at most one MOVED_TO. */
  ghost predicate Next(s: State, step: Step, s': State) {
    match step
    case From(c, name, isDir) =>
      c !in s.halves && s' == AfterFrom(s, c, name, isDir)
    case To(c, name, isDir) =>
      c !in s.arrivals && s' == AfterTo(s, c, name, isDir)
    case Handle(c) =>
      c in s.arrivals && !s.arrivals[c].sent
      && s' == s.(arrivals := s.arrivals[c := s.arrivals[c].(sent := true)],
                  sent := s.sent + [OutOfArrival(c, s.arrivals[c])])
    case Expire(c) =>
      c in s.halves && s.halves[c].phase == Waiting
      && s' == s.(halves := s.halves[c := s.halves[c].(phase := Expired, timer := true)])
    case SendRemove(c) =>
      c in s.halves && s.halves[c].phase == Expired
      && s' == WithPhase(s, c, Leaving).(sent := s.sent + [OutOfHalf(c, s.halves[c])])
    case Cancel(c) =>
      c in s.halves && s.halves[c].phase == Waiting && s.halves[c].closes > 0 && s' == WithPhase(s, c, Leaving)
    case Quit(c) =>
      c in s.halves && s.halves[c].phase == Waiting && s.stopped && s' == WithPhase(s, c, Leaving)
    case Forget(c) =>
      c in s.halves && s.halves[c].phase == Leaving && s' == WithPhase(s, c, Gone).(mvFrom := s.mvFrom - {c})
    case Stop =>
      s' == s.(stopped := true)
  }

  ghost predicate Run(s: State, steps: seq<Step>, s': State)
    decreases |steps|
  {
    if steps == [] then s' == s
    else exists mid :: Next(s, steps[0], mid) && Run(mid, steps[1..], s')
  }

  ghost predicate Reachable(s: State) {
    exists steps :: Run(INITIAL, steps, s)
  }

  /** How many calls with this operation were made for this cookie. */
  function Count(sent: seq<Out>, op: Op, c: nat): nat {
    if sent == [] then 0
    else Count(sent[..|sent| - 1], op, c)
         + if sent[|sent| - 1].op == op && sent[|sent| - 1].cookie == c then 1 else 0
  }

  predicate RemoveSent(s: State, c: nat) {
    c in s.halves && s.halves[c].timer && (s.halves[c].phase == Leaving || s.halves[c].phase == Gone)
  }

  predicate ArrivalSent(s: State, c: nat, op: Op) {
    c in s.arrivals && s.arrivals[c].op == op && s.arrivals[c].sent
  }

  predicate PairedTo(s: State, c: nat) {
    c in s.arrivals && s.arrivals[c].op == Rename
  }

  /** A call names what its cookie stands for. */
  ghost predicate GoodOut(s: State, o: Out) {
    match o.op
    case Remove => o.cookie in s.halves && o == OutOfHalf(o.cookie, s.halves[o.cookie])
    case Rename => o.cookie in s.halves && o.cookie in s.arrivals
                   && o == Out(Rename, o.cookie, s.halves[o.cookie].name, s.arrivals[o.cookie].name,
                               s.arrivals[o.cookie].isDir)
    case Index => o.cookie in s.arrivals
                  && o == Out(Index, o.cookie, "", s.arrivals[o.cookie].name, s.arrivals[o.cookie].isDir)
  }

  ghost predicate GoodHalf(s: State, c: nat)
    requires c in s.halves
  {
    var h := s.halves[c];
    && (c in s.mvFrom <==> h.phase != Gone)
    && h.closes == (if PairedTo(s, c) then 1 else 0)
    && (h.phase == Waiting ==> !h.timer)
    && (h.phase == Expired ==> h.timer)
    && ((h.phase == Leaving || h.phase == Gone) && !h.timer ==> h.closes > 0 || s.stopped)
  }

  ghost predicate GoodArrival(s: State, c: nat)
    requires c in s.arrivals
  {
    var a := s.arrivals[c];
    && a.op != Remove && a.before <= |s.sent|
    && (a.op == Rename ==> c in s.halves && a.oldName == s.halves[c].name && a.hadFrom)
    && (a.op == Index ==> a.oldName == "")
    && (a.op == Index && a.hadFrom ==>
          c in s.halves && s.halves[c].phase == Gone && (s.stopped || OutOfHalf(c, s.halves[c]) in s.sent[..a.before]))
    && (a.sent ==> OutOfArrival(c, a) in s.sent[a.before..])
  }

  ghost predicate Invariant(s: State) {
    && (forall c :: c in s.mvFrom ==> c in s.halves)
    && (forall c :: c in s.halves ==> GoodHalf(s, c))
    && (forall c :: c in s.arrivals ==> GoodArrival(s, c))
    && (forall o :: o in s.sent ==> GoodOut(s, o))
    && (forall c :: Count(s.sent, Remove, c) == if RemoveSent(s, c) then 1 else 0)
    && (forall c, op: Op :: op != Remove ==> Count(s.sent, op, c) == if ArrivalSent(s, c, op) then 1 else 0)
    && (forall c :: RemoveSent(s, c) ==> OutOfHalf(c, s.halves[c]) in s.sent)
  }

  lemma CountAppend(sent: seq<Out>, o: Out, op: Op, c: nat)
    ensures Count(sent + [o], op, c) == Count(sent, op, c) + if o.op == op && o.cookie == c then 1 else 0
  {
    assert (sent + [o])[..|sent + [o]| - 1] == sent;
  }

  /** No step changes the name or kind a cookie was recorded with. */
  lemma RecordsKept(s: State, step: Step, s': State, c: nat)
    requires Next(s, step, s')
    ensures c in s.halves ==>
      c in s'.halves && s'.halves[c].name == s.halves[c].name && s'.halves[c].isDir == s.halves[c].isDir
    ensures c in s.arrivals ==>
      c in s'.arrivals && s'.arrivals[c].name == s.arrivals[c].name && s'.arrivals[c].isDir == s.arrivals[c].isDir
  {
  }

  /** What a step sends, if anything. */
  lemma NewOut(s: State, step: Step, s': State)
    requires Next(s, step, s')
    requires step.Handle? ==> GoodArrival(s, step.cookie)
    ensures s'.sent == s.sent
         || exists o :: s'.sent == s.sent + [o] && GoodOut(s, o)
  {
    if step.Handle? {
      assert GoodOut(s, OutOfArrival(step.cookie, s.arrivals[step.cookie]));
    } else if step.SendRemove? {
      assert GoodOut(s, OutOfHalf(step.cookie, s.halves[step.cookie]));
    }
  }

  lemma StepKeepsHalf(s: State, step: Step, s': State, c: nat)
    requires Next(s, step, s') && c in s'.halves
    requires forall d :: d in s.mvFrom ==> d in s.halves
    requires c in s.halves ==> GoodHalf(s, c)
    requires c in s.arrivals ==> GoodArrival(s, c)
    ensures GoodHalf(s', c)
  {
    hide GoodOut, OutOfArrival, OutOfHalf;
  }

  lemma SentGrows(s: State, step: Step, s': State, n: nat)
    requires Next(s, step, s') && n <= |s.sent|
    ensures s.sent <= s'.sent && s'.sent[..n] == s.sent[..n]
    ensures s'.sent[n..] == s.sent[n..] + s'.sent[|s.sent|..]
  {
  }

  lemma StepKeepsArrival(s: State, step: Step, s': State, c: nat)
    requires Next(s, step, s') && c in s'.arrivals
    requires c in s.halves ==> GoodHalf(s, c)
    requires c in s.arrivals ==> GoodArrival(s, c)
    requires RemoveSent(s, c) ==> OutOfHalf(c, s.halves[c]) in s.sent
    ensures GoodArrival(s', c)
  {
    if c in s.arrivals {
      SentGrows(s, step, s', s.arrivals[c].before);
    } else {
      assert s.sent[..|s.sent|] == s.sent;
    }
  }

  lemma StepKeepsRecords(s: State, step: Step, s': State)
    requires Invariant(s) && Next(s, step, s')
    ensures forall c :: c in s'.mvFrom ==> c in s'.halves
    ensures forall c :: c in s'.halves ==> GoodHalf(s', c)
    ensures forall c :: c in s'.arrivals ==> GoodArrival(s', c)
  {
    forall c | c in s'.halves ensures GoodHalf(s', c) {
      StepKeepsHalf(s, step, s', c);
    }
    forall c | c in s'.arrivals ensures GoodArrival(s', c) {
      StepKeepsArrival(s, step, s', c);
    }
  }

  lemma StepKeepsOuts(s: State, step: Step, s': State)
    requires Invariant(s) && Next(s, step, s')
    ensures forall o :: o in s'.sent ==> GoodOut(s', o)
  {
    NewOut(s, step, s');
    forall o | o in s'.sent ensures GoodOut(s', o) {
      assert GoodOut(s, o);
      RecordsKept(s, step, s', o.cookie);
    }
  }

  /** The steps that call no handler change nothing that counts as sent. */
  lemma SilentStep(s: State, step: Step, s': State, c: nat, op: Op)
    requires Next(s, step, s') && !step.Handle? && !step.SendRemove?
    requires c in s.halves ==> GoodHalf(s, c)
    ensures s'.sent == s.sent
    ensures RemoveSent(s', c) == RemoveSent(s, c)
    ensures ArrivalSent(s', c, op) == ArrivalSent(s, c, op)
  {
  }

  lemma HandleStep(s: State, d: nat, s': State, c: nat, op: Op)
    requires Next(s, Handle(d), s') && GoodArrival(s, d)
    ensures RemoveSent(s', c) == RemoveSent(s, c)
    ensures op != Remove && ArrivalSent(s', c, op) && !ArrivalSent(s, c, op) <==> c == d && op == s.arrivals[d].op
    ensures ArrivalSent(s, c, op) ==> ArrivalSent(s', c, op)
  {
  }

  lemma SendRemoveStep(s: State, d: nat, s': State, c: nat, op: Op)
    requires Next(s, SendRemove(d), s')
    requires s.halves[d].timer
    ensures RemoveSent(s', c) && !RemoveSent(s, c) <==> c == d
    ensures RemoveSent(s, c) ==> RemoveSent(s', c)
    ensures ArrivalSent(s', c, op) == ArrivalSent(s, c, op)
  {
  }

  predicate CountedAsSent(s: State, c: nat, op: Op) {
    if op == Remove then RemoveSent(s, c) else ArrivalSent(s, c, op)
  }

  lemma StepCounts(s: State, step: Step, s': State, c: nat, op: Op)
    requires Invariant(s) && Next(s, step, s')
    requires Count(s.sent, op, c) == if CountedAsSent(s, c, op) then 1 else 0
    ensures Count(s'.sent, op, c) == if CountedAsSent(s', c, op) then 1 else 0
  {
    if step.Handle? {
      var d := step.cookie;
      HandleStep(s, d, s', c, op);
      CountAppend(s.sent, OutOfArrival(d, s.arrivals[d]), op, c);
    } else if step.SendRemove? {
      var d := step.cookie;
      assert GoodHalf(s, d);
      SendRemoveStep(s, d, s', c, op);
      CountAppend(s.sent, OutOfHalf(d, s.halves[d]), op, c);
    } else {
      SilentStep(s, step, s', c, op);
    }
  }

  lemma StepKeepsRemoves(s: State, step: Step, s': State, c: nat)
    requires Next(s, step, s') && RemoveSent(s', c)
    requires c in s.halves ==> GoodHalf(s, c)
    requires RemoveSent(s, c) ==> OutOfHalf(c, s.halves[c]) in s.sent
    ensures OutOfHalf(c, s'.halves[c]) in s'.sent
  {
    if !RemoveSent(s, c) {
      assert step == SendRemove(c);
    }
  }

  lemma StepKeepsCounts(s: State, step: Step, s': State)
    requires Invariant(s) && Next(s, step, s')
    ensures forall c :: Count(s'.sent, Remove, c) == if RemoveSent(s', c) then 1 else 0
    ensures forall c, op: Op :: op != Remove ==> Count(s'.sent, op, c) == if ArrivalSent(s', c, op) then 1 else 0
    ensures forall c :: RemoveSent(s', c) ==> OutOfHalf(c, s'.halves[c]) in s'.sent
  {
    forall c ensures Count(s'.sent, Remove, c) == if RemoveSent(s', c) then 1 else 0 {
      StepCounts(s, step, s', c, Remove);
    }
    forall c, op: Op | op != Remove ensures Count(s'.sent, op, c) == if ArrivalSent(s', c, op) then 1 else 0 {
      StepCounts(s, step, s', c, op);
    }
    forall c | RemoveSent(s', c) ensures OutOfHalf(c, s'.halves[c]) in s'.sent {
      StepKeepsRemoves(s, step, s', c);
    }
  }

  lemma StepKeepsInvariant(s: State, step: Step, s': State)
    requires Invariant(s) && Next(s, step, s')
    ensures Invariant(s')
  {
    StepKeepsRecords(s, step, s');
    StepKeepsOuts(s, step, s');
    StepKeepsCounts(s, step, s');
  }

  lemma {:induction false} RunKeepsInvariant(s: State, steps: seq<Step>, s': State)
    requires Invariant(s) && Run(s, steps, s')
    ensures Invariant(s')
    decreases |steps|
  {
    if steps != [] {
      var mid :| Next(s, steps[0], mid) && Run(mid, steps[1..], s');
      StepKeepsInvariant(s, steps[0], mid);
      RunKeepsInvariant(mid, steps[1..], s');
    }
  }

  /** In every reachable state: no channel is closed twice; per cookie at most one Remove, and at most one
      of Rename and Index; a Rename carries the old name of its own cookie; and a half move is out of the
      map only with its Remove sent, its Rename decided, or after stop. */
  lemma MovePairing(s: State)
    requires Reachable(s)
    ensures forall c :: c in s.halves ==> s.halves[c].closes <= 1
    ensures forall c :: Count(s.sent, Remove, c) <= 1 && Count(s.sent, Rename, c) + Count(s.sent, Index, c) <= 1
    ensures forall o :: o in s.sent && o.op == Rename ==> o.cookie in s.halves && o.oldName == s.halves[o.cookie].name
    ensures forall c :: c in s.halves && c !in s.mvFrom ==> Count(s.sent, Remove, c) == 1 || PairedTo(s, c) || s.stopped
  {
    var steps :| Run(INITIAL, steps, s);
    assert Invariant(INITIAL);
    RunKeepsInvariant(INITIAL, steps, s);
    forall c | c in s.halves
      ensures s.halves[c].closes <= 1
      ensures c !in s.mvFrom ==> Count(s.sent, Remove, c) == 1 || PairedTo(s, c) || s.stopped
    {
      assert GoodHalf(s, c);
    }
    forall o | o in s.sent && o.op == Rename
      ensures o.cookie in s.halves && o.oldName == s.halves[o.cookie].name
    {
      assert GoodOut(s, o);
    }
  }

  ghost predicate Quiescent(s: State) {
    && (forall c :: c in s.halves ==> s.halves[c].phase == Gone)
    && (forall c :: c in s.arrivals ==> s.arrivals[c].sent)
  }

  ghost predicate Precedes(sent: seq<Out>, a: Out, b: Out) {
    exists i, j :: 0 <= i < j < |sent| && sent[i] == a && sent[j] == b
  }

  lemma RemovePrecedesIndex(s: State, c: nat)
    requires c in s.arrivals && GoodArrival(s, c) && !s.stopped
    requires s.arrivals[c].op == Index && s.arrivals[c].hadFrom && s.arrivals[c].sent
    ensures c in s.halves && Precedes(s.sent, OutOfHalf(c, s.halves[c]), OutOfArrival(c, s.arrivals[c]))
  {
    var a := s.arrivals[c];
    var i :| 0 <= i < a.before && s.sent[..a.before][i] == OutOfHalf(c, s.halves[c]);
    var j :| 0 <= j < |s.sent| - a.before && s.sent[a.before..][j] == OutOfArrival(c, a);
    assert s.sent[i] == OutOfHalf(c, s.halves[c]) && s.sent[a.before + j] == OutOfArrival(c, a);
  }

  /** Once everything has run, before stop: a MOVED_FROM had an outcome; a MOVED_TO whose cookie was never
      recorded gave exactly one Index; a pair gave a Rename or, after the Remove, an Index; and a pair gave
      both a Remove and a Rename exactly when its timer arm ran although the pairing had been made. */
  lemma MoveOutcomes(s: State, c: nat)
    requires Reachable(s) && Quiescent(s) && !s.stopped
    ensures c in s.halves ==> Count(s.sent, Remove, c) + Count(s.sent, Rename, c) >= 1
    ensures c in s.arrivals ==> Count(s.sent, Rename, c) + Count(s.sent, Index, c) == 1
    ensures c in s.arrivals && !s.arrivals[c].hadFrom ==> Count(s.sent, Index, c) == 1
    ensures c in s.arrivals && s.arrivals[c].hadFrom && Count(s.sent, Index, c) == 1 ==>
      c in s.halves && Precedes(s.sent, OutOfHalf(c, s.halves[c]), OutOfArrival(c, s.arrivals[c]))
    ensures c in s.halves ==>
      (Count(s.sent, Remove, c) == 1 && Count(s.sent, Rename, c) == 1 <==> s.halves[c].timer && PairedTo(s, c))
  {
    var steps :| Run(INITIAL, steps, s);
    RunKeepsInvariant(INITIAL, steps, s);
    if c in s.halves { assert GoodHalf(s, c); }
    if c in s.arrivals {
      assert GoodArrival(s, c);
      if s.arrivals[c].hadFrom && s.arrivals[c].op == Index {
        RemovePrecedesIndex(s, c);
      }
    }
  }

  /** A half move whose timer fired and whose Remove was sent, still in the map. */
  function TimedOut(c: nat, p: string): State {
    State(map[c := Half(p, true, 0, Leaving, true)], {c}, map[], false, [Out(Remove, c, p, "", true)])
  }

  lemma TimedOutReachable(c: nat, p: string)
    ensures Reachable(TimedOut(c, p))
  {
    var s1 := State(map[c := Half(p, true, 0, Waiting, false)], {c}, map[], false, []);
    var s2 := State(map[c := Half(p, true, 0, Expired, true)], {c}, map[], false, []);
    assert Reachable(INITIAL) by { assert Run(INITIAL, [], INITIAL); }
    assert Next(INITIAL, From(c, p, true), s1);
    ReachableStep(INITIAL, From(c, p, true), s1);
    assert Next(s1, Expire(c), s2);
    ReachableStep(s1, Expire(c), s2);
    assert Next(s2, SendRemove(c), TimedOut(c, p));
    ReachableStep(s2, SendRemove(c), TimedOut(c, p));
  }

  /** The same half move after a MOVED_TO was paired with it. */
  function PairedLate(c: nat, p: string, q: string): State {
    State(map[c := Half(p, true, 1, Leaving, true)], {c}, map[c := Arrival(q, true, Rename, p, true, 1, false)],
          false, [Out(Remove, c, p, "", true)])
  }

  lemma PairedLateReachable(c: nat, p: string, q: string)
    ensures Reachable(PairedLate(c, p, q))
  {
    TimedOutReachable(c, p);
    assert Next(TimedOut(c, p), To(c, q, true), PairedLate(c, p, q));
    ReachableStep(TimedOut(c, p), To(c, q, true), PairedLate(c, p, q));
  }

  /** That double outcome does occur, in the order that loses the moved tree: the timer fires, and the
      MOVED_TO arrives before the goroutine has left the map. */
  lemma RemoveThenRenameOccurs(c: nat, p: string, q: string)
    ensures exists s :: Reachable(s) && Quiescent(s) && !s.stopped
              && s.sent == [Out(Remove, c, p, "", true), Out(Rename, c, p, q, true)]
  {
    var both := [Out(Remove, c, p, "", true), Out(Rename, c, p, q, true)];
    var handled := Arrival(q, true, Rename, p, true, 1, true);
    var s5 := State(map[c := Half(p, true, 1, Leaving, true)], {c}, map[c := handled], false, both);
    var s6 := State(map[c := Half(p, true, 1, Gone, true)], {}, map[c := handled], false, both);
    PairedLateReachable(c, p, q);
    assert Next(PairedLate(c, p, q), Handle(c), s5);
    ReachableStep(PairedLate(c, p, q), Handle(c), s5);
    assert Next(s5, Forget(c), s6);
    ReachableStep(s5, Forget(c), s6);
  }

  lemma {:induction false} RunAppend(s: State, steps: seq<Step>, mid: State, step: Step, s': State)
    requires Run(s, steps, mid) && Next(mid, step, s')
    ensures Run(s, steps + [step], s')
    decreases |steps|
  {
    if steps == [] {
      assert Run(s', [], s');
      assert steps + [step] == [step] && [step][1..] == [];
    } else {
      var next :| Next(s, steps[0], next) && Run(next, steps[1..], mid);
      RunAppend(next, steps[1..], mid, step, s');
      assert (steps + [step])[1..] == steps[1..] + [step];
    }
  }

  lemma ReachableStep(s: State, step: Step, s': State)
    requires Reachable(s) && Next(s, step, s')
    ensures Reachable(s')
  {
    var steps :| Run(INITIAL, steps, s);
    RunAppend(INITIAL, steps, s, step, s');
  }

  // The code.

  class MvEvents {
    var halves: map<nat, Half>
    var mvFrom: set<nat>
    ghost var arrivals: map<nat, Arrival>
    ghost var stopped: bool
    ghost var sent: seq<Out>

    ghost function Value(): State
      reads this
    {
      State(halves, mvFrom, arrivals, stopped, sent)
    }

    constructor ()
      ensures Value() == INITIAL
    {
      halves, mvFrom := map[], {};
      arrivals, stopped, sent := map[], false, [];
    }

    method AddMvFrom(cookie: nat, name: string, isDir: bool)
      requires Invariant(Value()) && cookie !in halves
      modifies this
      ensures Value() == AfterFrom(old(Value()), cookie, name, isDir)
      ensures Invariant(Value())
    {
      StepKeepsInvariant(Value(), From(cookie, name, isDir), AfterFrom(Value(), cookie, name, isDir));
      halves := halves[cookie := Half(name, isDir, 0, Waiting, false)];
      mvFrom := mvFrom + {cookie};
    }

    /** The region of `addMvTo` under the lock: what the handler is to be called with. */
    method AddMvTo(cookie: nat, name: string, isDir: bool) returns (op: Op, oldName: string)
      requires Invariant(Value()) && cookie !in arrivals
      modifies this
      ensures Value() == AfterTo(old(Value()), cookie, name, isDir)
      ensures Invariant(Value())
      ensures cookie in arrivals && op == arrivals[cookie].op && oldName == arrivals[cookie].oldName
    {
      StepKeepsInvariant(Value(), To(cookie, name, isDir), AfterTo(Value(), cookie, name, isDir));
      ghost var hadFrom := cookie in halves;
      oldName := "";
      op := Index;
      if cookie in mvFrom {
        oldName := halves[cookie].name;
        op := Rename;
        halves := halves[cookie := halves[cookie].(closes := halves[cookie].closes + 1)];
      }
      arrivals := arrivals[cookie := Arrival(name, isDir, op, oldName, hadFrom, |sent|, false)];
    }
  }
}
