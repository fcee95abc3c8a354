/** The two-sided protocol between the event handler, which makes rows dirty and then sets the flag,
    and the reindexer, which takes the flag and then looks for dirty rows. Steps are single database
    statements and single atomic operations; a row may be written again while it is being probed. */
module DirtyFlag {
  import opened Ordering

  /** Where the reindexer is. `Paging` holds the rest of the current page, `Probing` its first object
      between reading the file and writing the row. */
  datatype Pass =
    | Idle
    | Paging(last: nat, page: seq<nat>)
    | Probing(id: nat, page: seq<nat>)
    | Loading
    | Querying
    | Storing

  /** `dirty` are the rows with `reindex_at` set; `owed` counts handlers between index_add and the
      store; `stale` are the rows written since the file was last probed. `visited` is the history
      of the current pass. */
  datatype State = State(dirty: map<nat, int>, flag: bool, owed: nat, pass: Pass, clock: int,
                         stale: set<nat>, visited: seq<nat>)

  const INITIAL := State(map[], false, 0, Idle, 0, {}, [])

  datatype Step =
    | Insert(id: nat)        // index_add of a video: dirty for ten seconds from now
    | Touch                  // any other Index event: a folder, or a failed index_add
    | Store                  // the handler sets the flag
    | Delete(ids: set<nat>)  // rows are removed
    | Tick(now: int)
    | Begin                  // compare-and-swap of the flag, 1 to 0
    | Page(page: seq<nat>)   // one page of the ready rows
    | PageFails
    | Probe                  // the file of the next object is read
    | Update(ok: bool)       // its row is written, or the probe failed
    | Load                   // the flag is loaded after the pass
    | Query(ok: bool)        // is any row still dirty?
    | SetFlag

  function Ready(s: State, last: nat): set<nat> {
    set id | id in s.dirty && s.dirty[id] <= s.clock && id > last
  }

  /** What the database answers to a page query: the first ready rows past `last`. */
  ghost predicate IsPage(s: State, last: nat, page: seq<nat>) {
    && SortedBy(page, (a, b) => a < b)
    && (forall id :: id in page ==> id in Ready(s, last))
    && (forall id, seen :: id in Ready(s, last) && id !in page && seen in page ==> seen < id)
    && (page == [] ==> Ready(s, last) == {})
  }

  ghost predicate Next(s: State, step: Step, s': State) {
    match step
    case Insert(id) => s' == s.(dirty := s.dirty[id := s.clock + 10], owed := s.owed + 1, stale := s.stale + {id})
    case Touch => s' == s.(owed := s.owed + 1)
    case Store => s.owed > 0 && s' == s.(flag := true, owed := s.owed - 1)
    case Delete(ids) => s' == s.(dirty := s.dirty - ids, stale := s.stale - ids)
    case Tick(now) => now >= s.clock && s' == s.(clock := now)
    case Begin => s.pass.Idle? && s.flag && s' == s.(flag := false, pass := Paging(0, []), visited := [])
    case Page(page) =>
      s.pass.Paging? && s.pass.page == [] && IsPage(s, s.pass.last, page)
      && s' == s.(pass := if page == [] then Loading else Paging(s.pass.last, page))
    case PageFails => s.pass.Paging? && s.pass.page == [] && s' == s.(pass := Loading)
    case Probe =>
      s.pass.Paging? && s.pass.page != []
      && s' == s.(pass := Probing(s.pass.page[0], s.pass.page[1..]), stale := s.stale - {s.pass.page[0]},
                  visited := s.visited + [s.pass.page[0]])
    case Update(ok) =>
      s.pass.Probing?
      && s' == s.(pass := Paging(s.pass.id, s.pass.page), dirty := if ok then s.dirty - {s.pass.id} else s.dirty)
    case Load => s.pass.Loading? && s' == s.(pass := if s.flag then Idle else Querying)
    case Query(ok) => s.pass.Querying? && s' == s.(pass := if ok && s.dirty != map[] then Storing else Idle)
    case SetFlag => s.pass.Storing? && s' == s.(flag := true, pass := Idle)
  }

  ghost predicate Run(s: State, steps: seq<Step>, s': State)
    decreases |steps|
  {
    if steps == [] then s' == s
    else exists mid :: Next(s, steps[0], mid) && Run(mid, steps[1..], s')
  }

  // No lost wakeup.

  /** A dirty row will be looked at again: the flag is set, a handler is about to set it, or the
      running pass has its final check before it. */
  ghost predicate Watched(s: State) {
    s.dirty != map[] ==> s.flag || s.owed > 0 || !s.pass.Idle?
  }

  /** The final check finds a dirty row, but the answer is lost: `o, _ := getOneObject(...)`. */
  predicate CheckLost(s: State, step: Step) {
    step == Query(false) && s.pass.Querying? && s.dirty != map[] && !s.flag && s.owed == 0
  }

  /** Every step keeps the dirty rows watched, except exactly a final check that fails. */
  lemma StepKeepsWatched(s: State, step: Step, s': State)
    requires Watched(s) && Next(s, step, s')
    ensures Watched(s') <==> !CheckLost(s, step)
  {
  }

  ghost predicate NoCheckFails(steps: seq<Step>) {
    forall i :: 0 <= i < |steps| ==> steps[i] != Query(false)
  }

  /** In every interleaving in which the final checks succeed: whenever handler and reindexer are at
      rest, a dirty row implies that the flag is set. */
  lemma {:induction false} NoLostWakeup(s: State, steps: seq<Step>, s': State)
    requires Watched(s) && Run(s, steps, s') && NoCheckFails(steps)
    ensures Watched(s')
    ensures s'.owed == 0 && s'.pass.Idle? && s'.dirty != map[] ==> s'.flag
    decreases |steps|
  {
    if steps != [] {
      var mid :| Next(s, steps[0], mid) && Run(mid, steps[1..], s');
      StepKeepsWatched(s, steps[0], mid);
      assert forall i :: 0 <= i < |steps[1..]| ==> steps[1..][i] == steps[i + 1];
      NoLostWakeup(mid, steps[1..], s');
    }
  }

  lemma RunStep(s: State, step: Step, mid: State, steps: seq<Step>, s': State)
    requires Next(s, step, mid) && Run(mid, steps, s')
    ensures Run(s, [step] + steps, s')
  {
    assert ([step] + steps)[1..] == steps;
  }

  /** One failing check is enough: the row stays dirty, nobody is due to look at it, and the next
      attempt to start a pass is skipped. */
  lemma FailedCheckLosesWakeup(id: nat)
    ensures var lost := INITIAL.(dirty := map[id := 10], stale := {id});
            && Run(INITIAL, [Insert(id), Store, Begin, Page([]), Load, Query(false)], lost)
            && !Watched(lost)
            && forall s' :: !Next(lost, Begin, s')
  {
    var s1 := INITIAL.(dirty := map[id := 10], owed := 1, stale := {id});
    var s2 := s1.(flag := true, owed := 0);
    var s3 := s2.(flag := false, pass := Paging(0, []));
    var s4 := s3.(pass := Loading);
    var s5 := s4.(pass := Querying);
    var lost := s5.(pass := Idle);
    assert IsPage(s3, 0, []) by { assert Ready(s3, 0) == {}; }
    assert Run(lost, [], lost);
    RunStep(s5, Query(false), lost, [], lost);
    RunStep(s4, Load, s5, [Query(false)], lost);
    RunStep(s3, Page([]), s4, [Load] + [Query(false)], lost);
    RunStep(s2, Begin, s3, [Page([])] + ([Load] + [Query(false)]), lost);
    RunStep(s1, Store, s2, [Begin] + ([Page([])] + ([Load] + [Query(false)])), lost);
    RunStep(INITIAL, Insert(id), s1, [Store] + ([Begin] + ([Page([])] + ([Load] + [Query(false)]))), lost);
    assert [Insert(id)] + ([Store] + ([Begin] + ([Page([])] + ([Load] + [Query(false)]))))
        == [Insert(id), Store, Begin, Page([]), Load, Query(false)];
    assert id in lost.dirty;
  }

  // What one pass covers.

  /** The pass has not missed the row: it is visited, on the current page, or still ahead. */
  ghost predicate Ahead(s: State, id: nat) {
    match s.pass
    case Paging(last, page) =>
      || id in s.visited || id in page
      || (id in s.dirty && s.dirty[id] <= s.clock && id > last && forall seen :: seen in page ==> seen < id)
    case Probing(at, page) =>
      || id in s.visited || id in page
      || (id in s.dirty && s.dirty[id] <= s.clock && id > at && forall seen :: seen in page ==> seen < id)
    case _ => id in s.visited
  }

  /** Pages are ascending and lie past the last visited id. */
  ghost predicate Ascending(s: State) {
    match s.pass
    case Paging(last, page) => SortedBy(page, (a, b) => a < b) && forall seen :: seen in page ==> last < seen
    case Probing(at, page) => SortedBy(page, (a, b) => a < b) && forall seen :: seen in page ==> at < seen
    case _ => true
  }

  predicate LeavesAlone(step: Step, id: nat) {
    step != Begin && step != PageFails && step != Insert(id) && !(step.Delete? && id in step.ids)
  }

  lemma PageKeepsAhead(s: State, page: seq<nat>, s': State, id: nat)
    requires Ascending(s) && Ahead(s, id) && Next(s, Page(page), s')
    ensures Ascending(s') && Ahead(s', id)
  {
    if id !in s.visited {
      assert id in Ready(s, s.pass.last);
    }
  }

  lemma ProbeKeepsAhead(s: State, s': State, id: nat)
    requires Ascending(s) && Ahead(s, id) && Next(s, Probe, s')
    ensures Ascending(s') && Ahead(s', id)
  {
    var page := s.pass.page;
    assert page == [page[0]] + page[1..];
    assert forall seen :: seen in page[1..] ==> seen in page;
    assert forall i :: 0 <= i < |page[1..]| ==> page[1..][i] == page[i + 1];
    assert page[0] in page;
  }

  lemma StepKeepsAhead(s: State, step: Step, s': State, id: nat)
    requires Ascending(s) && Ahead(s, id) && Next(s, step, s') && LeavesAlone(step, id)
    ensures Ascending(s') && Ahead(s', id)
  {
    match step
    case Page(page) => PageKeepsAhead(s, page, s', id);
    case Probe => ProbeKeepsAhead(s, s', id);
    case _ =>
  }

  lemma {:induction false} RunKeepsAhead(s: State, steps: seq<Step>, s': State, id: nat)
    requires Ascending(s) && Ahead(s, id) && Run(s, steps, s')
    requires forall i :: 0 <= i < |steps| ==> LeavesAlone(steps[i], id)
    ensures Ascending(s') && Ahead(s', id)
    decreases |steps|
  {
    if steps != [] {
      var mid :| Next(s, steps[0], mid) && Run(mid, steps[1..], s');
      StepKeepsAhead(s, steps[0], mid, id);
      RunKeepsAhead(mid, steps[1..], s', id);
    }
  }

  /** However the handlers interleave with it, a pass visits every row that was ready when it began,
      unless that row is written again or removed, or a page query fails. */
  lemma PassVisitsReady(s: State, mid: State, steps: seq<Step>, s': State, id: nat)
    requires Next(s, Begin, mid) && id in Ready(s, 0) && Run(mid, steps, s')
    requires forall i :: 0 <= i < |steps| ==> LeavesAlone(steps[i], id)
    requires !s'.pass.Paging? && !s'.pass.Probing?
    ensures id in s'.visited
  {
    RunKeepsAhead(mid, steps, s', id);
  }

  // A write during the probe.

  /** Every row whose file changed since it was probed will be probed again. */
  ghost predicate NoneStale(s: State) {
    forall id :: id in s.stale ==> id in s.dirty
  }

  /** The row being probed was written again after its file had been read. */
  predicate WriteLost(s: State, step: Step) {
    step == Update(true) && s.pass.Probing? && s.pass.id in s.stale
  }

  /** Every step keeps changed rows dirty, except exactly an update whose row was indexed again
      between the probe and the update: it clears the new mark as well. */
  lemma StepKeepsFresh(s: State, step: Step, s': State)
    requires NoneStale(s) && Next(s, step, s')
    ensures NoneStale(s') <==> !WriteLost(s, step)
  {
    if WriteLost(s, step) {
      assert s.pass.id in s'.stale;
    }
  }

  /** This happens: the row ends up public, with what was read before the second write. */
  lemma WriteDuringProbeIsLost(s: State)
    requires NoneStale(s) && s.pass.Probing?
    ensures var id := s.pass.id;
            exists mid, s' :: Next(s, Insert(id), mid) && Next(mid, Update(true), s')
              && id in s'.stale && id !in s'.dirty
  {
    var id := s.pass.id;
    var mid := s.(dirty := s.dirty[id := s.clock + 10], owed := s.owed + 1, stale := s.stale + {id});
    var s' := mid.(pass := Paging(id, s.pass.page), dirty := mid.dirty - {id});
    assert Next(s, Insert(id), mid) && Next(mid, Update(true), s');
  }
}
