/** The reindexer: one pass over the rows that are ready, in chunks. */
module Reindex {
  import opened Ordering
  import opened Objects
  import opened Queries
  import opened Updates

  /** What reading a file comes to. */
  datatype Probe = Found(info: VideoInfo, bookmark: NullInt64) | Unreadable

  /** The row after its object was reindexed: an unreadable file and a folder change nothing. */
  function Reindexed(row: Row, probe: Probe): Row {
    if row.typ.Video? && probe.Found? then Overwritten(row, Some(probe.info), Some(probe.bookmark)) else row
  }

  predicate IsReady(row: Row, now: int) {
    row.reindexAt.Some? && row.reindexAt.value <= now
  }

  function AfterVisits(rows: map<nat, Row>, visited: seq<nat>, probes: nat -> Probe): map<nat, Row> {
    map id | id in rows :: if id in visited then Reindexed(rows[id], probes(id)) else rows[id]
  }

  ghost predicate Monotone(times: nat -> int) {
    forall i, j :: i <= j ==> times(i) <= times(j)
  }

  /** What a pass has done once it has looked at every id up to `last`, in n queries. */
  ghost predicate Scanned(rows: map<nat, Row>, times: nat -> int, n: nat, last: nat, visited: seq<nat>) {
    && SortedBy(visited, (a, b) => a < b)
    && (forall id :: id in visited ==> id in rows && id <= last && IsReady(rows[id], times(n)))
    && (forall id :: id in rows && id <= last && IsReady(rows[id], times(0)) ==> id in visited)
  }

  /** A page: the first rows that match, in ascending order of id. */
  ghost predicate FirstOf(S: set<nat>, page: seq<nat>) {
    && SortedBy(page, (a, b) => a < b)
    && (forall id :: id in page ==> id in S)
    && (forall id, seen :: id in S && id !in page && seen in page ==> seen < id)
    && (page == [] ==> S == {})
  }

  lemma PageIsFirst(t: Table, f: Filter, now: int, page: seq<nat>, total: nat)
    requires Answers(t, f, now, page, total) && f.sort == SortById && f.limit > 0 && f.offset <= 0
    ensures FirstOf(MatchingIds(t, f, now), page)
  {
    hide Matches, MatchingIds;
    var ids :| Listing(t, f, now, ids) && IsWindow(ids, f.limit, f.offset, page);
    var n := |page|;
    assert page == ids[..n];
    forall i, j | 0 <= i < j < |page| ensures page[i] < page[j] {
      assert page[i] == ids[i] && page[j] == ids[j];
    }
    forall id | id in page ensures id in MatchingIds(t, f, now) { assert id in ids; }
    forall id, seen | id in MatchingIds(t, f, now) && id !in page && seen in page ensures seen < id {
      var i :| 0 <= i < |ids| && ids[i] == id;
      var j :| 0 <= j < n && page[j] == seen;
      assert i >= n && ids[j] == seen;
    }
    if page == [] {
      assert ids == [];
      assert forall id :: id in MatchingIds(t, f, now) ==> id in ids;
    }
  }

  /** The ids still ahead. */
  function Rest(rows: map<nat, Row>, last: nat): set<nat> {
    set id | id in rows && id > last
  }

  lemma RestShrinks(rows: map<nat, Row>, last: nat, last': nat)
    requires last < last' && last' in rows
    ensures |Rest(rows, last')| < |Rest(rows, last)|
  {
    var more := Rest(rows, last) - Rest(rows, last');
    assert last' in more;
    assert Rest(rows, last) == Rest(rows, last') + more;
  }

  function PageFilter(last: nat, limit: nat): Filter {
    NO_FILTER.(status := StatusReindex, sort := SortById, lastVisitedId := last, limit := limit)
  }

  const DIRTY_FILTER := NO_FILTER.(status := StatusDirty, sort := SortNone, limit := 1)

  function ReadyAhead(rows: map<nat, Row>, last: nat, now: int): set<nat> {
    set id | id in rows && id > last && IsReady(rows[id], now)
  }

  /** A page continues what was scanned, up to its last id. */
  lemma ScannedPage(rows: map<nat, Row>, times: nat -> int, n: nat, last: nat, visited: seq<nat>, page: seq<nat>)
    requires Monotone(times) && Scanned(rows, times, n, last, visited) && page != []
    requires FirstOf(ReadyAhead(rows, last, times(n)), page)
    ensures Scanned(rows, times, n, page[|page| - 1], visited + page) && page[|page| - 1] > last
    ensures forall id :: id in page ==> id in rows && id !in visited
  {
    var all, S, top := visited + page, ReadyAhead(rows, last, times(n)), page[|page| - 1];
    assert top in page;
    forall i, j | 0 <= i < j < |all| ensures all[i] < all[j] {
      if i < |visited| <= j { assert all[i] in visited && all[j] in page; }
    }
    forall id | id in page ensures id <= top && id in S && id !in visited {
      var i :| 0 <= i < |page| && page[i] == id;
    }
    forall id | id in rows && id <= top && IsReady(rows[id], times(0)) ensures id in all {
      assert times(0) <= times(n);
      assert id > last ==> id in S;
    }
  }

  lemma NothingReadyAhead(rows: map<nat, Row>, times: nat -> int, n: nat, last: nat, visited: seq<nat>)
    requires Monotone(times) && Scanned(rows, times, n, last, visited)
    requires ReadyAhead(rows, last, times(n)) == {}
    ensures forall id :: id in rows && IsReady(rows[id], times(0)) ==> id in visited
  {
    assert times(0) <= times(n);
    assert forall id :: id in rows && id > last && IsReady(rows[id], times(n)) ==>
      id in ReadyAhead(rows, last, times(n));
  }

  lemma LaterQuery(rows: map<nat, Row>, times: nat -> int, n: nat, last: nat, visited: seq<nat>)
    requires Monotone(times) && Scanned(rows, times, n, last, visited)
    ensures Scanned(rows, times, n + 1, last, visited)
  {
    assert times(n) <= times(n + 1);
  }

  lemma OneMoreVisit(rows: map<nat, Row>, visited: seq<nat>, probes: nat -> Probe, id: nat)
    requires id in rows && id !in visited
    ensures AfterVisits(rows, visited, probes)[id] == rows[id]
    ensures AfterVisits(rows, visited + [id], probes) ==
            AfterVisits(rows, visited, probes)[id := Reindexed(rows[id], probes(id))]
  {
  }

  /** The page query sees the rows past `last` as they were before the pass. */
  lemma PageMatches(rows: map<nat, Row>, nextId: nat, last: nat, limit: nat, visited: seq<nat>,
                                       probes: nat -> Probe, now: int)
    requires forall v :: v in visited ==> v <= last
    requires forall v :: v in rows ==> v > 0
    ensures MatchingIds(Table(AfterVisits(rows, visited, probes), nextId), PageFilter(last, limit), now) ==
            ReadyAhead(rows, last, now)
  {
  }

  class Reindexer {
    const db: ObjectsTable
    var dirtyFlag: bool

    constructor (db: ObjectsTable)
      ensures this.db == db && !dirtyFlag
    {
      this.db := db;
      dirtyFlag := false;
    }

    /** `Reindex` of a listed object, with what its file holds. */
    method Reindex(id: nat, row: Row, probe: Probe)
      requires id > 0 && id in db.rows && db.rows[id] == row
      modifies db
      ensures db.rows == old(db.rows)[id := Reindexed(row, probe)] && db.nextId == old(db.nextId)
      ensures db.rows.Keys == old(db.rows).Keys
      ensures forall i :: i in db.rows && i != id ==> db.rows[i] == old(db.rows)[i]
      ensures db.rows[id].path == row.path && db.rows[id].typ == row.typ && db.rows[id].online == row.online
      ensures row.typ == Video && probe.Found? ==>
        && db.rows[id].info == probe.info && db.rows[id].reindexAt == None
        && db.rows[id].bookmark == if probe.bookmark.valid then Some(probe.bookmark.value) else None
      ensures row.typ == Folder || probe == Unreadable ==> db.rows[id] == row
    {
      if row.typ != Video || probe.Unreadable? {
        return;
      }
      var o := new Object(id, row);
      FreshObjectOverwrites(row, o.Mem(), Some(probe.info), Some(probe.bookmark));
      var outcome := UpdateObject(db, o, Some(probe.info), Some(probe.bookmark), true);
    }

    /** The page query, in a pass that has visited ids up to `last`. */
    method NextPage(last: nat, limit: nat, now: int, ghost rows: map<nat, Row>, ghost visited: seq<nat>,
        ghost probes: nat -> Probe)
      returns (page: seq<nat>)
      requires limit > 0 && WellFormed(Table(rows, db.nextId)) && db.rows == AfterVisits(rows, visited, probes)
      requires forall v :: v in visited ==> v <= last
      ensures FirstOf(ReadyAhead(rows, last, now), page)
    {
      KeptWellFormed(Table(rows, db.nextId), visited, probes);
      var total;
      page, total := GetObjects(Table(db.rows, db.nextId), PageFilter(last, limit), now);
      PageIsFirst(Table(db.rows, db.nextId), PageFilter(last, limit), now, page, total);
      PageMatches(rows, db.nextId, last, limit, visited, probes, now);
    }

    /** The loop over one page. */
    method VisitPage(page: seq<nat>, probes: nat -> Probe, ghost rows: map<nat, Row>, ghost visited: seq<nat>)
      requires db.rows == AfterVisits(rows, visited, probes)
      requires forall id :: id in page ==> id in rows && id > 0 && id !in visited
      requires SortedBy(page, (a, b) => a < b)
      modifies db
      ensures db.rows == AfterVisits(rows, visited + page, probes) && db.nextId == old(db.nextId)
    {
      assert visited + page[..0] == visited;
      for k := 0 to |page|
        invariant db.rows == AfterVisits(rows, visited + page[..k], probes) && db.nextId == old(db.nextId)
      {
        assert page[k] in page && page[k] !in page[..k];
        assert visited + page[..k + 1] == visited + page[..k] + [page[k]];
        OneMoreVisit(rows, visited + page[..k], probes, page[k]);
        Reindex(page[k], db.rows[page[k]], probes(page[k]));
      }
      assert page[..|page|] == page;
    }

    /** The final check: is any row still dirty? */
    method StillDirty(now: int) returns (left: bool)
      requires WellFormed(Table(db.rows, db.nextId))
      ensures left <==> exists id :: id in db.rows && db.rows[id].reindexAt.Some?
    {
      var items, _ := GetObjects(Table(db.rows, db.nextId), DIRTY_FILTER, now);
      AnyDirty(Table(db.rows, db.nextId), now, items);
      left := items != [];
    }

    /** One pass. However long the chunks and whatever the files hold, it ends, and it visits every row
        that was ready at its start exactly once, in ascending order of id; the flag is set again exactly
        if a dirty row is left. */
    method ReindexDirty(limit: nat, times: nat -> int, probes: nat -> Probe)
        returns (visited: seq<nat>, ghost queries: nat)
      requires limit > 0 && Monotone(times) && WellFormed(Table(db.rows, db.nextId))
      modifies this, db
      ensures db.rows == AfterVisits(old(db.rows), visited, probes) && db.nextId == old(db.nextId)
      ensures db.rows.Keys == old(db.rows).Keys
      ensures forall id :: id in db.rows ==>
        var before, after := old(db.rows)[id], db.rows[id];
        && after.path == before.path && after.typ == before.typ && after.online == before.online
        && if id in visited && before.typ == Video && probes(id).Found? then
             && after.info == probes(id).info && after.reindexAt == None
             && after.bookmark ==
                  if probes(id).bookmark.valid then Some(probes(id).bookmark.value) else None
           else after == before
      ensures !old(dirtyFlag) ==> visited == [] && !dirtyFlag
      ensures SortedBy(visited, (a, b) => a < b)
      ensures forall id :: id in visited ==>
        id in old(db.rows) && old(db.rows)[id].reindexAt.Some? && old(db.rows)[id].reindexAt.value <= times(queries)
      ensures old(dirtyFlag) ==>
        forall id | id in old(db.rows) && old(db.rows)[id].reindexAt.Some? ::
          old(db.rows)[id].reindexAt.value <= times(0) ==> id in visited
      ensures dirtyFlag <==> old(dirtyFlag) && exists id :: id in db.rows && db.rows[id].reindexAt.Some?
    {
      visited, queries := [], 0;
      ghost var rows := db.rows;
      assert AfterVisits(rows, [], probes) == rows;
      if !dirtyFlag {
        return;
      }
      dirtyFlag := false;
      var last, n := 0, 0;
      while true
        invariant db.rows == AfterVisits(rows, visited, probes) && db.nextId == old(db.nextId)
        invariant Scanned(rows, times, n, last, visited) && !dirtyFlag
        decreases |Rest(rows, last)|
      {
        var page := NextPage(last, limit, times(n), rows, visited, probes);
        if page == [] {
          NothingReadyAhead(rows, times, n, last, visited);
          break;
        }
        ScannedPage(rows, times, n, last, visited, page);
        VisitPage(page, probes, rows, visited);
        RestShrinks(rows, last, page[|page| - 1]);
        last := page[|page| - 1];
        visited := visited + page;
        LaterQuery(rows, times, n, last, visited);
        n := n + 1;
      }
      queries := n;
      KeptWellFormed(Table(rows, db.nextId), visited, probes);
      var left := StillDirty(times(n));
      if left {
        dirtyFlag := true;
      }
    }
  }

  lemma KeptWellFormed(t: Table, visited: seq<nat>, probes: nat -> Probe)
    requires WellFormed(t)
    ensures WellFormed(Table(AfterVisits(t.rows, visited, probes), t.nextId))
  {
  }

  lemma AnyDirty(t: Table, now: int, left: seq<nat>)
    requires exists ids :: Listing(t, DIRTY_FILTER, now, ids) && IsWindow(ids, 1, 0, left)
    ensures left != [] <==> exists id :: id in t.rows && t.rows[id].reindexAt.Some?
  {
    var ids :| Listing(t, DIRTY_FILTER, now, ids) && IsWindow(ids, 1, 0, left);
    assert forall id :: id in ids <==> id in t.rows && t.rows[id].reindexAt.Some?;
    if ids != [] { assert ids[0] in ids; }
  }

  /** What a pass visits while the clock stands still is determined. */
  lemma SameVisits(rows: map<nat, Row>, now: int, visited: seq<nat>, visited': seq<nat>)
    requires SortedBy(visited, (a, b) => a < b) && SortedBy(visited', (a, b) => a < b)
    requires forall id :: id in visited <==> id in rows && IsReady(rows[id], now)
    requires forall id :: id in visited' <==> id in rows && IsReady(rows[id], now)
    ensures visited == visited'
  {
    SortedUnique(visited, visited', (a, b) => a < b);
  }

  /** Two passes over equal tables while the clock stands still: whatever their chunk sizes, they visit the
      same rows in the same order, and leave equal tables and flags. */
  method ChunksDoNotMatter(a: Reindexer, b: Reindexer, limitA: nat, limitB: nat, now: int, probes: nat -> Probe)
    returns (visitedA: seq<nat>, visitedB: seq<nat>)
    requires limitA > 0 && limitB > 0 && a != b && a.db != b.db
    requires a.db.State() == b.db.State() && WellFormed(a.db.State()) && a.dirtyFlag == b.dirtyFlag
    modifies a, b, a.db, b.db
    ensures visitedA == visitedB
    ensures a.db.State() == b.db.State() && a.dirtyFlag == b.dirtyFlag
  {
    var times: nat -> int := _ => now;
    ghost var rows := a.db.rows;
    ghost var queries;
    visitedA, queries := a.ReindexDirty(limitA, times, probes);
    visitedB, queries := b.ReindexDirty(limitB, times, probes);
    if old(a.dirtyFlag) {
      SameVisits(rows, now, visitedA, visitedB);
    }
  }
}
