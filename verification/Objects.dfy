/** The `objects` table and the stored procedures that maintain it. */
module Objects {
  import opened Paths

  datatype Option<+T> = None | Some(value: T)

  datatype ObjectType = Folder | Video

  datatype VideoInfo = VideoInfo(
    format: string, fileSize: int, videoCodec: string, audioCodec: string, width: int, height: int,
    channels: int, bitrate: int, frequency: int, duration: int, date: int)

  /** The column defaults of a newly inserted row. */
  const NO_INFO := VideoInfo("", 0, "", "", 0, 0, 0, 0, 0, 0, 0)

  datatype Row = Row(path: string, typ: ObjectType, info: VideoInfo, bookmark: Option<int>,
                     online: bool, reindexAt: Option<int>)

  /** Rows by primary key, and the next value of the id sequence. */
  datatype Table = Table(rows: map<nat, Row>, nextId: nat)

  const EMPTY_TABLE := Table(map[], 1)

  predicate UniquePaths(rows: map<nat, Row>) {
    forall i, j | i in rows && j in rows && i != j :: rows[i].path != rows[j].path
  }

  predicate WellFormed(t: Table) {
    && UniquePaths(t.rows)
    && t.nextId > 0
    && forall id | id in t.rows :: 0 < id < t.nextId
  }

  predicate HasPath(rows: map<nat, Row>, path: string) {
    exists id | id in rows :: rows[id].path == path
  }

  // index_add

  function TypeOf(isDir: bool): ObjectType {
    if isDir then Folder else Video
  }

  function ReindexAtOf(isDir: bool, now: int): Option<int> {
    if isDir then None else Some(now + 10)
  }

  /** The upsert. A conflict on `path` keeps the id, the bookmark and the media columns;
      the sequence advances either way. */
  function IndexAdded(t: Table, isDir: bool, path: string, now: int): Table {
    var typ, reindexAt := TypeOf(isDir), ReindexAtOf(isDir, now);
    var rows :=
      if HasPath(t.rows, path) then
        map id | id in t.rows ::
          if t.rows[id].path == path then t.rows[id].(typ := typ, online := true, reindexAt := reindexAt)
          else t.rows[id]
      else t.rows[t.nextId := Row(path, typ, NO_INFO, None, true, reindexAt)];
    Table(rows, t.nextId + 1)
  }

  // index_delete

  /** What one removal covers: the path itself and, for a directory, everything below it. */
  predicate Hits(path: string, isDir: bool, victim: string) {
    victim == path || (isDir && Under(victim, path))
  }

  function IndexDeleted(t: Table, isDir: bool, path: string): Table {
    Table(map id | id in t.rows && !Hits(path, isDir, t.rows[id].path) :: t.rows[id], t.nextId)
  }

  // index_rename

  /** `SUBSTRING(s, from)`, counting from 1. */
  function SqlSubstring(s: string, from: nat): string
    requires from > 0
  {
    if from - 1 <= |s| then s[from - 1..] else ""
  }

  function RenameSelf(rows: map<nat, Row>, from: string, to: string): map<nat, Row> {
    map id | id in rows :: if rows[id].path == from then rows[id].(path := to) else rows[id]
  }

  function RenameBelow(rows: map<nat, Row>, from: string, to: string): map<nat, Row> {
    map id | id in rows ::
      if from + "/" <= rows[id].path
      then rows[id].(path := to + "/" + SqlSubstring(rows[id].path, |from| + 2))
      else rows[id]
  }

  /** Both statements run in one transaction; a statement whose result would repeat
      a path fails and the whole call is rolled back. */
  function IndexRenamed(t: Table, isDir: bool, from: string, to: string): (Table, bool) {
    var rows1 := RenameSelf(t.rows, from, to);
    if !UniquePaths(rows1) then (t, false)
    else if !isDir then (Table(rows1, t.nextId), true)
    else
      var rows2 := RenameBelow(rows1, from, to);
      if !UniquePaths(rows2) then (t, false) else (Table(rows2, t.nextId), true)
  }

  // The two scan statements.

  function AllOffline(t: Table): Table {
    Table(map id | id in t.rows :: if t.rows[id].online then t.rows[id].(online := false) else t.rows[id], t.nextId)
  }

  function OfflineDeleted(t: Table): Table {
    Table(map id | id in t.rows && t.rows[id].online :: t.rows[id], t.nextId)
  }

  // What the procedures keep.

  lemma AddKeepsWellFormed(t: Table, isDir: bool, path: string, now: int)
    requires WellFormed(t)
    ensures WellFormed(IndexAdded(t, isDir, path, now))
  {
  }

  /** The upsert: afterwards one row has the path, online, with the type asked for, public if a folder and
      pending for ten seconds if a video. A row that was there keeps its id, bookmark and media columns;
      a new one gets an id that was never used. No other row changes. */
  lemma AddOutcome(t: Table, isDir: bool, path: string, now: int) returns (id: nat)
    requires WellFormed(t)
    ensures var rows := IndexAdded(t, isDir, path, now).rows;
            && rows.Keys == t.rows.Keys + {id}
            && rows[id].path == path && rows[id].online && (rows[id].typ == Folder <==> isDir)
            && rows[id].reindexAt == (if isDir then None else Some(now + 10))
            && (forall i :: i in rows && i != id ==> rows[i].path != path && rows[i] == t.rows[i])
            && if id in t.rows then
                 t.rows[id].path == path && rows[id].info == t.rows[id].info && rows[id].bookmark == t.rows[id].bookmark
               else
                 !HasPath(t.rows, path) && (forall i :: i in t.rows ==> i < id)
                 && rows[id].info == NO_INFO && rows[id].bookmark == None
  {
    if HasPath(t.rows, path) {
      id :| id in t.rows && t.rows[id].path == path;
    } else {
      id := t.nextId;
    }
  }

  lemma DeleteKeepsWellFormed(t: Table, isDir: bool, path: string)
    requires WellFormed(t)
    ensures WellFormed(IndexDeleted(t, isDir, path))
  {
  }

  lemma AddPaths(t: Table, isDir: bool, path: string, now: int, p: string)
    requires WellFormed(t)
    ensures HasPath(IndexAdded(t, isDir, path, now).rows, p) <==> p == path || HasPath(t.rows, p)
  {
    var t' := IndexAdded(t, isDir, path, now);
    if id :| id in t.rows && t.rows[id].path == p {
      assert t'.rows[id].path == p;
    } else if p == path {
      assert t'.rows[t.nextId].path == p;
    }
  }

  lemma DeletePaths(t: Table, isDir: bool, path: string, p: string)
    ensures HasPath(IndexDeleted(t, isDir, path).rows, p) <==> HasPath(t.rows, p) && !Hits(path, isDir, p)
  {
    var t' := IndexDeleted(t, isDir, path);
    if HasPath(t.rows, p) && !Hits(path, isDir, p) {
      var id :| id in t.rows && t.rows[id].path == p;
      assert t'.rows[id].path == p;
    }
  }

  /** What moves in a rename: the row itself and, for a directory, everything below it. */
  function MovedPath(p: string, isDir: bool, from: string, to: string): string {
    if Hits(from, isDir, p) then Rebase(p, from, to) else p
  }

  /** The `length + 2` substring is the same rebasing as `newPath + path[len(oldPath):]`. */
  lemma SubstringIsRebase(p: string, from: string, to: string)
    requires Under(p, from)
    ensures to + "/" + SqlSubstring(p, |from| + 2) == Rebase(p, from, to)
  {
    assert p[|from|..] == "/" + p[|from| + 1..];
  }

  /** No row outside the moved subtree holds a path that the rename would produce. */
  predicate TargetFree(t: Table, isDir: bool, from: string, to: string) {
    forall i, j | i in t.rows && j in t.rows && Hits(from, isDir, t.rows[i].path) ::
      Rebase(t.rows[i].path, from, to) != t.rows[j].path
  }

  function MovedRows(rows: map<nat, Row>, isDir: bool, from: string, to: string): map<nat, Row> {
    map id | id in rows :: rows[id].(path := MovedPath(rows[id].path, isDir, from, to))
  }

  lemma SelfRow(p: string, from: string, to: string)
    requires Disjoint(from, to)
    ensures Rebase(from, from, to) == to
    ensures !Under(to, from)
  {
    assert from[|from|..] == "";
  }

  /** The two statements, seen from one path. */
  lemma StatementsPath(p: string, from: string, to: string)
    requires Disjoint(from, to)
    ensures var p1 := if p == from then to else p;
            && p1 == MovedPath(p, false, from, to)
            && (if Under(p1, from) then to + "/" + SqlSubstring(p1, |from| + 2) else p1) == MovedPath(p, true, from, to)
  {
    SelfRow(from, from, to);
    if Under(p, from) {
      SubstringIsRebase(p, from, to);
    }
  }

  lemma StatementsMove(t: Table, isDir: bool, from: string, to: string)
    requires Disjoint(from, to)
    ensures !isDir ==> RenameSelf(t.rows, from, to) == MovedRows(t.rows, false, from, to)
    ensures RenameBelow(RenameSelf(t.rows, from, to), from, to) == MovedRows(t.rows, true, from, to)
  {
    hide MovedPath;
    forall id | id in t.rows
      ensures RenameSelf(t.rows, from, to)[id] == MovedRows(t.rows, false, from, to)[id]
      ensures RenameBelow(RenameSelf(t.rows, from, to), from, to)[id] == MovedRows(t.rows, true, from, to)[id]
    {
      StatementsPath(t.rows[id].path, from, to);
    }
  }

  lemma MovedUnique(t: Table, isDir: bool, from: string, to: string)
    requires UniquePaths(t.rows) && Disjoint(from, to)
    ensures UniquePaths(MovedRows(t.rows, isDir, from, to)) <==> TargetFree(t, isDir, from, to)
  {
    var rows := MovedRows(t.rows, isDir, from, to);
    forall i, j | i in t.rows && j in t.rows && Hits(from, isDir, t.rows[i].path)
      ensures Hits(from, isDir, t.rows[j].path) ==>
        (Rebase(t.rows[i].path, from, to) == Rebase(t.rows[j].path, from, to) ==> t.rows[i].path == t.rows[j].path)
      ensures Hits(from, isDir, t.rows[j].path) ==> Rebase(t.rows[i].path, from, to) != t.rows[j].path
    {
      if Hits(from, isDir, t.rows[j].path) {
        RebaseRoundTrip(t.rows[i].path, from, to);
        RebaseRoundTrip(t.rows[j].path, from, to);
        DisjointSubtrees(t.rows[j].path, from, to);
      }
    }
    if !TargetFree(t, isDir, from, to) {
      var i, j :| i in t.rows && j in t.rows && Hits(from, isDir, t.rows[i].path)
                  && Rebase(t.rows[i].path, from, to) == t.rows[j].path;
      assert rows[i].path == rows[j].path && i != j;
    }
  }

  lemma FirstStatementOk(t: Table, isDir: bool, from: string, to: string)
    requires UniquePaths(t.rows) && Disjoint(from, to)
    requires TargetFree(t, isDir, from, to)
    ensures UniquePaths(RenameSelf(t.rows, from, to))
  {
    StatementsMove(t, false, from, to);
    SelfRow(from, from, to);
    assert TargetFree(t, false, from, to);
    MovedUnique(t, false, from, to);
  }

  /** `index_rename` succeeds exactly when no produced path is already indexed. It then rebases
      exactly the moved rows, touching nothing but their path; otherwise it changes nothing. */
  lemma RenameOutcome(t: Table, isDir: bool, from: string, to: string)
    requires WellFormed(t) && Disjoint(from, to)
    ensures IndexRenamed(t, isDir, from, to).1 <==> TargetFree(t, isDir, from, to)
    ensures IndexRenamed(t, isDir, from, to).0 ==
            if TargetFree(t, isDir, from, to) then Table(MovedRows(t.rows, isDir, from, to), t.nextId) else t
    ensures WellFormed(IndexRenamed(t, isDir, from, to).0)
  {
    StatementsMove(t, isDir, from, to);
    MovedUnique(t, isDir, from, to);
    if TargetFree(t, isDir, from, to) {
      FirstStatementOk(t, isDir, from, to);
    }
  }

  lemma MovedPathBack(p: string, isDir: bool, from: string, to: string)
    requires Disjoint(from, to) && !AtOrUnder(p, to)
    ensures MovedPath(MovedPath(p, isDir, from, to), isDir, to, from) == p
  {
    if Hits(from, isDir, p) {
      RebaseRoundTrip(p, from, to);
      SelfRow(p, from, to);
    }
  }

  lemma MovedRowsBack(rows: map<nat, Row>, isDir: bool, from: string, to: string)
    requires Disjoint(from, to)
    requires forall id :: id in rows ==> !AtOrUnder(rows[id].path, to)
    ensures MovedRows(MovedRows(rows, isDir, from, to), isDir, to, from) == rows
  {
    forall id | id in rows
      ensures MovedPath(MovedPath(rows[id].path, isDir, from, to), isDir, to, from) == rows[id].path
    {
      MovedPathBack(rows[id].path, isDir, from, to);
    }
  }

  lemma FreeTarget(t: Table, isDir: bool, from: string, to: string)
    requires forall id :: id in t.rows ==> !AtOrUnder(t.rows[id].path, to)
    ensures TargetFree(t, isDir, from, to)
  {
    forall i | i in t.rows && Hits(from, isDir, t.rows[i].path)
      ensures AtOrUnder(Rebase(t.rows[i].path, from, to), to)
    {
      RebaseRoundTrip(t.rows[i].path, from, to);
    }
  }

  /** Renaming into a free subtree succeeds, and renaming back restores the table. */
  lemma RenameBack(t: Table, isDir: bool, from: string, to: string)
    requires WellFormed(t) && Disjoint(from, to)
    requires forall id :: id in t.rows ==> !AtOrUnder(t.rows[id].path, to)
    ensures IndexRenamed(t, isDir, from, to).1
    ensures IndexRenamed(IndexRenamed(t, isDir, from, to).0, isDir, to, from) == (t, true)
  {
    FreeTarget(t, isDir, from, to);
    RenameOutcome(t, isDir, from, to);
    var t' := IndexRenamed(t, isDir, from, to).0;
    MovedRowsBack(t.rows, isDir, from, to);
    MovedUnique(t', isDir, to, from);
    RenameOutcome(t', isDir, to, from);
  }

  /** Every indexed path is a root or has its directory indexed as a folder. */
  predicate ParentClosed(rows: map<nat, Row>, roots: seq<string>) {
    forall id | id in rows && rows[id].path !in roots :: HasFolder(rows, Dir(rows[id].path))
  }

  predicate HasFolder(rows: map<nat, Row>, path: string) {
    exists id | id in rows :: rows[id].path == path && rows[id].typ == Folder
  }

  /** Where a moved row finds its parent. */
  lemma MovedParent(p: string, from: string, to: string)
    requires Clean(p) && Clean(from) && Clean(to) && Disjoint(from, to)
    ensures var q := MovedPath(p, true, from, to);
            Dir(q) == if p == from then Dir(to) else MovedPath(Dir(p), true, from, to)
    ensures p == from ==> MovedPath(Dir(to), true, from, to) == Dir(to)
  {
    SelfRow(from, from, to);
    if Under(p, from) {
      BelowShape(p, from);
      RebaseClean(p, from, to);
    } else if p == from {
      DirOutside(to, from);
    } else {
      DirOutside(p, from);
    }
  }

  /** A successful rename below an indexed folder keeps the table closed under parents. */
  lemma RenameKeepsParentClosed(t: Table, roots: seq<string>, from: string, to: string)
    requires WellFormed(t) && ParentClosed(t.rows, roots)
    requires Clean(from) && Clean(to) && Disjoint(from, to)
    requires forall id :: id in t.rows ==> Clean(t.rows[id].path)
    requires forall r :: r in roots ==> !AtOrUnder(r, from)
    requires TargetFree(t, true, from, to) && HasFolder(t.rows, Dir(to))
    ensures ParentClosed(IndexRenamed(t, true, from, to).0.rows, roots)
  {
    RenameOutcome(t, true, from, to);
    var rows' := MovedRows(t.rows, true, from, to);
    forall id | id in rows' && rows'[id].path !in roots ensures HasFolder(rows', Dir(rows'[id].path)) {
      var p := t.rows[id].path;
      MovedParent(p, from, to);
      var d := if p == from then Dir(to) else Dir(p);
      assert HasFolder(t.rows, d);
      var parent :| parent in t.rows && t.rows[parent].path == d && t.rows[parent].typ == Folder;
      assert rows'[parent].path == Dir(rows'[id].path) && rows'[parent].typ == Folder;
    }
  }

  lemma DirOutside(p: string, from: string)
    requires Clean(p) && Clean(from) && !AtOrUnder(p, from)
    ensures !AtOrUnder(Dir(p), from)
  {
    CleanShape(from);
    UnderViaDir(p, from);
  }

  /** The table in the database, changed one statement at a time. */
  class ObjectsTable {
    var rows: map<nat, Row>
    var nextId: nat

    ghost function State(): Table
      reads this
    {
      Table(rows, nextId)
    }

    constructor ()
      ensures State() == EMPTY_TABLE
    {
      rows, nextId := map[], 1;
    }

    method IndexAdd(isDir: bool, fullPath: string, now: int)
      modifies this
      ensures State() == IndexAdded(old(State()), isDir, fullPath, now)
    {
      var id := nextId;
      nextId := nextId + 1;
      var typ, reindexAt := TypeOf(isDir), ReindexAtOf(isDir, now);
      if HasPath(rows, fullPath) {
        rows := map i | i in rows ::
          if rows[i].path == fullPath then rows[i].(typ := typ, online := true, reindexAt := reindexAt) else rows[i];
      } else {
        rows := rows[id := Row(fullPath, typ, NO_INFO, None, true, reindexAt)];
      }
    }

    method IndexDelete(isDir: bool, fullPath: string)
      modifies this
      ensures State() == IndexDeleted(old(State()), isDir, fullPath)
    {
      rows := map id | id in rows && rows[id].path != fullPath :: rows[id];
      if isDir {
        rows := map id | id in rows && !(fullPath + "/" <= rows[id].path) :: rows[id];
      }
    }

    /** ok is false when the database reports a unique violation. */
    method IndexRename(isDir: bool, oldPath: string, newPath: string) returns (ok: bool)
      modifies this
      ensures (State(), ok) == IndexRenamed(old(State()), isDir, oldPath, newPath)
    {
      var saved := rows;
      rows := map id | id in rows :: if rows[id].path == oldPath then rows[id].(path := newPath) else rows[id];
      if !UniquePaths(rows) {
        rows := saved;
        return false;
      }
      if isDir {
        var oldPathLen := |oldPath| + 2;
        var oldPathWithSlash := oldPath + "/";
        rows := map id | id in rows ::
          if oldPathWithSlash <= rows[id].path
          then rows[id].(path := newPath + "/" + SqlSubstring(rows[id].path, oldPathLen)) else rows[id];
        if !UniquePaths(rows) {
          rows := saved;
          return false;
        }
      }
      ok := true;
    }

    method AllObjectsToOffline()
      modifies this
      ensures State() == AllOffline(old(State()))
    {
      rows := map id | id in rows :: if rows[id].online then rows[id].(online := false) else rows[id];
    }

    method DeleteOfflineObjects()
      modifies this
      ensures State() == OfflineDeleted(old(State()))
    {
      rows := map id | id in rows && rows[id].online :: rows[id];
    }
  }
}
