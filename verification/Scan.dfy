/** The first scan: mark every row offline, index what the walk finds, sweep what stayed offline. */
module Scan {
  import opened Paths
  import opened Ignore
  import opened Walk
  import opened WatchMap
  import opened Objects
  import opened Pipeline

  function VisibleUnder(fs: Tree, roots: seq<string>): Tree {
    map x | x in Visible(fs) && exists r | r in roots :: AtOrUnder(x, r) :: fs[x]
  }

  lemma UnderSplit(fs: Tree, roots: seq<string>, dirs: set<string>, nodes: Tree)
    requires roots != []
    ensures var first, rest := VisibleWithin(fs, roots[0]), VisibleUnder(fs, roots[1..]);
            && (nodes + first) + rest == nodes + VisibleUnder(fs, roots)
            && (dirs + DirsOf(first)) + DirsOf(rest) == dirs + DirsOf(VisibleUnder(fs, roots))
  {
    var first, rest := VisibleWithin(fs, roots[0]), VisibleUnder(fs, roots[1..]);
    forall x | x in Visible(fs)
      ensures (exists r | r in roots :: AtOrUnder(x, r)) <==>
          AtOrUnder(x, roots[0]) || (exists r | r in roots[1..] :: AtOrUnder(x, r))
    {
      if r :| r in roots && AtOrUnder(x, r) {
        assert r == roots[0] || r in roots[1..];
      }
    }
    UnionTwice(first, rest, VisibleUnder(fs, roots), dirs, nodes);
  }

  lemma {:induction false} WalkRootsHolds(fs: Tree, app: App, roots: seq<string>, now: int, dirs: set<string>,
      nodes: Tree)
    requires Closed(fs) && forall r :: r in roots ==> r in fs
    requires AppHolds(app, dirs, nodes, false)
    ensures AppHolds(WalkRoots(fs, app, roots, now), dirs + DirsOf(VisibleUnder(fs, roots)),
                     nodes + VisibleUnder(fs, roots), false)
    decreases |roots|
  {
    if roots == [] {
      assert nodes + VisibleUnder(fs, []) == nodes && dirs + DirsOf(VisibleUnder(fs, [])) == dirs;
    } else {
      var first := VisibleWithin(fs, roots[0]);
      WalkHolds(fs, app, roots[0], now, dirs, nodes, false);
      WalkRootsHolds(fs, WalkStartingAt(fs, app, roots[0], now), roots[1..], now, dirs + DirsOf(first), nodes + first);
      UnderSplit(fs, roots, dirs, nodes);
    }
  }

  lemma SweepHolds(t: Table, nodes: Tree)
    requires OnlineHolds(t, nodes)
    ensures TableHolds(OfflineDeleted(t), nodes)
  {
    var t' := OfflineDeleted(t);
    forall x | x in nodes ensures HasPath(t'.rows, x) {
      var id :| id in t.rows && t.rows[id].path == x;
      assert RowHolds(t.rows[id], nodes);
      assert t'.rows[id].path == x;
    }
    forall id | id in t'.rows ensures RowHolds(t'.rows[id], nodes) && t'.rows[id].path in nodes {
      assert RowHolds(t.rows[id], nodes);
    }
  }

  // What the scan keeps of earlier rows, and what it leaves pending.

  /** Every earlier row is still there under its id, with its path, bookmark and media columns. */
  ghost predicate Retains(t0: Table, t: Table) {
    forall id :: id in t0.rows ==>
      id in t.rows && t.rows[id].path == t0.rows[id].path
      && t.rows[id].bookmark == t0.rows[id].bookmark && t.rows[id].info == t0.rows[id].info
  }

  /** Online videos wait for reindexing, and a dirty online row implies the flag. */
  ghost predicate Pending(app: App) {
    forall id :: id in app.table.rows && app.table.rows[id].online ==>
      (app.table.rows[id].typ == Video ==> app.table.rows[id].reindexAt.Some?) && app.dirtyFlag
  }

  ghost predicate ScanKeeps(t0: Table, app: App) {
    WellFormed(app.table) && Retains(t0, app.table) && Pending(app)
  }

  lemma VisitKeeps(t0: Table, fs: Tree, app: App, x: string, now: int)
    requires ScanKeeps(t0, app)
    ensures ScanKeeps(t0, Visit(fs, app, x, now))
  {
    if x in Visible(fs) {
      AddKeepsWellFormed(app.table, fs[x], x, now);
    }
  }

  lemma {:induction false} VisitEachKeeps(t0: Table, fs: Tree, app: App, xs: seq<string>, now: int)
    requires ScanKeeps(t0, app)
    ensures ScanKeeps(t0, VisitEach(fs, app, xs, now))
    decreases |xs|
  {
    if xs != [] {
      VisitKeeps(t0, fs, app, xs[0], now);
      VisitEachKeeps(t0, fs, Visit(fs, app, xs[0], now), xs[1..], now);
    }
  }

  lemma {:induction false} WalkRootsKeeps(t0: Table, fs: Tree, app: App, roots: seq<string>, now: int)
    requires Closed(fs) && ScanKeeps(t0, app)
    ensures ScanKeeps(t0, WalkRoots(fs, app, roots, now))
    decreases |roots|
  {
    if roots != [] {
      if roots[0] in fs {
        VisitEachKeeps(t0, fs, app, Visits(fs, roots[0], true), now);
      }
      WalkRootsKeeps(t0, fs, WalkStartingAt(fs, app, roots[0], now), roots[1..], now);
    }
  }

  lemma AllUnderRoots(fs: Tree, roots: seq<string>)
    requires WellFormedTree(fs, roots)
    ensures VisibleUnder(fs, roots) == Visible(fs)
  {
    forall x | x in Visible(fs) ensures exists r | r in roots :: AtOrUnder(x, r) {
      var r := SomeRoot(fs, roots, x);
    }
  }

  lemma OfflineHoldsNothing(t: Table)
    requires WellFormed(t)
    ensures OnlineHolds(AllOffline(t), map[])
  {
  }

  lemma NothingHeld(table: Table, dirtyFlag: bool, firstWd: nat)
    requires WellFormed(table)
    ensures AppHolds(BeforeWalks(table, dirtyFlag, firstWd), {}, map[], false)
  {
    OfflineHoldsNothing(table);
  }

  /** After the walks everything visible is watched and online; earlier rows may still be there offline. */
  lemma WalkedHolds(fs: Tree, roots: seq<string>, table: Table, dirtyFlag: bool, firstWd: nat, now: int)
    requires WellFormedTree(fs, roots) && WellFormed(table) && Closed(fs)
    ensures AppHolds(WalkRoots(fs, BeforeWalks(table, dirtyFlag, firstWd), roots, now), DirsOf(Visible(fs)),
                     Visible(fs), false)
  {
    hide AppHolds, Visible;
    NothingHeld(table, dirtyFlag, firstWd);
    WalkRootsHolds(fs, BeforeWalks(table, dirtyFlag, firstWd), roots, now, {}, map[]);
    AllUnderRoots(fs, roots);
    var none: Tree := map[];
    assert none + Visible(fs) == Visible(fs) && {} + DirsOf(Visible(fs)) == DirsOf(Visible(fs));
  }

  /** Whatever the table held before, after the scan watch map, kernel and index agree with the tree. */
  lemma StartAgrees(fs: Tree, roots: seq<string>, table: Table, dirtyFlag: bool, firstWd: nat, now: int)
    requires WellFormedTree(fs, roots) && WellFormed(table) && Closed(fs)
    ensures Agrees(fs, Start(fs, roots, table, dirtyFlag, firstWd, now))
  {
    hide Visible, WatchHolds, OnlineHolds;
    WalkedHolds(fs, roots, table, dirtyFlag, firstWd, now);
    SweepHolds(WalkRoots(fs, BeforeWalks(table, dirtyFlag, firstWd), roots, now).table, Visible(fs));
  }

  /** Rows whose path is still there keep id, bookmark and media columns; every video is pending,
      every folder public; and a pending row comes with the dirty flag set. */
  lemma StartRetains(fs: Tree, roots: seq<string>, table: Table, dirtyFlag: bool, firstWd: nat, now: int, id: nat)
    requires WellFormedTree(fs, roots) && WellFormed(table) && Closed(fs)
    ensures var app := Start(fs, roots, table, dirtyFlag, firstWd, now);
            && (id in table.rows && table.rows[id].path in Visible(fs) ==>
                  id in app.table.rows && app.table.rows[id].path == table.rows[id].path
                  && app.table.rows[id].bookmark == table.rows[id].bookmark
                  && app.table.rows[id].info == table.rows[id].info)
            && (id in app.table.rows ==>
                  (app.table.rows[id].typ == Video <==> app.table.rows[id].reindexAt.Some?) && app.dirtyFlag)
  {
    hide Visible;
    var app1 := BeforeWalks(table, dirtyFlag, firstWd);
    var app2 := WalkRoots(fs, app1, roots, now);
    assert ScanKeeps(table, app1);
    WalkRootsKeeps(table, fs, app1, roots, now);
    WalkedHolds(fs, roots, table, dirtyFlag, firstWd, now);
    if id in app2.table.rows {
      assert RowHolds(app2.table.rows[id], Visible(fs));
    }
  }

  // No path is indexed twice.

  function ScanOrder(fs: Tree, roots: seq<string>): seq<string>
    requires Closed(fs) && forall r :: r in roots ==> r in fs
  {
    if roots == [] then [] else Visits(fs, roots[0], true) + ScanOrder(fs, roots[1..])
  }

  /** With roots that neither repeat nor contain each other, one scan visits no path twice. */
  lemma {:induction false} ScanVisitsOnce(fs: Tree, roots: seq<string>)
    requires Closed(fs) && forall r :: r in roots ==> r in fs
    requires forall i, j :: 0 <= i < j < |roots| ==> Disjoint(roots[i], roots[j])
    ensures ParentsFirst(ScanOrder(fs, roots))
    ensures forall x :: x in ScanOrder(fs, roots) ==> exists r :: r in roots && AtOrUnder(x, r)
    decreases |roots|
  {
    if roots != [] {
      var first := Visits(fs, roots[0], true);
      ScanVisitsOnce(fs, roots[1..]);
      VisitsOrdered(fs, roots[0], true);
      VisitsWithin(fs, roots[0], true);
      forall x, y | x in first && y in ScanOrder(fs, roots[1..]) ensures !AtOrUnder(x, y) {
        var r :| r in roots[1..] && AtOrUnder(y, r);
        if AtOrUnder(x, y) {
          UnderTransitive(x, y, r);
          DisjointSubtrees(x, roots[0], r);
        }
      }
      ParentsFirstAppend(first, ScanOrder(fs, roots[1..]));
      forall x | x in ScanOrder(fs, roots) ensures exists r :: r in roots && AtOrUnder(x, r) {
        if x in first {
          assert roots[0] in roots;
        } else {
          var r :| r in roots[1..] && AtOrUnder(x, r);
          assert r in roots;
        }
      }
    }
  }
}
