/** From the file tree to the browse tree: what a media player sees whenever the watcher is drained. */
module Library {
  import opened Paths
  import opened Ignore
  import opened Walk
  import opened Objects
  import opened Pipeline
  import opened SqlLike
  import opened Browse
  import Roots
  import Scan

  /** Roots that are not ignored, and no visible directory with a character that LIKE interprets. */
  ghost predicate Presentable(fs: Tree, roots: seq<string>) {
    && roots != [] && Roots.Antichain(roots)
    && (forall r :: r in roots ==> !IgnoreFn(r, true))
    && (forall x :: x in Visible(fs) && Visible(fs)[x] ==> NoMeta(x))
  }

  lemma RowIsBrowsable(fs: Tree, roots: seq<string>, app: App, id: nat)
    requires WellFormedTree(fs, roots) && Agrees(fs, app) && Presentable(fs, roots)
    requires id in app.table.rows
    ensures RowBrowsable(app.table.rows[id], roots) && app.table.rows[id].path in Visible(fs)
  {
    hide NoMeta, IgnoreFn, Clean;
    var row := app.table.rows[id];
    assert row.path in Visible(fs) && RowHolds(row, Visible(fs));
    var r := SomeRoot(fs, roots, row.path);
  }

  lemma FolderIndexed(fs: Tree, app: App, d: string)
    requires Agrees(fs, app) && IsDir(Visible(fs), d)
    ensures HasFolder(app.table.rows, d)
  {
    hide IgnoreFn;
    var id :| id in app.table.rows && app.table.rows[id].path == d;
    assert RowHolds(app.table.rows[id], Visible(fs));
  }

  lemma ParentIndexed(fs: Tree, roots: seq<string>, app: App, id: nat)
    requires WellFormedTree(fs, roots) && Agrees(fs, app)
    requires id in app.table.rows && app.table.rows[id].path !in roots
    ensures HasFolder(app.table.rows, Dir(app.table.rows[id].path))
  {
    hide IgnoreFn, Clean, HasFolder;
    var x := app.table.rows[id].path;
    assert x in Visible(fs);
    TreeClosed(fs, roots);
    VisibleParent(fs, x);
    FolderIndexed(fs, app, Dir(x));
  }

  /** A library in agreement with its tree can be browsed consistently. */
  lemma AgreementIsBrowsable(fs: Tree, roots: seq<string>, app: App)
    requires WellFormedTree(fs, roots) && Agrees(fs, app) && Presentable(fs, roots)
    ensures Browsable(app.table, roots)
  {
    hide NoMeta, IgnoreFn, Clean, HasFolder;
    forall id | id in app.table.rows
      ensures RowBrowsable(app.table.rows[id], roots)
      ensures app.table.rows[id].path !in roots ==> HasFolder(app.table.rows, Dir(app.table.rows[id].path))
    {
      RowIsBrowsable(fs, roots, app, id);
      if app.table.rows[id].path !in roots { ParentIndexed(fs, roots, app, id); }
    }
    forall r | r in roots ensures Clean(r) && NoMeta(r) {
      assert IsDir(fs, r);
      assert r in Visible(fs) && Visible(fs)[r];
    }
  }

  /** Every visible path of the tree whose row is public is found by browsing from the root container,
      and leads back to it; only the directory of a single root stands for that container itself. */
  lemma TreeIsBrowsed(fs: Tree, roots: seq<string>, app: App, x: string) returns (id: nat, n: nat)
    requires WellFormedTree(fs, roots) && Agrees(fs, app) && Presentable(fs, roots)
    requires x in Visible(fs) && !(|roots| == 1 && x == roots[0])
    ensures id in app.table.rows && app.table.rows[id].path == x
    ensures app.table.rows[id].reindexAt.None? ==>
      Reach(app.table, roots, id, n) && Climb(app.table, roots, id, n) == Some(0)
  {
    hide Presentable, WellFormedTree, Reach, Climb, Browsable, IgnoreFn;
    n := 0;
    AgreementIsBrowsable(fs, roots, app);
    id :| id in app.table.rows && app.table.rows[id].path == x;
    if app.table.rows[id].reindexAt.None? {
      n := EverythingPublicIsReached(app.table, roots, id);
      ClimbsBack(app.table, roots, id, n);
    }
  }

  /** Whatever browsing finds is visible in the tree. */
  lemma BrowsedIsInTree(fs: Tree, roots: seq<string>, app: App, id: nat, n: nat)
    requires WellFormedTree(fs, roots) && Agrees(fs, app)
    requires n > 0 && Reach(app.table, roots, id, n)
    ensures id in app.table.rows && app.table.rows[id].path in Visible(fs)
  {
    hide WellFormedTree, IgnoreFn;
    var o :| Opens(app.table, roots, o) && IsChild(app.table, roots, o, id) && Reach(app.table, roots, o.id, n - 1);
    assert id in app.table.rows;
  }

  /** Accepted roots never make one full scan visit a path twice. */
  lemma ScanOfAcceptedRoots(fs: Tree, dirs: seq<Roots.Found>)
    requires Closed(fs) && forall r :: r in Roots.AddAll([], dirs) ==> r in fs
    ensures ParentsFirst(Scan.ScanOrder(fs, Roots.AddAll([], dirs)))
  {
    Roots.AddAllAntichain([], dirs);
    Scan.ScanVisitsOnce(fs, Roots.AddAll([], dirs));
  }
}
