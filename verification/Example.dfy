/** One small library of which everything the main results ask for holds, so that they speak of
    something: a root with a folder and a video, and each kind of change to it. */
module Example {
  import opened Paths
  import opened Ignore
  import opened Walk
  import opened Objects
  import opened Pipeline
  import opened Driver
  import opened Changes
  import opened Simulation
  import opened System
  import opened SqlLike
  import opened Browse
  import Dels = DeleteEvents
  import Moves = MoveEvents
  import Scan
  import Drain
  import Library

  const FS: Tree := map["/v" := true, "/v/a" := true, "/v/m.ts" := false]
  const ROOTS := ["/v"]

  lemma ShortName(n: string)
    requires ValidName(n)
    ensures Clean("/v") && Clean("/v/" + n) && Dir("/v/" + n) == "/v" && Base("/v/" + n) == n
  {
    CleanTop("v");
    ChildPath("/v", n);
    assert "/v" + "/" + n == "/v/" + n;
  }

  lemma PathsAreClean()
    ensures Clean("/v") && Clean("/v/a") && Clean("/v/b") && Clean("/v/m.ts")
    ensures Dir("/v/a") == Dir("/v/b") == Dir("/v/m.ts") == "/v"
  {
    ShortName("a");
    ShortName("b");
    ShortName("m.ts");
    assert "/v/" + "a" == "/v/a" && "/v/" + "b" == "/v/b" && "/v/" + "m.ts" == "/v/m.ts";
  }

  lemma ShortDirVisible(p: string)
    requires |p| < 7
    ensures !IgnoreFn(p, true)
  {
  }

  lemma TreeIsWellFormed()
    ensures WellFormedTree(FS, ROOTS)
  {
    hide Clean, Dir;
    PathsAreClean();
    assert !Under("/v", "/v");
  }

  /** Each kind of change is legal here. */
  lemma ChangesAreLegal()
    ensures Legal(FS, ROOTS, MakeTree("/v/b", map["/v/b" := true]))
    ensures Legal(FS, ROOTS, MoveIn("/v/b", map["/v/b" := true], 1))
    ensures Legal(FS, ROOTS, WriteFile("/v/m.ts"))
    ensures Legal(FS, ROOTS, Move("/v/a", "/v/b", 1))
    ensures Legal(FS, ROOTS, MoveOut("/v/a", 1))
    ensures Legal(FS, ROOTS, DeleteTree("/v/a", ["/v/a"]))
  {
    hide Clean, Dir;
    PathsAreClean();
    assert Disjoint("/v/a", "/v/b");
    OnlyItself();
  }

  lemma OnlyItself()
    ensures BottomUp(FS, "/v/a", ["/v/a"])
  {
    assert "/v/m.ts"[3] != "/v/a/"[3];
    assert !AtOrUnder("/v/m.ts", "/v/a") && !AtOrUnder("/v", "/v/a");
    assert forall x :: x in FS && AtOrUnder(x, "/v/a") ==> x == "/v/a";
  }

  lemma VideoVisible()
    ensures !IgnoreFn("/v/m.ts", false)
  {
    var p := "/v/m.ts";
    assert ExtFrom(p, 4) == ".ts";
    assert ExtFrom(p, 5) == ".ts";
    assert Ext(p) == ".ts";
    assert ToLower(".ts") == ".ts";
    assert ".ts" in VIDEO_EXTENSIONS by { assert VIDEO_EXTENSIONS[13] == ".ts"; }
  }

  /** All of the small tree is visible, and can be browsed. */
  lemma AllVisible()
    ensures Visible(FS) == FS
    ensures Library.Presentable(FS, ROOTS)
    ensures FromVisible(FS, Move("/v/a", "/v/b", 1)) && !IgnoreFn("/v/b", true)
  {
    hide IgnoreFn;
    ShortDirVisible("/v");
    ShortDirVisible("/v/a");
    ShortDirVisible("/v/b");
    VideoVisible();
  }

  function SmallLibrary(table: Table, now: int): Sys
    requires Closed(FS)
  {
    Scanned(FS, ROOTS, table, false, 1, now)
  }

  /** After the first scan the small library satisfies the premises of the main results: it is in agreement,
      can be browsed, and any of the six changes continues its history. */
  lemma PremisesHold(table: Table, now: int, c: Change) returns (s: Sys)
    requires WellFormed(table)
    requires c in [MakeTree("/v/b", map["/v/b" := true]), MoveIn("/v/b", map["/v/b" := true], 1), WriteFile("/v/m.ts"),
                   Move("/v/a", "/v/b", 1), MoveOut("/v/a", 1), DeleteTree("/v/a", ["/v/a"])]
    ensures Closed(FS) && Good(SmallLibrary(table, now)) && Browsable(SmallLibrary(table, now).state.app.table, ROOTS)
    ensures History(SmallLibrary(table, now), [c], s) && Good(s)
  {
    hide WellFormedTree, Agrees, Legal, Library.Presentable, Browsable, Start, Closed, Run, Drained, Visible;
    TreeIsWellFormed();
    TreeClosed(FS, ROOTS);
    AllVisible();
    ChangesAreLegal();
    Scan.StartAgrees(FS, ROOTS, table, false, 1, now);
    Library.AgreementIsBrowsable(FS, ROOTS, SmallLibrary(table, now).state.app);
    s := Drain.HistoryGoesOn(SmallLibrary(table, now), c);
  }
}
