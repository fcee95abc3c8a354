/** The file tree, and the recursive walk over it that skips ignored directories. */
module Walk {
  import opened Paths
  import opened Ordering
  import opened Ignore

  /** Every path in the watched trees; true for directories. */
  type Tree = map<string, bool>

  /** Roots are directories that do not contain each other; everything else hangs below a directory. */
  ghost predicate WellFormedTree(fs: Tree, roots: seq<string>) {
    && (forall x :: x in fs ==> Clean(x))
    && (forall x :: x in fs && x !in roots ==> IsDir(fs, Dir(x)))
    && (forall r :: r in roots ==> IsDir(fs, r))
    && (forall r, q :: r in roots && q in roots ==> !Under(r, q))
  }

  predicate IsDir(fs: Tree, p: string) {
    p in fs && fs[p]
  }

  /** What every well-formed tree has below each of its nodes: no gaps. */
  ghost predicate Closed(fs: Tree) {
    && (forall x :: x in fs ==> Clean(x))
    && (forall x, p :: x in fs && p in fs && Under(x, p) ==> IsDir(fs, Dir(x)))
  }

  function Within(fs: Tree, p: string): set<string> {
    set x | x in fs && AtOrUnder(x, p)
  }

  /** What the library should show. */
  function Visible(fs: Tree): Tree {
    map x | x in fs && !IgnoreFn(x, fs[x]) :: fs[x]
  }

  lemma {:induction false} SomeRoot(fs: Tree, roots: seq<string>, x: string) returns (r: string)
    requires WellFormedTree(fs, roots) && x in fs
    ensures r in roots && AtOrUnder(x, r)
    decreases |x|
  {
    if x in roots {
      r := x;
    } else {
      CleanShape(x);
      r := SomeRoot(fs, roots, Dir(x));
      CleanShape(Dir(x));
      UnderTransitive(x, Dir(x), r);
    }
  }

  /** A root is never strictly below a node. */
  lemma BelowIsNoRoot(fs: Tree, roots: seq<string>, x: string, p: string)
    requires WellFormedTree(fs, roots) && p in fs && Under(x, p)
    ensures x !in roots
  {
    var r := SomeRoot(fs, roots, p);
    UnderTransitive(x, p, r);
  }

  lemma TreeClosed(fs: Tree, roots: seq<string>)
    requires WellFormedTree(fs, roots)
    ensures Closed(fs)
  {
    forall x, p | x in fs && p in fs && Under(x, p) ensures IsDir(fs, Dir(x)) {
      BelowIsNoRoot(fs, roots, x, p);
    }
  }

  /** With an indexed directory above it, a path absent from the tree has nothing below it. */
  lemma {:induction false} NothingBelowAbsent(fs: Tree, roots: seq<string>, q: string, x: string)
    requires WellFormedTree(fs, roots) && Clean(q) && Dir(q) in fs && x in fs && AtOrUnder(x, q)
    ensures q in fs
    decreases |x|
  {
    if x != q {
      CleanShape(q);
      UnderTransitive(x, q, Dir(q));
      BelowIsNoRoot(fs, roots, x, Dir(q));
      UnderViaDir(x, q);
      CleanShape(x);
      NothingBelowAbsent(fs, roots, q, Dir(x));
    }
  }

  /** Whatever hangs below an ignored directory is ignored, so a visible path has a visible parent. */
  lemma VisibleParent(fs: Tree, x: string)
    requires Closed(fs) && x in Visible(fs) && IsDir(fs, Dir(x))
    ensures IsDir(Visible(fs), Dir(x))
  {
    CleanShape(x);
    CleanShape(Dir(x));
    if IgnoreFn(Dir(x), true) {
      Hereditary(x, Dir(x), fs[x]);
    }
  }

  // filepath.Walk

  function Children(fs: Tree, p: string): set<string> {
    set x | x in fs && Dir(x) == p
  }

  lemma ChildSmaller(fs: Tree, p: string, c: string)
    requires Closed(fs) && p in fs && c in Children(fs, p)
    ensures Within(fs, c) < Within(fs, p) && |Within(fs, c)| < |Within(fs, p)|
    ensures Under(c, p)
  {
    CleanShape(c);
    CleanShape(p);
    forall x | x in Within(fs, c) ensures x in Within(fs, p) {
      UnderTransitive(x, c, p);
    }
    UnderIrreflexive(c, p);
    assert p in Within(fs, p) && p !in Within(fs, c);
    SubsetSmaller(Within(fs, c), Within(fs, p));
  }

  lemma SubsetSmaller<T>(a: set<T>, b: set<T>)
    requires a < b
    ensures |a| < |b|
  {
    assert b == a + (b - a);
    assert |b - a| > 0;
  }

  /** The paths the callback is called on, in order. The callback answers `SkipDir` on ignored
      directories; with `prune` false it never does, which gives the whole tree. */
  function Visits(fs: Tree, p: string, prune: bool): seq<string>
    requires Closed(fs) && p in fs
    decreases |Within(fs, p)|, 1, 0
  {
    if fs[p] && !(prune && IgnoreFn(p, true)) then
      StringOrder(Children(fs, p));
      [p] + VisitsOfAll(fs, p, Sort(Children(fs, p), StringLess), prune)
    else [p]
  }

  function VisitsOfAll(fs: Tree, p: string, cs: seq<string>, prune: bool): seq<string>
    requires Closed(fs) && p in fs
    requires forall c | c in cs :: c in Children(fs, p)
    decreases |Within(fs, p)|, 0, |cs|
  {
    if cs == [] then []
    else
      ChildSmaller(fs, p, cs[0]);
      Visits(fs, cs[0], prune) + VisitsOfAll(fs, p, cs[1..], prune)
  }

  /** The visited paths that are not ignored: those the watcher acts on. */
  function Kept(fs: Tree, ps: seq<string>): seq<string> {
    if ps == [] then []
    else if ps[0] in fs && !IgnoreFn(ps[0], fs[ps[0]]) then [ps[0]] + Kept(fs, ps[1..])
    else Kept(fs, ps[1..])
  }

  lemma {:induction false} KeptAppend(fs: Tree, ps: seq<string>, qs: seq<string>)
    ensures Kept(fs, ps + qs) == Kept(fs, ps) + Kept(fs, qs)
    decreases |ps|
  {
    if ps == [] {
      assert ps + qs == qs;
    } else {
      assert (ps + qs)[1..] == ps[1..] + qs;
      KeptAppend(fs, ps[1..], qs);
    }
  }

  lemma {:induction false} KeptIn(fs: Tree, ps: seq<string>, x: string)
    ensures x in Kept(fs, ps) <==> x in ps && x in Visible(fs)
    decreases |ps|
  {
    if ps != [] {
      KeptIn(fs, ps[1..], x);
      assert x in ps <==> x == ps[0] || x in ps[1..];
    }
  }

  // Where the walk goes.

  lemma {:induction false} VisitsWithin(fs: Tree, p: string, prune: bool)
    requires Closed(fs) && p in fs
    ensures forall x :: x in Visits(fs, p, prune) ==> x in fs && AtOrUnder(x, p)
    decreases |Within(fs, p)|, 1, 0
  {
    if fs[p] && !(prune && IgnoreFn(p, true)) {
      StringOrder(Children(fs, p));
      VisitsOfAllWithin(fs, p, Sort(Children(fs, p), StringLess), prune);
    }
  }

  lemma {:induction false} VisitsOfAllWithin(fs: Tree, p: string, cs: seq<string>, prune: bool)
    requires Closed(fs) && p in fs
    requires forall c :: c in cs ==> c in Children(fs, p)
    ensures forall x :: x in VisitsOfAll(fs, p, cs, prune) ==>
      x in fs && Under(x, p) && exists c :: c in cs && AtOrUnder(x, c)
    decreases |Within(fs, p)|, 0, |cs|
  {
    if cs != [] {
      var c := cs[0];
      ChildSmaller(fs, p, c);
      VisitsWithin(fs, c, prune);
      VisitsOfAllWithin(fs, p, cs[1..], prune);
      forall x | x in VisitsOfAll(fs, p, cs, prune)
        ensures x in fs && Under(x, p) && exists c :: c in cs && AtOrUnder(x, c)
      {
        if x in Visits(fs, c, prune) {
          UnderTransitive(x, c, p);
        } else {
          assert x in VisitsOfAll(fs, p, cs[1..], prune);
          var d :| d in cs[1..] && AtOrUnder(x, d);
          assert d in cs;
        }
      }
    }
  }

  /** Without pruning the walk reaches everything below its start. */
  lemma {:induction false} VisitsReach(fs: Tree, p: string, x: string)
    requires Closed(fs) && p in fs && x in fs && AtOrUnder(x, p)
    ensures x in Visits(fs, p, false)
    decreases |Within(fs, p)|, 1, 0
  {
    if x != p {
      ChildInTree(fs, x, p);
      var c := ChildToward(x, p);
      StringOrder(Children(fs, p));
      ChildSmaller(fs, p, c);
      VisitsReach(fs, c, x);
      VisitsOfAllContains(fs, p, Sort(Children(fs, p), StringLess), c, x);
    }
  }

  lemma {:induction false} ChildInTree(fs: Tree, x: string, p: string)
    requires Closed(fs) && p in fs && x in fs && Under(x, p)
    ensures ChildToward(x, p) in Children(fs, p) && fs[p]
    decreases |x|
  {
    BelowShape(x, p);
    if Dir(x) != p {
      ChildInTree(fs, Dir(x), p);
    }
  }

  lemma {:induction false} VisitsOfAllContains(fs: Tree, p: string, cs: seq<string>, c: string, x: string)
    requires Closed(fs) && p in fs
    requires forall d :: d in cs ==> d in Children(fs, p)
    requires c in cs && c in Children(fs, p) && x in Visits(fs, c, false)
    ensures x in VisitsOfAll(fs, p, cs, false)
    decreases |cs|
  {
    if c != cs[0] {
      VisitsOfAllContains(fs, p, cs[1..], c, x);
    }
  }

  // Order

  /** Nothing is visited twice, and nothing before a directory that contains it. */
  ghost predicate ParentsFirst(ps: seq<string>) {
    forall i, j :: 0 <= i < j < |ps| ==> !AtOrUnder(ps[i], ps[j])
  }

  lemma ParentsFirstAppend(ps: seq<string>, qs: seq<string>)
    requires ParentsFirst(ps) && ParentsFirst(qs)
    requires forall x, y :: x in ps && y in qs ==> !AtOrUnder(x, y)
    ensures ParentsFirst(ps + qs)
  {
    var all := ps + qs;
    forall i, j | 0 <= i < j < |all| ensures !AtOrUnder(all[i], all[j]) {
      if j < |ps| {
        assert all[i] == ps[i] && all[j] == ps[j];
      } else if i < |ps| {
        assert all[i] in ps && all[j] in qs;
      } else {
        assert all[i] == qs[i - |ps|] && all[j] == qs[j - |ps|];
      }
    }
  }

  lemma {:induction false} VisitsOrdered(fs: Tree, p: string, prune: bool)
    requires Closed(fs) && p in fs
    ensures ParentsFirst(Visits(fs, p, prune))
    decreases |Within(fs, p)|, 1, 0
  {
    if fs[p] && !(prune && IgnoreFn(p, true)) {
      StringOrder(Children(fs, p));
      var cs := Sort(Children(fs, p), StringLess);
      VisitsOfAllOrdered(fs, p, cs, prune);
      VisitsOfAllWithin(fs, p, cs, prune);
      forall x | x in VisitsOfAll(fs, p, cs, prune) ensures !AtOrUnder(p, x) {
        UnderIrreflexive(x, p);
      }
      ParentsFirstAppend([p], VisitsOfAll(fs, p, cs, prune));
    }
  }

  lemma {:induction false} VisitsOfAllOrdered(fs: Tree, p: string, cs: seq<string>, prune: bool)
    requires Closed(fs) && p in fs && SortedBy(cs, StringLess)
    requires forall c :: c in cs ==> c in Children(fs, p)
    ensures ParentsFirst(VisitsOfAll(fs, p, cs, prune))
    decreases |Within(fs, p)|, 0, |cs|
  {
    if cs != [] {
      var c := cs[0];
      ChildSmaller(fs, p, c);
      VisitsOrdered(fs, c, prune);
      VisitsWithin(fs, c, prune);
      VisitsOfAllOrdered(fs, p, cs[1..], prune);
      VisitsOfAllWithin(fs, p, cs[1..], prune);
      forall x, y | x in Visits(fs, c, prune) && y in VisitsOfAll(fs, p, cs[1..], prune) ensures !AtOrUnder(x, y) {
        var d :| d in cs[1..] && AtOrUnder(y, d);
        StringLessIrreflexive(c);
        SiblingsDisjoint(c, d, p);
        if AtOrUnder(x, y) {
          UnderTransitive(x, y, d);
          DisjointSubtrees(x, c, d);
        }
      }
      ParentsFirstAppend(Visits(fs, c, prune), VisitsOfAll(fs, p, cs[1..], prune));
    }
  }

  lemma SiblingsDisjoint(c: string, d: string, p: string)
    requires Clean(c) && Clean(d) && Clean(p) && c != d && Dir(c) == p && Dir(d) == p
    ensures Disjoint(c, d)
  {
    CleanShape(c);
    CleanShape(d);
    UnderViaDir(c, d);
    UnderViaDir(d, c);
  }

  // Pruning

  lemma {:induction false} NothingKeptBelow(fs: Tree, p: string, ps: seq<string>)
    requires IgnoreFn(p, true) && forall x :: x in ps ==> Under(x, p)
    ensures Kept(fs, ps) == []
    decreases |ps|
  {
    if ps != [] {
      if ps[0] in fs {
        Hereditary(ps[0], p, fs[ps[0]]);
      }
      NothingKeptBelow(fs, p, ps[1..]);
    }
  }

  lemma {:induction false} PrunedAllKept(fs: Tree, p: string, cs: seq<string>)
    requires Closed(fs) && p in fs
    requires forall c :: c in cs ==> c in Children(fs, p)
    ensures Kept(fs, VisitsOfAll(fs, p, cs, true)) == Kept(fs, VisitsOfAll(fs, p, cs, false))
    decreases |Within(fs, p)|, 0, |cs|
  {
    if cs != [] {
      ChildSmaller(fs, p, cs[0]);
      PrunedKept(fs, cs[0]);
      PrunedAllKept(fs, p, cs[1..]);
      KeptAppend(fs, Visits(fs, cs[0], true), VisitsOfAll(fs, p, cs[1..], true));
      KeptAppend(fs, Visits(fs, cs[0], false), VisitsOfAll(fs, p, cs[1..], false));
    }
  }

  lemma {:induction false} PrunedKept(fs: Tree, p: string)
    requires Closed(fs) && p in fs
    ensures Kept(fs, Visits(fs, p, true)) == Kept(fs, Visits(fs, p, false))
    decreases |Within(fs, p)|, 1, 0
  {
    if fs[p] {
      StringOrder(Children(fs, p));
      var cs := Sort(Children(fs, p), StringLess);
      var below, belowAll := VisitsOfAll(fs, p, cs, true), VisitsOfAll(fs, p, cs, false);
      if IgnoreFn(p, true) {
        VisitsOfAllWithin(fs, p, cs, false);
        NothingKeptBelow(fs, p, belowAll);
        KeptAppend(fs, [p], belowAll);
        assert Visits(fs, p, true) == [p];
      } else {
        PrunedAllKept(fs, p, cs);
        KeptAppend(fs, [p], below);
        KeptAppend(fs, [p], belowAll);
      }
    }
  }

  /** Skipping ignored directories acts on exactly the visible paths of the whole subtree:
      the same ones in the same order as a full walk, each once, parents before children. */
  lemma PrunedWalkIsFilter(fs: Tree, p: string)
    requires Closed(fs) && p in fs
    ensures Kept(fs, Visits(fs, p, true)) == Kept(fs, Visits(fs, p, false))
    ensures forall x :: x in Kept(fs, Visits(fs, p, true)) <==> x in Visible(fs) && AtOrUnder(x, p)
    ensures ParentsFirst(Visits(fs, p, true))
  {
    PrunedKept(fs, p);
    VisitsOrdered(fs, p, true);
    VisitsWithin(fs, p, true);
    forall x ensures x in Kept(fs, Visits(fs, p, true)) <==> x in Visible(fs) && AtOrUnder(x, p) {
      KeptIn(fs, Visits(fs, p, true), x);
      KeptIn(fs, Visits(fs, p, false), x);
      if x in Visible(fs) && AtOrUnder(x, p) {
        VisitsReach(fs, p, x);
      }
    }
  }
}
