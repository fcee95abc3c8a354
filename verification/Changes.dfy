/** Changes to the file tree, and what they do to the visible part of it. */
module Changes {
  import opened Paths
  import opened Ignore
  import opened Walk
  import opened Pipeline

  datatype Change =
    | MakeTree(p: string, tree: Tree)                 // mkdir, with whatever appears in it before the event is read
    | MoveIn(p: string, tree: Tree, cookie: nat)      // from outside the watched trees
    | WriteFile(p: string)                            // create or rewrite, then close
    | Move(p: string, q: string, cookie: nat)         // rename within the watched trees
    | MoveOut(p: string, cookie: nat)                 // out of the watched trees
    | DeleteTree(p: string, order: seq<string>)       // one entry after the other, children before parents

  function Without<V>(m: map<string, V>, p: string): map<string, V> {
    map x | x in m && !AtOrUnder(x, p) :: m[x]
  }

  function TreeAfter(fs: Tree, c: Change): Tree {
    match c
    case MakeTree(p, tree) => fs + tree
    case MoveIn(p, tree, _) => fs + tree
    case WriteFile(p) => fs[p := false]
    case Move(p, q, _) => RenamedKeys(fs, p, q)
    case MoveOut(p, _) => Without(fs, p)
    case DeleteTree(p, _) => Without(fs, p)
  }

  /** A tree hanging at p. */
  ghost predicate TreeAt(tree: Tree, p: string) {
    && p in tree
    && forall x :: x in tree ==> Clean(x) && AtOrUnder(x, p) && (x != p ==> IsDir(tree, Dir(x)))
  }

  /** What the operating system lets happen. The target of a move must not exist. */
  ghost predicate Legal(fs: Tree, roots: seq<string>, c: Change) {
    match c
    case MakeTree(p, tree) => NewEntry(fs, p) && TreeAt(tree, p) && tree[p]
    case MoveIn(p, tree, _) => NewEntry(fs, p) && TreeAt(tree, p)
    case WriteFile(p) => Clean(p) && IsDir(fs, Dir(p)) && (p in fs ==> !fs[p])
    case Move(p, q, _) => OldEntry(fs, roots, p) && NewEntry(fs, q) && Disjoint(p, q)
    case MoveOut(p, _) => OldEntry(fs, roots, p)
    case DeleteTree(p, order) => OldEntry(fs, roots, p) && BottomUp(fs, p, order)
  }

  ghost predicate NewEntry(fs: Tree, p: string) {
    Clean(p) && p !in fs && IsDir(fs, Dir(p))
  }

  ghost predicate OldEntry(fs: Tree, roots: seq<string>, p: string) {
    p in fs && p !in roots
  }

  ghost predicate BottomUp(fs: Tree, p: string, order: seq<string>) {
    && (forall x :: x in order <==> x in fs && AtOrUnder(x, p))
    && (forall i, j :: 0 <= i < j < |order| ==> !AtOrUnder(order[j], order[i]))
  }

  // The changed tree is well-formed again.

  lemma AddTreeWellFormed(fs: Tree, roots: seq<string>, p: string, tree: Tree)
    requires WellFormedTree(fs, roots) && NewEntry(fs, p) && TreeAt(tree, p)
    ensures WellFormedTree(fs + tree, roots)
    ensures forall x :: x in fs ==> !AtOrUnder(x, p)
  {
    forall x | x in fs ensures !AtOrUnder(x, p) {
      if AtOrUnder(x, p) { NothingBelowAbsent(fs, roots, p, x); }
    }
  }

  lemma WithoutWellFormed(fs: Tree, roots: seq<string>, p: string)
    requires WellFormedTree(fs, roots) && OldEntry(fs, roots, p)
    ensures WellFormedTree(Without(fs, p), roots)
  {
    hide Clean;
    CleanShape(p);
    forall r | r in roots ensures !AtOrUnder(r, p) {
      if Under(r, p) { BelowIsNoRoot(fs, roots, r, p); }
    }
    forall x | x in Without(fs, p) && x !in roots ensures IsDir(Without(fs, p), Dir(x)) {
      UnderViaDir(x, p);
    }
  }

  lemma FileHasNothingBelow(fs: Tree, p: string, x: string)
    requires Closed(fs) && p in fs && x in fs && Under(x, p)
    ensures fs[p]
  {
    ChildInTree(fs, x, p);
  }

  lemma RenamedEntry(fs: Tree, roots: seq<string>, p: string, q: string, x: string)
    requires WellFormedTree(fs, roots) && OldEntry(fs, roots, p) && NewEntry(fs, q) && Disjoint(p, q)
    requires forall y :: y in fs ==> !AtOrUnder(y, q)
    requires x in fs
    ensures var y := Renamed(x, p, q);
            Clean(y) && (x !in roots ==> IsDir(RenamedKeys(fs, p, q), Dir(y)))
  {
    RebaseRoundTrip(p, p, q);
    assert p[|p|..] == "";
    if x == p {
      assert Renamed(x, p, q) == q;
      CleanShape(p);
      UnderViaDir(q, p);
      RenamedKeysMoves(fs, Dir(q), p, q);
    } else if Under(x, p) {
      BelowIsNoRoot(fs, roots, x, p);
      BelowShape(x, p);
      RebaseClean(x, p, q);
      RenamedKeysMoves(fs, Dir(x), p, q);
    } else if x !in roots {
      CleanShape(p);
      UnderViaDir(x, p);
      RenamedKeysMoves(fs, Dir(x), p, q);
    }
  }

  lemma RenamedWellFormed(fs: Tree, roots: seq<string>, p: string, q: string)
    requires WellFormedTree(fs, roots) && OldEntry(fs, roots, p) && NewEntry(fs, q) && Disjoint(p, q)
    requires forall y :: y in fs ==> !AtOrUnder(y, q)
    ensures WellFormedTree(RenamedKeys(fs, p, q), roots)
  {
    var fs' := RenamedKeys(fs, p, q);
    forall y | y in fs' ensures Clean(y) && (y !in roots ==> IsDir(fs', Dir(y))) {
      RenamedKeysAt(fs, y, p, q);
      var x := if AtOrUnder(y, q) && Rebase(y, q, p) in fs then Rebase(y, q, p) else y;
      if x != y {
        RebaseRoundTrip(y, q, p);
        if Under(x, p) { BelowIsNoRoot(fs, roots, x, p); }
      }
      assert Renamed(x, p, q) == y;
      RenamedEntry(fs, roots, p, q, x);
    }
    forall r | r in roots ensures IsDir(fs', r) {
      if Under(r, p) { BelowIsNoRoot(fs, roots, r, p); }
      RenamedKeysMoves(fs, r, p, q);
    }
  }

  lemma TargetIsFree(fs: Tree, roots: seq<string>, q: string)
    requires WellFormedTree(fs, roots) && NewEntry(fs, q)
    ensures forall y :: y in fs ==> !AtOrUnder(y, q)
  {
    forall y | y in fs ensures !AtOrUnder(y, q) {
      if AtOrUnder(y, q) { NothingBelowAbsent(fs, roots, q, y); }
    }
  }

  lemma WriteWellFormed(fs: Tree, roots: seq<string>, p: string)
    requires WellFormedTree(fs, roots) && Clean(p) && IsDir(fs, Dir(p)) && (p in fs ==> !fs[p])
    ensures WellFormedTree(fs[p := false], roots)
  {
    hide Clean, LastSlash;
    CleanShape(p);
    assert p !in roots;
    forall x | x in fs && x !in roots ensures IsDir(fs[p := false], Dir(x)) {
      assert IsDir(fs, Dir(x));
    }
  }

  lemma ChangeKeepsWellFormed(fs: Tree, roots: seq<string>, c: Change)
    requires WellFormedTree(fs, roots) && Legal(fs, roots, c)
    ensures WellFormedTree(TreeAfter(fs, c), roots)
  {
    match c
    case MakeTree(p, tree) => AddTreeWellFormed(fs, roots, p, tree);
    case MoveIn(p, tree, _) => AddTreeWellFormed(fs, roots, p, tree);
    case WriteFile(p) => WriteWellFormed(fs, roots, p);
    case Move(p, q, _) =>
      TargetIsFree(fs, roots, q);
      RenamedWellFormed(fs, roots, p, q);
    case MoveOut(p, _) => WithoutWellFormed(fs, roots, p);
    case DeleteTree(p, _) => WithoutWellFormed(fs, roots, p);
  }

  // The visible part.

  lemma VisibleWithout(fs: Tree, p: string)
    ensures Visible(Without(fs, p)) == Without(Visible(fs), p)
  {
  }

  lemma VisibleAdded(fs: Tree, tree: Tree, p: string)
    requires TreeAt(tree, p) && forall x :: x in fs ==> !AtOrUnder(x, p)
    ensures Visible(fs + tree) == Visible(fs) + VisibleWithin(fs + tree, p)
  {
  }

  /** Whatever hangs at an ignored path is ignored. */
  lemma HiddenWithin(fs: Tree, p: string)
    requires Closed(fs) && p in fs && IgnoreFn(p, fs[p])
    ensures VisibleWithin(fs, p) == map[]
  {
    forall x | x in fs && AtOrUnder(x, p) ensures x !in Visible(fs) {
      if x != p {
        FileHasNothingBelow(fs, p, x);
        Hereditary(x, p, fs[x]);
      }
    }
  }

  lemma WithoutHidden(fs: Tree, p: string)
    requires Closed(fs) && p in fs && IgnoreFn(p, fs[p])
    ensures Without(Visible(fs), p) == Visible(fs)
  {
    HiddenWithin(fs, p);
    forall x | x in Visible(fs) ensures !AtOrUnder(x, p) {
      assert x !in VisibleWithin(fs, p);
    }
  }

  /** A move changes the visible part only at or under its two ends. */
  lemma VisibleMoved(fs: Tree, p: string, q: string)
    requires Disjoint(p, q) && forall x :: x in fs ==> !AtOrUnder(x, q)
    ensures var fs' := RenamedKeys(fs, p, q);
            Visible(fs') == Without(Visible(fs), p) + VisibleWithin(fs', q)
  {
    var fs' := RenamedKeys(fs, p, q);
    forall x ensures x in fs' && !AtOrUnder(x, q) <==> x in fs && !AtOrUnder(x, p) {
      RenamedKeysAt(fs, x, p, q);
      if AtOrUnder(x, q) {
        DisjointSubtrees(x, q, p);
      }
    }
  }

  /** Between two visible names, the visible part is simply rebased. */
  lemma VisibleRenamedAt(fs: Tree, p: string, q: string, x: string)
    requires Closed(fs) && Disjoint(p, q) && forall y :: y in fs ==> !AtOrUnder(y, q)
    requires p in fs && !IgnoreFn(p, fs[p]) && !IgnoreFn(q, fs[p])
    requires x in fs
    ensures x in Visible(fs) <==> Renamed(x, p, q) in Visible(RenamedKeys(fs, p, q))
  {
    RenamedKeysMoves(fs, x, p, q);
    if x == p {
      assert p[|p|..] == "";
      assert Renamed(x, p, q) == q;
    } else if Under(x, p) {
      FileHasNothingBelow(fs, p, x);
      RenameKeepsIgnored(x, fs[x], p, q);
    }
  }

  /** Where an entry of the renamed map came from. */
  lemma RenamedFrom<V>(m: map<string, V>, y: string, p: string, q: string) returns (x: string)
    requires Disjoint(p, q) && forall z :: z in m ==> !AtOrUnder(z, q)
    requires y in RenamedKeys(m, p, q)
    ensures x in m && Renamed(x, p, q) == y && RenamedKeys(m, p, q)[y] == m[x]
  {
    RenamedKeysAt(m, y, p, q);
    if AtOrUnder(y, q) {
      x := Rebase(y, q, p);
      RebaseRoundTrip(y, q, p);
    } else {
      x := y;
    }
  }

  ghost predicate CanRename(fs: Tree, p: string, q: string) {
    && Closed(fs) && Disjoint(p, q) && (forall y :: y in fs ==> !AtOrUnder(y, q))
    && p in fs && !IgnoreFn(p, fs[p]) && !IgnoreFn(q, fs[p])
  }

  lemma VisibleFromRenamed(fs: Tree, p: string, q: string, y: string)
    requires CanRename(fs, p, q) && y in RenamedKeys(fs, p, q)
    requires !IgnoreFn(y, RenamedKeys(fs, p, q)[y])
    ensures y in RenamedKeys(Visible(fs), p, q) && RenamedKeys(Visible(fs), p, q)[y] == RenamedKeys(fs, p, q)[y]
  {
    var x := RenamedFrom(fs, y, p, q);
    VisibleRenamedAt(fs, p, q, x);
    RenamedKeysMoves(Visible(fs), x, p, q);
  }

  lemma RenamedFromVisible(fs: Tree, p: string, q: string, y: string)
    requires CanRename(fs, p, q) && y in RenamedKeys(Visible(fs), p, q)
    ensures y in RenamedKeys(fs, p, q) && !IgnoreFn(y, RenamedKeys(fs, p, q)[y])
  {
    var x := RenamedFrom(Visible(fs), y, p, q);
    VisibleRenamedAt(fs, p, q, x);
  }

  predicate SameAt(fs: Tree, vis: Tree, y: string) {
    && (y in vis <==> y in fs && !IgnoreFn(y, fs[y]))
    && (y in vis && y in fs ==> vis[y] == fs[y])
  }

  lemma VisibleIs(fs: Tree, vis: Tree)
    requires forall y :: SameAt(fs, vis, y)
    ensures Visible(fs) == vis
  {
    assert forall y :: y in vis ==> SameAt(fs, vis, y);
    assert forall y :: y in Visible(fs) ==> SameAt(fs, vis, y);
  }

  lemma SameAtRenamed(fs: Tree, p: string, q: string, y: string)
    requires CanRename(fs, p, q)
    ensures SameAt(RenamedKeys(fs, p, q), RenamedKeys(Visible(fs), p, q), y)
  {
    var fs', vis := RenamedKeys(fs, p, q), RenamedKeys(Visible(fs), p, q);
    if y in fs' && !IgnoreFn(y, fs'[y]) {
      VisibleFromRenamed(fs, p, q, y);
    } else if y in vis {
      RenamedFromVisible(fs, p, q, y);
    }
  }

  lemma VisibleRenamed(fs: Tree, p: string, q: string)
    requires CanRename(fs, p, q)
    ensures Visible(RenamedKeys(fs, p, q)) == RenamedKeys(Visible(fs), p, q)
  {
    forall y ensures SameAt(RenamedKeys(fs, p, q), RenamedKeys(Visible(fs), p, q), y) {
      SameAtRenamed(fs, p, q, y);
    }
    VisibleIs(RenamedKeys(fs, p, q), RenamedKeys(Visible(fs), p, q));
  }

  /** Renaming keys none of which lies at or under either path changes nothing. */
  lemma RenamedNothing<V>(m: map<string, V>, p: string, q: string)
    requires forall x :: x in m ==> !AtOrUnder(x, p) && !AtOrUnder(x, q)
    ensures RenamedKeys(m, p, q) == m
  {
    forall x ensures x in RenamedKeys(m, p, q) <==> x in m {
      RenamedKeysAt(m, x, p, q);
      if AtOrUnder(x, q) { RebaseRoundTrip(x, q, p); }
    }
  }
}
