/** The watched roots: which directories `validatedAddDir` accepts. */
module Roots {
  import opened Paths
  import opened Objects

  /** What `filepath.Abs` and `os.Stat` say of the argument. */
  datatype Found = NoAbsPath | Missing(path: string) | NotADir(path: string) | Directory(path: string)

  datatype Verdict =
    | Accepted(path: string)
    | NoPath | StatFailed(path: string) | NonDirectory(path: string)
    | Duplicate(path: string)
    | SubdirOf(path: string, root: string)
    | HasSubdir(path: string, root: string)

  /** The checks against one root already there; Accepted if none of them fails. */
  function Against(path: string, root: string): Verdict {
    if path == root then Duplicate(path)
    else if root + "/" <= path + "/" then SubdirOf(path, root)
    else if path + "/" <= root + "/" then HasSubdir(path, root)
    else Accepted(path)
  }

  /** The slashes added on both sides make the prefix tests mean "equals or contains". */
  lemma AgainstMeans(path: string, root: string)
    ensures Against(path, root) == Accepted(path) <==> Disjoint(path, root)
    ensures Against(path, root) == Duplicate(path) <==> path == root
    ensures Against(path, root) == SubdirOf(path, root) <==> Under(path, root)
    ensures Against(path, root) == HasSubdir(path, root) <==> Under(root, path)
  {
    SlashPrefix(path, root);
    SlashPrefix(root, path);
  }

  lemma SlashPrefix(p: string, q: string)
    ensures q + "/" <= p + "/" <==> AtOrUnder(p, q)
  {
    var s, t := p + "/", q + "/";
    assert p == s[..|p|] && q == t[..|q|];
    if |p| > |q| {
      assert s[..|t|] == p[..|t|];
    } else {
      assert t <= s ==> t == s;
    }
  }

  predicate FirstInTheWay(path: string, roots: seq<string>, i: nat) {
    i < |roots| && !Disjoint(path, roots[i]) && forall j | 0 <= j < i :: Disjoint(path, roots[j])
  }

  /** The loop over the roots: the first one that stands in the way decides. */
  method ValidatedAddDir(dir: Found, roots: seq<string>) returns (v: Verdict)
    ensures v.Accepted? <==> dir.Directory? && forall r :: r in roots ==> Disjoint(dir.path, r)
    ensures v.Accepted? ==> v.path == dir.path
    ensures v.Duplicate? || v.SubdirOf? || v.HasSubdir? ==>
      && dir.Directory?
      && exists i: nat ::
           && FirstInTheWay(dir.path, roots, i)
           && v == if dir.path == roots[i] then Duplicate(dir.path)
                   else if Under(dir.path, roots[i]) then SubdirOf(dir.path, roots[i])
                   else HasSubdir(dir.path, roots[i])
    ensures dir.NoAbsPath? ==> v == NoPath
    ensures dir.Missing? ==> v == StatFailed(dir.path)
    ensures dir.NotADir? ==> v == NonDirectory(dir.path)
  {
    if dir.NoAbsPath? { return NoPath; }
    if dir.Missing? { return StatFailed(dir.path); }
    if dir.NotADir? { return NonDirectory(dir.path); }
    for i := 0 to |roots|
      invariant forall j :: 0 <= j < i ==> Disjoint(dir.path, roots[j])
    {
      AgainstMeans(dir.path, roots[i]);
      v := Against(dir.path, roots[i]);
      if !v.Accepted? {
        return;
      }
    }
    return Accepted(dir.path);
  }

  ghost predicate Antichain(roots: seq<string>) {
    forall i, j :: 0 <= i < j < |roots| ==> Disjoint(roots[i], roots[j])
  }

  /** The list of roots in the watcher. */
  class RootList {
    var roots: seq<string>

    constructor ()
      ensures roots == []
    {
      roots := [];
    }

    /** `addDirectory`. */
    method AddDirectory(dir: Found) returns (v: Verdict)
      modifies this
      ensures v.Accepted? <==> dir.Directory? && forall r :: r in old(roots) ==> Disjoint(dir.path, r)
      ensures roots == (if v.Accepted? then old(roots) + [dir.path] else old(roots)) == AddAll(old(roots), [dir])
      ensures Antichain(old(roots)) ==> Antichain(roots)
    {
      v := ValidatedAddDir(dir, roots);
      if v.Accepted? {
        DisjointSymmetric(dir.path, roots);
        roots := roots + [v.path];
      }
    }
  }

  lemma DisjointSymmetric(p: string, roots: seq<string>)
    ensures (forall r :: r in roots ==> Disjoint(p, r)) ==> forall i :: 0 <= i < |roots| ==> Disjoint(roots[i], p)
  {
    forall i | 0 <= i < |roots| && Disjoint(p, roots[i]) ensures Disjoint(roots[i], p) {
    }
    assert forall i | 0 <= i < |roots| :: roots[i] in roots;
  }

  /** The roots after any sequence of calls. */
  ghost function AddAll(roots: seq<string>, dirs: seq<Found>): seq<string>
    decreases |dirs|
  {
    if dirs == [] then roots
    else
      AddAll(if dirs[0].Directory? && forall r | r in roots :: Disjoint(dirs[0].path, r)
             then roots + [dirs[0].path] else roots,
             dirs[1..])
  }

  /** Whatever is added, in whatever order: no root equals or contains another, and every directory
      asked for is under a root or stands in the way of one. */
  lemma {:induction false} AddAllAntichain(roots: seq<string>, dirs: seq<Found>)
    requires Antichain(roots)
    ensures Antichain(AddAll(roots, dirs))
    ensures forall r :: r in roots ==> r in AddAll(roots, dirs)
    ensures forall d :: d in dirs && d.Directory? ==> exists r :: r in AddAll(roots, dirs) && !Disjoint(d.path, r)
    decreases |dirs|
  {
    if dirs != [] {
      var d := dirs[0];
      var next := if d.Directory? && forall r | r in roots :: Disjoint(d.path, r) then roots + [d.path] else roots;
      if next != roots { DisjointSymmetric(d.path, roots); }
      AddAllAntichain(next, dirs[1..]);
      var all := AddAll(roots, dirs);
      forall e | e in dirs && e.Directory? ensures exists r :: r in all && !Disjoint(e.path, r) {
        if e == d {
          if d.path in next {
            assert !Disjoint(d.path, d.path);
          } else {
            var r :| r in roots && !Disjoint(d.path, r);
            assert r in all;
          }
        } else {
          assert e in dirs[1..];
        }
      }
    }
  }

  /** Every path lies under at most one root. */
  lemma AtMostOneRoot(roots: seq<string>, x: string, i: nat, j: nat)
    requires Antichain(roots) && i < |roots| && j < |roots|
    requires AtOrUnder(x, roots[i]) && AtOrUnder(x, roots[j])
    ensures i == j
  {
    assert i < j ==> Disjoint(roots[i], roots[j]);
    assert j < i ==> Disjoint(roots[j], roots[i]);
    SubtreesNest(x, roots[i], roots[j]);
  }

  // The one directory for which the prefix test does not mean containment.

  /** p is q or lies in the directory q, for absolute paths including "/". */
  predicate InDirectory(p: string, q: string) {
    q == "/" || AtOrUnder(p, q)
  }

  ghost predicate TrueAntichain(roots: seq<string>) {
    forall i, j :: 0 <= i < |roots| && 0 <= j < |roots| && i != j ==> !InDirectory(roots[i], roots[j])
  }

  /** The accepted roots do not contain each other exactly if "/" is not among several of them:
      "/" + "/" is a prefix of no other root. */
  lemma SlashIsNotSeen(roots: seq<string>)
    requires Antichain(roots)
    ensures TrueAntichain(roots) <==> !("/" in roots && |roots| > 1)
  {
    if "/" in roots && |roots| > 1 {
      var j :| 0 <= j < |roots| && roots[j] == "/";
      var i := if j == 0 then 1 else 0;
      assert InDirectory(roots[i], roots[j]);
    } else {
      forall i, j | 0 <= i < |roots| && 0 <= j < |roots| && i != j ensures !InDirectory(roots[i], roots[j]) {
        assert Disjoint(roots[if i < j then i else j], roots[if i < j then j else i]);
        assert roots[j] in roots;
      }
    }
  }
}
