/** Paths as the program handles them: plain strings compared by prefix.
    The second half ties the string operations to paths as lists of names. */
module Paths {

  /** `strings.HasPrefix(p, q + "/")`: p lies strictly below q. */
  predicate Under(p: string, q: string) {
    q + "/" <= p
  }

  predicate AtOrUnder(p: string, q: string) {
    p == q || Under(p, q)
  }

  /** Neither path equals or contains the other. */
  predicate Disjoint(p: string, q: string) {
    !AtOrUnder(p, q) && !AtOrUnder(q, p)
  }

  /** `to + p[len(from):]`, the new name of p after `from` was renamed to `to`. */
  function Rebase(p: string, from: string, to: string): string
    requires AtOrUnder(p, from)
  {
    to + p[|from|..]
  }

  /** Where a path ends up when the subtree `from` is renamed to `to`. */
  function Renamed(p: string, from: string, to: string): string {
    if AtOrUnder(p, from) then Rebase(p, from, to) else p
  }

  function LastSlash(p: string): (i: int)
    ensures -1 <= i < |p|
    ensures 0 <= i ==> p[i] == '/'
    ensures forall j :: i < j < |p| ==> p[j] != '/'
  {
    if p == "" then -1
    else if p[|p| - 1] == '/' then |p| - 1
    else LastSlash(p[..|p| - 1])
  }

  /** `filepath.Dir` on clean absolute paths. */
  function Dir(p: string): string {
    var i := LastSlash(p);
    if i < 0 then "." else if i == 0 then "/" else p[..i]
  }

  /** `filepath.Base` on clean absolute paths. */
  function Base(p: string): string {
    p[LastSlash(p) + 1..]
  }

  /** `path.Join(parent, name)` for a clean parent and one kernel-supplied name. */
  function Join(parent: string, name: string): string {
    if name == "" then parent else parent + "/" + name
  }

  predicate ValidName(n: string) {
    n != "" && '/' !in n && n != "." && n != ".."
  }

  /** A clean absolute path other than "/". */
  predicate Clean(p: string)
    decreases |p|
  {
    var i := LastSlash(p);
    0 <= i && ValidName(p[i + 1..]) && (i == 0 || Clean(p[..i]))
  }

  lemma LastSlashUnique(p: string, i: int)
    requires 0 <= i < |p| && p[i] == '/'
    requires forall j :: i < j < |p| ==> p[j] != '/'
    ensures LastSlash(p) == i
  {
  }

  lemma {:induction false} LastSlashOfChild(d: string, n: string)
    requires '/' !in n
    ensures LastSlash(d + "/" + n) == |d|
  {
    var p := d + "/" + n;
    assert p[|d|] == '/';
    forall j | |d| < j < |p| ensures p[j] != '/' {
      assert p[j] == n[j - |d| - 1];
    }
    LastSlashUnique(p, |d|);
  }

  /** A name below a clean path is clean, and Dir and Base take it apart again. */
  lemma ChildPath(d: string, n: string)
    requires Clean(d) && ValidName(n)
    ensures Clean(d + "/" + n)
    ensures Dir(d + "/" + n) == d && Base(d + "/" + n) == n
    ensures Under(d + "/" + n, d)
    ensures Join(d, n) == d + "/" + n
  {
    LastSlashOfChild(d, n);
    var p := d + "/" + n;
    assert p[..|d|] == d && p[|d| + 1..] == n;
    assert |d| > 0;
  }

  lemma {:induction false} CleanShape(p: string)
    requires Clean(p)
    ensures |p| >= 2 && p[0] == '/'
    ensures |Dir(p)| < |p|
    ensures Dir(p) == "/" || Clean(Dir(p))
    ensures Dir(p) != "/" ==> p == Dir(p) + "/" + Base(p) && Under(p, Dir(p))
    ensures Dir(p) == "/" ==> p == "/" + Base(p)
    ensures ValidName(Base(p))
    decreases |p|
  {
    var i := LastSlash(p);
    assert p == p[..i] + "/" + p[i + 1..];
    if i == 0 {
      assert p[..0] == "";
    } else {
      CleanShape(p[..i]);
      assert p[0] == p[..i][0];
    }
  }

  lemma NothingAboveRoot(q: string)
    requires q != ""
    ensures !Under("/", q)
  {
    assert |q + "/"| > 1;
  }

  /** A prefix that ends at a slash ends at or before the last slash. */
  lemma HeadUnder(x: string, i: int, q: string)
    requires 0 <= i < |x| && x[i] == '/'
    requires forall j :: i < j < |x| ==> x[j] != '/'
    ensures Under(x, q) <==> AtOrUnder(x[..i], q)
  {
    if Under(x, q) {
      assert x[|q|] == (q + "/")[|q|] == '/';
      assert |q| <= i;
      if |q| < i {
        assert q + "/" <= x[..i];
      } else {
        assert x[..i] == (q + "/")[..|q|] == q;
      }
    }
    if x[..i] == q {
      assert x[..i + 1] == q + "/";
    } else if Under(x[..i], q) {
      assert q + "/" <= x[..i] <= x;
    }
  }

  /** A clean path is below q exactly when its directory is q or is below q. */
  lemma UnderViaDir(x: string, q: string)
    requires Clean(x) && q != "" && q != "/"
    ensures Under(x, q) <==> AtOrUnder(Dir(x), q)
  {
    HeadUnder(x, LastSlash(x), q);
    NothingAboveRoot(q);
  }

  /** What a clean path below a clean path looks like. */
  lemma BelowShape(x: string, p: string)
    requires Clean(x) && Clean(p) && Under(x, p)
    ensures Dir(x) != "/" && Clean(Dir(x)) && |Dir(x)| < |x|
    ensures AtOrUnder(Dir(x), p)
    ensures x == Dir(x) + "/" + Base(x) && ValidName(Base(x))
  {
    CleanShape(x);
    CleanShape(p);
    UnderViaDir(x, p);
    NothingAboveRoot(p);
  }

  lemma UnderTransitive(x: string, y: string, z: string)
    requires AtOrUnder(x, y) && AtOrUnder(y, z)
    ensures AtOrUnder(x, z)
    ensures Under(x, y) || Under(y, z) ==> Under(x, z)
  {
    if Under(x, y) && Under(y, z) {
      assert z + "/" <= y <= x;
    }
  }

  lemma UnderIrreflexive(x: string, y: string)
    requires Under(x, y)
    ensures x != y && !AtOrUnder(y, x) && |y| < |x|
  {
  }

  /** Two paths that contain a common path are comparable: subtrees never overlap partially. */
  lemma SubtreesNest(x: string, p: string, q: string)
    requires AtOrUnder(x, p) && AtOrUnder(x, q)
    ensures AtOrUnder(p, q) || AtOrUnder(q, p)
  {
    if |p| == |q| {
      assert p == x[..|p|] && q == x[..|q|];
    } else if |p| < |q| {
      if x != q { assert q <= x; }
      assert p + "/" <= x;
      assert p + "/" <= q by {
        assert q == x[..|q|];
        assert (p + "/") == x[..|p| + 1];
        assert q[..|p| + 1] == x[..|p| + 1];
      }
    } else {
      if x != p { assert p <= x; }
      assert q + "/" <= p by {
        assert p == x[..|p|];
        assert (q + "/") == x[..|q| + 1];
        assert p[..|q| + 1] == x[..|q| + 1];
      }
    }
  }

  lemma DisjointSubtrees(x: string, p: string, q: string)
    requires Disjoint(p, q) && AtOrUnder(x, p)
    ensures !AtOrUnder(x, q)
  {
    if AtOrUnder(x, q) {
      SubtreesNest(x, p, q);
    }
  }

  /** Rebasing moves into the target subtree and is undone by rebasing back. */
  lemma RebaseRoundTrip(x: string, p: string, q: string)
    requires AtOrUnder(x, p)
    ensures AtOrUnder(Rebase(x, p, q), q)
    ensures Rebase(Rebase(x, p, q), q, p) == x
    ensures Under(x, p) <==> Under(Rebase(x, p, q), q)
  {
    var y := Rebase(x, p, q);
    if x == p {
      assert x[|p|..] == "";
      assert y == q;
    } else {
      assert x == p + "/" + x[|p| + 1..];
      assert y == q + "/" + x[|p| + 1..];
      assert y[|q|..] == "/" + x[|p| + 1..] == x[|p|..];
    }
    assert y[|q|..] == x[|p|..];
    assert p + x[|p|..] == x;
  }

  /** Rebasing one step further down. */
  lemma RebaseChild(x: string, n: string, p: string, q: string)
    requires AtOrUnder(x, p)
    ensures AtOrUnder(x + "/" + n, p)
    ensures Rebase(x + "/" + n, p, q) == Rebase(x, p, q) + "/" + n
  {
    assert (x + "/" + n)[|p|..] == x[|p|..] + "/" + n;
  }

  lemma {:induction false} RebaseClean(x: string, p: string, q: string)
    requires Clean(x) && Clean(p) && Clean(q) && AtOrUnder(x, p)
    ensures Clean(Rebase(x, p, q))
    ensures Under(x, p) ==> AtOrUnder(Dir(x), p) && Dir(Rebase(x, p, q)) == Rebase(Dir(x), p, q)
    ensures Under(x, p) ==> Base(Rebase(x, p, q)) == Base(x)
    decreases |x|
  {
    if x == p {
      assert Rebase(x, p, q) == q;
    } else {
      BelowShape(x, p);
      var d, n := Dir(x), Base(x);
      RebaseClean(d, p, q);
      RebaseChild(d, n, p, q);
      ChildPath(Rebase(d, p, q), n);
    }
  }

  /** The child of p through which a deeper path x is reached. */
  function ChildToward(x: string, p: string): (c: string)
    requires Clean(x) && Clean(p) && Under(x, p)
    ensures Clean(c) && Dir(c) == p && AtOrUnder(x, c)
    decreases |x|
  {
    BelowShape(x, p);
    if Dir(x) == p then x
    else
      var c := ChildToward(Dir(x), p);
      UnderTransitive(x, Dir(x), c);
      c
  }

  // Maps from paths, and what renaming a subtree does to them.

  /** The keys after the rename: everything outside `from`, and the rebased subtree. */
  predicate InRenamedKeys<V>(m: map<string, V>, p: string, from: string, to: string) {
    || (p in m && !AtOrUnder(p, from))
    || (AtOrUnder(p, to) && Rebase(p, to, from) in m)
  }

  function RenamedKeys<V>(m: map<string, V>, from: string, to: string): map<string, V> {
    map p | p in m.Keys + (set q | q in m :: Renamed(q, from, to)) && InRenamedKeys(m, p, from, to)
      :: if AtOrUnder(p, to) && Rebase(p, to, from) in m then m[Rebase(p, to, from)] else m[p]
  }

  /** Membership in the renamed map, free of how its domain was enumerated. */
  lemma RenamedKeysAt<V>(m: map<string, V>, p: string, from: string, to: string)
    ensures p in RenamedKeys(m, from, to) <==> InRenamedKeys(m, p, from, to)
  {
    if AtOrUnder(p, to) && Rebase(p, to, from) in m {
      RebaseRoundTrip(p, to, from);
      assert Renamed(Rebase(p, to, from), from, to) == p;
    }
  }

  /** Where the entry for p is found after the rename. */
  lemma RenamedKeysMoves<V>(m: map<string, V>, p: string, from: string, to: string)
    requires p in m && Disjoint(from, to)
    requires forall q :: q in m ==> !AtOrUnder(q, to)
    ensures Renamed(p, from, to) in RenamedKeys(m, from, to)
    ensures RenamedKeys(m, from, to)[Renamed(p, from, to)] == m[p]
  {
    RenamedKeysAt(m, Renamed(p, from, to), from, to);
    if AtOrUnder(p, from) {
      RebaseRoundTrip(p, from, to);
    }
  }

  lemma RenamedKeysBackAt<V>(m: map<string, V>, p: string, from: string, to: string)
    requires Disjoint(from, to)
    requires forall q :: q in m ==> !AtOrUnder(q, to)
    ensures var m' := RenamedKeys(RenamedKeys(m, from, to), to, from);
            (p in m' <==> p in m) && (p in m ==> m'[p] == m[p])
  {
    var m1 := RenamedKeys(m, from, to);
    RenamedKeysAt(m, p, from, to);
    RenamedKeysAt(m1, p, to, from);
    if AtOrUnder(p, from) {
      var q := Rebase(p, from, to);
      RebaseRoundTrip(p, from, to);
      RenamedKeysAt(m, q, from, to);
      DisjointSubtrees(p, from, to);
    }
  }

  /** Renaming there and back restores the map when the target subtree was free. */
  lemma RenamedKeysBack<V>(m: map<string, V>, from: string, to: string)
    requires Disjoint(from, to)
    requires forall q :: q in m ==> !AtOrUnder(q, to)
    ensures RenamedKeys(RenamedKeys(m, from, to), to, from) == m
  {
    var m' := RenamedKeys(RenamedKeys(m, from, to), to, from);
    forall p ensures (p in m' <==> p in m) && (p in m ==> m'[p] == m[p]) {
      RenamedKeysBackAt(m, p, from, to);
    }
  }

  // Paths as lists of names.

  predicate ValidNames(ns: seq<string>) {
    ns != [] && forall i :: 0 <= i < |ns| ==> ValidName(ns[i])
  }

  function Render(ns: seq<string>): string {
    if ns == [] then "" else Render(ns[..|ns| - 1]) + "/" + ns[|ns| - 1]
  }

  function Names(p: string): (ns: seq<string>)
    requires Clean(p)
    ensures ValidNames(ns)
    decreases |p|
  {
    var i := LastSlash(p);
    if i == 0 then [p[1..]] else Names(p[..i]) + [p[i + 1..]]
  }

  lemma {:induction false} RenderClean(ns: seq<string>)
    requires ValidNames(ns)
    ensures Clean(Render(ns)) && Names(Render(ns)) == ns
    decreases |ns|
  {
    var init, last := ns[..|ns| - 1], ns[|ns| - 1];
    LastSlashOfChild(Render(init), last);
    var p := Render(ns);
    assert p == Render(init) + "/" + last;
    assert p[|Render(init)| + 1..] == last && p[..|Render(init)|] == Render(init);
    if init == [] {
      assert Render(init) == "" && ns == [last];
    } else {
      RenderClean(init);
      assert |Render(init)| > 0;
      assert ns == init + [last];
    }
  }

  lemma {:induction false} NamesRender(p: string)
    requires Clean(p)
    ensures Render(Names(p)) == p
    decreases |p|
  {
    var i := LastSlash(p);
    assert p == p[..i] + "/" + p[i + 1..];
    var ns := Names(p);
    if i == 0 {
      assert ns[..0] == [] && p[..0] == "";
      assert Render([]) == "";
    } else {
      NamesRender(p[..i]);
      assert ns[..|ns| - 1] == Names(p[..i]);
    }
  }

  lemma {:induction false} RenderAppend(ms: seq<string>, ns: seq<string>)
    ensures Render(ms + ns) == Render(ms) + Render(ns)
    decreases |ns|
  {
    if ns == [] {
      assert ms + ns == ms;
    } else {
      assert (ms + ns)[..|ms + ns| - 1] == ms + ns[..|ns| - 1];
      RenderAppend(ms, ns[..|ns| - 1]);
    }
  }

  lemma RenderFirst(ns: seq<string>)
    requires ns != []
    ensures Render(ns) == "/" + ns[0] + Render(ns[1..])
  {
    RenderAppend([ns[0]], ns[1..]);
    assert [ns[0]] + ns[1..] == ns;
    assert Render([ns[0]]) == Render([]) + "/" + ns[0] by { assert [ns[0]][..0] == []; }
  }

  /** Two names that start the same string and both end at a slash are the same name. */
  lemma FirstNameUnique(m: string, n: string, s: string, t: string)
    requires '/' !in m && '/' !in n
    requires m + "/" <= n + t
    requires t == "" || t[0] == '/'
    ensures m == n
  {
    var w := n + t;
    assert w[|m|] == (m + "/")[|m|] == '/';
    assert forall i :: 0 <= i < |n| ==> w[i] == n[i];
    assert forall i :: 0 <= i < |m| ==> w[i] == m[i];
    assert |n| < |w| ==> w[|n|] == '/';
    assert |n| == |m|;
    assert (m + "/")[..|m|] == w[..|m|] == n;
  }

  lemma DropCommon(a: string, x: string, y: string)
    requires a + x <= a + y
    ensures x <= y
  {
    assert (a + x)[|a|..] == x && (a + y)[|a|..] == y;
  }

  lemma PrefixStep(m: string, s: string, n: string, t: string)
    requires ValidName(m) && ValidName(n)
    requires s == "" || s[0] == '/'
    requires t == "" || t[0] == '/'
    requires Under("/" + n + t, "/" + m + s)
    ensures m == n && Under(t, s)
  {
    assert "/" + (m + (s + "/")) == "/" + m + s + "/";
    assert "/" + (n + t) == "/" + n + t;
    DropCommon("/", m + (s + "/"), n + t);
    assert m + "/" <= m + (s + "/") by { assert (s + "/")[0] == '/'; }
    FirstNameUnique(m, n, s, t);
    DropCommon(m, s + "/", t);
  }

  lemma RenderStart(ns: seq<string>)
    ensures Render(ns) == "" || Render(ns)[0] == '/'
  {
    if ns != [] { RenderFirst(ns); }
  }

  lemma {:induction false} PrefixOnNames(ms: seq<string>, ns: seq<string>)
    requires forall i :: 0 <= i < |ms| ==> ValidName(ms[i])
    requires forall i :: 0 <= i < |ns| ==> ValidName(ns[i])
    requires Under(Render(ns), Render(ms))
    ensures ms < ns
    decreases |ms|
  {
    assert ns != [];
    if ms != [] {
      RenderFirst(ms);
      RenderFirst(ns);
      RenderStart(ms[1..]);
      RenderStart(ns[1..]);
      PrefixStep(ms[0], Render(ms[1..]), ns[0], Render(ns[1..]));
      PrefixOnNames(ms[1..], ns[1..]);
      assert ms == [ms[0]] + ms[1..] && ns == [ns[0]] + ns[1..];
    }
  }

  lemma {:induction false} PrefixIsUnder(ms: seq<string>, rest: seq<string>)
    requires rest != []
    ensures Under(Render(ms + rest), Render(ms))
  {
    RenderAppend(ms, rest);
    RenderFirst(rest);
    assert Render(ms + rest) == Render(ms) + "/" + (rest[0] + Render(rest[1..]));
  }

  /** The string prefix test is exactly "proper prefix of the list of names". */
  lemma UnderIsProperPrefix(ns: seq<string>, ms: seq<string>)
    requires ValidNames(ns) && ValidNames(ms)
    ensures Under(Render(ns), Render(ms)) <==> ms < ns
  {
    if ms < ns {
      PrefixIsUnder(ms, ns[|ms|..]);
      assert ns == ms + ns[|ms|..];
    } else if Under(Render(ns), Render(ms)) {
      PrefixOnNames(ms, ns);
    }
  }

  /** Rebasing a string replaces exactly the leading names. */
  lemma RebaseOnNames(rest: seq<string>, from: seq<string>, to: seq<string>)
    requires ValidNames(from) && ValidNames(to)
    requires rest == [] || ValidNames(rest)
    ensures AtOrUnder(Render(from + rest), Render(from))
    ensures Rebase(Render(from + rest), Render(from), Render(to)) == Render(to + rest)
  {
    RenderAppend(from, rest);
    RenderAppend(to, rest);
    if rest == [] {
      assert from + rest == from && to + rest == to;
    } else {
      PrefixIsUnder(from, rest);
    }
    assert (Render(from) + Render(rest))[|Render(from)|..] == Render(rest);
  }

  /** `Dir` drops the last name. */
  lemma DirOnNames(ns: seq<string>)
    requires ValidNames(ns) && |ns| > 1
    ensures Dir(Render(ns)) == Render(ns[..|ns| - 1])
  {
    var init, last := ns[..|ns| - 1], ns[|ns| - 1];
    LastSlashOfChild(Render(init), last);
    RenderClean(init);
    CleanShape(Render(init));
  }
}
