/** PostgreSQL's LIKE, and the pair of patterns that is meant to select the direct children of a path. */
module SqlLike {
  import opened Paths

  /** `s LIKE pat`: % is any string, _ any character, a backslash takes the next character literally. */
  predicate Like(s: string, pat: string)
    decreases |pat|, |s|
  {
    if pat == "" then s == ""
    else if pat[0] == '%' then Like(s, pat[1..]) || (s != "" && Like(s[1..], pat))
    else if pat[0] == '\\' && |pat| > 1 then s != "" && s[0] == pat[1] && Like(s[1..], pat[2..])
    else s != "" && (pat[0] == '_' || s[0] == pat[0]) && Like(s[1..], pat[1..])
  }

  /** The two conditions that a query for a parent path carries. */
  predicate Selects(parent: string, path: string) {
    Like(path, parent + "/%") && !Like(path, parent + "/%/%")
  }

  /** path is parent, a slash, and a name. */
  predicate DirectChild(parent: string, path: string) {
    parent + "/" <= path && '/' !in path[|parent| + 1..]
  }

  predicate NoMeta(p: string) {
    '%' !in p && '_' !in p && '\\' !in p
  }

  function Slashes(s: string): nat {
    if s == "" then 0 else (if s[0] == '/' then 1 else 0) + Slashes(s[1..])
  }

  lemma {:induction false} SlashesAppend(s: string, t: string)
    ensures Slashes(s + t) == Slashes(s) + Slashes(t)
    decreases |s|
  {
    if s == "" {
      assert s + t == t;
    } else {
      assert (s + t)[1..] == s[1..] + t;
      SlashesAppend(s[1..], t);
    }
  }

  lemma {:induction false} NoSlashes(s: string)
    ensures Slashes(s) == 0 <==> '/' !in s
    decreases |s|
  {
    if s != "" {
      NoSlashes(s[1..]);
      assert s == [s[0]] + s[1..];
    }
  }

  /** Whatever a pattern matches has at least as many slashes as the pattern. */
  lemma {:induction false} SlashCount(s: string, pat: string)
    requires Like(s, pat)
    ensures Slashes(s) >= Slashes(pat)
    decreases |pat|, |s|
  {
    if pat != "" {
      if pat[0] == '%' {
        if Like(s, pat[1..]) { SlashCount(s, pat[1..]); } else { SlashCount(s[1..], pat); }
      } else if pat[0] == '\\' && |pat| > 1 {
        assert pat[1..][1..] == pat[2..];
        SlashCount(s[1..], pat[2..]);
      } else {
        SlashCount(s[1..], pat[1..]);
      }
    }
  }

  ghost predicate SomeSuffixLike(s: string, pat: string) {
    exists k: nat :: k <= |s| && Like(s[k..], pat)
  }

  lemma SuffixOfRest(s: string, pat: string)
    requires s != ""
    ensures SomeSuffixLike(s, pat) <==> Like(s, pat) || SomeSuffixLike(s[1..], pat)
  {
    hide Like;
    assert s[0..] == s;
    if k: nat :| k <= |s[1..]| && Like(s[1..][k..], pat) { assert s[k + 1..] == s[1..][k..]; }
    if k: nat :| 0 < k <= |s| && Like(s[k..], pat) { assert s[1..][k - 1..] == s[k..]; }
  }

  lemma {:induction false} PercentMatches(s: string, pat: string)
    ensures Like(s, "%" + pat) <==> SomeSuffixLike(s, pat)
    decreases |s|
  {
    assert ("%" + pat)[1..] == pat;
    if s == "" {
      assert s[0..] == s;
    } else {
      SuffixOfRest(s, pat);
      PercentMatches(s[1..], pat);
    }
  }

  /** % stands for any string, _ for any one character, and a backslash makes the next one literal. */
  lemma MetacharactersMean(s: string, c: char, pat: string)
    ensures Like(s, "%" + pat) <==> exists k: nat :: k <= |s| && Like(s[k..], pat)
    ensures Like(s, "_" + pat) <==> s != "" && Like(s[1..], pat)
    ensures Like(s, "\\" + [c] + pat) <==> s != "" && s[0] == c && Like(s[1..], pat)
  {
    PercentMatches(s, pat);
    assert ("_" + pat)[1..] == pat && ("\\" + [c] + pat)[2..] == pat;
  }

  // The pattern's tail after the parent.

  lemma {:induction false} AnyMatches(s: string)
    ensures Like(s, "%")
    decreases |s|
  {
    assert "%"[1..] == "";
    if s != "" { AnyMatches(s[1..]); }
  }

  lemma TailOne(s: string)
    ensures Like(s, "/%") <==> s != "" && s[0] == '/'
  {
    assert "/%"[1..] == "%";
    if s != "" { AnyMatches(s[1..]); }
  }

  lemma {:induction false} AnyThenSlash(s: string)
    ensures Like(s, "%/%") <==> '/' in s
    decreases |s|
  {
    assert "%/%"[1..] == "/%";
    TailOne(s);
    if s != "" {
      AnyThenSlash(s[1..]);
      assert s == [s[0]] + s[1..];
    }
  }

  lemma TailTwo(s: string)
    ensures Like(s, "/%/%") <==> s != "" && s[0] == '/' && '/' in s[1..]
  {
    assert "/%/%"[1..] == "%/%";
    if s != "" { AnyThenSlash(s[1..]); }
  }

  /** A literal head matches itself only. */
  lemma {:induction false} LiteralHead(p: string, s: string, tail: string)
    requires NoMeta(p)
    ensures Like(s, p + tail) <==> p <= s && Like(s[|p|..], tail)
    decreases |p|
  {
    if p == "" {
      assert p + tail == tail && s[0..] == s;
    } else {
      assert (p + tail)[1..] == p[1..] + tail;
      assert p == [p[0]] + p[1..];
      if s != "" {
        LiteralHead(p[1..], s[1..], tail);
        assert s == [s[0]] + s[1..];
        if p <= s { assert s[1..][|p[1..]|..] == s[|p|..]; }
      }
    }
  }

  lemma SelectsLiteral(p: string, x: string)
    requires NoMeta(p)
    ensures Selects(p, x) <==> DirectChild(p, x)
  {
    LiteralHead(p, x, "/%");
    LiteralHead(p, x, "/%/%");
    if p <= x {
      TailOne(x[|p|..]);
      TailTwo(x[|p|..]);
      if x[|p|..] != "" {
        assert x[|p|..][1..] == x[|p| + 1..];
        assert p + "/" <= x <==> x[|p|] == '/';
      }
    }
  }

  /** % and _ also match themselves, so without a backslash a pattern's head matches itself. */
  lemma {:induction false} HeadMatchesItself(p: string, s: string, tail: string)
    requires '\\' !in p && Like(s, tail)
    ensures Like(p + s, p + tail)
    decreases |p|
  {
    if p == "" {
      assert p + s == s && p + tail == tail;
    } else {
      assert (p + s)[1..] == p[1..] + s && (p + tail)[1..] == p[1..] + tail;
      HeadMatchesItself(p[1..], s, tail);
      if p[0] == '%' {
        assert (p + tail)[1..] == p[1..] + tail;
        assert Like((p + s)[1..], (p + tail)[1..]);
        assert Like((p + s)[1..], p + tail);
      }
    }
  }

  lemma FewSlashes(p: string, x: string)
    requires Slashes(x) <= Slashes(p) + 1
    ensures !Like(x, p + "/%/%")
  {
    SlashesAppend(p, "/%/%");
    assert "/%/%"[1..] == "%/%" && "%/%"[1..] == "/%" && "/%"[1..] == "%" && "%"[1..] == "";
    assert Slashes("%") == 0;
    assert Slashes("/%") == 1;
    assert Slashes("%/%") == 1;
    if Like(x, p + "/%/%") { SlashCount(x, p + "/%/%"); }
  }

  /** With % or _ but no backslash in the parent, every direct child is still selected. */
  lemma ChildrenStillSelected(p: string, x: string)
    requires '\\' !in p && DirectChild(p, x)
    ensures Selects(p, x)
  {
    var c := x[|p| + 1..];
    assert x == p + ("/" + c);
    TailOne("/" + c);
    HeadMatchesItself(p, "/" + c, "/%");
    NoSlashes(c);
    SlashesAppend(p, "/" + c);
    assert ("/" + c)[1..] == c;
    FewSlashes(p, x);
  }

  // When the parent holds a metacharacter, the query selects something else.

  /** One string that the parent, read as a pattern, matches: other than the parent wherever it has a
      metacharacter. */
  function Instance(p: string): string
    decreases |p|
  {
    if p == "" then ""
    else if p[0] == '%' || p[0] == '_' then "q" + Instance(p[1..])
    else if p[0] == '\\' && |p| > 1 then [p[1]] + Instance(p[2..])
    else if p[0] == '\\' then ""
    else [p[0]] + Instance(p[1..])
  }

  lemma LikeOneMore(c: char, s: string, m: string, pat: string)
    requires Like(s, pat)
    requires m == "%" || m == "_" || m == ['\\', c] || (m == [c] && NoMeta(m))
    ensures Like([c] + s, m + pat)
  {
    assert ([c] + s)[1..] == s;
    if m == ['\\', c] {
      assert (m + pat)[2..] == pat;
    } else {
      assert (m + pat)[1..] == pat;
      if m == "%" { assert Like(s, m + pat); }
    }
  }

  lemma InstanceStep(c: char, m: string, p: string, s: string, tail: string)
    requires Like(Instance(p) + "/" + s, p + "/" + tail)
    requires m == "%" || m == "_" || m == ['\\', c] || (m == [c] && NoMeta(m))
    ensures Like([c] + Instance(p) + "/" + s, m + p + "/" + tail)
  {
    hide Like, Instance, NoMeta;
    LikeOneMore(c, Instance(p) + "/" + s, m, p + "/" + tail);
    assert [c] + (Instance(p) + "/" + s) == [c] + Instance(p) + "/" + s;
    assert m + (p + "/" + tail) == m + p + "/" + tail;
  }

  lemma InstanceEnd(s: string, tail: string)
    requires Like(s, tail)
    ensures Like("" + "/" + s, "" + "/" + tail)
    ensures Like("" + "/" + s, "\\" + "/" + tail)
  {
    LikeOneMore('/', s, "/", tail);
    LikeOneMore('/', s, ['\\', '/'], tail);
    assert "" + "/" + s == ['/'] + s && "" + "/" + tail == "/" + tail;
    assert "\\" + "/" + tail == ['\\', '/'] + tail;
  }

  /** A trailing backslash makes the slash after the parent literal, which it was anyway. */
  lemma {:induction false} InstanceMatches(p: string, s: string, tail: string)
    requires Like(s, tail)
    ensures Like(Instance(p) + "/" + s, p + "/" + tail)
    decreases |p|
  {
    if p == "" || p == "\\" {
      InstanceEnd(s, tail);
    } else if p[0] == '\\' {
      InstanceMatches(p[2..], s, tail);
      InstanceStep(p[1], ['\\', p[1]], p[2..], s, tail);
      assert p == ['\\', p[1]] + p[2..];
    } else {
      InstanceMatches(p[1..], s, tail);
      InstanceStep(if p[0] == '%' || p[0] == '_' then 'q' else p[0], [p[0]], p[1..], s, tail);
      assert p == [p[0]] + p[1..];
    }
  }

  lemma {:induction false} InstanceDiffers(p: string)
    ensures |Instance(p)| <= |p| && Slashes(Instance(p)) <= Slashes(p)
    ensures '\\' in p ==> |Instance(p)| < |p|
    ensures !NoMeta(p) ==> Instance(p) != p
    decreases |p|
  {
    if p != "" {
      assert p == [p[0]] + p[1..];
      if p[0] == '\\' && |p| > 1 {
        InstanceDiffers(p[2..]);
        assert p[1..][1..] == p[2..];
        assert ([p[1]] + Instance(p[2..]))[1..] == Instance(p[2..]);
      } else if p[0] != '\\' {
        InstanceDiffers(p[1..]);
        var c := if p[0] == '%' || p[0] == '_' then 'q' else p[0];
        assert Instance(p) == [c] + Instance(p[1..]);
        assert ([c] + Instance(p[1..]))[1..] == Instance(p[1..]);
      }
    }
  }

  lemma SameParent(p: string, q: string)
    requires |q| <= |p|
    ensures DirectChild(p, q + "/c") ==> p == q
  {
    var x := q + "/c";
    assert x[..|q|] == q && x[|q| + 1] == 'c';
    assert p + "/" <= x ==> x[|p|] == (p + "/")[|p|] == '/' && x[..|p|] == p;
  }

  /** Exactly when the parent has a metacharacter, this path is selected without being its child. */
  lemma WrongChild(p: string)
    ensures Selects(p, Instance(p) + "/c")
    ensures DirectChild(p, Instance(p) + "/c") ==> NoMeta(p)
  {
    var x := Instance(p) + "/c";
    InstanceDiffers(p);
    AnyMatches("c");
    InstanceMatches(p, "c", "%");
    assert Instance(p) + "/" + "c" == x && p + "/" + "%" == p + "/%";
    SlashesAppend(Instance(p), "/c");
    assert "c"[1..] == "" && "/c"[1..] == "c";
    assert Slashes("c") == 0;
    assert Slashes("/c") == 1;
    FewSlashes(p, x);
    SameParent(p, Instance(p));
  }

  /** The query means "direct child", on every path, exactly for parents without metacharacters. */
  lemma LikeMeansDirectChild(p: string)
    ensures (forall x :: Selects(p, x) <==> DirectChild(p, x)) <==> NoMeta(p)
  {
    if NoMeta(p) {
      forall x ensures Selects(p, x) <==> DirectChild(p, x) { SelectsLiteral(p, x); }
    } else {
      WrongChild(p);
      assert !(Selects(p, Instance(p) + "/c") <==> DirectChild(p, Instance(p) + "/c"));
    }
  }

  lemma ChildOf(p: string, x: string)
    requires |p| > 0 && DirectChild(p, x)
    ensures Dir(x) == p
  {
    var c := x[|p| + 1..];
    assert x == p + "/" + c;
    LastSlashOfChild(p, c);
    assert x[..|p|] == p;
  }

  lemma ParentOf(p: string, x: string)
    requires Clean(p) && Clean(x) && Dir(x) == p
    ensures DirectChild(p, x)
  {
    CleanShape(p);
    CleanShape(x);
    assert x[|p| + 1..] == Base(x);
  }

  /** On clean paths a direct child is what has the parent as its directory. */
  lemma DirectChildIsDir(p: string, x: string)
    requires Clean(p) && Clean(x)
    ensures DirectChild(p, x) <==> Dir(x) == p
  {
    CleanShape(p);
    if DirectChild(p, x) {
      ChildOf(p, x);
    }
    if Dir(x) == p {
      ParentOf(p, x);
    }
  }

  lemma {:induction false} InstanceValid(n: string)
    requires '\\' !in n && '/' !in n
    ensures '/' !in Instance(n) && |Instance(n)| == |n|
    ensures NoMeta(n) ==> Instance(n) == n
    ensures !NoMeta(n) ==> 'q' in Instance(n)
    decreases |n|
  {
    if n != "" {
      assert n == [n[0]] + n[1..];
      InstanceValid(n[1..]);
    }
  }

  lemma InstanceName(n: string)
    requires ValidName(n) && '\\' !in n
    ensures ValidName(Instance(n))
  {
    InstanceValid(n);
    assert 'q' !in "." && 'q' !in "..";
  }

  lemma InstanceHead(c: char, rest: string)
    ensures Instance("") == "" && Instance("\\") == ""
    ensures Instance(['\\', c] + rest) == [c] + Instance(rest)
    ensures c != '\\' ==> Instance([c] + rest) == [if c == '%' || c == '_' then 'q' else c] + Instance(rest)
  {
    assert (['\\', c] + rest)[2..] == rest && ([c] + rest)[1..] == rest;
  }

  /** Slash by slash, whether or not a backslash stands before it. */
  lemma {:induction false} InstanceOfChild(d: string, n: string)
    ensures Instance(d + "/" + n) == Instance(d) + "/" + Instance(n)
    decreases |d|
  {
    hide Instance;
    InstanceHead('/', n);
    if d == "" {
      assert d + "/" + n == ['/'] + n;
    } else if d == "\\" {
      assert d + "/" + n == ['\\', '/'] + n;
    } else if d[0] == '\\' {
      InstanceHead(d[1], d[2..]);
      InstanceHead(d[1], d[2..] + "/" + n);
      InstanceOfChild(d[2..], n);
      assert d == ['\\', d[1]] + d[2..] && d + "/" + n == ['\\', d[1]] + (d[2..] + "/" + n);
    } else {
      InstanceHead(d[0], d[1..]);
      InstanceHead(d[0], d[1..] + "/" + n);
      InstanceOfChild(d[1..], n);
      assert d == [d[0]] + d[1..] && d + "/" + n == [d[0]] + (d[1..] + "/" + n);
    }
  }

  lemma CleanTop(n: string)
    requires ValidName(n)
    ensures Clean("/" + n)
  {
    LastSlashOfChild("", n);
    assert "" + "/" + n == "/" + n;
    assert ("/" + n)[1..] == n;
  }

  lemma SelectsCleanChild(p: string, x: string)
    requires Clean(p) && Clean(x) && NoMeta(p)
    ensures Selects(p, x) <==> Dir(x) == p
  {
    SelectsLiteral(p, x);
    DirectChildIsDir(p, x);
  }

  // A name that unescaping makes empty or a dot name: whatever the pattern matches is no clean path.

  lemma {:induction false} InstanceNoSlash(n: string)
    requires '/' !in n
    ensures '/' !in Instance(n)
    decreases |n|
  {
    if n != "" {
      assert n == [n[0]] + n[1..];
      if n[0] == '\\' && |n| > 1 {
        assert n == [n[0], n[1]] + n[2..];
        InstanceNoSlash(n[2..]);
      } else if n[0] != '\\' {
        InstanceNoSlash(n[1..]);
      }
    }
  }

  lemma TopUnclean(n: string)
    requires !Clean(Instance("/" + n))
    ensures !ValidName(Instance(n))
  {
    hide Clean;
    InstanceOfChild("", n);
    assert "" + "/" + n == "/" + n && "" + "/" + Instance(n) == "/" + Instance(n);
    assert Instance("") == "";
    if ValidName(Instance(n)) { CleanTop(Instance(n)); }
  }

  lemma ParentUnclean(d: string, n: string)
    requires !Clean(Instance(d + "/" + n)) && ValidName(Instance(n))
    ensures !Clean(Instance(d))
  {
    hide Clean, Instance;
    InstanceOfChild(d, n);
    if Clean(Instance(d)) { ChildPath(Instance(d), Instance(n)); }
  }

  /** The text before a name, the name, and the text after it. */
  predicate SplitAt(p: string, d: string, n: string, e: string) {
    p == d + "/" + n + e && (e == "" || e[0] == '/') && '/' !in n
  }

  lemma SplitGrows(parent: string, d: string, n: string, e: string, last: string)
    requires SplitAt(parent, d, n, e)
    ensures SplitAt(parent + "/" + last, d, n, e + "/" + last)
  {
    assert parent + "/" + last == d + "/" + n + (e + "/" + last);
  }

  lemma SplitLast(p: string)
    requires Clean(p)
    ensures SplitAt(p, if Dir(p) == "/" then "" else Dir(p), Base(p), "")
    ensures Dir(p) != "/" ==> Clean(Dir(p)) && p == Dir(p) + "/" + Base(p)
    ensures Dir(p) == "/" ==> p == "/" + Base(p)
    ensures |Dir(p)| < |p|
  {
    CleanShape(p);
  }

  /** Where an unclean instance of a clean pattern comes from. */
  lemma {:induction false} UncleanName(p: string) returns (d: string, n: string, e: string)
    requires Clean(p) && !Clean(Instance(p))
    ensures SplitAt(p, d, n, e) && !ValidName(Instance(n))
    decreases |p|
  {
    hide Instance, Clean, Dir, Base, SplitAt, ValidName;
    SplitLast(p);
    n, e := Base(p), "";
    if Dir(p) == "/" {
      d := "";
      TopUnclean(n);
    } else if !ValidName(Instance(n)) {
      d := Dir(p);
    } else {
      ParentUnclean(Dir(p), n);
      d, n, e := UncleanName(Dir(p));
      SplitGrows(Dir(p), d, n, e, Base(p));
      e := e + "/" + Base(p);
    }
  }

  /** s holds a name between two slashes that no clean path has. */
  predicate UncleanBetween(s: string, i: nat, j: nat) {
    i < j < |s| && s[i] == '/' && s[j] == '/' && '/' !in s[i + 1..j] && !ValidName(s[i + 1..j])
  }

  lemma {:induction false} UncleanBetweenIsNotClean(s: string, i: nat, j: nat)
    requires UncleanBetween(s, i, j)
    ensures !Clean(s)
    decreases |s|
  {
    var k := LastSlash(s);
    if k == j {
      var head := s[..j];
      assert forall m :: i < m < j ==> s[m] in s[i + 1..j];
      LastSlashUnique(head, i);
      assert head[i + 1..] == s[i + 1..j];
    } else {
      assert s[..k][i + 1..j] == s[i + 1..j];
      UncleanBetweenIsNotClean(s[..k], i, j);
    }
  }

  /** Without wildcards, what a name matches starts with its instance. */
  lemma {:induction false} NameMatch(s: string, n: string, tail: string)
    requires Like(s, n + "/" + tail) && 'q' !in Instance(n)
    ensures Instance(n) + "/" <= s
    decreases |n|
  {
    var pat := n + "/" + tail;
    if n == "" {
      assert pat[0] == '/';
    } else if n == "\\" {
      assert pat[1] == '/';
    } else if n[0] == '\\' {
      assert pat[2..] == n[2..] + "/" + tail && pat[1] == n[1];
      NameMatch(s[1..], n[2..], tail);
      PrefixCons(n[1], Instance(n[2..]) + "/", s[0], s[1..]);
      assert s == [s[0]] + s[1..] && Instance(n) + "/" == [n[1]] + (Instance(n[2..]) + "/");
    } else {
      assert Instance(n)[0] in Instance(n) && pat[1..] == n[1..] + "/" + tail && pat[0] == n[0];
      NameMatch(s[1..], n[1..], tail);
      PrefixCons(n[0], Instance(n[1..]) + "/", s[0], s[1..]);
      assert s == [s[0]] + s[1..] && Instance(n) + "/" == [n[0]] + (Instance(n[1..]) + "/");
    }
  }

  lemma NameFound(s: string, n: string, tail: string)
    requires s != "" && s[0] == '/' && Like(s[1..], n + "/" + tail)
    requires '/' !in n && !ValidName(Instance(n))
    ensures UncleanBetween(s, 0, |Instance(n)| + 1)
  {
    hide Like;
    InstanceNoSlash(n);
    assert 'q' !in "" && 'q' !in "." && 'q' !in "..";
    NameMatch(s[1..], n, tail);
    assert s[1..][..|Instance(n)|] == Instance(n) && s[1..][|Instance(n)|] == '/';
    assert s[1..|Instance(n)| + 1] == Instance(n);
  }

  lemma Later(s: string, i: nat, j: nat)
    requires s != "" && UncleanBetween(s[1..], i, j)
    ensures UncleanBetween(s, i + 1, j + 1)
  {
    assert s[1..][i + 1..j] == s[i + 2..j + 1];
  }

  lemma {:induction false} UncleanMatch(s: string, d: string, n: string, tail: string) returns (i: nat, j: nat)
    requires Like(s, d + "/" + (n + "/" + tail)) && '/' !in n && !ValidName(Instance(n))
    ensures UncleanBetween(s, i, j)
    decreases |d|, |s|
  {
    hide Instance, ValidName, UncleanBetween;
    var pat, name := d + "/" + (n + "/" + tail), n + "/" + tail;
    if d == "" {
      assert pat[0] == '/' && pat[1..] == name;
      NameFound(s, n, tail);
      i, j := 0, |Instance(n)| + 1;
    } else if d == "\\" {
      assert pat[1] == '/' && pat[2..] == name;
      NameFound(s, n, tail);
      i, j := 0, |Instance(n)| + 1;
    } else if d[0] == '%' && Like(s, pat[1..]) {
      assert pat[1..] == d[1..] + "/" + name;
      i, j := UncleanMatch(s, d[1..], n, tail);
    } else {
      var rest := if d[0] == '%' then d else if d[0] == '\\' then d[2..] else d[1..];
      assert d[0] == '\\' ==> pat[2..] == d[2..] + "/" + name;
      assert pat[1..] == d[1..] + "/" + name && pat[0] == d[0];
      i, j := UncleanMatch(s[1..], rest, n, tail);
      Later(s, i, j);
      i, j := i + 1, j + 1;
    }
  }

  lemma NothingCleanSelected(p: string, x: string)
    requires Clean(p) && !Clean(Instance(p)) && Clean(x)
    ensures !Selects(p, x)
  {
    hide Clean, Instance, ValidName, UncleanBetween;
    var d, n, e := UncleanName(p);
    if Like(x, p + "/%") {
      var tail := if e == "" then "%" else e[1..] + "/%";
      assert p + "/%" == d + "/" + (n + "/" + tail);
      var i, j := UncleanMatch(x, d, n, tail);
      UncleanBetweenIsNotClean(x, i, j);
    }
  }

  /** What the query means for one path. */
  predicate SelectsByDir(p: string, x: string) {
    Clean(x) ==> (Selects(p, x) <==> Dir(x) == p)
  }

  /** The same holds with existing paths alone: the query means "has this directory" on clean paths
      exactly for parents without metacharacters. */
  lemma LikeOnCleanPaths(p: string)
    requires Clean(p)
    ensures (forall x :: SelectsByDir(p, x)) <==> NoMeta(p)
  {
    hide Selects, Instance, Clean, Dir;
    if NoMeta(p) {
      forall x ensures SelectsByDir(p, x) {
        if Clean(x) { SelectsCleanChild(p, x); }
      }
    } else if Clean(Instance(p)) {
      WrongChild(p);
      InstanceDiffers(p);
      ChildPath(Instance(p), "c");
      assert Instance(p) + "/" + "c" == Instance(p) + "/c";
      assert !SelectsByDir(p, Instance(p) + "/c");
    } else {
      ChildPath(p, "c");
      NothingCleanSelected(p, p + "/" + "c");
      assert !SelectsByDir(p, p + "/" + "c");
    }
  }

  // A backslash and no wildcard: not a single child is selected.

  /** What a pattern without wildcards matches. */
  function Literal(p: string): string
    decreases |p|
  {
    if p == "" then ""
    else if p[0] == '\\' && |p| > 1 then [p[1]] + Literal(p[2..])
    else [p[0]] + Literal(p[1..])
  }

  lemma {:induction false} LiteralMatch(p: string, s: string, tail: string)
    requires '%' !in p && '_' !in p && tail != "" && tail[0] == '/'
    requires Like(s, p + tail)
    ensures Literal(p + "/") <= s
    decreases |p|
  {
    var pat := p + tail;
    if p == "" {
      assert pat == tail && p + "/" == "/" && Literal("/") == "/";
    } else {
      assert pat[1..] == p[1..] + tail && (p + "/")[1..] == p[1..] + "/";
      assert p == [p[0]] + p[1..];
      if p[0] == '\\' && |p| == 1 {
        assert (p + "/")[2..] == "" && Literal(p + "/") == "/";
      } else if p[0] == '\\' {
        assert pat[2..] == p[2..] + tail && (p + "/")[2..] == p[2..] + "/";
        assert p == [p[0], p[1]] + p[2..];
        LiteralMatch(p[2..], s[1..], tail);
      } else {
        LiteralMatch(p[1..], s[1..], tail);
      }
    }
  }

  lemma PrefixCons(a: char, u: string, b: char, t: string)
    ensures [a] + u <= [b] + t <==> a == b && u <= t
  {
    var l, r := [a] + u, [b] + t;
    assert l[1..] == u && r[1..] == t && l[0] == a && r[0] == b;
    assert l <= r ==> l[1..] <= r[1..];
    assert a == b && u <= t ==> r == l + t[|u|..];
  }

  /** Unescaping shifts what follows, so it never agrees with a text that has more backslashes in front. */
  lemma {:induction false} Shifted(w: string, k: nat, rest: string)
    requires w != "" && w[|w| - 1] == '/' && k > 0
    ensures !(Literal(w) <= seq(k, _ => '\\') + w + rest)
    decreases |w|
  {
    var t := seq(k - 1, _ => '\\') + w + rest;
    assert seq(k, _ => '\\') + w + rest == ['\\'] + t;
    if w[0] == '\\' && |w| > 1 {
      PrefixCons(w[1], Literal(w[2..]), '\\', t);
      if w[1] == '\\' {
        Shifted(w[2..], k + 1, rest);
        assert t == seq(k + 1, _ => '\\') + w[2..] + rest;
      }
    } else {
      PrefixCons(w[0], Literal(w[1..]), '\\', t);
    }
  }

  lemma {:induction false} UnescapedDiffers(w: string, rest: string)
    requires w != "" && w[|w| - 1] == '/' && '\\' in w
    ensures !(Literal(w) <= w + rest)
    decreases |w|
  {
    assert w == [w[0]] + w[1..];
    var t := w[1..] + rest;
    assert w + rest == [w[0]] + t;
    if w[0] == '\\' {
      PrefixCons(w[1], Literal(w[2..]), '\\', t);
      if w[1] == '\\' {
        Shifted(w[2..], 1, rest);
        assert t == seq(1, _ => '\\') + w[2..] + rest;
      }
    } else {
      PrefixCons(w[0], Literal(w[1..]), w[0], t);
      UnescapedDiffers(w[1..], rest);
    }
  }

  lemma BackslashHidesChildren(p: string, x: string)
    requires '\\' in p && '%' !in p && '_' !in p && DirectChild(p, x)
    ensures !Selects(p, x)
  {
    if Like(x, p + "/%") {
      LiteralMatch(p, x, "/%");
      assert x == (p + "/") + x[|p| + 1..];
      UnescapedDiffers(p + "/", x[|p| + 1..]);
    }
  }
}
