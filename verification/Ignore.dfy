/** Which files and directories the library leaves out. */
module Ignore {
  import opened Paths

  const VIDEO_EXTENSIONS: seq<string> := [
    ".mpg", ".mpeg", ".avi", ".mkv", ".mp4", ".m4v",
    ".divx", ".asf", ".wmv", ".mts", ".m2ts", ".m2t",
    ".vob", ".ts", ".flv", ".xvid", ".mov", ".3gp", ".rm", ".rmvb", ".webm"
  ]

  const EA_DIR := "/@eaDir"
  const EA_DIR_INSIDE := "/@eaDir/"

  predicate HasSuffix(s: string, t: string) {
    |t| <= |s| && s[|s| - |t|..] == t
  }

  predicate OccursAt(s: string, t: string, i: int) {
    0 <= i <= |s| - |t| && s[i..i + |t|] == t
  }

  predicate Contains(s: string, t: string) {
    exists i | 0 <= i <= |s| :: OccursAt(s, t, i)
  }

  /** `filepath.Ext`, scanning backwards from index i. */
  function ExtFrom(p: string, i: int): string
    requires -1 <= i < |p|
    decreases i + 1
  {
    if i < 0 || p[i] == '/' then ""
    else if p[i] == '.' then p[i..]
    else ExtFrom(p, i - 1)
  }

  function Ext(p: string): string {
    ExtFrom(p, |p| - 1)
  }

  /** `unicode.ToLower` wherever its result is an ASCII character: besides A-Z that is the
      Kelvin sign and the dotted capital I. Other characters cannot occur in an extension above. */
  function LowerChar(c: char): char {
    if 'A' <= c <= 'Z' then c + ('a' - 'A')
    else if c == '\U{212A}' then 'k'
    else if c == '\U{0130}' then 'i'
    else c
  }

  function ToLower(s: string): string {
    seq(|s|, i requires 0 <= i < |s| => LowerChar(s[i]))
  }

  predicate IgnoreFn(name: string, isDir: bool) {
    if isDir then
      HasSuffix(name, EA_DIR) || Contains(name, EA_DIR_INSIDE)
    else
      Contains(name, EA_DIR_INSIDE) || ToLower(Ext(name)) !in VIDEO_EXTENSIONS
  }

  lemma OccursInExtension(s: string, u: string, t: string, i: int)
    requires OccursAt(s, t, i)
    ensures OccursAt(s + u, t, i)
  {
    assert (s + u)[i..i + |t|] == s[i..i + |t|];
  }

  /** Everything below an ignored directory is ignored. */
  lemma Hereditary(x: string, d: string, isDir: bool)
    requires Under(x, d) && IgnoreFn(d, true)
    ensures IgnoreFn(x, isDir)
  {
    var rest := x[|d| + 1..];
    assert x == d + "/" + rest;
    if HasSuffix(d, EA_DIR) {
      var i := |d| - |EA_DIR|;
      assert x[i..i + 8] == d[i..] + "/" == EA_DIR_INSIDE;
      assert OccursAt(x, EA_DIR_INSIDE, i);
    } else {
      var i :| 0 <= i <= |d| && OccursAt(d, EA_DIR_INSIDE, i);
      OccursInExtension(d, "/" + rest, EA_DIR_INSIDE, i);
      assert x == d + ("/" + rest);
    }
  }

  /** An occurrence of "/@eaDir/" across the end of d means that d ends in "/@eaDir". */
  lemma OccursAcrossEnd(d: string, rest: string, i: int)
    requires OccursAt(d + "/" + rest, EA_DIR_INSIDE, i)
    requires i < |d| < i + 8
    ensures HasSuffix(d, EA_DIR)
  {
    var x, w := d + "/" + rest, EA_DIR_INSIDE;
    assert x[i..i + 8] == w;
    assert w[|d| - i] == x[|d|] == '/';
    assert |d| - i == 7;
    assert d[i..] == w[..7] == EA_DIR;
  }

  /** Below a directory that is not ignored, an occurrence of "/@eaDir/" starts at or after its end. */
  lemma OccursPastEnd(d: string, rest: string, i: int)
    requires OccursAt(d + "/" + rest, EA_DIR_INSIDE, i)
    ensures IgnoreFn(d, true) || (|d| <= i && OccursAt("/" + rest, EA_DIR_INSIDE, i - |d|))
  {
    var x := d + "/" + rest;
    if i + 8 <= |d| {
      assert d[i..i + 8] == x[i..i + 8];
      assert OccursAt(d, EA_DIR_INSIDE, i);
    } else if i < |d| {
      OccursAcrossEnd(d, rest, i);
    } else {
      assert x == d + ("/" + rest);
      assert ("/" + rest)[i - |d|..i - |d| + 8] == x[i..i + 8];
    }
  }

  lemma ContainsBelow(d: string, rest: string)
    requires !IgnoreFn(d, true)
    ensures Contains(d + "/" + rest, EA_DIR_INSIDE) <==> Contains("/" + rest, EA_DIR_INSIDE)
  {
    var x := d + "/" + rest;
    assert x == d + ("/" + rest);
    if Contains(x, EA_DIR_INSIDE) {
      var i :| 0 <= i <= |x| && OccursAt(x, EA_DIR_INSIDE, i);
      OccursPastEnd(d, rest, i);
    }
    if Contains("/" + rest, EA_DIR_INSIDE) {
      var i :| 0 <= i <= |"/" + rest| && OccursAt("/" + rest, EA_DIR_INSIDE, i);
      assert x[|d| + i..|d| + i + 8] == ("/" + rest)[i..i + 8];
      assert OccursAt(x, EA_DIR_INSIDE, |d| + i);
    }
  }

  lemma SuffixOfConcat(d: string, y: string, w: string)
    requires y != "" && y[0] == '/' && forall n :: 0 < n < |w| ==> w[n] != '/'
    ensures HasSuffix(d + y, w) <==> HasSuffix(y, w)
  {
    var x := d + y;
    if |w| <= |y| {
      assert x[|x| - |w|..] == y[|y| - |w|..];
    } else if |w| <= |x| {
      assert x[|x| - |w|..][|w| - |y|] == x[|d|] == '/';
    }
  }

  lemma SuffixBelow(d: string, rest: string)
    ensures HasSuffix(d + "/" + rest, EA_DIR) <==> HasSuffix("/" + rest, EA_DIR)
  {
    assert forall n :: 0 < n < |EA_DIR| ==> EA_DIR[n] != '/';
    assert d + "/" + rest == d + ("/" + rest);
    SuffixOfConcat(d, "/" + rest, EA_DIR);
  }

  lemma {:induction false} ExtBelow(d: string, y: string, i: int)
    requires |y| > 0 && y[0] == '/' && 0 <= i < |y|
    ensures ExtFrom(d + y, |d| + i) == ExtFrom(y, i)
    decreases i
  {
    assert (d + y)[|d| + i] == y[i];
    assert (d + y)[|d| + i..] == y[i..];
    if i > 0 { ExtBelow(d, y, i - 1); }
  }

  /** Below a directory that is not ignored, being ignored depends only on the relative path. */
  lemma RelativeIgnore(d: string, rest: string, isDir: bool)
    requires !IgnoreFn(d, true)
    ensures IgnoreFn(d + "/" + rest, isDir) <==> IgnoreFn("/" + rest, isDir)
  {
    ContainsBelow(d, rest);
    SuffixBelow(d, rest);
    var y := "/" + rest;
    assert d + "/" + rest == d + y;
    ExtBelow(d, y, |y| - 1);
  }

  /** Renaming a directory that is not ignored to a name that is not ignored
      changes nothing about which descendants are ignored. */
  lemma RenameKeepsIgnored(x: string, isDir: bool, p: string, q: string)
    requires !IgnoreFn(p, true) && !IgnoreFn(q, true) && Under(x, p)
    ensures IgnoreFn(Rebase(x, p, q), isDir) <==> IgnoreFn(x, isDir)
  {
    var rest := x[|p| + 1..];
    assert x == p + "/" + rest;
    assert Rebase(x, p, q) == q + "/" + rest;
    RelativeIgnore(p, rest, isDir);
    RelativeIgnore(q, rest, isDir);
  }

  // Which names are ignored, without the functions that decide it.

  /** The name lies below a directory "@eaDir". */
  ghost predicate InEaDir(name: string) {
    exists head, tail :: name == head + "/@eaDir/" + tail
  }

  lemma ContainsIsInEaDir(name: string)
    ensures Contains(name, EA_DIR_INSIDE) <==> InEaDir(name)
  {
    if Contains(name, EA_DIR_INSIDE) {
      var i :| 0 <= i <= |name| && OccursAt(name, EA_DIR_INSIDE, i);
      assert name == name[..i] + "/@eaDir/" + name[i + 8..];
    }
    if InEaDir(name) {
      var head, tail :| name == head + "/@eaDir/" + tail;
      assert name[|head|..|head| + 8] == "/@eaDir/";
      assert OccursAt(name, EA_DIR_INSIDE, |head|);
    }
  }

  /** c is x or its capital, where x is a lower-case ASCII letter; U+212A and U+0130 count as capitals. */
  predicate IsCaseOf(c: char, x: char) {
    || c == x
    || ('a' <= x <= 'z' && c as int == x as int - 32)
    || (c == '\U{212A}' && x == 'k') || (c == '\U{0130}' && x == 'i')
  }

  predicate EqualUpToCase(e: string, x: string) {
    |e| == |x| && forall i | 0 <= i < |e| :: IsCaseOf(e[i], x[i])
  }

  /** A dot, and after it neither a dot nor a slash. */
  predicate Extension(e: string) {
    e != "" && e[0] == '.' && '.' !in e[1..] && '/' !in e
  }

  /** The name ends in a video extension, in any case. */
  ghost predicate EndsInVideo(name: string) {
    exists head, e, k :: name == head + e && Extension(e) && IsVideo(e, k)
  }

  predicate IsVideo(e: string, k: int) {
    0 <= k < |VIDEO_EXTENSIONS| && EqualUpToCase(e, VIDEO_EXTENSIONS[k])
  }

  lemma {:induction false} ExtFound(name: string, i: nat, j: int)
    requires i <= j < |name| && name[i] == '.' && forall k :: i < k <= j ==> name[k] != '.' && name[k] != '/'
    ensures ExtFrom(name, j) == name[i..]
    decreases j
  {
    if i < j { ExtFound(name, i, j - 1); }
  }

  lemma {:induction false} ExtWhere(name: string, j: int) returns (i: nat)
    requires -1 <= j < |name| && ExtFrom(name, j) != ""
    ensures i <= j && name[i] == '.' && forall k :: i < k <= j ==> name[k] != '.' && name[k] != '/'
    ensures ExtFrom(name, j) == name[i..]
    decreases j
  {
    if name[j] == '.' { i := j; } else { i := ExtWhere(name, j - 1); }
  }

  lemma ExtIs(name: string, head: string, e: string)
    requires name == head + e && Extension(e)
    ensures Ext(name) == e
  {
    var i := |head|;
    assert name[i..] == e;
    assert forall k :: i < k < |name| ==> name[k] == e[1..][k - i - 1] && name[k] in e;
    ExtFound(name, i, |name| - 1);
  }

  lemma ExtSplits(name: string) returns (head: string)
    requires Ext(name) != ""
    ensures name == head + Ext(name) && Extension(Ext(name))
  {
    var i := ExtWhere(name, |name| - 1);
    head := name[..i];
    assert forall k :: i < k < |name| ==> name[k] == name[i..][1..][k - i - 1];
  }

  lemma PlainExtensions(k: nat)
    requires k < |VIDEO_EXTENSIONS|
    ensures forall i :: 0 <= i < |VIDEO_EXTENSIONS[k]| ==>
      var x := VIDEO_EXTENSIONS[k][i]; x == '.' || '0' <= x <= '9' || 'a' <= x <= 'z'
    ensures VIDEO_EXTENSIONS[k] != ""
  {
  }

  lemma LowerIsCaseOf(c: char, x: char)
    requires x == '.' || '0' <= x <= '9' || 'a' <= x <= 'z'
    ensures LowerChar(c) == x <==> IsCaseOf(c, x)
  {
  }

  lemma ToLowerMeans(e: string, k: nat)
    requires k < |VIDEO_EXTENSIONS|
    ensures ToLower(e) == VIDEO_EXTENSIONS[k] <==> EqualUpToCase(e, VIDEO_EXTENSIONS[k])
  {
    hide LowerChar, IsCaseOf;
    var x := VIDEO_EXTENSIONS[k];
    PlainExtensions(k);
    if |e| == |x| {
      forall i | 0 <= i < |e| ensures ToLower(e)[i] == x[i] <==> IsCaseOf(e[i], x[i]) {
        LowerIsCaseOf(e[i], x[i]);
      }
    }
  }

  /** Exactly which names are left out: a directory called "@eaDir", everything below one, and every file
      that does not end in one of the video extensions, whatever its case. */
  lemma IgnoredMeans(name: string, isDir: bool)
    ensures IgnoreFn(name, isDir) <==>
            InEaDir(name) || if isDir then exists head :: name == head + "/@eaDir" else !EndsInVideo(name)
  {
    ContainsIsInEaDir(name);
    if isDir {
      DirNameMeans(name);
    } else {
      VideoNameMeans(name);
    }
  }

  lemma DirNameMeans(name: string)
    ensures HasSuffix(name, EA_DIR) <==> exists head :: name == head + "/@eaDir"
  {
    if HasSuffix(name, EA_DIR) {
      assert name == name[..|name| - 7] + "/@eaDir";
    }
    if head :| name == head + "/@eaDir" {
      assert name[|head|..] == "/@eaDir";
    }
  }

  lemma VideoNameMeans(name: string)
    ensures ToLower(Ext(name)) in VIDEO_EXTENSIONS <==> EndsInVideo(name)
  {
    hide Ext, ToLower, Extension, EqualUpToCase;
    if ToLower(Ext(name)) in VIDEO_EXTENSIONS {
      var k :| 0 <= k < |VIDEO_EXTENSIONS| && VIDEO_EXTENSIONS[k] == ToLower(Ext(name));
      NotEmpty(Ext(name), k);
      var head := ExtSplits(name);
      ToLowerMeans(Ext(name), k);
      assert IsVideo(Ext(name), k);
    }
    if EndsInVideo(name) {
      var head, e, k :| name == head + e && Extension(e) && IsVideo(e, k);
      ExtIs(name, head, e);
      ToLowerMeans(e, k);
      assert VIDEO_EXTENSIONS[k] in VIDEO_EXTENSIONS;
    }
  }

  lemma NotEmpty(e: string, k: nat)
    requires k < |VIDEO_EXTENSIONS| && VIDEO_EXTENSIONS[k] == ToLower(e)
    ensures e != ""
  {
    PlainExtensions(k);
  }

  /** c and d are the same, or one ASCII letter in its two cases. */
  predicate SameLetter(c: char, d: char) {
    c == d || ('a' <= c <= 'z' && d as int == c as int - 32) || ('a' <= d <= 'z' && c as int == d as int - 32)
  }

  /** The names differ at most in the case of ASCII letters after their last dot. */
  predicate SameButForCase(name: string, other: string, dot: nat) {
    && |name| == |other| && dot < |name| && name[dot] == '.' && name[..dot + 1] == other[..dot + 1]
    && forall k | dot < k < |name| :: name[k] != '.' && SameLetter(name[k], other[k])
  }

  lemma {:induction false} ExtLower(name: string, other: string, dot: nat, j: int)
    requires SameButForCase(name, other, dot) && dot <= j < |name|
    ensures ToLower(ExtFrom(name, j)) == ToLower(ExtFrom(other, j))
    decreases j
  {
    assert name[j] == name[..dot + 1][dot] == other[..dot + 1][dot] || j > dot;
    if j == dot {
      forall k | 0 <= k < |name| - dot ensures ToLower(name[dot..])[k] == ToLower(other[dot..])[k] {
        assert k > 0 ==> SameLetter(name[dot + k], other[dot + k]);
      }
    } else if name[j] != '/' {
      assert SameLetter(name[j], other[j]);
      ExtLower(name, other, dot, j - 1);
    }
  }

  lemma NoDotInside(name: string, i: nat)
    requires OccursAt(name, EA_DIR_INSIDE, i)
    ensures name[i] == '/' && forall m :: i <= m < i + 8 ==> name[m] != '.'
  {
    forall m | i <= m < i + 8 ensures name[m] == EA_DIR_INSIDE[m - i] {
      assert name[m] == name[i..i + 8][m - i];
    }
    assert forall n :: 0 <= n < 8 ==> EA_DIR_INSIDE[n] != '.';
  }

  /** An occurrence has no dot in it: it ends before the last dot, or starts after it, where the extension is
      empty anyway. */
  lemma EaDirBeforeDot(name: string, other: string, dot: nat)
    requires SameButForCase(name, other, dot) && Contains(name, EA_DIR_INSIDE)
    ensures IgnoreFn(other, false)
  {
    var i :| 0 <= i <= |name| && OccursAt(name, EA_DIR_INSIDE, i);
    if i + 8 <= dot {
      assert other[i..i + 8] == other[..dot + 1][i..i + 8] == name[..dot + 1][i..i + 8] == name[i..i + 8];
      assert OccursAt(other, EA_DIR_INSIDE, i);
    } else {
      NoDotInside(name, i);
      assert dot < i && SameLetter(name[i], other[i]);
      NoExt(other, i, |other| - 1);
    }
  }

  lemma {:induction false} NoExt(name: string, slash: nat, j: int)
    requires slash <= j < |name| && name[slash] == '/' && forall k :: slash < k <= j ==> name[k] != '.'
    ensures ExtFrom(name, j) == "" && ToLower(ExtFrom(name, j)) == "" && "" !in VIDEO_EXTENSIONS
    decreases j
  {
    if slash < j && name[j] != '/' { NoExt(name, slash, j - 1); }
  }

  lemma SameLetterSymmetric(name: string, other: string, dot: nat)
    requires SameButForCase(name, other, dot)
    ensures SameButForCase(other, name, dot)
  {
    assert name[dot] == name[..dot + 1][dot] == other[..dot + 1][dot];
    forall k | dot < k < |name| ensures other[k] != '.' && SameLetter(other[k], name[k]) {
      assert name[k] != '.' && SameLetter(name[k], other[k]);
    }
  }

  /** Changing the case of letters after the last dot never changes whether a file is ignored. */
  lemma CaseDoesNotMatter(name: string, other: string, dot: nat)
    requires SameButForCase(name, other, dot)
    ensures IgnoreFn(name, false) <==> IgnoreFn(other, false)
  {
    hide SameButForCase, Contains, ToLower;
    SameLetterSymmetric(name, other, dot);
    if Contains(name, EA_DIR_INSIDE) { EaDirBeforeDot(name, other, dot); }
    if Contains(other, EA_DIR_INSIDE) { EaDirBeforeDot(other, name, dot); }
    LastIndex(name, other, dot);
    ExtLower(name, other, dot, |name| - 1);
  }

  lemma LastIndex(name: string, other: string, dot: nat)
    requires SameButForCase(name, other, dot)
    ensures dot < |name| == |other|
  {
  }
}
