/**
 * Python's `posixpath.dirname` and `posixpath.splitext`, the two path functions
 * `convert_to_pdf` uses to place and name its output.
 */
module PosixPath {
  import opened PyStr

  /** `s.rfind(c)`: the last index of `c` in `s`, or -1. */
  function RFind(s: string, c: char): (r: int)
    ensures -1 <= r < |s|
    ensures r >= 0 ==> s[r] == c
    ensures forall k :: r < k < |s| ==> s[k] != c
  {
    if s == [] then -1
    else if s[|s| - 1] == c then |s| - 1
    else RFind(s[..|s| - 1], c)
  }

  predicate IsSlash(c: char) {
    c == '/'
  }

  /** `posixpath.dirname(p)`: everything up to the last slash, with trailing
      slashes removed unless it consists of slashes only. */
  function Dirname(p: string): string {
    HeadDir(p[..RFind(p, '/') + 1])
  }

  /** The directory named by `head`, the text up to and including the last slash. */
  function HeadDir(head: string): string {
    if head != [] && !AllSatisfy(head, IsSlash) then TrimRight(head, IsSlash) else head
  }

  /** Whether `p[lo..hi]` holds a character other than a dot. */
  predicate HasNonDot(p: string, lo: int, hi: int)
    requires 0 <= lo && hi <= |p|
  {
    exists k :: lo <= k < hi && p[k] != '.'
  }

  /** `posixpath.splitext(p)`: `(root, ext)`, where `ext` starts at the last dot
      of the last path component, provided that dot is preceded in the
      component by something other than dots; otherwise `ext` is empty. */
  function Splitext(p: string): (string, string) {
    var sepIndex := RFind(p, '/');
    var dotIndex := RFind(p, '.');
    if dotIndex > sepIndex && HasNonDot(p, sepIndex + 1, dotIndex) then
      (p[..dotIndex], p[dotIndex..])
    else
      (p, [])
  }

  /** `splitext` splits `p` into a root and an extension that is empty or a dot
      followed by no dot and no slash. */
  lemma SplitextParts(p: string)
    ensures Splitext(p).0 + Splitext(p).1 == p
    ensures var ext := Splitext(p).1;
            ext == [] || (ext[0] == '.' && '.' !in ext[1..] && '/' !in ext)
  {
    if Splitext(p).1 != [] {
      SplitextExtensionAtLastDot(p);
      LastOccurrences(p, RFind(p, '.'), RFind(p, '/'));
    }
  }

  /** The tail of `p` from its last dot, which follows its last slash, starts
      with the dot and holds no other dot and no slash. */
  lemma LastOccurrences(p: string, dot: int, slash: int)
    requires -1 <= slash < dot < |p| && p[dot] == '.'
    requires forall k :: dot < k < |p| ==> p[k] != '.'
    requires forall k :: slash < k < |p| ==> p[k] != '/'
    ensures p[..dot] + p[dot..] == p
    ensures var ext := p[dot..];
            ext[0] == '.' && '.' !in ext[1..] && '/' !in ext
  {
    var ext := p[dot..];
    assert forall k :: 0 <= k < |ext| ==> ext[k] == p[dot + k];
  }

  /** A dot in the last component that has a non-dot before it in the
      component makes `splitext` find an extension: leading dots alone never
      do. */
  lemma SplitextFindsExtension(p: string, d: int)
    requires RFind(p, '/') + 1 < d < |p| && p[d] == '.' && HasNonDot(p, RFind(p, '/') + 1, d)
    ensures Splitext(p).1 != []
  {
    DotWithinLastComponent(p, d);
    var k :| RFind(p, '/') + 1 <= k < d && p[k] != '.';
    assert HasNonDot(p, RFind(p, '/') + 1, RFind(p, '.'));
  }

  /** Conversely, an extension starts at the last dot, which lies in the last
      component after some non-dot character of it. */
  lemma SplitextExtensionAtLastDot(p: string)
    requires Splitext(p).1 != []
    ensures var d := RFind(p, '.');
            && RFind(p, '/') + 1 < d < |p| && p[d] == '.' && HasNonDot(p, RFind(p, '/') + 1, d)
            && Splitext(p).1 == p[d..]
  {
  }

  /** A dot after the last slash lies between that slash and the last dot. */
  lemma DotWithinLastComponent(p: string, d: int)
    requires RFind(p, '/') + 1 < d < |p| && p[d] == '.'
    ensures RFind(p, '/') < d <= RFind(p, '.')
  {
  }

  /** `dirname` gives a prefix of `p`, empty exactly when `p` has no slash; what
      follows it is slashes and then a slash-free last component; it ends in a
      slash only when it consists of slashes, and then it is the whole head up
      to the last slash (`dirname("//x")` is `"//"`). */
  lemma DirnameSpec(p: string)
    ensures var d := Dirname(p);
            && |d| <= |p| && d == p[..|d|]
            && (d == [] <==> '/' !in p)
            && (d == [] || AllSatisfy(d, IsSlash) || d[|d| - 1] != '/')
            && (AllSatisfy(d, IsSlash) ==> d == p[..RFind(p, '/') + 1])
            && forall k, m :: |d| <= m <= k < |p| && p[k] == '/' ==> p[m] == '/'
  {
    var j := RFind(p, '/');
    var head := p[..j + 1];
    var d := Dirname(p);
    if head != [] && !AllSatisfy(head, IsSlash) {
      assert d == head[..|d|];
      assert AllSatisfy(head[|d|..], IsSlash);
      forall k, m | |d| <= m <= k < |p| && p[k] == '/'
        ensures p[m] == '/'
      {
        assert k <= j;
        assert head[|d|..][m - |d|] == p[m];
      }
    }
    if '/' in p {
      var i :| 0 <= i < |p| && p[i] == '/';
      assert j >= i;
    }
  }

  /** Replacing the extension keeps the directory: `dirname(root + new_ext)` is
      `dirname(p)` for any slash-free new extension. */
  lemma ReplaceExtensionKeepsDirname(p: string, newExt: string)
    requires '/' !in newExt
    ensures Dirname(Splitext(p).0 + newExt) == Dirname(p)
  {
    SplitextParts(p);
    AppendAfterLastSlash(p, Splitext(p).0, Splitext(p).1, newExt, RFind(p, '/'));
    SameHeadSameDirname(p, Splitext(p).0 + newExt);
  }

  /** `dirname` depends only on the text up to the last slash. */
  lemma SameHeadSameDirname(p: string, q: string)
    requires RFind(q, '/') == RFind(p, '/')
    requires q[..RFind(q, '/') + 1] == p[..RFind(p, '/') + 1]
    ensures Dirname(q) == Dirname(p)
  {
  }

  /** Swapping a slash-free tail of `p` for another slash-free tail keeps the
      last slash where it was, and everything up to it. */
  lemma AppendAfterLastSlash(p: string, root: string, ext: string, newExt: string, j: int)
    requires root + ext == p && '/' !in ext && '/' !in newExt
    requires -1 <= j < |p| && (j >= 0 ==> p[j] == '/')
    requires forall k :: j < k < |p| ==> p[k] != '/'
    ensures RFind(root + newExt, '/') == j && (root + newExt)[..j + 1] == p[..j + 1]
  {
    var q := root + newExt;
    forall k | j < k < |q|
      ensures q[k] != '/'
    {
      if k < |root| {
        assert q[k] == p[k];
      } else {
        assert q[k] == newExt[k - |root|];
      }
    }
    RFindIs(q, '/', j);
    assert q[..j + 1] == root[..j + 1] == p[..j + 1];
  }

  lemma RFindIs(s: string, c: char, j: int)
    requires -1 <= j < |s| && (j >= 0 ==> s[j] == c)
    requires forall k :: j < k < |s| ==> s[k] != c
    ensures RFind(s, c) == j
  {
  }
}
