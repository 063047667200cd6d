/**
 * The parts of Python's `str` type the bot relies on: `isspace`, `strip`,
 * `split(",")`, `", ".join(...)`, `lower` and `upper`.
 */
module PyStr {

  /** Python's `str.isspace()` for one character (Unicode White_Space, plus the
      ASCII separators U+001C to U+001F that Python also treats as whitespace). */
  predicate IsSpace(c: char) {
    ('\t' <= c <= '\r') || ('\U{1C}' <= c <= ' ') || c == '\U{85}' || c == '\U{A0}'
    || c == '\U{1680}' || ('\U{2000}' <= c <= '\U{200A}') || c == '\U{2028}' || c == '\U{2029}'
    || c == '\U{202F}' || c == '\U{205F}' || c == '\U{3000}'
  }

  predicate AllSatisfy(s: string, p: char -> bool) {
    forall i :: 0 <= i < |s| ==> p(s[i])
  }

  /** Removes the leading characters that satisfy `p`. */
  function TrimLeft(s: string, p: char -> bool): (r: string)
    ensures |r| <= |s| && r == s[|s| - |r|..]
    ensures AllSatisfy(s[..|s| - |r|], p)
    ensures r == [] || !p(r[0])
  {
    if |s| > 0 && p(s[0]) then TrimLeft(s[1..], p) else s
  }

  /** Removes the trailing characters that satisfy `p`. */
  function TrimRight(s: string, p: char -> bool): (r: string)
    ensures |r| <= |s| && r == s[..|r|]
    ensures AllSatisfy(s[|r|..], p)
    ensures r == [] || !p(r[|r| - 1])
  {
    if |s| > 0 && p(s[|s| - 1]) then TrimRight(s[..|s| - 1], p) else s
  }

  /** Removes both leading and trailing characters that satisfy `p`. */
  function Trim(s: string, p: char -> bool): string {
    TrimRight(TrimLeft(s, p), p)
  }

  /** Leading characters that satisfy `p` are all that `TrimLeft` removes. */
  lemma {:induction false} TrimLeftSkips(pre: string, rest: string, p: char -> bool)
    requires AllSatisfy(pre, p) && (rest == [] || !p(rest[0]))
    ensures TrimLeft(pre + rest, p) == rest
  {
    if pre != [] {
      assert (pre + rest)[1..] == pre[1..] + rest;
      TrimLeftSkips(pre[1..], rest, p);
    }
  }

  /** Trailing characters that satisfy `p` are all that `TrimRight` removes. */
  lemma {:induction false} TrimRightSkips(rest: string, post: string, p: char -> bool)
    requires AllSatisfy(post, p) && (rest == [] || !p(rest[|rest| - 1]))
    ensures TrimRight(rest + post, p) == rest
  {
    if post != [] {
      assert (rest + post)[..|rest + post| - 1] == rest + post[..|post| - 1];
      TrimRightSkips(rest, post[..|post| - 1], p);
    }
  }

  /** Trimming recovers a word from between runs of trimmed characters. */
  lemma TrimPadded(pre: string, w: string, post: string, p: char -> bool)
    requires AllSatisfy(pre, p) && AllSatisfy(post, p)
    requires w != [] && !p(w[0]) && !p(w[|w| - 1])
    ensures Trim(pre + w + post, p) == w
  {
    assert pre + w + post == pre + (w + post);
    TrimLeftSkips(pre, w + post, p);
    TrimRightSkips(w, post, p);
  }

  /** Python's `s.strip()` with no argument. */
  function Strip(s: string): string {
    Trim(s, IsSpace)
  }

  /** What `Strip` returns is the middle of `s`, with only whitespace cut away on
      either side, and it neither starts nor ends with whitespace. */
  lemma StripIsCleanInfix(s: string)
    ensures exists i, j :: 0 <= i <= j <= |s| && Strip(s) == s[i..j]
                           && AllSatisfy(s[..i], IsSpace) && AllSatisfy(s[j..], IsSpace)
    ensures Strip(s) == [] || (!IsSpace(Strip(s)[0]) && !IsSpace(Strip(s)[|Strip(s)| - 1]))
  {
    var l := TrimLeft(s, IsSpace);
    var r := TrimRight(l, IsSpace);
    var i := |s| - |l|;
    assert r == s[i..i + |r|];
    assert s[i + |r|..] == l[|r|..];
  }

  /** `strip()` only removes characters. */
  lemma StripKeepsOnly(s: string, c: char)
    requires c !in s
    ensures c !in Strip(s)
  {
    var l := TrimLeft(s, IsSpace);
    AbsentFromSlice(s, |s| - |l|, |s|, c);
    AbsentFromSlice(l, 0, |TrimRight(l, IsSpace)|, c);
  }

  /** A character missing from a string is missing from each of its slices. */
  lemma AbsentFromSlice(s: string, lo: nat, hi: nat, c: char)
    requires lo <= hi <= |s| && c !in s
    ensures c !in s[lo..hi]
  {
  }

  /** `strip()` leaves nothing exactly when the text is all whitespace. */
  lemma StripEmptyIff(s: string)
    ensures Strip(s) == [] <==> AllSatisfy(s, IsSpace)
  {
    var l := TrimLeft(s, IsSpace);
    assert s == s[..|s| - |l|] + l;
    if Strip(s) == [] {
      assert l[|Strip(s)|..] == l;
    } else {
      assert !IsSpace(Strip(s)[0]);
    }
  }

  /** `strip()` is idempotent. */
  lemma StripIdempotent(s: string)
    ensures Strip(Strip(s)) == Strip(s)
  {
    var t := Strip(s);
    StripIsCleanInfix(s);
    if t != [] {
      assert TrimLeft(t, IsSpace) == t;
      assert TrimRight(t, IsSpace) == t;
    }
  }

  /** Python's `s.split(sep)` for a one-character separator: the pieces between
      separators, including empty ones; an empty string gives one empty piece. */
  function Split(s: string, sep: char): (pieces: seq<string>)
    ensures |pieces| >= 1
    ensures forall i :: 0 <= i < |pieces| ==> sep !in pieces[i]
  {
    if s == [] then [[]]
    else
      var rest := Split(s[1..], sep);
      if s[0] == sep then [[]] + rest else [[s[0]] + rest[0]] + rest[1..]
  }

  /** Python's `sep.join(parts)`. */
  function Join(parts: seq<string>, sep: string): string {
    if |parts| == 0 then []
    else if |parts| == 1 then parts[0]
    else parts[0] + sep + Join(parts[1..], sep)
  }

  /** Joining the pieces of a split with the separator gives back the text. */
  lemma {:induction false} JoinSplit(s: string, sep: char)
    ensures Join(Split(s, sep), [sep]) == s
  {
    if s != [] {
      var rest := Split(s[1..], sep);
      JoinSplit(s[1..], sep);
      if s[0] == sep {
        assert Split(s, sep) == [[]] + rest;
        assert s == [] + [sep] + s[1..];
      } else {
        assert Split(s, sep) == [[s[0]] + rest[0]] + rest[1..];
        if |rest| == 1 {
          assert s == [s[0]] + rest[0];
        } else {
          assert ([s[0]] + rest[0]) + [sep] + Join(rest[1..], [sep]) == [s[0]] + Join(rest, [sep]);
          assert s == [s[0]] + s[1..];
        }
      }
    }
  }

  /** Splitting text that starts with a separator-free prefix `x` glues `x` to the
      first piece of the rest. */
  lemma {:induction false} SplitAfterPrefix(x: string, t: string, sep: char)
    requires sep !in x
    ensures Split(x + t, sep) == [x + Split(t, sep)[0]] + Split(t, sep)[1..]
  {
    if x != [] {
      assert x[0] != sep;
      assert (x + t)[1..] == x[1..] + t;
      SplitAfterPrefix(x[1..], t, sep);
      assert [x[0]] + (x[1..] + Split(t, sep)[0]) == x + Split(t, sep)[0];
    } else {
      var ps := Split(t, sep);
      assert x + t == t && x + ps[0] == ps[0];
      assert ps == [ps[0]] + ps[1..];
    }
  }

  /** Splitting separator-free parts joined by the separator gives back the parts. */
  lemma {:induction false} SplitJoin(parts: seq<string>, sep: char)
    requires |parts| >= 1
    requires forall i :: 0 <= i < |parts| ==> sep !in parts[i]
    ensures Split(Join(parts, [sep]), sep) == parts
  {
    if |parts| == 1 {
      SplitAfterPrefix(parts[0], [], sep);
      assert parts[0] + [] == parts[0];
    } else {
      var tail := Join(parts[1..], [sep]);
      SplitJoin(parts[1..], sep);
      assert Join(parts, [sep]) == parts[0] + ([sep] + tail);
      SplitAfterPrefix(parts[0], [sep] + tail, sep);
      assert ([sep] + tail)[1..] == tail;
      assert Split([sep] + tail, sep) == [[]] + parts[1..];
      assert parts[0] + [] == parts[0];
      assert parts == [parts[0]] + parts[1..];
    }
  }

  /** Where part `i` starts inside `Join(parts, sep)`. */
  function JoinOffset(parts: seq<string>, sep: string, i: nat): nat
    requires i <= |parts|
  {
    if i == 0 then 0 else JoinOffset(parts, sep, i - 1) + |parts[i - 1]| + |sep|
  }

  /** Every part sits, unchanged, at its own offset of the joined text. */
  lemma {:induction false} JoinKeepsParts(parts: seq<string>, sep: string, i: nat)
    requires i < |parts|
    ensures JoinOffset(parts, sep, i) + |parts[i]| <= |Join(parts, sep)|
    ensures Join(parts, sep)[JoinOffset(parts, sep, i)..JoinOffset(parts, sep, i) + |parts[i]|] == parts[i]
  {
    if |parts| > 1 {
      var j := Join(parts, sep);
      assert j == parts[0] + sep + Join(parts[1..], sep);
      if i > 0 {
        JoinKeepsParts(parts[1..], sep, i - 1);
        JoinOffsetShift(parts, sep, i);
        var o := JoinOffset(parts[1..], sep, i - 1);
        assert j[|parts[0]| + |sep| + o..|parts[0]| + |sep| + o + |parts[i]|]
            == Join(parts[1..], sep)[o..o + |parts[1..][i - 1]|];
      }
    }
  }

  lemma {:induction false} JoinOffsetShift(parts: seq<string>, sep: string, i: nat)
    requires 0 < i <= |parts|
    ensures JoinOffset(parts, sep, i) == |parts[0]| + |sep| + JoinOffset(parts[1..], sep, i - 1)
  {
    if i > 1 {
      JoinOffsetShift(parts, sep, i - 1);
    }
  }

  /** A later part starts after the end of an earlier one and its separator: the
      join keeps the parts' order. */
  lemma {:induction false} JoinOffsetsIncrease(parts: seq<string>, sep: string, i: nat, j: nat)
    requires i < j <= |parts|
    ensures JoinOffset(parts, sep, i) + |parts[i]| + |sep| <= JoinOffset(parts, sep, j)
  {
    if i < j - 1 {
      JoinOffsetsIncrease(parts, sep, i, j - 1);
    }
  }

  /** A window of the middle of `a + b + c` is the same window of `b`. */
  lemma SliceOfMiddle(a: string, b: string, c: string, lo: nat, hi: nat)
    requires lo <= hi <= |b|
    ensures (a + b + c)[|a| + lo..|a| + hi] == b[lo..hi]
  {
    assert forall k :: |a| + lo <= k < |a| + hi ==> (a + b + c)[k] == b[k - |a|];
  }

  /** ASCII lower-casing of one character. */
  function LowerChar(c: char): char {
    if 'A' <= c <= 'Z' then (c as int - 'A' as int + 'a' as int) as char else c
  }

  /** ASCII upper-casing of one character. */
  function UpperChar(c: char): char {
    if 'a' <= c <= 'z' then (c as int - 'a' as int + 'A' as int) as char else c
  }

  /** `s.lower()` restricted to ASCII letters. */
  function Lower(s: string): (r: string)
    ensures |r| == |s| && forall i :: 0 <= i < |s| ==> r[i] == LowerChar(s[i])
  {
    seq(|s|, i requires 0 <= i < |s| => LowerChar(s[i]))
  }

  /** `s.upper()` restricted to ASCII letters. */
  function Upper(s: string): (r: string)
    ensures |r| == |s| && forall i :: 0 <= i < |s| ==> r[i] == UpperChar(s[i])
  {
    seq(|s|, i requires 0 <= i < |s| => UpperChar(s[i]))
  }
}
