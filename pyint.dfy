/**
 * Python's `int(text)` in base 10, and `str(n)` as its partner.
 *
 * `int()` accepts surrounding whitespace, one optional sign, and ASCII digits in
 * which single underscores may separate two digits ("1_000"). Leading zeros are
 * allowed ("007" is 7). More than 4300 digits is a `ValueError` (the default of
 * `sys.int_info.default_max_str_digits`). Any other text is a `ValueError`,
 * modelled as `None`.
 */
module PyInt {
  import opened Wrappers
  import opened PyStr

  /** The default digit limit of `int()` on text. */
  const MaxStrDigits: nat := 4300

  /** The whitespace `int()` skips around the number: what `str.isspace()`
      accepts except the ASCII separators U+001C to U+001F, which `int()` copies
      through unchanged and then does not skip. */
  predicate IsIntSpace(c: char) {
    IsSpace(c) && !('\U{1C}' <= c <= '\U{1F}')
  }

  predicate IsDigit(c: char) {
    '0' <= c <= '9'
  }

  function DigitValue(c: char): nat
    requires IsDigit(c)
  {
    c as int - '0' as int
  }

  function DigitChar(d: nat): (c: char)
    requires d < 10
    ensures IsDigit(c) && DigitValue(c) == d
  {
    ('0' as int + d) as char
  }

  predicate DigitsOrUnderscores(s: string) {
    forall i :: 0 <= i < |s| ==> IsDigit(s[i]) || s[i] == '_'
  }

  /** Python's grammar for a base-10 digit run: `digit ("_"? digit)*`. */
  predicate IsDigitRun(s: string) {
    && |s| > 0
    && IsDigit(s[0])
    && IsDigit(s[|s| - 1])
    && DigitsOrUnderscores(s)
    && (forall i :: 0 < i < |s| && s[i] == '_' ==> s[i - 1] != '_')
  }

  /** How many digits (underscores not counted) `s` holds. */
  function DigitCount(s: string): nat {
    if s == [] then 0
    else DigitCount(s[..|s| - 1]) + (if IsDigit(s[|s| - 1]) then 1 else 0)
  }

  /** The decimal value of the digits of `s`, underscores skipped. */
  function DigitsValue(s: string): nat
    requires DigitsOrUnderscores(s)
  {
    if s == [] then 0
    else if s[|s| - 1] == '_' then DigitsValue(s[..|s| - 1])
    else DigitsValue(s[..|s| - 1]) * 10 + DigitValue(s[|s| - 1])
  }

  /** Python's `int(text)`; `None` stands for the `ValueError` it raises. */
  function ParseInt(s: string): Option<int> {
    ParseSigned(Trim(s, IsIntSpace))
  }

  /** `t` without its sign character, if it has one. */
  function Unsigned(t: string): (u: string)
    ensures |u| <= |t|
  {
    if |t| > 0 && (t[0] == '+' || t[0] == '-') then t[1..] else t
  }

  /** What `int()` accepts once the surrounding whitespace is gone: an optional
      sign, then a digit run within the digit limit. */
  predicate IsSignedNumber(t: string) {
    IsDigitRun(Unsigned(t)) && DigitCount(Unsigned(t)) <= MaxStrDigits
  }

  /** `int()` once the surrounding whitespace is gone. */
  function ParseSigned(t: string): Option<int> {
    if IsSignedNumber(t) then
      var v: int := DigitsValue(Unsigned(t));
      Some(if t[0] == '-' then -v else v)
    else
      None
  }

  /** The value a sign (`""`, `"+"` or `"-"`) gives to a magnitude. */
  function Signed(sign: string, v: nat): int {
    if sign == "-" then -(v as int) else v
  }

  /** `s[k..m]` is a number that `int()` accepts, with only whitespace it skips
      before and after it. */
  predicate IsNumberWindow(s: string, k: int, m: int) {
    && 0 <= k <= m <= |s|
    && AllSatisfy(s[..k], IsIntSpace)
    && AllSatisfy(s[m..], IsIntSpace)
    && IsSignedNumber(s[k..m])
  }

  /** Trimming text that neither starts nor ends with a trimmed character changes nothing. */
  lemma TrimUnchanged(s: string, p: char -> bool)
    requires s == [] || (!p(s[0]) && !p(s[|s| - 1]))
    ensures Trim(s, p) == s
  {
    assert TrimLeft(s, p) == s;
  }

  /** The trimmed text is a window of `s` starting at `k`. */
  lemma TrimWindow(s: string, p: char -> bool) returns (k: nat)
    ensures k + |Trim(s, p)| <= |s|
    ensures Trim(s, p) == s[k..k + |Trim(s, p)|]
    ensures AllSatisfy(s[..k], p) && AllSatisfy(s[k + |Trim(s, p)|..], p)
  {
    var l := TrimLeft(s, p);
    k := |s| - |l|;
    WindowOfSuffix(s, l, k, TrimRight(l, p), p);
  }

  /** A prefix `t` of the suffix `l == s[k..]` is a window of `s`, and what
      follows it in `l` follows it in `s`. */
  lemma WindowOfSuffix(s: string, l: string, k: nat, t: string, p: char -> bool)
    requires k <= |s| && l == s[k..]
    requires |t| <= |l| && t == l[..|t|] && AllSatisfy(l[|t|..], p)
    ensures t == s[k..k + |t|] && AllSatisfy(s[k + |t|..], p)
  {
    assert s[k + |t|..] == l[|t|..];
  }

  /** Python's `str(n)` for a natural number: no sign, no leading zero. */
  function FormatNat(n: nat): (r: string)
    ensures |r| > 0 && (forall i :: 0 <= i < |r| ==> IsDigit(r[i]))
    ensures r[0] == '0' ==> n == 0
  {
    if n < 10 then [DigitChar(n)] else FormatNat(n / 10) + [DigitChar(n % 10)]
  }

  /** Python's `str(n)`. */
  function FormatInt(n: int): string {
    if n < 0 then "-" + FormatNat(-n) else FormatNat(n)
  }

  /** The number of digits `str(n)` writes for the magnitude of `n`. */
  function Width(n: int): nat {
    |FormatNat(if n < 0 then -n else n)|
  }

  lemma {:induction false} FormatNatValue(n: nat)
    ensures DigitsOrUnderscores(FormatNat(n))
    ensures DigitsValue(FormatNat(n)) == n
    ensures DigitCount(FormatNat(n)) == |FormatNat(n)|
  {
    var r := FormatNat(n);
    if n >= 10 {
      FormatNatValue(n / 10);
      assert r[..|r| - 1] == FormatNat(n / 10);
    }
  }

  /** Round trip: `int(str(n)) == n` for every integer within the digit limit. */
  lemma ParseFormat(n: int)
    requires Width(n) <= MaxStrDigits
    ensures ParseInt(FormatInt(n)) == Some(n)
  {
    var m := if n < 0 then -n else n;
    var sign := if n < 0 then "-" else "";
    FormatNatValue(m);
    DigitsAreRun(FormatNat(m));
    ParseIntAccepts([], sign, FormatNat(m), []);
    FormatIntParts(n);
  }

  /** `str(n)` is the sign, if any, then the digits of the magnitude. */
  lemma FormatIntParts(n: int)
    ensures var sign := if n < 0 then "-" else "";
            && FormatInt(n) == [] + sign + FormatNat(if n < 0 then -n else n) + []
            && Signed(sign, if n < 0 then -n else n) == n
  {
  }

  lemma DigitsAreRun(d: string)
    requires |d| > 0 && forall i :: 0 <= i < |d| ==> IsDigit(d[i])
    ensures IsDigitRun(d)
  {
  }

  /** `int()` accepts a digit run (single underscores between digits allowed)
      with an optional `+` or `-` sign, padded on either side with whitespace
      it skips, and gives the run's value with the sign applied. */
  lemma ParseIntAccepts(pre: string, sign: string, d: string, post: string)
    requires AllSatisfy(pre, IsIntSpace) && AllSatisfy(post, IsIntSpace)
    requires sign == "" || sign == "+" || sign == "-"
    requires IsDigitRun(d) && DigitCount(d) <= MaxStrDigits
    ensures ParseInt(pre + sign + d + post) == Some(Signed(sign, DigitsValue(d)))
  {
    SignedRun(sign, d);
    ParsePadded(pre, sign + d, post);
    Regroup(pre, sign, d, post);
  }

  lemma Regroup(a: string, b: string, c: string, d: string)
    ensures a + b + c + d == a + (b + c) + d
  {
  }

  /** Whitespace that `int()` skips around a number does not change its value. */
  lemma ParsePadded(pre: string, t: string, post: string)
    requires AllSatisfy(pre, IsIntSpace) && AllSatisfy(post, IsIntSpace) && IsSignedNumber(t)
    ensures ParseInt(pre + t + post) == ParseSigned(t)
  {
    SignedNumberEnds(t);
    TrimPadded(pre, t, post, IsIntSpace);
  }

  /** A sign followed by a digit run is a number with that sign's value. */
  lemma SignedRun(sign: string, d: string)
    requires sign == "" || sign == "+" || sign == "-"
    requires IsDigitRun(d) && DigitCount(d) <= MaxStrDigits
    ensures IsSignedNumber(sign + d) && ParseSigned(sign + d) == Some(Signed(sign, DigitsValue(d)))
  {
    UnsignedOf(sign, d);
    assert (sign + d)[0] == '-' <==> sign == "-";
  }

  /** Removing the sign of `sign + d` leaves the digit run `d`. */
  lemma UnsignedOf(sign: string, d: string)
    requires sign == "" || sign == "+" || sign == "-"
    requires d != [] && IsDigit(d[0])
    ensures Unsigned(sign + d) == d
  {
    if sign != "" {
      assert (sign + d)[1..] == d;
    }
  }

  /** A number starts with a sign or a digit and ends with a digit. */
  lemma SignedNumberEnds(t: string)
    requires IsSignedNumber(t)
    ensures t != [] && !IsIntSpace(t[0]) && IsDigit(t[|t| - 1]) && !IsIntSpace(t[|t| - 1])
  {
    var u := Unsigned(t);
    assert u[|u| - 1] == t[|t| - 1];
    assert u == t ==> u[0] == t[0];
  }

  /** `int()` succeeds exactly on text that is a number padded with whitespace
      it skips, and then gives that number's value. */
  lemma ParseIntIff(s: string)
    ensures ParseInt(s).Some? <==> exists k, m :: IsNumberWindow(s, k, m)
    ensures forall k, m :: IsNumberWindow(s, k, m) ==> ParseInt(s) == ParseSigned(s[k..m])
  {
    forall k, m | IsNumberWindow(s, k, m)
      ensures ParseInt(s) == ParseSigned(s[k..m])
    {
      WindowParses(s, k, m);
    }
    if ParseInt(s).Some? {
      var k := TrimWindow(s, IsIntSpace);
      assert IsNumberWindow(s, k, k + |Trim(s, IsIntSpace)|);
    }
  }

  lemma WindowParses(s: string, k: int, m: int)
    requires IsNumberWindow(s, k, m)
    ensures ParseInt(s) == ParseSigned(s[k..m])
  {
    assert s == s[..k] + s[k..m] + s[m..];
    ParsePadded(s[..k], s[k..m], s[m..]);
  }

  /** `int()` rejects text holding any character that is not a digit, a sign, an
      underscore or whitespace it skips. */
  lemma ParseIntRejectsForeign(s: string, i: nat)
    requires i < |s|
    requires !IsDigit(s[i]) && s[i] !in "+-_" && !IsIntSpace(s[i])
    ensures ParseInt(s) == None
  {
    var k := TrimWindow(s, IsIntSpace);
    ForeignInWindow(s, Trim(s, IsIntSpace), k, i, IsIntSpace);
  }

  /** A foreign character outside what `p` trims, inside the window `t`,
      makes the window unparsable. */
  lemma ForeignInWindow(s: string, t: string, k: nat, i: nat, p: char -> bool)
    requires k + |t| <= |s| && t == s[k..k + |t|]
    requires AllSatisfy(s[..k], p) && AllSatisfy(s[k + |t|..], p)
    requires i < |s| && !p(s[i]) && !IsDigit(s[i]) && s[i] !in "+-_"
    ensures ParseSigned(t) == None
  {
    InsideWindow(s, t, k, i, p);
    ForeignBlocksSigned(t, i - k);
  }

  /** A character of `s` that `p` rejects lies inside a window whose
      surroundings `p` accepts throughout. */
  lemma InsideWindow(s: string, t: string, k: nat, i: nat, p: char -> bool)
    requires k + |t| <= |s| && t == s[k..k + |t|]
    requires AllSatisfy(s[..k], p) && AllSatisfy(s[k + |t|..], p)
    requires i < |s| && !p(s[i])
    ensures k <= i < k + |t| && t[i - k] == s[i]
  {
  }

  lemma ForeignBlocksSigned(t: string, j: nat)
    requires j < |t| && !IsDigit(t[j]) && t[j] !in "+-_"
    ensures ParseSigned(t) == None
  {
    var signed := |t| > 0 && (t[0] == '+' || t[0] == '-');
    var body := if signed then t[1..] else t;
    if signed {
      assert j > 0 && body[j - 1] == t[j];
    } else {
      assert body[j] == t[j];
    }
  }

  /** `int()` rejects text that is empty or holds only whitespace. */
  lemma ParseIntRejectsBlank(s: string)
    requires AllSatisfy(s, IsIntSpace)
    ensures ParseInt(s) == None
  {
  }
}
