/**
 * Configuration read from the environment: the comma-separated list of allowed
 * Telegram users, the page-confirmation limit, the debug switch, the required
 * bot token, the printer choice and the log level.
 *
 * The environment is a map from variable name to value; a name that is not a
 * key is unset. Loading the `.env` file is not part of this model.
 */
module Settings {
  import opened Wrappers
  import opened PyStr
  import opened PyInt
  import opened Exceptions

  type Env = map<string, string>

  const AllowedUsersVar := "ALLOWED_USERS"
  const PageConfirmLimitVar := "PAGE_CONFIRM_LIMIT"
  const DebugVar := "DEBUG"
  const DebugPrinterNameVar := "DEBUG_PRINTER_NAME"
  const TelegramTokenVar := "TELEGRAM_TOKEN"
  const PrinterNameVar := "PRINTER_NAME"
  const LogFormatVar := "LOG_FORMAT"
  const LogDtFmtVar := "LOG_DT_FMT"
  const LogLevelVar := "LOG_LEVEL"

  const DefaultPageConfirmLimit := 20
  const DefaultDebugPrinterName := "PDF"
  const DefaultLogFormat := "%(asctime)s \U{2014} %(name)s \U{2014} %(levelname)s \U{2014} %(funcName)s:%(lineno)d \U{2014} %(message)s"
  const DefaultLogDtFmt := "%d.%m.%Y %H:%M:%S"

  /** `os.getenv(name)`. */
  function Getenv(env: Env, name: string): Option<string> {
    if name in env then Some(env[name]) else None
  }

  /** `os.getenv(name, default)`: the default only replaces an unset variable;
      a variable set to the empty string stays empty. */
  function GetenvOr(env: Env, name: string, default: string): string {
    if name in env then env[name] else default
  }

  /** Python's `not val` for an optional string. */
  predicate IsBlank(v: Option<string>) {
    v.None? || v.value == []
  }

  // ---------------------------------------------------------------------------
  // PrintContext._parse_comma_separated

  /** `[x for x in xs if x]`, keeping order. */
  function KeepNonEmpty(xs: seq<string>): (r: seq<string>)
    ensures forall i :: 0 <= i < |r| ==> r[i] != []
    ensures |r| <= |xs|
  {
    if xs == [] then []
    else (if xs[0] == [] then [] else [xs[0]]) + KeepNonEmpty(xs[1..])
  }

  /** `[x.strip() for x in xs]`. */
  function StripAll(xs: seq<string>): (r: seq<string>)
    ensures |r| == |xs| && forall i :: 0 <= i < |xs| ==> r[i] == Strip(xs[i])
  {
    seq(|xs|, i requires 0 <= i < |xs| => Strip(xs[i]))
  }

  /** `[st.strip() for st in val.split(",") if st.strip()]`. */
  function CleanPieces(val: string): seq<string> {
    KeepNonEmpty(StripAll(Split(val, ',')))
  }

  /** `_parse_comma_separated(name)`: `None` when the variable is unset or empty
      or when nothing but whitespace and commas is left, otherwise the pieces. */
  function ParseCommaSeparated(env: Env, name: string): Option<seq<string>> {
    var val := Getenv(env, name);
    if IsBlank(val) then None
    else
      var parsed := CleanPieces(val.value);
      if parsed == [] then None else Some(parsed)
  }

  predicate IsCommaOrSpace(c: char) {
    c == ',' || IsSpace(c)
  }

  predicate AllBlankPieces(pieces: seq<string>) {
    forall i :: 0 <= i < |pieces| ==> AllSatisfy(pieces[i], IsSpace)
  }

  lemma {:induction false} BlankPiecesIff(s: string)
    ensures AllBlankPieces(Split(s, ',')) <==> AllSatisfy(s, IsCommaOrSpace)
  {
    if s != [] {
      BlankPiecesIff(s[1..]);
      var rest := Split(s[1..], ',');
      AllSatisfyCons(s, IsCommaOrSpace);
      if s[0] == ',' {
        assert Split(s, ',') == [[]] + rest;
        AllBlankPiecesCons([], rest);
      } else {
        var first := [s[0]] + rest[0];
        assert Split(s, ',') == [first] + rest[1..];
        AllSatisfyCons(first, IsSpace);
        assert first[1..] == rest[0];
        AllBlankPiecesCons(first, rest[1..]);
        assert rest == [rest[0]] + rest[1..];
        AllBlankPiecesCons(rest[0], rest[1..]);
      }
    }
  }

  lemma AllSatisfyCons(s: string, p: char -> bool)
    requires s != []
    ensures AllSatisfy(s, p) <==> p(s[0]) && AllSatisfy(s[1..], p)
  {
    assert forall i :: 0 < i < |s| ==> s[i] == s[1..][i - 1];
  }

  lemma AllBlankPiecesCons(x: string, xs: seq<string>)
    ensures AllBlankPieces([x] + xs) <==> AllSatisfy(x, IsSpace) && AllBlankPieces(xs)
  {
    var ys := [x] + xs;
    if AllBlankPieces(ys) {
      assert AllSatisfy(ys[0], IsSpace);
      forall i | 0 <= i < |xs|
        ensures AllSatisfy(xs[i], IsSpace)
      {
        assert ys[i + 1] == xs[i];
      }
    }
    if AllSatisfy(x, IsSpace) && AllBlankPieces(xs) {
      forall i | 0 <= i < |ys|
        ensures AllSatisfy(ys[i], IsSpace)
      {
        if i > 0 {
          assert ys[i] == xs[i - 1];
        }
      }
    }
  }

  lemma {:induction false} KeepNonEmptyEmptyIff(xs: seq<string>)
    ensures KeepNonEmpty(xs) == [] <==> forall i :: 0 <= i < |xs| ==> xs[i] == []
  {
    if xs != [] {
      KeepNonEmptyEmptyIff(xs[1..]);
      assert forall i :: 0 < i < |xs| ==> xs[i] == xs[1..][i - 1];
    }
  }

  /** The parse gives `None` exactly when the variable is unset, or its value
      consists of commas and whitespace only (the empty value included). */
  lemma ParseCommaSeparatedNoneIff(env: Env, name: string)
    ensures ParseCommaSeparated(env, name).None?
            <==> name !in env || AllSatisfy(env[name], IsCommaOrSpace)
  {
    if name in env {
      var pieces := Split(env[name], ',');
      BlankPiecesIff(env[name]);
      KeepNonEmptyEmptyIff(StripAll(pieces));
      forall i | 0 <= i < |pieces|
        ensures Strip(pieces[i]) == [] <==> AllSatisfy(pieces[i], IsSpace)
      {
        StripEmptyIff(pieces[i]);
      }
    }
  }

  /** `xs` appears in `ys` in the same order, possibly with gaps. */
  predicate IsSubsequence(xs: seq<string>, ys: seq<string>) {
    if xs == [] then true
    else if ys == [] then false
    else if xs[0] == ys[0] then IsSubsequence(xs[1..], ys[1..])
    else IsSubsequence(xs, ys[1..])
  }

  lemma {:induction false} KeepNonEmptyOrder(xs: seq<string>)
    ensures IsSubsequence(KeepNonEmpty(xs), xs)
    ensures multiset(KeepNonEmpty(xs)) == multiset(xs)[[] := 0]
  {
    if xs != [] {
      KeepNonEmptyOrder(xs[1..]);
      var r := KeepNonEmpty(xs[1..]);
      if xs[0] != [] {
        assert KeepNonEmpty(xs) == [xs[0]] + r;
        assert KeepNonEmpty(xs)[1..] == r;
      } else {
        assert KeepNonEmpty(xs) == r;
        SubsequenceSkip(r, xs);
      }
      assert xs == [xs[0]] + xs[1..];
      DropEmptyCons(xs[0], multiset(xs[1..]));
    }
  }

  /** Dropping every `[]` from a multiset with one more element. */
  lemma DropEmptyCons(x: string, m: multiset<string>)
    ensures (multiset{x} + m)[[] := 0] == (if x == [] then m[[] := 0] else multiset{x} + m[[] := 0])
  {
  }

  /** A subsequence of the tail is a subsequence of the whole. */
  lemma {:induction false} SubsequenceSkip(xs: seq<string>, ys: seq<string>)
    requires ys != [] && IsSubsequence(xs, ys[1..])
    ensures IsSubsequence(xs, ys)
    decreases |ys|, |xs|
  {
    if xs != [] && xs[0] == ys[0] {
      SubsequenceDropHead(xs, ys[1..]);
    }
  }

  /** Dropping the first element keeps a subsequence a subsequence. */
  lemma {:induction false} SubsequenceDropHead(xs: seq<string>, zs: seq<string>)
    requires xs != [] && IsSubsequence(xs, zs)
    ensures IsSubsequence(xs[1..], zs)
    decreases |zs|, |xs|
  {
    if xs[0] == zs[0] {
      SubsequenceSkip(xs[1..], zs);
    } else {
      SubsequenceDropHead(xs, zs[1..]);
      SubsequenceSkip(xs[1..], zs);
    }
  }

  /** Every returned piece is non-empty, free of commas, and neither starts nor
      ends with whitespace; the pieces are the non-empty stripped fields of the
      value, in their left-to-right order and with their multiplicities. */
  lemma ParseCommaSeparatedPieces(env: Env, name: string)
    requires ParseCommaSeparated(env, name).Some?
    ensures var r := ParseCommaSeparated(env, name).value;
            var fields := StripAll(Split(env[name], ','));
            && r != []
            && (forall i :: 0 <= i < |r| ==> IsCleanPiece(r[i]))
            && IsSubsequence(r, fields)
            && multiset(r) == multiset(fields)[[] := 0]
  {
    var pieces := Split(env[name], ',');
    var fields := StripAll(pieces);
    KeepNonEmptyOrder(fields);
    forall k | 0 <= k < |fields| && fields[k] != []
      ensures IsCleanPiece(fields[k])
    {
      CleanField(pieces[k]);
    }
    KeepNonEmptyKeeps(fields);
  }

  /** A comma-free field that does not strip to nothing strips to a clean piece. */
  lemma CleanField(piece: string)
    requires ',' !in piece && Strip(piece) != []
    ensures IsCleanPiece(Strip(piece))
  {
    StripIsCleanInfix(piece);
    StripKeepsOnly(piece, ',');
  }

  /** The filter keeps only fields that are already clean pieces. */
  lemma {:induction false} KeepNonEmptyKeeps(xs: seq<string>)
    requires forall k :: 0 <= k < |xs| && xs[k] != [] ==> IsCleanPiece(xs[k])
    ensures forall i :: 0 <= i < |KeepNonEmpty(xs)| ==> IsCleanPiece(KeepNonEmpty(xs)[i])
  {
    if xs != [] {
      KeepNonEmptyKeeps(xs[1..]);
    }
  }

  /** A non-empty piece without commas and without surrounding whitespace. */
  predicate IsCleanPiece(x: string) {
    x != [] && ',' !in x && !IsSpace(x[0]) && !IsSpace(x[|x| - 1])
  }

  // ---------------------------------------------------------------------------
  // PrintContext._validate_tg_users

  /** The pieces `parse` rejects, in their original order. */
  function BadIds(pieces: seq<string>, parse: string -> Option<int>): seq<string> {
    if pieces == [] then []
    else
      var last := pieces[|pieces| - 1];
      BadIds(pieces[..|pieces| - 1], parse) + (if parse(last).None? then [last] else [])
  }

  /** The values of the pieces `parse` accepts, in their original order. */
  function GoodIds(pieces: seq<string>, parse: string -> Option<int>): seq<int> {
    if pieces == [] then []
    else
      var last := pieces[|pieces| - 1];
      GoodIds(pieces[..|pieces| - 1], parse) + (if parse(last).Some? then [parse(last).value] else [])
  }

  /** No piece is reported exactly when every piece parses, and every reported
      piece is one that does not parse. */
  lemma {:induction false} BadIdsRejected(pieces: seq<string>, parse: string -> Option<int>)
    ensures BadIds(pieces, parse) == [] <==> forall i :: 0 <= i < |pieces| ==> parse(pieces[i]).Some?
    ensures forall i :: 0 <= i < |BadIds(pieces, parse)| ==> parse(BadIds(pieces, parse)[i]).None?
  {
    if pieces != [] {
      var last := pieces[|pieces| - 1];
      var init := pieces[..|pieces| - 1];
      BadIdsRejected(init, parse);
      assert forall i :: 0 <= i < |init| ==> init[i] == pieces[i];
    }
  }

  /** Together the accepted values and the rejected pieces account for every
      piece; when nothing is rejected the values are the pieces' values, in order. */
  lemma {:induction false} GoodIdsValues(pieces: seq<string>, parse: string -> Option<int>)
    ensures |GoodIds(pieces, parse)| + |BadIds(pieces, parse)| == |pieces|
    ensures BadIds(pieces, parse) == [] ==>
              forall i :: 0 <= i < |pieces| ==> Some(GoodIds(pieces, parse)[i]) == parse(pieces[i])
  {
    if pieces != [] {
      var last := pieces[|pieces| - 1];
      var init := pieces[..|pieces| - 1];
      GoodIdsValues(init, parse);
      if BadIds(pieces, parse) == [] {
        var g := GoodIds(init, parse);
        assert BadIds(init, parse) == [] && parse(last).Some?;
        assert GoodIds(pieces, parse) == g + [parse(last).value];
        forall i | 0 <= i < |pieces|
          ensures Some(GoodIds(pieces, parse)[i]) == parse(pieces[i])
        {
          if i < |init| {
            assert pieces[i] == init[i];
          }
        }
      }
    }
  }

  /** What `_validate_tg_users` returns or raises for a given parse. */
  function TgUsers(parsed: Option<seq<string>>): Result<Option<seq<int>>, SettingsError> {
    match parsed
    case None => Success(None)
    case Some(pieces) =>
      if BadIds(pieces, ParseInt) != [] then Failure(IncorrectUserId(BadIds(pieces, ParseInt)))
      else Success(Some(GoodIds(pieces, ParseInt)))
  }

  /** `None` exactly when the parse is `None`; the ids of every piece, in order,
      when `int()` accepts them all; otherwise `IncorrectUserIDError` naming
      every rejected piece, which only a full scan can collect. */
  lemma TgUsersOutcome(parsed: Option<seq<string>>)
    ensures TgUsers(parsed) == Success(None) <==> parsed.None?
    ensures parsed.Some? && (forall i :: 0 <= i < |parsed.value| ==> ParseInt(parsed.value[i]).Some?)
            ==> && TgUsers(parsed).Success?
                && TgUsers(parsed).value.Some?
                && |TgUsers(parsed).value.value| == |parsed.value|
                && forall i :: 0 <= i < |parsed.value| ==>
                     TgUsers(parsed).value.value[i] == ParseInt(parsed.value[i]).value
    ensures parsed.Some? && (exists i :: 0 <= i < |parsed.value| && ParseInt(parsed.value[i]).None?)
            ==> TgUsers(parsed) == Failure(IncorrectUserId(BadIds(parsed.value, ParseInt)))
  {
    if parsed.Some? {
      BadIdsRejected(parsed.value, ParseInt);
      GoodIdsValues(parsed.value, ParseInt);
    }
  }

  /** The rejected pieces keep their original order. */
  lemma {:induction false} BadIdsInOrder(pieces: seq<string>, parse: string -> Option<int>)
    ensures IsSubsequence(BadIds(pieces, parse), pieces)
  {
    if pieces != [] {
      var last := pieces[|pieces| - 1];
      var init := pieces[..|pieces| - 1];
      BadIdsInOrder(init, parse);
      SubsequenceAppend(BadIds(init, parse), init, last, parse(last).None?);
      assert pieces == init + [last];
    }
  }

  /** Every rejected piece is reported, once for each time it occurs: none is
      lost to an early raise, and repeats are not merged. */
  lemma {:induction false} BadIdsComplete(pieces: seq<string>, parse: string -> Option<int>, x: string)
    ensures multiset(BadIds(pieces, parse))[x] == if parse(x).None? then multiset(pieces)[x] else 0
  {
    if pieces != [] {
      var last := pieces[|pieces| - 1];
      var init := pieces[..|pieces| - 1];
      BadIdsComplete(init, parse, x);
      assert BadIds(pieces, parse) == BadIds(init, parse) + (if parse(last).None? then [last] else []);
      assert pieces == init + [last];
      CountStep(init, last, BadIds(init, parse), parse(last).None?, parse(x).None?, x);
    }
  }

  /** Counting `x` in a filter's output stays in step when one more element is
      considered, kept or not by the same test that decides `x`. */
  lemma CountStep(init: seq<string>, last: string, kept: seq<string>, keepLast: bool, keepX: bool, x: string)
    requires multiset(kept)[x] == if keepX then multiset(init)[x] else 0
    requires last == x ==> keepLast == keepX
    ensures multiset(kept + (if keepLast then [last] else []))[x]
            == if keepX then multiset(init + [last])[x] else 0
  {
  }

  lemma {:induction false} SubsequenceAppend(xs: seq<string>, ys: seq<string>, y: string, keep: bool)
    requires IsSubsequence(xs, ys)
    ensures IsSubsequence(xs + (if keep then [y] else []), ys + [y])
    decreases |ys|
  {
    var xs' := xs + (if keep then [y] else []);
    if xs == [] {
      if keep {
        assert xs' == [y];
        SubsequenceEnd(y, ys);
      }
    } else {
      assert xs'[0] == xs[0];
      assert (ys + [y])[1..] == ys[1..] + [y];
      if xs[0] == ys[0] {
        SubsequenceAppend(xs[1..], ys[1..], y, keep);
        assert xs'[1..] == xs[1..] + (if keep then [y] else []);
      } else {
        SubsequenceAppend(xs, ys[1..], y, keep);
      }
    }
  }

  lemma {:induction false} SubsequenceEnd(y: string, ys: seq<string>)
    ensures IsSubsequence([y], ys + [y])
    decreases |ys|
  {
    if ys != [] {
      assert (ys + [y])[1..] == ys[1..] + [y];
      if ys[0] != y {
        SubsequenceEnd(y, ys[1..]);
      }
    } else {
      assert [y][1..] == [];
    }
  }

  /** `_validate_tg_users(name)`: scans every piece, collecting the `int()`
      values and the rejected pieces, and raises only after the scan. */
  method ValidateTgUsers(env: Env, name: string) returns (r: Result<Option<seq<int>>, SettingsError>)
    ensures r == TgUsers(ParseCommaSeparated(env, name))
  {
    var userIds := ParseCommaSeparated(env, name);
    if userIds.None? {
      return Success(None);
    }
    var wrongIds, correctIds := ScanIds(userIds.value);
    if wrongIds != [] {
      return Failure(IncorrectUserId(wrongIds));
    }
    return Success(Some(correctIds));
  }

  /** The loop of `_validate_tg_users`: one pass that sorts every piece into
      the accepted ids or the rejected pieces. */
  method ScanIds(pieces: seq<string>) returns (wrongIds: seq<string>, correctIds: seq<int>)
    ensures wrongIds == BadIds(pieces, ParseInt)
    ensures correctIds == GoodIds(pieces, ParseInt)
  {
    wrongIds, correctIds := [], [];
    for i := 0 to |pieces|
      invariant wrongIds == BadIds(pieces[..i], ParseInt)
      invariant correctIds == GoodIds(pieces[..i], ParseInt)
    {
      ScanStep(pieces, i, ParseInt);
      var n := ParseInt(pieces[i]);
      if n.Some? {
        correctIds := correctIds + [n.value];
      } else {
        wrongIds := wrongIds + [pieces[i]];
      }
    }
    assert pieces[..|pieces|] == pieces;
  }

  /** One more piece extends exactly one of the two lists. */
  lemma ScanStep(pieces: seq<string>, i: nat, parse: string -> Option<int>)
    requires i < |pieces|
    ensures BadIds(pieces[..i + 1], parse)
            == BadIds(pieces[..i], parse) + (if parse(pieces[i]).None? then [pieces[i]] else [])
    ensures GoodIds(pieces[..i + 1], parse)
            == GoodIds(pieces[..i], parse) + (if parse(pieces[i]).Some? then [parse(pieces[i]).value] else [])
  {
    var done := pieces[..i + 1];
    assert done[..i] == pieces[..i] && done[i] == pieces[i];
  }

  // ---------------------------------------------------------------------------
  // PrintContext._validate_int

  /** `_validate_int(name, default)`: the `int()` value of the variable, or the
      default when it is unset, empty or not an integer. */
  function ValidateInt(env: Env, name: string, default: int): int {
    var val := Getenv(env, name);
    if IsBlank(val) then default
    else match ParseInt(val.value)
      case Some(n) => n
      case None => default
  }

  /** A variable holding `str(n)` yields `n`, whatever the default. */
  lemma ValidateIntReadsFormatted(env: Env, name: string, n: int, default: int)
    requires Width(n) <= MaxStrDigits
    ensures ValidateInt(env[name := FormatInt(n)], name, default) == n
  {
    ParseFormat(n);
  }

  /** `int()` reads a padded, signed value: a variable holding a digit run
      (single underscores allowed), with an optional `+` or `-` and whitespace
      around it, yields that number, whatever the default. */
  lemma ValidateIntReadsPadded(env: Env, name: string, default: int,
                               pre: string, sign: string, d: string, post: string)
    requires AllSatisfy(pre, IsIntSpace) && AllSatisfy(post, IsIntSpace)
    requires sign == "" || sign == "+" || sign == "-"
    requires IsDigitRun(d) && DigitCount(d) <= MaxStrDigits
    ensures ValidateInt(env[name := pre + sign + d + post], name, default) == Signed(sign, DigitsValue(d))
  {
    ParseIntAccepts(pre, sign, d, post);
  }

  /** The default is used exactly when the variable is unset or holds no number
      `int()` accepts (empty, blank, or any other non-integer text); otherwise
      the value is that number's. */
  lemma ValidateIntFallsBack(env: Env, name: string, default: int)
    ensures (name !in env || !(exists k, m :: IsNumberWindow(env[name], k, m)))
            ==> ValidateInt(env, name, default) == default
    ensures forall k, m :: name in env && IsNumberWindow(env[name], k, m) ==>
              ValidateInt(env, name, default) == ParseSigned(env[name][k..m]).value
  {
    ValidateIntIsParse(env, name, default);
    if name in env {
      ParseIntIff(env[name]);
    }
  }

  /** `_validate_int` is `int()` of the value, or the default where `int()` fails
      or the variable is unset; an empty value fails `int()` too. */
  lemma ValidateIntIsParse(env: Env, name: string, default: int)
    ensures ValidateInt(env, name, default)
            == if name in env && ParseInt(env[name]).Some? then ParseInt(env[name]).value else default
  {
    ParseIntRejectsBlank([]);
  }

  // ---------------------------------------------------------------------------
  // Settings._validate_bool

  /** The lower-case spellings `_validate_bool` accepts. */
  const TruthyWords: set<string> := {"1", "t", "true", "y", "yes"}

  /** `_validate_bool(name)`: `bool(val) and val.lower() in TruthyWords`. */
  function ValidateBool(env: Env, name: string): bool {
    var val := Getenv(env, name);
    !IsBlank(val) && Lower(val.value) in TruthyWords
  }

  /** `v` spells `w` with any mix of upper- and lower-case letters. */
  predicate SpellsIgnoringCase(v: string, w: string) {
    |v| == |w| && forall i :: 0 <= i < |v| ==> v[i] == w[i] || v[i] == UpperChar(w[i])
  }

  predicate IsLowerWordChar(c: char) {
    ('a' <= c <= 'z') || ('0' <= c <= '9')
  }

  lemma LowerMatches(v: string, w: string)
    requires forall i :: 0 <= i < |w| ==> IsLowerWordChar(w[i])
    ensures Lower(v) == w <==> SpellsIgnoringCase(v, w)
  {
    if SpellsIgnoringCase(v, w) {
      assert forall i :: 0 <= i < |v| ==> Lower(v)[i] == w[i];
    }
  }

  /** The debug switch is on exactly when the variable spells one of "1", "t",
      "true", "y", "yes" in any letter case. */
  lemma ValidateBoolIff(env: Env, name: string)
    ensures ValidateBool(env, name)
            <==> name in env && exists w :: w in TruthyWords && SpellsIgnoringCase(env[name], w)
  {
    if name in env {
      var v := env[name];
      forall w | w in TruthyWords
        ensures Lower(v) == w <==> SpellsIgnoringCase(v, w)
      {
        LowerMatches(v, w);
      }
    }
  }

  // ---------------------------------------------------------------------------
  // Settings._validate_required_str

  /** `_validate_required_str(name)`: the value, or `MissingEnvVarError` naming
      the variable when it is unset or empty. */
  function ValidateRequiredStr(env: Env, name: string): (r: Result<string, SettingsError>)
    ensures r.Failure? <==> name !in env || env[name] == []
    ensures r.Success? ==> name in env && r.value == env[name]
    ensures r.Failure? ==> r.error == MissingEnvVar(name) && EnvVarInMessage(Message(r.error)) == Some(name)
  {
    var val := Getenv(env, name);
    if IsBlank(val) then
      MissingEnvVarMessage(name);
      Failure(MissingEnvVar(name))
    else Success(val.value)
  }

  // ---------------------------------------------------------------------------
  // LogSettings._validate_log_level

  /** `logging.getLevelNamesMapping()`. */
  const LevelNames: map<string, int> := map[
    "CRITICAL" := 50, "FATAL" := 50, "ERROR" := 40, "WARN" := 30,
    "WARNING" := 30, "INFO" := 20, "DEBUG" := 10, "NOTSET" := 0]

  const Info := 20

  /** `_validate_log_level(name)`: the level named by the stripped, upper-cased
      value, or INFO when it is unset, empty or names no level. */
  function ValidateLogLevel(env: Env, name: string): (r: int)
    ensures r in LevelNames.Values
    ensures IsBlank(Getenv(env, name)) ==> r == Info
    ensures !IsBlank(Getenv(env, name)) && Upper(Strip(env[name])) !in LevelNames ==> r == Info
  {
    assert LevelNames["INFO"] == Info;
    var val := Getenv(env, name);
    if IsBlank(val) then Info
    else
      var key := Upper(Strip(val.value));
      if key in LevelNames then LevelNames[key] else Info
  }

  /** `logging.getLevelName(level)` for the standard levels. */
  function LevelName(level: int): string {
    if level == 50 then "CRITICAL"
    else if level == 40 then "ERROR"
    else if level == 30 then "WARNING"
    else if level == 20 then "INFO"
    else if level == 10 then "DEBUG"
    else "NOTSET"
  }

  /** Round trip: a variable holding a level's canonical name yields that level. */
  lemma ValidateLogLevelReadsName(env: Env, name: string, level: int)
    requires level in LevelNames.Values
    ensures ValidateLogLevel(env[name := LevelName(level)], name) == level
  {
    var n := LevelName(level);
    assert n in LevelNames && LevelNames[n] == level;
    CapitalWordUnchanged(n);
  }

  /** The lookup ignores ASCII case and surrounding whitespace: any spelling of
      a level name whose letters upper-case to it, padded with whitespace on
      either side, yields that level. */
  lemma ValidateLogLevelAnyCase(env: Env, name: string, pre: string, w: string, post: string, n: string)
    requires n in LevelNames
    requires AllSatisfy(pre, IsSpace) && AllSatisfy(post, IsSpace)
    requires |w| == |n| && forall i :: 0 <= i < |w| ==> UpperChar(w[i]) == n[i]
    ensures ValidateLogLevel(env[name := pre + w + post], name) == LevelNames[n]
  {
    LevelNamesCapital(n);
    assert !IsSpace(w[0]) && !IsSpace(w[|w| - 1]) by {
      assert 'A' <= UpperChar(w[0]) <= 'Z' && 'A' <= UpperChar(w[|w| - 1]) <= 'Z';
    }
    TrimPadded(pre, w, post, IsSpace);
    assert Strip(pre + w + post) == w;
    assert Upper(w) == n;
  }

  /** Every level name is a non-empty word of capital letters. */
  lemma LevelNamesCapital(n: string)
    requires n in LevelNames
    ensures IsCapitalWord(n)
  {
  }

  predicate IsCapitalWord(w: string) {
    w != [] && forall i :: 0 <= i < |w| ==> 'A' <= w[i] <= 'Z'
  }

  /** A word of capital letters is its own `strip().upper()`. */
  lemma CapitalWordUnchanged(w: string)
    requires IsCapitalWord(w)
    ensures Upper(Strip(w)) == w
  {
    assert !IsSpace(w[0]) && !IsSpace(w[|w| - 1]);
    TrimUnchanged(w, IsSpace);
    assert Strip(w) == w;
    assert forall i :: 0 <= i < |w| ==> UpperChar(w[i]) == w[i];
  }

  // ---------------------------------------------------------------------------
  // The settings objects

  datatype LogSettings = LogSettings(logFormat: string, logDtFmt: string, logLevel: int)

  /** `LogSettings()`. */
  function LoadLogSettings(env: Env): (s: LogSettings)
    ensures s.logLevel == ValidateLogLevel(env, LogLevelVar) && s.logLevel in LevelNames.Values
    ensures LogFormatVar in env ==> s.logFormat == env[LogFormatVar]
    ensures LogFormatVar !in env ==> s.logFormat == DefaultLogFormat
    ensures LogDtFmtVar in env ==> s.logDtFmt == env[LogDtFmtVar]
    ensures LogDtFmtVar !in env ==> s.logDtFmt == DefaultLogDtFmt
  {
    LogSettings(GetenvOr(env, LogFormatVar, DefaultLogFormat),
                GetenvOr(env, LogDtFmtVar, DefaultLogDtFmt),
                ValidateLogLevel(env, LogLevelVar))
  }

  datatype PrintContext = PrintContext(
    printerName: Option<string>,
    allowedUsers: Option<seq<int>>,
    pageConfirmLimit: int)

  /** `PrintContext(printer_name)`: raises what `_validate_tg_users` raises. */
  method NewPrintContext(env: Env, printerName: Option<string>) returns (r: Result<PrintContext, SettingsError>)
    ensures TgUsers(ParseCommaSeparated(env, AllowedUsersVar)).Failure?
            ==> r == Failure(TgUsers(ParseCommaSeparated(env, AllowedUsersVar)).error)
    ensures TgUsers(ParseCommaSeparated(env, AllowedUsersVar)).Success?
            ==> r == Success(PrintContext(printerName,
                                          TgUsers(ParseCommaSeparated(env, AllowedUsersVar)).value,
                                          ValidateInt(env, PageConfirmLimitVar, DefaultPageConfirmLimit)))
  {
    var allowedUsers := ValidateTgUsers(env, AllowedUsersVar);
    if allowedUsers.Failure? {
      return Failure(allowedUsers.error);
    }
    var pageConfirmLimit := ValidateInt(env, PageConfirmLimitVar, DefaultPageConfirmLimit);
    return Success(PrintContext(printerName, allowedUsers.value, pageConfirmLimit));
  }

  datatype Settings = Settings(
    debug: bool,
    debugPrinterName: string,
    tgToken: string,
    printContext: PrintContext)

  /** The printer `Settings()` hands to the print context: the debug printer
      (default "PDF") when debugging, otherwise `PRINTER_NAME`, possibly unset. */
  function ChosenPrinter(env: Env): Option<string> {
    if !ValidateBool(env, DebugVar) then Getenv(env, PrinterNameVar)
    else Some(GetenvOr(env, DebugPrinterNameVar, DefaultDebugPrinterName))
  }

  /** `Settings()`: the token is checked before the user list, so a missing token
      is reported even when the user list is also wrong. */
  method NewSettings(env: Env) returns (r: Result<Settings, SettingsError>)
    ensures (TelegramTokenVar !in env || env[TelegramTokenVar] == [])
            ==> r == Failure(MissingEnvVar(TelegramTokenVar))
    ensures TelegramTokenVar in env && env[TelegramTokenVar] != []
            && TgUsers(ParseCommaSeparated(env, AllowedUsersVar)).Failure?
            ==> r == Failure(TgUsers(ParseCommaSeparated(env, AllowedUsersVar)).error)
    ensures r.Success? <==> TelegramTokenVar in env && env[TelegramTokenVar] != []
                            && TgUsers(ParseCommaSeparated(env, AllowedUsersVar)).Success?
    ensures r.Success? ==> && r.value.tgToken == env[TelegramTokenVar]
                           && r.value.debug == ValidateBool(env, DebugVar)
                           && r.value.debugPrinterName
                              == GetenvOr(env, DebugPrinterNameVar, DefaultDebugPrinterName)
                           && r.value.printContext.printerName == ChosenPrinter(env)
                           && r.value.printContext.allowedUsers
                              == TgUsers(ParseCommaSeparated(env, AllowedUsersVar)).value
                           && r.value.printContext.pageConfirmLimit
                              == ValidateInt(env, PageConfirmLimitVar, DefaultPageConfirmLimit)
  {
    var debug := ValidateBool(env, DebugVar);
    var debugPrinterName := GetenvOr(env, DebugPrinterNameVar, DefaultDebugPrinterName);
    var tgToken := ValidateRequiredStr(env, TelegramTokenVar);
    if tgToken.Failure? {
      return Failure(tgToken.error);
    }
    var printContext := NewPrintContext(env, if !debug then Getenv(env, PrinterNameVar) else Some(debugPrinterName));
    if printContext.Failure? {
      return Failure(printContext.error);
    }
    return Success(Settings(debug, debugPrinterName, tgToken.value, printContext.value));
  }

  /** With debugging on, the printer is the debug printer, "PDF" unless set; with
      it off, it is `PRINTER_NAME`, and `None` when that is unset. */
  lemma PrinterSelection(env: Env)
    ensures ValidateBool(env, DebugVar) && DebugPrinterNameVar !in env
            ==> ChosenPrinter(env) == Some("PDF")
    ensures ValidateBool(env, DebugVar) && DebugPrinterNameVar in env
            ==> ChosenPrinter(env) == Some(env[DebugPrinterNameVar])
    ensures !ValidateBool(env, DebugVar) ==> ChosenPrinter(env) == Getenv(env, PrinterNameVar)
    ensures !ValidateBool(env, DebugVar) && PrinterNameVar !in env ==> ChosenPrinter(env) == None
  {
  }
}
