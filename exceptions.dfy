/**
 * The settings exceptions: `SettingsError` and its two subclasses, with the
 * messages their constructors build.
 */
module Exceptions {
  import opened Wrappers
  import opened PyStr

  /** The classes of the hierarchy, `Exception` at the root. */
  datatype ExceptionClass =
    | ExceptionRoot
    | SettingsErrorClass
    | MissingEnvVarErrorClass
    | IncorrectUserIDErrorClass

  /** The class each class is declared to derive from. */
  function BaseOf(c: ExceptionClass): (r: Option<ExceptionClass>)
    ensures r.Some? ==> Depth(r.value) < Depth(c)
  {
    match c
    case ExceptionRoot => None
    case SettingsErrorClass => Some(ExceptionRoot)
    case MissingEnvVarErrorClass => Some(SettingsErrorClass)
    case IncorrectUserIDErrorClass => Some(SettingsErrorClass)
  }

  /** How far a class sits below `Exception`. */
  function Depth(c: ExceptionClass): nat {
    match c
    case ExceptionRoot => 0
    case SettingsErrorClass => 1
    case _ => 2
  }

  /** Python's `issubclass(c, d)`: `d` is `c` or one of its bases, transitively. */
  predicate IsSubclass(c: ExceptionClass, d: ExceptionClass)
    decreases Depth(c)
  {
    c == d || (BaseOf(c).Some? && IsSubclass(BaseOf(c).value, d))
  }

  /** A raised settings error. */
  datatype SettingsError =
    | MissingEnvVar(envVar: string)
    | IncorrectUserId(userIds: seq<string>)

  function ClassOf(e: SettingsError): ExceptionClass {
    match e
    case MissingEnvVar(_) => MissingEnvVarErrorClass
    case IncorrectUserId(_) => IncorrectUserIDErrorClass
  }

  /** Whether an `except c:` clause catches `e`. */
  predicate Catches(c: ExceptionClass, e: SettingsError) {
    IsSubclass(ClassOf(e), c)
  }

  /** One `except SettingsError` handler catches either error, and neither
      subclass's handler catches the other's error. */
  lemma SettingsErrorCatchesBoth(e: SettingsError)
    ensures Catches(SettingsErrorClass, e) && Catches(ExceptionRoot, e)
    ensures Catches(MissingEnvVarErrorClass, e) <==> e.MissingEnvVar?
    ensures Catches(IncorrectUserIDErrorClass, e) <==> e.IncorrectUserId?
  {
  }

  const MissingPrefix := "No "
  const MissingSuffix := " value in .env."
  const IncorrectPrefix := "Incorrect Telegram User ID(s): "
  const IncorrectSuffix := "."

  /** `str(e)`: the message each constructor passes to `Exception.__init__`. */
  function Message(e: SettingsError): string {
    match e
    case MissingEnvVar(v) => MissingPrefix + v + MissingSuffix
    case IncorrectUserId(ids) => IncorrectPrefix + Join(ids, ", ") + IncorrectSuffix
  }

  /** Reads back the variable name from a missing-variable message. */
  function EnvVarInMessage(m: string): Option<string> {
    if |m| >= |MissingPrefix| + |MissingSuffix|
       && m[..|MissingPrefix|] == MissingPrefix
       && m[|m| - |MissingSuffix|..] == MissingSuffix
    then Some(m[|MissingPrefix|..|m| - |MissingSuffix|])
    else None
  }

  /** Reads back the joined id list from an incorrect-id message. */
  function IdListInMessage(m: string): Option<string> {
    if |m| >= |IncorrectPrefix| + |IncorrectSuffix|
       && m[..|IncorrectPrefix|] == IncorrectPrefix
       && m[|m| - |IncorrectSuffix|..] == IncorrectSuffix
    then Some(m[|IncorrectPrefix|..|m| - |IncorrectSuffix|])
    else None
  }

  /** The missing-variable message names exactly the variable, and is never
      mistaken for an incorrect-id message. */
  lemma MissingEnvVarMessage(v: string)
    ensures EnvVarInMessage(Message(MissingEnvVar(v))) == Some(v)
    ensures IdListInMessage(Message(MissingEnvVar(v))) == None
  {
    var m := Message(MissingEnvVar(v));
    assert m[..|MissingPrefix|] == MissingPrefix;
    assert m[|m| - |MissingSuffix|..] == MissingSuffix;
    assert m[0] == 'N' != IncorrectPrefix[0];
  }

  /** The incorrect-id message carries `", ".join(ids)` between its fixed prefix
      and suffix, and is never mistaken for a missing-variable message. */
  lemma IncorrectUserIdMessage(ids: seq<string>)
    ensures IdListInMessage(Message(IncorrectUserId(ids))) == Some(Join(ids, ", "))
    ensures EnvVarInMessage(Message(IncorrectUserId(ids))) == None
  {
    var m := Message(IncorrectUserId(ids));
    assert m[..|IncorrectPrefix|] == IncorrectPrefix;
    assert m[|m| - |IncorrectSuffix|..] == IncorrectSuffix;
    assert m[0] == 'I' != MissingPrefix[0];
  }

  /** Each listed id appears, unchanged, in the message, and a later id appears
      further right than an earlier one: the message keeps the ids' order. */
  lemma IncorrectUserIdMessageOrder(ids: seq<string>, i: nat, j: nat)
    requires i < j < |ids|
    ensures var m := Message(IncorrectUserId(ids));
            var p := |IncorrectPrefix| + JoinOffset(ids, ", ", i);
            var q := |IncorrectPrefix| + JoinOffset(ids, ", ", j);
            && p + |ids[i]| < q && q + |ids[j]| <= |m|
            && m[p..p + |ids[i]|] == ids[i]
            && m[q..q + |ids[j]|] == ids[j]
  {
    MessageHoldsId(ids, i);
    MessageHoldsId(ids, j);
    JoinOffsetsIncrease(ids, ", ", i, j);
  }

  /** Id `i` sits unchanged in the message, at its offset in the joined list. */
  lemma MessageHoldsId(ids: seq<string>, i: nat)
    requires i < |ids|
    ensures var m := Message(IncorrectUserId(ids));
            var p := |IncorrectPrefix| + JoinOffset(ids, ", ", i);
            && p + |ids[i]| <= |m|
            && m[p..p + |ids[i]|] == ids[i]
  {
    FramedJoinKeepsPart(IncorrectPrefix, ids, ", ", IncorrectSuffix, i);
  }

  /** Part `i` sits unchanged in `a + Join(parts, sep) + c`, at its offset in
      the join shifted by `a`. */
  lemma FramedJoinKeepsPart(a: string, parts: seq<string>, sep: string, c: string, i: nat)
    requires i < |parts|
    ensures var p := |a| + JoinOffset(parts, sep, i);
            && p + |parts[i]| <= |a + Join(parts, sep) + c|
            && (a + Join(parts, sep) + c)[p..p + |parts[i]|] == parts[i]
  {
    JoinKeepsParts(parts, sep, i);
    PartInMiddle(a, Join(parts, sep), c, JoinOffset(parts, sep, i), parts[i]);
  }

  /** A part found in the middle text is found in the whole, shifted by the prefix. */
  lemma PartInMiddle(a: string, b: string, c: string, lo: nat, part: string)
    requires lo + |part| <= |b| && b[lo..lo + |part|] == part
    ensures |a| + lo + |part| <= |a + b + c|
    ensures (a + b + c)[|a| + lo..|a| + lo + |part|] == part
  {
    SliceOfMiddle(a, b, c, lo, lo + |part|);
  }
}
