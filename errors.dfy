/**
 * The failures the system reports. MergeConflict is the structured conflict
 * record of MergeConflictException; the other variants stand for the PHP
 * exception classes the core throws.
 */
module Errors {
  import opened Wrappers

  /** language, category, message and translations are kept exactly as the raiser passed them. */
  datatype MergeConflict = MergeConflict(
    language: string,
    category: string,
    message: string,
    translations: seq<string>,
    previous: Option<Error>)

  datatype Error =
    | InvalidConfig(text: string)        // yii\base\InvalidConfigException
    | SourceData                         // SourceDataException: decoded data of the wrong shape
    | InvalidArgument(text: string)      // \InvalidArgumentException
    | Runtime(text: string)              // \RuntimeException
    | Conflict(conflict: MergeConflict)  // MergeConflictException
    | UnknownMember(name: string)        // yii's UnknownPropertyException / UnknownMethodException
    | NotInstantiable                    // yii's container cannot build a driver configured without a class

  const TextStart := "Conflicting translations in `"
  const TextAfterLanguage := "` language for (`"
  const TextAfterCategory := "`, `"
  const TextEnd := "`)"

  /** The exception message of a conflict. */
  function ConflictText(e: MergeConflict): string
  {
    TextStart + (e.language + (TextAfterLanguage + (e.category + (TextAfterCategory + (e.message + TextEnd)))))
  }

  /** Cancelling a common prefix. */
  lemma CancelPrefix(p: string, a: string, b: string)
    requires p + a == p + b
    ensures a == b
  {
    assert a == (p + a)[|p|..];
    assert b == (p + b)[|p|..];
  }

  /** A name free of '`' ends where the first '`' of the text is. */
  lemma SplitBeforeBacktick(x: string, u: string, y: string, v: string)
    requires '`' !in x && '`' !in y
    requires u != [] && u[0] == '`' && v != [] && v[0] == '`'
    requires x + u == y + v
    ensures x == y && u == v
  {
    var s := x + u;
    assert forall i | 0 <= i < |x| :: s[i] == x[i];
    assert forall i | 0 <= i < |y| :: s[i] == y[i];
    assert s[|x|] == '`' && s[|y|] == '`';
    assert |x| == |y|;
    assert x == s[..|x|] && y == s[..|y|];
    CancelPrefix(x, u, v);
  }

  /** The message text names the conflict's coordinates unambiguously when they contain no '`'. */
  lemma ConflictTextIdentifiesCoordinates(e1: MergeConflict, e2: MergeConflict)
    requires '`' !in e1.language && '`' !in e1.category && '`' !in e1.message
    requires '`' !in e2.language && '`' !in e2.category && '`' !in e2.message
    requires ConflictText(e1) == ConflictText(e2)
    ensures e1.language == e2.language && e1.category == e2.category && e1.message == e2.message
  {
    CancelPrefix(TextStart,
      e1.language + (TextAfterLanguage + (e1.category + (TextAfterCategory + (e1.message + TextEnd)))),
      e2.language + (TextAfterLanguage + (e2.category + (TextAfterCategory + (e2.message + TextEnd)))));
    SplitBeforeBacktick(
      e1.language, TextAfterLanguage + (e1.category + (TextAfterCategory + (e1.message + TextEnd))),
      e2.language, TextAfterLanguage + (e2.category + (TextAfterCategory + (e2.message + TextEnd))));
    CancelPrefix(TextAfterLanguage,
      e1.category + (TextAfterCategory + (e1.message + TextEnd)),
      e2.category + (TextAfterCategory + (e2.message + TextEnd)));
    SplitBeforeBacktick(
      e1.category, TextAfterCategory + (e1.message + TextEnd),
      e2.category, TextAfterCategory + (e2.message + TextEnd));
    CancelPrefix(TextAfterCategory, e1.message + TextEnd, e2.message + TextEnd);
    SplitBeforeBacktick(e1.message, TextEnd, e2.message, TextEnd);
  }
}
