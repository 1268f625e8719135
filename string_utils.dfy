/**
 * Byte-exact string helpers: the parts of PHP (strtr, rtrim, explode) and of
 * yii's StringHelper (startsWith, endsWith, byteSubstr) that the path-layout
 * code relies on. Every comparison is on raw characters; nothing is folded.
 */
module StringUtils {

  predicate StartsWith(s: string, prefix: string)
  {
    |prefix| <= |s| && s[..|prefix|] == prefix
  }

  predicate EndsWith(s: string, suffix: string)
  {
    |suffix| <= |s| && s[|s| - |suffix|..] == suffix
  }

  /** Two strings with the same prefix are equal when what follows the prefix is. */
  lemma AfterPrefixInjective(prefix: string, a: string, b: string)
    requires StartsWith(a, prefix) && StartsWith(b, prefix) && a[|prefix|..] == b[|prefix|..]
    ensures a == b
  {
    assert a == a[..|prefix|] + a[|prefix|..];
    assert b == b[..|prefix|] + b[|prefix|..];
  }

  /** strtr(s, from, to) with one-character arguments. */
  function Strtr(s: string, from: char, to: char): (r: string)
    ensures |r| == |s|
    ensures forall i | 0 <= i < |s| :: r[i] == (if s[i] == from then to else s[i])
  {
    seq(|s|, i requires 0 <= i < |s| => if s[i] == from then to else s[i])
  }

  /** strtr($path, '\\', '/'): the separator normalisation applied to every path. */
  function Normalize(s: string): string
  {
    Strtr(s, '\\', '/')
  }

  lemma NormalizeConcat(a: string, b: string)
    ensures Normalize(a + b) == Normalize(a) + Normalize(b)
  {
    assert forall i | 0 <= i < |a + b| :: Normalize(a + b)[i] == (Normalize(a) + Normalize(b))[i];
  }

  lemma NormalizeFixed(s: string)
    requires '\\' !in s
    ensures Normalize(s) == s
  {
    assert forall i | 0 <= i < |s| :: Normalize(s)[i] == s[i];
  }

  /** rtrim(s, '/'). */
  function RTrimSlashes(s: string): (r: string)
    ensures StartsWith(s, r)
    ensures r == [] || r[|r| - 1] != '/'
  {
    if s != [] && s[|s| - 1] == '/' then RTrimSlashes(s[..|s| - 1]) else s
  }

  /** The base path the loaders compare discovered files against. */
  function BasePath(realPath: string): string
  {
    RTrimSlashes(Normalize(realPath)) + "/"
  }

  /** realpath() never ends in a separator except for the root, so normally the base is the path plus '/'. */
  lemma BasePathOfPlainPath(realPath: string)
    requires realPath != [] && realPath[|realPath| - 1] != '/' && realPath[|realPath| - 1] != '\\'
    ensures BasePath(realPath) == Normalize(realPath) + "/"
  {
  }

  /** A path below a plain real path, normalised, is the base path followed by the rest. */
  lemma NormalizeUnderPath(realPath: string, tail: string)
    requires realPath != [] && realPath[|realPath| - 1] != '/' && realPath[|realPath| - 1] != '\\'
    requires '\\' !in tail
    ensures Normalize(realPath + "/" + tail) == BasePath(realPath) + tail
    ensures '\\' !in BasePath(realPath)
  {
    assert realPath + "/" + tail == realPath + ("/" + tail);
    NormalizeConcat(realPath, "/" + tail);
    NormalizeFixed("/" + tail);
  }

  /** PHP truthiness of a string: '' and '0' are false. */
  predicate PhpFalsy(s: string)
  {
    s == "" || s == "0"
  }

  /** explode('/', s)[0]: everything before the first '/'. */
  function FirstSegment(s: string): (r: string)
    ensures '/' !in r
    ensures StartsWith(s, r)
    ensures r == s || s[|r|] == '/'
  {
    if s == [] || s[0] == '/' then [] else [s[0]] + FirstSegment(s[1..])
  }

  /** explode('/', s, 2) + [1 => '']: the part before the first '/' and the rest ('' when there is no '/'). */
  function SplitAtFirstSlash(s: string): (r: (string, string))
    ensures r.0 == FirstSegment(s)
    ensures r.1 == if r.0 == s then "" else s[|r.0| + 1..]
  {
    if s == [] then ("", "")
    else if s[0] == '/' then ("", s[1..])
    else
      var rest := SplitAtFirstSlash(s[1..]);
      ([s[0]] + rest.0, rest.1)
  }

  lemma {:induction false} FirstSegmentOfJoin(a: string, b: string)
    requires '/' !in a
    ensures FirstSegment(a + "/" + b) == a
  {
    if a != [] {
      assert (a + "/" + b)[1..] == a[1..] + "/" + b;
      FirstSegmentOfJoin(a[1..], b);
      assert a == [a[0]] + a[1..];
    }
  }

  lemma SplitAtFirstSlashOfJoin(a: string, b: string)
    requires '/' !in a
    ensures SplitAtFirstSlash(a + "/" + b) == (a, b)
  {
    FirstSegmentOfJoin(a, b);
    assert (a + "/" + b)[|a| + 1..] == b;
  }

  lemma FirstSegmentOfPlain(s: string)
    requires '/' !in s
    ensures FirstSegment(s) == s
  {
  }
}
