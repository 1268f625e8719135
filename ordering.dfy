/**
 * Orders on byte strings.
 *
 * LexLess is the byte-wise order PHP uses when it compares two non-numeric
 * string keys (ksort, strcmp); CaseLeq is strcasecmp(a, b) <= 0 with ASCII
 * case folding. Least and SortedKeys fix the order in which the model visits
 * the keys of a PHP array: ascending bytes.
 */
module Ordering {

  /** Strict lexicographic order on strings: a proper prefix comes first. */
  predicate LexLess(a: string, b: string)
  {
    if a == [] then b != []
    else if b == [] then false
    else if a[0] != b[0] then a[0] < b[0]
    else LexLess(a[1..], b[1..])
  }

  lemma {:induction false} LexLessIrreflexive(a: string)
    ensures !LexLess(a, a)
  {
    if a != [] { LexLessIrreflexive(a[1..]); }
  }

  lemma {:induction false} LexLessAsymmetric(a: string, b: string)
    ensures !(LexLess(a, b) && LexLess(b, a))
  {
    if a != [] && b != [] && a[0] == b[0] { LexLessAsymmetric(a[1..], b[1..]); }
  }

  lemma {:induction false} LexLessTotal(a: string, b: string)
    ensures a == b || LexLess(a, b) || LexLess(b, a)
  {
    if a != [] && b != [] && a[0] == b[0] {
      LexLessTotal(a[1..], b[1..]);
      assert a == [a[0]] + a[1..] && b == [b[0]] + b[1..];
    }
  }

  lemma {:induction false} LexLessTransitive(a: string, b: string, c: string)
    requires LexLess(a, b) && LexLess(b, c)
    ensures LexLess(a, c)
  {
    if a != [] && b != [] && c != [] && a[0] == b[0] && b[0] == c[0] {
      LexLessTransitive(a[1..], b[1..], c[1..]);
    }
  }

  /** Adding the same prefix to two strings keeps their order. */
  lemma {:induction false} LexLessPrefixed(p: string, a: string, b: string)
    requires LexLess(a, b)
    ensures LexLess(p + a, p + b)
  {
    if p != [] {
      LexLessPrefixed(p[1..], a, b);
      assert (p + a)[1..] == p[1..] + a && (p + b)[1..] == p[1..] + b;
    } else {
      assert p + a == a && p + b == b;
    }
  }

  predicate IsLeast(x: string, s: set<string>)
  {
    x in s && forall y | y in s && y != x :: LexLess(x, y)
  }

  lemma {:induction false} LeastExists(s: set<string>)
    requires s != {}
    ensures exists x :: IsLeast(x, s)
    decreases |s|
  {
    var z :| z in s;
    if s == {z} {
      assert IsLeast(z, s);
    } else {
      LeastExists(s - {z});
      var w :| IsLeast(w, s - {z});
      LexLessTotal(w, z);
      if LexLess(w, z) {
        assert IsLeast(w, s);
      } else {
        forall y | y in s && y != z ensures LexLess(z, y) {
          if y != w { LexLessTransitive(z, w, y); }
        }
        assert IsLeast(z, s);
      }
    }
  }

  lemma LeastIsUnique()
    ensures forall x, y, s :: IsLeast(x, s) && IsLeast(y, s) ==> x == y
  {
    forall x, y, s | IsLeast(x, s) && IsLeast(y, s) ensures x == y {
      if x != y { LexLessAsymmetric(x, y); }
    }
  }

  /** The smallest key of a non-empty key set: the next key a loop visits. */
  function Least(s: set<string>): (x: string)
    requires s != {}
    ensures IsLeast(x, s)
  {
    LeastExists(s);
    LeastIsUnique();
    var x :| IsLeast(x, s); x
  }

  /** The keys of a set in ascending byte order: what ksort leaves behind. */
  function SortedKeys(s: set<string>): (r: seq<string>)
    ensures |r| == |s|
    ensures forall k :: k in r <==> k in s
    decreases |s|
  {
    if s == {} then []
    else
      var k := Least(s);
      [k] + SortedKeys(s - {k})
  }

  lemma LeastBelow(k: string, s: set<string>, y: string)
    requires IsLeast(k, s) && y in s - {k}
    ensures LexLess(k, y)
  {
  }

  /** SortedKeys lists every key before all the larger ones. */
  lemma {:induction false} SortedKeysAscending(s: set<string>)
    ensures forall i, j | 0 <= i < j < |SortedKeys(s)| :: LexLess(SortedKeys(s)[i], SortedKeys(s)[j])
    decreases |s|
  {
    if s != {} {
      var k := Least(s);
      var r := SortedKeys(s);
      var t := SortedKeys(s - {k});
      assert r == [k] + t;
      SortedKeysAscending(s - {k});
      forall i, j | 0 <= i < j < |r| ensures LexLess(r[i], r[j]) {
        if i == 0 {
          LeastBelow(k, s, t[j - 1]);
        } else {
          assert r[i] == t[i - 1] && r[j] == t[j - 1];
        }
      }
    }
  }

  /** ASCII lower-casing of one byte, as strcasecmp does. */
  function FoldChar(c: char): char
  {
    if 'A' <= c <= 'Z' then (c as int + 32) as char else c
  }

  function Fold(s: string): (r: string)
    ensures |r| == |s| && forall i | 0 <= i < |s| :: r[i] == FoldChar(s[i])
  {
    seq(|s|, i requires 0 <= i < |s| => FoldChar(s[i]))
  }

  /** strcasecmp(a, b) <= 0. */
  predicate CaseLeq(a: string, b: string)
  {
    !LexLess(Fold(b), Fold(a))
  }

  lemma CaseLeqTotal(a: string, b: string)
    ensures CaseLeq(a, b) || CaseLeq(b, a)
  {
    LexLessAsymmetric(Fold(a), Fold(b));
  }

  lemma CaseLeqTransitive(a: string, b: string, c: string)
    requires CaseLeq(a, b) && CaseLeq(b, c)
    ensures CaseLeq(a, c)
  {
    var fa, fb, fc := Fold(a), Fold(b), Fold(c);
    LexLessTotal(fa, fb);
    LexLessTotal(fb, fc);
    if fa != fb && fb != fc {
      LexLessTransitive(fa, fb, fc);
      LexLessAsymmetric(fa, fc);
    } else if fa != fb {
      LexLessAsymmetric(fa, fc);
    } else {
      LexLessAsymmetric(fa, fc);
    }
  }
}
