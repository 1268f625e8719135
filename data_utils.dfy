/**
 * DataUtils::sortTranslationsMap: the order in which a message map is written
 * out. Keys are compared case-insensitively (strcasecmp); with emptiesOnTop,
 * untranslated messages come first. The result is a new array; the input is a
 * value and stays as it was.
 */
module DataUtils {
  import opened Ordering
  import opened Catalogs

  type Entry = (string, string)

  /**
   * The uksort comparator's "p may come before q": with emptiesOnTop an empty
   * translation beats a non-empty one; otherwise strcasecmp decides.
   */
  predicate Precedes(p: Entry, q: Entry, emptiesOnTop: bool)
  {
    if emptiesOnTop && (p.1 == "") != (q.1 == "") then p.1 == ""
    else CaseLeq(p.0, q.0)
  }

  lemma PrecedesTotal(p: Entry, q: Entry, emptiesOnTop: bool)
    ensures Precedes(p, q, emptiesOnTop) || Precedes(q, p, emptiesOnTop)
  {
    CaseLeqTotal(p.0, q.0);
  }

  lemma PrecedesTransitive(p: Entry, q: Entry, s: Entry, emptiesOnTop: bool)
    requires Precedes(p, q, emptiesOnTop) && Precedes(q, s, emptiesOnTop)
    ensures Precedes(p, s, emptiesOnTop)
  {
    if !emptiesOnTop || ((p.1 == "") == (q.1 == "") && (q.1 == "") == (s.1 == "")) {
      CaseLeqTransitive(p.0, q.0, s.0);
    }
  }

  predicate Sorted(s: seq<Entry>, emptiesOnTop: bool)
  {
    forall i, j | 0 <= i < j < |s| :: Precedes(s[i], s[j], emptiesOnTop)
  }

  /** Puts p into a sorted sequence. */
  function Insert(p: Entry, s: seq<Entry>, emptiesOnTop: bool): (r: seq<Entry>)
    requires Sorted(s, emptiesOnTop)
    ensures multiset(r) == multiset(s) + multiset{p}
    ensures Sorted(r, emptiesOnTop)
  {
    if s == [] then [p]
    else if Precedes(p, s[0], emptiesOnTop) then
      PrecedesAll(p, s, emptiesOnTop);
      [p] + s
    else
      PrecedesTotal(p, s[0], emptiesOnTop);
      var rest := Insert(p, s[1..], emptiesOnTop);
      assert s == [s[0]] + s[1..];
      HeadPrecedesRest(p, s, rest, emptiesOnTop);
      [s[0]] + rest
  }

  /** An entry that precedes the head of a sorted sequence precedes all of it. */
  lemma PrecedesAll(p: Entry, s: seq<Entry>, emptiesOnTop: bool)
    requires Sorted(s, emptiesOnTop) && s != [] && Precedes(p, s[0], emptiesOnTop)
    ensures forall j | 0 <= j < |s| :: Precedes(p, s[j], emptiesOnTop)
  {
    forall j | 0 <= j < |s| ensures Precedes(p, s[j], emptiesOnTop) {
      if j > 0 { PrecedesTransitive(p, s[0], s[j], emptiesOnTop); }
    }
  }

  /** The head of a sorted sequence precedes whatever the rest becomes with an entry it precedes put in. */
  lemma HeadPrecedesRest(p: Entry, s: seq<Entry>, rest: seq<Entry>, emptiesOnTop: bool)
    requires Sorted(s, emptiesOnTop) && s != [] && Precedes(s[0], p, emptiesOnTop)
    requires multiset(rest) == multiset(s[1..]) + multiset{p}
    ensures forall x | x in rest :: Precedes(s[0], x, emptiesOnTop)
  {
    forall x | x in rest ensures Precedes(s[0], x, emptiesOnTop) {
      assert x in multiset(rest);
      if x != p {
        assert x in multiset(s[1..]);
        var j :| 0 <= j < |s[1..]| && s[1..][j] == x;
        assert s[j + 1] == x;
      }
    }
  }

  /** Insertion sort of a sequence of entries. */
  function SortEntries(s: seq<Entry>, emptiesOnTop: bool): (r: seq<Entry>)
    ensures multiset(r) == multiset(s)
    ensures Sorted(r, emptiesOnTop)
  {
    if s == [] then []
    else
      assert s == [s[0]] + s[1..];
      Insert(s[0], SortEntries(s[1..], emptiesOnTop), emptiesOnTop)
  }

  /**
   * sortTranslationsMap: the same key -> translation pairs, each once, with
   * empties first when asked and case-insensitive key order within each group.
   */
  function SortTranslationsMap(translations: Messages, emptiesOnTop: bool): (r: seq<Entry>)
    ensures |r| == |translations|
  {
    var r := SortEntries(Entries(translations), emptiesOnTop);
    SortedListing(translations, emptiesOnTop, r);
    r
  }

  /** What sortTranslationsMap returns: each pair once, empties first when asked, otherwise case-insensitive key order. */
  lemma SortTranslationsMapSorts(translations: Messages, emptiesOnTop: bool)
    ensures var r := SortTranslationsMap(translations, emptiesOnTop);
      && multiset(r) == multiset(Entries(translations))
      && Lists(r, translations)
      && (emptiesOnTop ==> forall i, j | 0 <= i < j < |r| && r[j].1 == "" :: r[i].1 == "")
      && (forall i, j | 0 <= i < j < |r| && (!emptiesOnTop || (r[i].1 == "") == (r[j].1 == "")) ::
            CaseLeq(r[i].0, r[j].0))
  {
    SortedListing(translations, emptiesOnTop, SortTranslationsMap(translations, emptiesOnTop));
  }

  /** The sorted entries of a message map list it, empties first when asked, otherwise in case-insensitive key order. */
  lemma SortedListing(translations: Messages, emptiesOnTop: bool, r: seq<Entry>)
    requires r == SortEntries(Entries(translations), emptiesOnTop)
    ensures multiset(r) == multiset(Entries(translations))
    ensures |r| == |translations| && Lists(r, translations)
    ensures emptiesOnTop ==> forall i, j | 0 <= i < j < |r| && r[j].1 == "" :: r[i].1 == ""
    ensures forall i, j | 0 <= i < j < |r| && (!emptiesOnTop || (r[i].1 == "") == (r[j].1 == "")) ::
      CaseLeq(r[i].0, r[j].0)
  {
    var e := Entries(translations);
    EntriesList(translations);
    PermutationLists(e, r, translations);
    SortedOrder(r, emptiesOnTop);
  }

  /** What Sorted means for the output: empties first when asked, otherwise case-insensitive key order. */
  lemma SortedOrder(r: seq<Entry>, emptiesOnTop: bool)
    requires Sorted(r, emptiesOnTop)
    ensures emptiesOnTop ==> forall i, j | 0 <= i < j < |r| && r[j].1 == "" :: r[i].1 == ""
    ensures forall i, j | 0 <= i < j < |r| && (!emptiesOnTop || (r[i].1 == "") == (r[j].1 == "")) ::
      CaseLeq(r[i].0, r[j].0)
  {
  }

  /** A permutation of a listing of m is a listing of m of the same length. */
  lemma PermutationLists(e: seq<Entry>, r: seq<Entry>, m: Messages)
    requires Lists(e, m) && multiset(r) == multiset(e)
    ensures |r| == |e| && Lists(r, m)
  {
    assert |r| == |multiset(r)| == |multiset(e)| == |e|;
    forall i | 0 <= i < |r| ensures r[i].0 in m && m[r[i].0] == r[i].1 {
      assert r[i] in multiset(e);
    }
    forall k | k in m ensures exists i | 0 <= i < |r| :: r[i].0 == k {
      var j :| 0 <= j < |e| && e[j].0 == k;
      assert e[j] in multiset(r);
    }
  }

  /** Any order meeting SortTranslationsMap's contract on {"a": "X", "z": ""}. */
  lemma ExampleOrder(r: seq<Entry>, emptiesOnTop: bool)
    requires |r| == 2 && Lists(r, map["a" := "X", "z" := ""])
    requires emptiesOnTop ==> forall i, j | 0 <= i < j < |r| && r[j].1 == "" :: r[i].1 == ""
    requires forall i, j | 0 <= i < j < |r| && (!emptiesOnTop || (r[i].1 == "") == (r[j].1 == "")) ::
      CaseLeq(r[i].0, r[j].0)
    ensures r == if emptiesOnTop then [("z", ""), ("a", "X")] else [("a", "X"), ("z", "")]
  {
    var m := map["a" := "X", "z" := ""];
    assert "a" in m && "z" in m;
    var ia :| 0 <= ia < 2 && r[ia].0 == "a";
    var iz :| 0 <= iz < 2 && r[iz].0 == "z";
    assert r[ia] == ("a", "X") && r[iz] == ("z", "");
    if emptiesOnTop {
      assert !(ia < iz);
    } else {
      assert Fold("a") == "a" && Fold("z") == "z";
      assert LexLess("a", "z");
      LexLessAsymmetric("a", "z");
      assert !CaseLeq("z", "a");
      assert !(iz < ia);
    }
    assert r == [r[0], r[1]];
  }

  lemma ExampleSize(m: Messages)
    requires m == map["a" := "X", "z" := ""]
    ensures |m| == 2
  {
    assert m.Keys == {"a", "z"};
  }

  /** The documented example {"a": "X", "z": ""} is ordered z, a with emptiesOnTop... */
  lemma SortExampleEmptiesOnTop(m: Messages)
    requires m == map["a" := "X", "z" := ""]
    ensures SortTranslationsMap(m, true) == [("z", ""), ("a", "X")]
  {
    ExampleSize(m);
    SortTranslationsMapSorts(m, true);
    ExampleOrder(SortTranslationsMap(m, true), true);
  }

  /** ...and a, z without. */
  lemma SortExampleCaseOrder(m: Messages)
    requires m == map["a" := "X", "z" := ""]
    ensures SortTranslationsMap(m, false) == [("a", "X"), ("z", "")]
  {
    ExampleSize(m);
    SortTranslationsMapSorts(m, false);
    ExampleOrder(SortTranslationsMap(m, false), false);
  }
}
