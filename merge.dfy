/**
 * The conflict-detecting merge of translation catalogs.
 *
 * The iterative definitions (MergeMessagesFrom, MergeCategoriesFrom,
 * MergeExportFrom) follow the loops of Manager::mergeExportTranslations step
 * by step, visiting keys in ascending order. The reference definitions
 * (ClashesAt, ConflictAt, MergedCategories, MergedCatalogs) say what the
 * loops compute, and the lemmas connect the two.
 *
 * The per-language part is also what FlatDirectoryDriver calls as
 * DataUtils::mergeSourceLanguage; that helper is not part of this model and
 * is taken to be this same per-language merge.
 */
module Merge {
  import opened Wrappers
  import opened Ordering
  import opened Catalogs
  import opened Errors

  /** A conflict inside one language: category, message and [accumulated, incoming]. */
  datatype Clash = Clash(category: string, message: string, translations: seq<string>)

  // ---- reference definitions ----

  /** The accumulated translation is non-empty and differs from the incoming one. */
  predicate ClashesAt(acc: Messages, inc: Messages, m: string)
  {
    m in inc && m in acc && acc[m] != "" && acc[m] != inc[m]
  }

  predicate CategoryClashAt(acc: Categories, inc: Categories, c: string, m: string)
  {
    c in acc && c in inc && ClashesAt(acc[c], inc[c], m)
  }

  predicate ConflictAt(data: Catalog, translations: Catalog, l: string, c: string, m: string)
  {
    l in data && l in translations && CategoryClashAt(data[l], translations[l], c, m)
  }

  /** A category of a language, empty when absent. */
  function CategoryOf(cats: Categories, c: string): Messages
  {
    if c in cats then cats[c] else map[]
  }

  function LanguageOf(data: Catalog, l: string): Categories
  {
    if l in data then data[l] else map[]
  }

  /** Message-wise union, incoming entries replacing accumulated ones. */
  function MergedCategories(acc: Categories, inc: Categories): Categories
  {
    map c | c in acc.Keys + inc.Keys :: CategoryOf(acc, c) + CategoryOf(inc, c)
  }

  function MergedCatalogs(data: Catalog, translations: Catalog): Catalog
  {
    map l | l in data.Keys + translations.Keys ::
      MergedCategories(LanguageOf(data, l), LanguageOf(translations, l))
  }

  function Restrict(inc: Messages, keys: set<string>): Messages
  {
    map m | m in keys && m in inc :: inc[m]
  }

  /** If every accumulated coordinate also comes in, the union is the incoming catalog. */
  lemma CoveredCategoriesAreIncoming(acc: Categories, inc: Categories)
    requires acc.Keys <= inc.Keys
    requires forall c | c in acc :: acc[c].Keys <= inc[c].Keys
    ensures MergedCategories(acc, inc) == inc
  {
    forall c | c in inc ensures CategoryOf(acc, c) + inc[c] == inc[c] {
      assert CategoryOf(acc, c).Keys <= inc[c].Keys;
    }
  }

  lemma MergedCoveredIsIncoming(data: Catalog, translations: Catalog)
    requires data.Keys <= translations.Keys
    requires forall l, c | l in data && c in data[l] :: c in translations[l] && data[l][c].Keys <= translations[l][c].Keys
    ensures MergedCatalogs(data, translations) == translations
  {
    forall l | l in translations
      ensures MergedCategories(LanguageOf(data, l), translations[l]) == translations[l]
    {
      CoveredCategoriesAreIncoming(LanguageOf(data, l), translations[l]);
    }
  }

  // ---- the loops of mergeExportTranslations, one level at a time ----

  /** The innermost loop: the messages of one category, in ascending order. */
  function MergeMessagesFrom(category: string, acc: Messages, inc: Messages, todo: set<string>): Result<Messages, Clash>
    requires todo <= inc.Keys
    decreases |todo|
  {
    if todo == {} then Ok(acc)
    else
      var m := Least(todo);
      if m in acc && acc[m] != "" then
        if inc[m] != acc[m] then Err(Clash(category, m, [acc[m], inc[m]]))
        else MergeMessagesFrom(category, acc, inc, todo - {m})
      else MergeMessagesFrom(category, acc[m := inc[m]], inc, todo - {m})
  }

  /** The middle loop: a missing category is copied whole, a present one merged message by message. */
  function MergeCategoriesFrom(acc: Categories, inc: Categories, todo: set<string>): Result<Categories, Clash>
    requires todo <= inc.Keys
    decreases |todo|
  {
    if todo == {} then Ok(acc)
    else
      var c := Least(todo);
      if c !in acc then MergeCategoriesFrom(acc[c := inc[c]], inc, todo - {c})
      else
        match MergeMessagesFrom(c, acc[c], inc[c], inc[c].Keys)
        case Err(e) => Err(e)
        case Ok(merged) => MergeCategoriesFrom(acc[c := merged], inc, todo - {c})
  }

  /** The merge of one language's categories (mergeSourceLanguage). */
  function MergeSourceLanguage(acc: Categories, inc: Categories): Result<Categories, Clash>
  {
    MergeCategoriesFrom(acc, inc, inc.Keys)
  }

  /** The conflict record raised for a clash found in language l. */
  function ConflictIn(l: string, e: Clash): Error
  {
    Conflict(MergeConflict(l, e.category, e.message, e.translations, None))
  }

  /** The outer loop: a missing language is copied whole, a present one merged category by category. */
  function MergeExportFrom(acc: Catalog, inc: Catalog, todo: set<string>): Result<Catalog, Error>
    requires todo <= inc.Keys
    decreases |todo|
  {
    if todo == {} then Ok(acc)
    else
      var l := Least(todo);
      if l !in acc then MergeExportFrom(acc[l := inc[l]], inc, todo - {l})
      else
        match MergeSourceLanguage(acc[l], inc[l])
        case Err(e) => Err(ConflictIn(l, e))
        case Ok(merged) => MergeExportFrom(acc[l := merged], inc, todo - {l})
  }

  /** mergeExportTranslations: nothing accumulated yet returns the incoming catalog as it is. */
  function MergeExport(data: Catalog, translations: Catalog): Result<Catalog, Error>
  {
    if |data| == 0 then Ok(translations)
    else MergeExportFrom(data, translations, translations.Keys)
  }

  // ---- what the loops compute ----

  lemma {:induction false} MergeMessagesOk(category: string, acc: Messages, inc: Messages, todo: set<string>)
    requires todo <= inc.Keys
    ensures MergeMessagesFrom(category, acc, inc, todo).Ok? <==> forall m | m in todo :: !ClashesAt(acc, inc, m)
    decreases |todo|
  {
    if todo != {} {
      var m := Least(todo);
      var rest := todo - {m};
      if m in acc && acc[m] != "" {
        if inc[m] == acc[m] {
          MergeMessagesOk(category, acc, inc, rest);
        }
      } else {
        var acc' := acc[m := inc[m]];
        MergeMessagesOk(category, acc', inc, rest);
        assert forall k | k in rest :: ClashesAt(acc', inc, k) == ClashesAt(acc, inc, k);
      }
    }
  }

  lemma {:induction false} MergeMessagesValue(category: string, acc: Messages, inc: Messages, todo: set<string>)
    requires todo <= inc.Keys
    requires MergeMessagesFrom(category, acc, inc, todo).Ok?
    ensures MergeMessagesFrom(category, acc, inc, todo).value == acc + Restrict(inc, todo)
    decreases |todo|
  {
    if todo != {} {
      var m := Least(todo);
      var rest := todo - {m};
      if m in acc && acc[m] != "" {
        MergeMessagesValue(category, acc, inc, rest);
        RestrictAgreeing(acc, inc, m, todo);
      } else {
        MergeMessagesValue(category, acc[m := inc[m]], inc, rest);
        RestrictTaking(acc, inc, m, todo);
      }
    }
  }

  /** A coordinate on which both sides already agree adds nothing to the union. */
  lemma RestrictAgreeing(acc: Messages, inc: Messages, m: string, todo: set<string>)
    requires m in todo && todo <= inc.Keys && m in acc && acc[m] == inc[m]
    ensures acc + Restrict(inc, todo - {m}) == acc + Restrict(inc, todo)
  {
    var a := acc + Restrict(inc, todo - {m});
    var b := acc + Restrict(inc, todo);
    assert a.Keys == b.Keys;
  }

  /** Taking the incoming message first gives the same union. */
  lemma RestrictTaking(acc: Messages, inc: Messages, m: string, todo: set<string>)
    requires m in todo && todo <= inc.Keys
    ensures acc[m := inc[m]] + Restrict(inc, todo - {m}) == acc + Restrict(inc, todo)
  {
    var a := acc[m := inc[m]] + Restrict(inc, todo - {m});
    var b := acc + Restrict(inc, todo);
    assert a.Keys == b.Keys;
  }

  lemma {:induction false} MergeMessagesErr(category: string, acc: Messages, inc: Messages, todo: set<string>)
    requires todo <= inc.Keys
    requires MergeMessagesFrom(category, acc, inc, todo).Err?
    ensures exists m | m in todo :: ClashesAt(acc, inc, m) &&
              MergeMessagesFrom(category, acc, inc, todo).error == Clash(category, m, [acc[m], inc[m]])
    decreases |todo|
  {
    var m := Least(todo);
    var rest := todo - {m};
    if m in acc && acc[m] != "" {
      if inc[m] == acc[m] {
        MergeMessagesErr(category, acc, inc, rest);
      } else {
        assert ClashesAt(acc, inc, m);
      }
    } else {
      var acc' := acc[m := inc[m]];
      MergeMessagesErr(category, acc', inc, rest);
      var k :| k in rest && ClashesAt(acc', inc, k) &&
              MergeMessagesFrom(category, acc', inc, rest).error == Clash(category, k, [acc'[k], inc[k]]);
      assert acc'[k] == acc[k];
    }
  }

  /** The merge of one category's messages: fails exactly on a clash, otherwise the incoming entries win. */
  lemma MergeMessagesSpec(category: string, acc: Messages, inc: Messages)
    ensures var r := MergeMessagesFrom(category, acc, inc, inc.Keys);
      && (r.Ok? <==> forall m | m in inc :: !ClashesAt(acc, inc, m))
      && (r.Ok? ==> r.value == acc + inc)
      && (r.Err? ==> exists m | m in inc :: ClashesAt(acc, inc, m) &&
                      r.error == Clash(category, m, [acc[m], inc[m]]))
  {
    MergeMessagesOk(category, acc, inc, inc.Keys);
    if MergeMessagesFrom(category, acc, inc, inc.Keys).Ok? {
      MergeMessagesValue(category, acc, inc, inc.Keys);
      assert Restrict(inc, inc.Keys) == inc;
    } else {
      MergeMessagesErr(category, acc, inc, inc.Keys);
    }
  }

  /** The categories of todo, each merged message-wise with what was accumulated. */
  function MergedOn(acc: Categories, inc: Categories, todo: set<string>): Categories
  {
    map c | c in todo && c in inc :: CategoryOf(acc, c) + inc[c]
  }

  lemma {:induction false} MergeCategoriesOk(acc: Categories, inc: Categories, todo: set<string>)
    requires todo <= inc.Keys
    ensures MergeCategoriesFrom(acc, inc, todo).Ok? <==> forall c, m | c in todo :: !CategoryClashAt(acc, inc, c, m)
    decreases |todo|
  {
    if todo != {} {
      var c := Least(todo);
      var rest := todo - {c};
      if c !in acc {
        var acc' := acc[c := inc[c]];
        MergeCategoriesOk(acc', inc, rest);
        assert forall k, m | k in rest :: CategoryClashAt(acc', inc, k, m) == CategoryClashAt(acc, inc, k, m);
      } else {
        MergeMessagesOk(c, acc[c], inc[c], inc[c].Keys);
        var inner := MergeMessagesFrom(c, acc[c], inc[c], inc[c].Keys);
        if inner.Ok? {
          var acc' := acc[c := inner.value];
          MergeCategoriesOk(acc', inc, rest);
          assert forall k, m | k in rest :: CategoryClashAt(acc', inc, k, m) == CategoryClashAt(acc, inc, k, m);
        } else {
          var m :| m in inc[c] && ClashesAt(acc[c], inc[c], m);
          assert CategoryClashAt(acc, inc, c, m);
        }
      }
    }
  }

  /** One step of the middle loop when it does not fail: the category becomes its message-wise union. */
  lemma MergeCategoriesStep(acc: Categories, inc: Categories, todo: set<string>)
    requires todo <= inc.Keys && todo != {}
    requires MergeCategoriesFrom(acc, inc, todo).Ok?
    ensures var c := Least(todo);
      MergeCategoriesFrom(acc, inc, todo) ==
      MergeCategoriesFrom(acc[c := CategoryOf(acc, c) + inc[c]], inc, todo - {c})
  {
    var c := Least(todo);
    if c !in acc {
      assert CategoryOf(acc, c) + inc[c] == inc[c];
    } else {
      MergeMessagesValue(c, acc[c], inc[c], inc[c].Keys);
      assert Restrict(inc[c], inc[c].Keys) == inc[c];
    }
  }

  lemma MergedOnStep(acc: Categories, inc: Categories, todo: set<string>, c: string)
    requires c in todo && todo <= inc.Keys
    ensures var merged := CategoryOf(acc, c) + inc[c];
      acc[c := merged] + MergedOn(acc[c := merged], inc, todo - {c}) == acc + MergedOn(acc, inc, todo)
  {
    var merged := CategoryOf(acc, c) + inc[c];
    var rest := todo - {c};
    assert MergedOn(acc, inc, todo) == MergedOn(acc, inc, rest)[c := merged];
    assert MergedOn(acc[c := merged], inc, rest) == MergedOn(acc, inc, rest);
    UpdateThenUnion(acc, c, merged, MergedOn(acc, inc, rest));
  }

  lemma {:induction false} MergeCategoriesValue(acc: Categories, inc: Categories, todo: set<string>)
    requires todo <= inc.Keys
    requires MergeCategoriesFrom(acc, inc, todo).Ok?
    ensures MergeCategoriesFrom(acc, inc, todo).value == acc + MergedOn(acc, inc, todo)
    decreases |todo|
  {
    if todo != {} {
      var c := Least(todo);
      MergeCategoriesStep(acc, inc, todo);
      MergeCategoriesValue(acc[c := CategoryOf(acc, c) + inc[c]], inc, todo - {c});
      MergedOnStep(acc, inc, todo, c);
    }
  }

  lemma {:induction false} MergeCategoriesErr(acc: Categories, inc: Categories, todo: set<string>)
    requires todo <= inc.Keys
    requires MergeCategoriesFrom(acc, inc, todo).Err?
    ensures exists c, m | c in todo :: CategoryClashAt(acc, inc, c, m) &&
              MergeCategoriesFrom(acc, inc, todo).error == Clash(c, m, [acc[c][m], inc[c][m]])
    decreases |todo|
  {
    var c := Least(todo);
    var rest := todo - {c};
    if c !in acc {
      var acc' := acc[c := inc[c]];
      MergeCategoriesErr(acc', inc, rest);
      var k, m :| k in rest && CategoryClashAt(acc', inc, k, m) &&
                 MergeCategoriesFrom(acc', inc, rest).error == Clash(k, m, [acc'[k][m], inc[k][m]]);
      assert acc'[k] == acc[k];
    } else {
      var inner := MergeMessagesFrom(c, acc[c], inc[c], inc[c].Keys);
      if inner.Ok? {
        var acc' := acc[c := inner.value];
        MergeCategoriesErr(acc', inc, rest);
        var k, m :| k in rest && CategoryClashAt(acc', inc, k, m) &&
                   MergeCategoriesFrom(acc', inc, rest).error == Clash(k, m, [acc'[k][m], inc[k][m]]);
        assert acc'[k] == acc[k];
      } else {
        MergeMessagesErr(c, acc[c], inc[c], inc[c].Keys);
        var m :| m in inc[c] && ClashesAt(acc[c], inc[c], m) &&
                 inner.error == Clash(c, m, [acc[c][m], inc[c][m]]);
        assert CategoryClashAt(acc, inc, c, m);
      }
    }
  }

  /** The per-language merge fails exactly on a clash in a shared category, otherwise gives the union. */
  lemma MergeSourceLanguageSpec(acc: Categories, inc: Categories)
    ensures var r := MergeSourceLanguage(acc, inc);
      && (r.Ok? <==> forall c, m :: !CategoryClashAt(acc, inc, c, m))
      && (r.Ok? ==> r.value == MergedCategories(acc, inc))
      && (r.Err? ==> exists c, m :: CategoryClashAt(acc, inc, c, m) &&
                      r.error == Clash(c, m, [acc[c][m], inc[c][m]]))
  {
    MergeCategoriesOk(acc, inc, inc.Keys);
    if MergeSourceLanguage(acc, inc).Ok? {
      MergeCategoriesValue(acc, inc, inc.Keys);
      MergedOnAll(acc, inc);
    } else {
      MergeCategoriesErr(acc, inc, inc.Keys);
    }
  }

  /** Merging every incoming category into the accumulated ones is the category-wise union. */
  lemma MergedOnAll(acc: Categories, inc: Categories)
    ensures acc + MergedOn(acc, inc, inc.Keys) == MergedCategories(acc, inc)
  {
    assert forall c | c in acc && c !in inc :: acc[c] + CategoryOf(inc, c) == acc[c];
  }

  lemma MergedFromNothing(inc: Categories)
    ensures MergedCategories(map[], inc) == inc
    ensures MergedCategories(inc, map[]) == inc
  {
    assert forall c | c in inc :: CategoryOf(map[], c) + inc[c] == inc[c];
    assert forall c | c in inc :: inc[c] + CategoryOf(map[], c) == inc[c];
  }

  /** The languages of todo, each merged category-wise with what was accumulated. */
  function MergedLanguagesOn(acc: Catalog, inc: Catalog, todo: set<string>): Catalog
  {
    map l | l in todo && l in inc :: MergedCategories(LanguageOf(acc, l), inc[l])
  }

  lemma {:induction false} MergeExportOk(acc: Catalog, inc: Catalog, todo: set<string>)
    requires todo <= inc.Keys
    ensures MergeExportFrom(acc, inc, todo).Ok? <==> forall l, c, m | l in todo :: !ConflictAt(acc, inc, l, c, m)
    decreases |todo|
  {
    if todo != {} {
      var l := Least(todo);
      var rest := todo - {l};
      if l !in acc {
        var acc' := acc[l := inc[l]];
        MergeExportOk(acc', inc, rest);
        assert forall k, c, m | k in rest :: ConflictAt(acc', inc, k, c, m) == ConflictAt(acc, inc, k, c, m);
      } else {
        MergeSourceLanguageSpec(acc[l], inc[l]);
        var inner := MergeSourceLanguage(acc[l], inc[l]);
        if inner.Ok? {
          var acc' := acc[l := inner.value];
          MergeExportOk(acc', inc, rest);
          assert forall k, c, m | k in rest :: ConflictAt(acc', inc, k, c, m) == ConflictAt(acc, inc, k, c, m);
        } else {
          var c, m :| CategoryClashAt(acc[l], inc[l], c, m);
          assert ConflictAt(acc, inc, l, c, m);
        }
      }
    }
  }

  /** One step of the outer loop when it does not fail: the language becomes its category-wise union. */
  lemma MergeExportStep(acc: Catalog, inc: Catalog, todo: set<string>)
    requires todo <= inc.Keys && todo != {}
    requires MergeExportFrom(acc, inc, todo).Ok?
    ensures var l := Least(todo);
      MergeExportFrom(acc, inc, todo) ==
      MergeExportFrom(acc[l := MergedCategories(LanguageOf(acc, l), inc[l])], inc, todo - {l})
  {
    var l := Least(todo);
    if l !in acc {
      MergedFromNothing(inc[l]);
    } else {
      MergeSourceLanguageSpec(acc[l], inc[l]);
    }
  }

  lemma MergedLanguagesOnStep(acc: Catalog, inc: Catalog, todo: set<string>, l: string)
    requires l in todo && todo <= inc.Keys
    ensures var merged := MergedCategories(LanguageOf(acc, l), inc[l]);
      acc[l := merged] + MergedLanguagesOn(acc[l := merged], inc, todo - {l}) == acc + MergedLanguagesOn(acc, inc, todo)
  {
    var merged := MergedCategories(LanguageOf(acc, l), inc[l]);
    var rest := todo - {l};
    assert MergedLanguagesOn(acc, inc, todo) == MergedLanguagesOn(acc, inc, rest)[l := merged];
    assert MergedLanguagesOn(acc[l := merged], inc, rest) == MergedLanguagesOn(acc, inc, rest);
    UpdateThenUnion(acc, l, merged, MergedLanguagesOn(acc, inc, rest));
  }

  lemma {:induction false} MergeExportValue(acc: Catalog, inc: Catalog, todo: set<string>)
    requires todo <= inc.Keys
    requires MergeExportFrom(acc, inc, todo).Ok?
    ensures MergeExportFrom(acc, inc, todo).value == acc + MergedLanguagesOn(acc, inc, todo)
    decreases |todo|
  {
    if todo != {} {
      var l := Least(todo);
      MergeExportStep(acc, inc, todo);
      MergeExportValue(acc[l := MergedCategories(LanguageOf(acc, l), inc[l])], inc, todo - {l});
      MergedLanguagesOnStep(acc, inc, todo, l);
    }
  }

  lemma {:induction false} MergeExportErr(acc: Catalog, inc: Catalog, todo: set<string>)
    requires todo <= inc.Keys
    requires MergeExportFrom(acc, inc, todo).Err?
    ensures exists l, c, m | l in todo :: ConflictAt(acc, inc, l, c, m) &&
              MergeExportFrom(acc, inc, todo).error == ConflictIn(l, Clash(c, m, [acc[l][c][m], inc[l][c][m]]))
    decreases |todo|
  {
    var l := Least(todo);
    var rest := todo - {l};
    if l !in acc {
      var acc' := acc[l := inc[l]];
      MergeExportErr(acc', inc, rest);
      var k, c, m :| k in rest && ConflictAt(acc', inc, k, c, m) &&
        MergeExportFrom(acc', inc, rest).error == ConflictIn(k, Clash(c, m, [acc'[k][c][m], inc[k][c][m]]));
      assert acc'[k] == acc[k];
    } else {
      var inner := MergeSourceLanguage(acc[l], inc[l]);
      if inner.Ok? {
        var acc' := acc[l := inner.value];
        MergeExportErr(acc', inc, rest);
        var k, c, m :| k in rest && ConflictAt(acc', inc, k, c, m) &&
          MergeExportFrom(acc', inc, rest).error == ConflictIn(k, Clash(c, m, [acc'[k][c][m], inc[k][c][m]]));
        assert acc'[k] == acc[k];
      } else {
        MergeSourceLanguageSpec(acc[l], inc[l]);
        var c, m :| CategoryClashAt(acc[l], inc[l], c, m) &&
                    inner.error == Clash(c, m, [acc[l][c][m], inc[l][c][m]]);
        assert ConflictAt(acc, inc, l, c, m);
      }
    }
  }

  /** Merging every language into nothing gives the incoming languages back. */
  lemma MergedLanguagesFromNothing(translations: Catalog)
    ensures MergedLanguagesOn(map[], translations, translations.Keys) == translations
  {
    forall l | l in translations ensures MergedCategories(LanguageOf(map[], l), translations[l]) == translations[l] {
      MergedFromNothing(translations[l]);
    }
  }

  /** With nothing accumulated, the loop would rebuild the incoming catalog: the early return agrees with it. */
  lemma EarlyReturnAgrees(translations: Catalog)
    ensures MergeExportFrom(map[], translations, translations.Keys) == Ok(translations)
  {
    var r := MergeExportFrom(map[], translations, translations.Keys);
    assert forall l, c, m | l in translations.Keys :: !ConflictAt(map[], translations, l, c, m);
    MergeExportOk(map[], translations, translations.Keys);
    assert r.Ok?;
    MergeExportValue(map[], translations, translations.Keys);
    MergedLanguagesFromNothing(translations);
    assert r.value == map[] + translations == translations;
  }

  lemma MergedCatalogsValue(data: Catalog, translations: Catalog)
    ensures data + MergedLanguagesOn(data, translations, translations.Keys) == MergedCatalogs(data, translations)
  {
    forall l | l in data && l !in translations
      ensures MergedCategories(LanguageOf(data, l), LanguageOf(translations, l)) == data[l]
    {
      MergedFromNothing(data[l]);
    }
  }

  /**
   * mergeExportTranslations as a whole: it fails exactly when some message
   * holds a non-empty accumulated translation and a different incoming one,
   * reporting one such message with [accumulated, incoming]; otherwise the
   * result is the union in which incoming translations win.
   */
  lemma MergeExportSpec(data: Catalog, translations: Catalog)
    ensures var r := MergeExport(data, translations);
      && (r.Ok? <==> forall l, c, m :: !ConflictAt(data, translations, l, c, m))
      && (r.Ok? ==> r.value == MergedCatalogs(data, translations))
      && (r.Err? ==> exists l, c, m :: ConflictAt(data, translations, l, c, m) &&
                       r.error == Conflict(MergeConflict(l, c, m,
                         [data[l][c][m], translations[l][c][m]], None)))
  {
    MergeExportOk(data, translations, translations.Keys);
    if MergeExportFrom(data, translations, translations.Keys).Ok? {
      MergeExportValue(data, translations, translations.Keys);
    } else {
      MergeExportErr(data, translations, translations.Keys);
    }
    MergedCatalogsValue(data, translations);
    if |data| == 0 {
      assert data == map[];
      EarlyReturnAgrees(translations);
    }
  }

  /**
   * On success every incoming translation is in the result, and every
   * accumulated message the incoming catalog does not mention is kept.
   */
  lemma MergeKeepsIncoming(data: Catalog, translations: Catalog, l: string, c: string, m: string)
    requires MergeExport(data, translations).Ok?
    requires l in translations && c in translations[l] && m in translations[l][c]
    ensures var res := MergeExport(data, translations).value;
      l in res && c in res[l] && m in res[l][c] && res[l][c][m] == translations[l][c][m]
  {
    MergeExportSpec(data, translations);
    assert MergeExport(data, translations).value[l] == MergedCategories(LanguageOf(data, l), translations[l]);
  }

  lemma MergeKeepsAccumulated(data: Catalog, translations: Catalog, l: string, c: string, m: string)
    requires MergeExport(data, translations).Ok?
    requires l in data && c in data[l] && m in data[l][c]
    requires !(l in translations && c in translations[l] && m in translations[l][c])
    ensures var res := MergeExport(data, translations).value;
      l in res && c in res[l] && m in res[l][c] && res[l][c][m] == data[l][c][m]
  {
    MergeExportSpec(data, translations);
  }

  /** Merging an untranslated message and then its translation gives the translation. */
  lemma EmptyThenTranslated(data: Catalog, translations: Catalog)
    requires data == map["ru" := map["app" := map["Hi" := ""]]]
    requires translations == map["ru" := map["app" := map["Hi" := "Hello"]]]
    ensures MergeExport(data, translations) == Ok(translations)
  {
    MergeExportSpec(data, translations);
    assert forall l, c, m :: !ConflictAt(data, translations, l, c, m);
    MergedCoveredIsIncoming(data, translations);
  }

  /** The reverse order fails: the incoming empty translation conflicts with the accumulated one. */
  lemma TranslatedThenEmpty(data: Catalog, translations: Catalog)
    requires data == map["ru" := map["app" := map["Hi" := "Hello"]]]
    requires translations == map["ru" := map["app" := map["Hi" := ""]]]
    ensures MergeExport(data, translations) ==
      Err(Conflict(MergeConflict("ru", "app", "Hi", ["Hello", ""], None)))
  {
    MergeExportSpec(data, translations);
    assert ConflictAt(data, translations, "ru", "app", "Hi");
    var r := MergeExport(data, translations);
    var l, c, m :| ConflictAt(data, translations, l, c, m) &&
      r.error == Conflict(MergeConflict(l, c, m, [data[l][c][m], translations[l][c][m]], None));
    assert l == "ru" && c == "app" && m == "Hi";
  }

  /** Equal translations never conflict, whatever the order. */
  lemma EqualNeverConflicts(data: Catalog, translations: Catalog, l: string, c: string, m: string)
    requires l in data && c in data[l] && m in data[l][c]
    requires l in translations && c in translations[l] && m in translations[l][c]
    requires data[l][c][m] == translations[l][c][m]
    ensures !ConflictAt(data, translations, l, c, m)
  {
  }

  /** Two message maps that agree wherever both have a message unite the same way in either order. */
  lemma UnionAgreeing(x: Messages, y: Messages)
    requires forall m | m in x && m in y :: x[m] == y[m]
    ensures x + y == y + x
  {
  }

  /** The same for the categories of one language. */
  lemma MergedCategoriesAgreeing(x: Categories, y: Categories)
    requires forall c, m | c in x && c in y && m in x[c] && m in y[c] :: x[c][m] == y[c][m]
    ensures MergedCategories(x, y) == MergedCategories(y, x)
  {
    forall c | c in x.Keys + y.Keys ensures CategoryOf(x, c) + CategoryOf(y, c) == CategoryOf(y, c) + CategoryOf(x, c) {
      UnionAgreeing(CategoryOf(x, c), CategoryOf(y, c));
    }
  }

  /** Two catalogs that agree at every coordinate both have merge to the same union in either order. */
  lemma MergedCatalogsAgreeing(a: Catalog, b: Catalog)
    requires forall l, c, m | l in a && l in b && c in a[l] && c in b[l] && m in a[l][c] && m in b[l][c] ::
      a[l][c][m] == b[l][c][m]
    ensures MergedCatalogs(a, b) == MergedCatalogs(b, a)
  {
    forall l | l in a.Keys + b.Keys
      ensures MergedCategories(LanguageOf(a, l), LanguageOf(b, l)) == MergedCategories(LanguageOf(b, l), LanguageOf(a, l))
    {
      MergedCategoriesAgreeing(LanguageOf(a, l), LanguageOf(b, l));
    }
  }

  /**
   * The order of two catalogs does not matter when neither order conflicts:
   * both merges then give the same catalog.
   */
  lemma MergeOrderIndependent(a: Catalog, b: Catalog)
    requires MergeExport(a, b).Ok? && MergeExport(b, a).Ok?
    ensures MergeExport(a, b) == MergeExport(b, a)
  {
    MergeExportSpec(a, b);
    MergeExportSpec(b, a);
    forall l, c, m | l in a && l in b && c in a[l] && c in b[l] && m in a[l][c] && m in b[l][c]
      ensures a[l][c][m] == b[l][c][m]
    {
      assert !ConflictAt(a, b, l, c, m) && !ConflictAt(b, a, l, c, m);
    }
    MergedCatalogsAgreeing(a, b);
  }

  // ---- the per-language merge as the source runs it ----

  /**
   * mergeSourceLanguage / the two inner loops of mergeExportTranslations:
   * copy the accumulated language, then walk the incoming categories and
   * messages, adopting into absent or empty slots and stopping at the first
   * clash.
   */
  method MergeLanguage(acc: Categories, inc: Categories) returns (r: Result<Categories, Clash>)
    ensures r == MergeSourceLanguage(acc, inc)
  {
    var result := acc;
    var todo := inc.Keys;
    while todo != {}
      invariant todo <= inc.Keys
      invariant MergeCategoriesFrom(result, inc, todo) == MergeSourceLanguage(acc, inc)
      decreases |todo|
    {
      var c := Least(todo);
      todo := todo - {c};
      if c !in result {
        result := result[c := inc[c]];
      } else {
        var category := result[c];
        var messages := inc[c];
        var left := messages.Keys;
        while left != {}
          invariant left <= messages.Keys
          invariant MergeMessagesFrom(c, category, messages, left) == MergeMessagesFrom(c, result[c], messages, messages.Keys)
          decreases |left|
        {
          var m := Least(left);
          left := left - {m};
          if m in category && category[m] != "" {
            if messages[m] != category[m] {
              return Err(Clash(c, m, [category[m], messages[m]]));
            }
          } else {
            category := category[m := messages[m]];
          }
        }
        result := result[c := category];
      }
    }
    return Ok(result);
  }

  /** mergeExportTranslations as written: three nested loops over the incoming catalog. */
  method MergeExportTranslations(data: Catalog, translations: Catalog) returns (r: Result<Catalog, Error>)
    ensures r == MergeExport(data, translations)
  {
    if |data| == 0 {
      return Ok(translations);
    }
    var result := data;
    var todo := translations.Keys;
    while todo != {}
      invariant todo <= translations.Keys
      invariant MergeExportFrom(result, translations, todo) == MergeExport(data, translations)
      decreases |todo|
    {
      var language := Least(todo);
      todo := todo - {language};
      if language !in result {
        result := result[language := translations[language]];
      } else {
        var resLang := result[language];
        var categories := translations[language];
        var left := categories.Keys;
        while left != {}
          invariant left <= categories.Keys
          invariant MergeCategoriesFrom(resLang, categories, left) == MergeSourceLanguage(result[language], categories)
          decreases |left|
        {
          var category := Least(left);
          left := left - {category};
          if category !in resLang {
            resLang := resLang[category := categories[category]];
          } else {
            var resCategory := resLang[category];
            var messages := categories[category];
            var pending := messages.Keys;
            while pending != {}
              invariant pending <= messages.Keys
              invariant MergeMessagesFrom(category, resCategory, messages, pending) ==
                        MergeMessagesFrom(category, resLang[category], messages, messages.Keys)
              decreases |pending|
            {
              var message := Least(pending);
              pending := pending - {message};
              if message in resCategory && resCategory[message] != "" {
                if messages[message] != resCategory[message] {
                  return Err(ConflictIn(language, Clash(category, message, [resCategory[message], messages[message]])));
                }
              } else {
                resCategory := resCategory[message := messages[message]];
              }
            }
            resLang := resLang[category := resCategory];
          }
        }
        result := result[language := resLang];
      }
    }
    return Ok(result);
  }
}
