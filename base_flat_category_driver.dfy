/**
 * BaseFlatCategoryDriver: what both single-file-per-language layouts share.
 * A language file is an array category -> (message -> translation); on load
 * the category prefix is removed, on save it is put back, categories are
 * written in key order and each message map through sortTranslationsMap.
 * The selective update (import) and the fill (export) are the nested loops
 * that reconcile new data with a file's previous content.
 */
module BaseFlatCategoryDriver {
  import opened Wrappers
  import opened Ordering
  import opened StringUtils
  import opened Errors
  import opened Catalogs
  import opened DataUtils
  import opened CategoryUtils
  import opened Disk

  /** The options of a flat driver; 'extension' defaults to "json" and the prefix to "". */
  datatype FlatSettings = FlatSettings(path: string, extension: string, sortEmptyFirst: bool, categoryPrefix: string)

  // ---- loadLanguageFromFile ----

  /** A category the loader accepts: an array of strings under a name carrying the prefix. */
  predicate ValidCategory(prefix: string, category: string, v: Value)
  {
    v.Arr? && AllStrings(v.entries) && StartsWith(category, prefix)
  }

  predicate ValidLanguageFile(prefix: string, entries: map<string, Value>)
  {
    forall c | c in entries :: ValidCategory(prefix, c, entries[c])
  }

  /** Reference definition: the valid categories of todo, renamed without the prefix. */
  function StrippedOn(prefix: string, entries: map<string, Value>, todo: set<string>): Categories
  {
    assert forall a, b | StartsWith(a, prefix) && StartsWith(b, prefix) && a[|prefix|..] == b[|prefix|..] :: a == b by {
      forall a, b | StartsWith(a, prefix) && StartsWith(b, prefix) && a[|prefix|..] == b[|prefix|..] ensures a == b {
        AfterPrefixInjective(prefix, a, b);
      }
    }
    map c | c in todo && c in entries && ValidCategory(prefix, c, entries[c]) :: c[|prefix|..] := StringsOf(entries[c].entries)
  }

  /** The loop of loadLanguageFromFile over the categories still to do, in ascending order. */
  function LoadCategoriesFrom(prefix: string, entries: map<string, Value>, acc: Categories, todo: set<string>): Result<Categories, Error>
    requires todo <= entries.Keys
    decreases |todo|
  {
    if todo == {} then Ok(acc)
    else
      var c := Least(todo);
      var v := entries[c];
      if !v.Arr? || !AllStrings(v.entries) then Err(SourceData)
      else
        match StripCategoryPrefix(prefix, c)
        case Err(e) => Err(e)
        case Ok(name) => LoadCategoriesFrom(prefix, entries, acc[name := StringsOf(v.entries)], todo - {c})
  }

  /** loadLanguageFromFile: read and decode the file, then check and rename every category. */
  function LoadLanguage(disk: Disk, prefix: string, file: string): Result<Categories, Error>
  {
    match LoadJsonFile(disk, file)
    case Err(e) => Err(e)
    case Ok(entries) => LoadCategoriesFrom(prefix, entries, map[], entries.Keys)
  }

  lemma {:induction false} LoadCategoriesOk(prefix: string, entries: map<string, Value>, acc: Categories, todo: set<string>)
    requires todo <= entries.Keys
    ensures LoadCategoriesFrom(prefix, entries, acc, todo).Ok? <==> forall c | c in todo :: ValidCategory(prefix, c, entries[c])
    ensures LoadCategoriesFrom(prefix, entries, acc, todo).Err? ==> LoadCategoriesFrom(prefix, entries, acc, todo).error == SourceData
    decreases |todo|
  {
    if todo != {} {
      var c := Least(todo);
      var v := entries[c];
      if ValidCategory(prefix, c, v) {
        LoadCategoriesOk(prefix, entries, acc[c[|prefix|..] := StringsOf(v.entries)], todo - {c});
      }
    }
  }

  /** Removing one valid category from todo removes exactly its renamed entry. */
  lemma StrippedStep(prefix: string, entries: map<string, Value>, todo: set<string>, c: string)
    requires c in todo && c in entries && ValidCategory(prefix, c, entries[c])
    ensures c[|prefix|..] !in StrippedOn(prefix, entries, todo - {c})
    ensures StrippedOn(prefix, entries, todo) ==
            StrippedOn(prefix, entries, todo - {c})[c[|prefix|..] := StringsOf(entries[c].entries)]
  {
    var rest := todo - {c};
    forall d | d in rest && d in entries && ValidCategory(prefix, d, entries[d])
      ensures d[|prefix|..] != c[|prefix|..]
    {
      if d[|prefix|..] == c[|prefix|..] {
        AfterPrefixInjective(prefix, d, c);
      }
    }
  }

  lemma {:induction false} LoadCategoriesValue(prefix: string, entries: map<string, Value>, acc: Categories, todo: set<string>)
    requires todo <= entries.Keys
    requires LoadCategoriesFrom(prefix, entries, acc, todo).Ok?
    ensures LoadCategoriesFrom(prefix, entries, acc, todo).value == acc + StrippedOn(prefix, entries, todo)
    decreases |todo|
  {
    if todo != {} {
      var c := Least(todo);
      var name := c[|prefix|..];
      var v := StringsOf(entries[c].entries);
      LoadCategoriesValue(prefix, entries, acc[name := v], todo - {c});
      StrippedStep(prefix, entries, todo, c);
      UpdateThenUnion(acc, name, v, StrippedOn(prefix, entries, todo - {c}));
    }
  }

  /**
   * Loading a language file fails on an unreadable file, on a non-object,
   * on a category that is not an array of strings or lacks the prefix;
   * otherwise it gives every category renamed without the prefix.
   */
  lemma LoadLanguageSpec(disk: Disk, prefix: string, file: string)
    ensures var r := LoadLanguage(disk, prefix, file);
      && (r.Ok? <==> file in disk.files && disk.files[file].Arr? && ValidLanguageFile(prefix, disk.files[file].entries))
      && (r.Ok? ==> r.value == StrippedOn(prefix, disk.files[file].entries, disk.files[file].entries.Keys))
      && (file !in disk.files ==> r == Err(InvalidArgument("Cannot read file")))
      && (file in disk.files && r.Err? ==> r == Err(SourceData))
  {
    if file in disk.files && disk.files[file].Arr? {
      var entries := disk.files[file].entries;
      LoadCategoriesOk(prefix, entries, map[], entries.Keys);
      if LoadCategoriesFrom(prefix, entries, map[], entries.Keys).Ok? {
        LoadCategoriesValue(prefix, entries, map[], entries.Keys);
        assert map[] + StrippedOn(prefix, entries, entries.Keys) == StrippedOn(prefix, entries, entries.Keys);
      }
    }
  }

  /** With the empty prefix every category keeps its name. */
  lemma LoadWithoutPrefix(disk: Disk, file: string)
    requires LoadLanguage(disk, "", file).Ok?
    ensures LoadLanguage(disk, "", file).value.Keys == disk.files[file].entries.Keys
  {
    LoadLanguageSpec(disk, "", file);
    var entries := disk.files[file].entries;
    assert forall c | c in entries :: c[|""|..] == c;
  }

  method LoadLanguageFromFile(disk: Disk, prefix: string, file: string) returns (r: Result<Categories, Error>)
    ensures r == LoadLanguage(disk, prefix, file)
  {
    var decoded := LoadJsonFile(disk, file);
    if decoded.Err? {
      return Err(decoded.error);
    }
    var entries := decoded.value;
    var result: Categories := map[];
    var todo := entries.Keys;
    while todo != {}
      invariant todo <= entries.Keys
      invariant LoadCategoriesFrom(prefix, entries, result, todo) == LoadLanguage(disk, prefix, file)
      decreases |todo|
    {
      var category := Least(todo);
      todo := todo - {category};
      var messages := entries[category];
      if !messages.Arr? {
        return Err(SourceData);
      }
      var left := messages.entries.Keys;
      while left != {}
        invariant left <= messages.entries.Keys
        invariant forall m | m in messages.entries && m !in left :: messages.entries[m].Str?
        decreases |left|
      {
        var message := Least(left);
        left := left - {message};
        if !messages.entries[message].Str? {
          return Err(SourceData);
        }
      }
      var name := StripCategoryPrefix(prefix, category);
      if name.Err? {
        return Err(name.error);
      }
      result := result[name.value := StringsOf(messages.entries)];
    }
    return Ok(result);
  }

  // ---- saveLanguageToFile ----

  /** Category file content listing m in ascending key order, each name with the prefix put back. */
  function PrefixedListing(prefix: string, m: map<string, seq<Entry>>): (r: Content)
    ensures r.CategoryFile? && |r.categories| == |m|
  {
    var e := Entries(m);
    CategoryFile(seq(|e|, i requires 0 <= i < |e| => (prefix + e[i].0, e[i].1)))
  }

  /** Every category's message map in the order sortTranslationsMap gives it. */
  function SortedCategories(data: Categories, sortEmptyFirst: bool): (r: map<string, seq<Entry>>)
    ensures r.Keys == data.Keys
  {
    map c | c in data :: SortTranslationsMap(data[c], sortEmptyFirst)
  }

  /**
   * What saveLanguageToFile hands to the encoder: the categories in ascending
   * key order (ksort), each under its name with the prefix put back and with
   * its message map as sortTranslationsMap orders it.
   */
  function LanguageFileContent(prefix: string, sortEmptyFirst: bool, data: Categories): (r: Content)
    ensures r.CategoryFile? && |r.categories| == |data|
  {
    PrefixedListing(prefix, SortedCategories(data, sortEmptyFirst))
  }

  /** Two maps with the same keys are listed in the same key order. */
  lemma EntriesSameOrder<V, W>(a: map<string, V>, b: map<string, W>)
    requires a.Keys == b.Keys
    ensures |Entries(a)| == |Entries(b)|
    ensures forall i | 0 <= i < |Entries(a)| :: Entries(a)[i].0 == Entries(b)[i].0
  {
  }

  /** The i-th category of the saved content: the i-th category of data renamed, its messages sorted. */
  lemma LanguageFileAt(prefix: string, sortEmptyFirst: bool, data: Categories, i: nat)
    requires i < |data|
    ensures LanguageFileContent(prefix, sortEmptyFirst, data).categories[i] ==
            (prefix + Entries(data)[i].0, SortTranslationsMap(Entries(data)[i].1, sortEmptyFirst))
  {
    var sorted := SortedCategories(data, sortEmptyFirst);
    EntriesSameOrder(sorted, data);
    assert Entries(sorted)[i].1 == sorted[Entries(data)[i].0];
  }

  lemma SameElements<T>(a: seq<T>, b: seq<T>)
    requires |a| == |b|
    requires forall i | 0 <= i < |a| :: a[i] == b[i]
    ensures a == b
  {
  }

  /** A prefixed listing decodes to the prefixed map. */
  lemma PrefixedListingDecodes(prefix: string, m: map<string, seq<Entry>>)
    ensures Decoded(PrefixedListing(prefix, m)).entries == Prefixed(prefix, map c | c in m :: MessagesValue(m[c]))
  {
    var out := PrefixedListing(prefix, m).categories;
    var pairs := seq(|out|, i requires 0 <= i < |out| => (out[i].0, MessagesValue(out[i].1)));
    var target := Prefixed(prefix, map c | c in m :: MessagesValue(m[c]));
    PrefixedPairsAgree(prefix, m, pairs, target);
    PrefixedPairsCover(prefix, m, pairs, target);
    ToMapOfListing(pairs, target);
  }

  /** Every decoded pair of a prefixed listing is an entry of the prefixed map. */
  lemma PrefixedPairsAgree(prefix: string, m: map<string, seq<Entry>>, pairs: seq<(string, Value)>, target: map<string, Value>)
    requires var out := PrefixedListing(prefix, m).categories;
      pairs == seq(|out|, i requires 0 <= i < |out| => (out[i].0, MessagesValue(out[i].1)))
    requires target == Prefixed(prefix, map c | c in m :: MessagesValue(m[c]))
    ensures forall i | 0 <= i < |pairs| :: pairs[i].0 in target && target[pairs[i].0] == pairs[i].1
  {
    var e := Entries(m);
    forall i | 0 <= i < |pairs| ensures pairs[i].0 in target && target[pairs[i].0] == pairs[i].1 {
      assert pairs[i] == (prefix + e[i].0, MessagesValue(e[i].1));
    }
  }

  /** Every key of the prefixed map is named by a decoded pair. */
  lemma PrefixedPairsCover(prefix: string, m: map<string, seq<Entry>>, pairs: seq<(string, Value)>, target: map<string, Value>)
    requires var out := PrefixedListing(prefix, m).categories;
      pairs == seq(|out|, i requires 0 <= i < |out| => (out[i].0, MessagesValue(out[i].1)))
    requires target == Prefixed(prefix, map c | c in m :: MessagesValue(m[c]))
    ensures forall k | k in target :: exists i | 0 <= i < |pairs| :: pairs[i].0 == k
  {
    var e := Entries(m);
    forall k | k in target ensures exists i | 0 <= i < |pairs| :: pairs[i].0 == k {
      var c := k[|prefix|..];
      var i :| 0 <= i < |e| && e[i].0 == c;
      assert pairs[i].0 == k;
    }
  }

  /** Entries whose renamed categories carry exactly the messages of data strip back to data. */
  lemma StrippedIs(prefix: string, entries: map<string, Value>, data: Categories)
    requires ValidLanguageFile(prefix, entries)
    requires forall k | k in entries :: k[|prefix|..] in data && StringsOf(entries[k].entries) == data[k[|prefix|..]]
    requires forall c | c in data :: prefix + c in entries
    ensures StrippedOn(prefix, entries, entries.Keys) == data
  {
    var r := StrippedOn(prefix, entries, entries.Keys);
    forall c | c in data ensures c in r && r[c] == data[c] {
      assert (prefix + c)[|prefix|..] == c;
    }
    assert r.Keys == data.Keys;
  }

  /** The saved file decodes to the categories, prefixed, each holding its sorted messages. */
  lemma SavedLanguageDecodes(prefix: string, sortEmptyFirst: bool, data: Categories)
    ensures var sorted := SortedCategories(data, sortEmptyFirst);
      Decoded(LanguageFileContent(prefix, sortEmptyFirst, data)).entries ==
      Prefixed(prefix, map c | c in sorted :: MessagesValue(sorted[c]))
  {
    PrefixedListingDecodes(prefix, SortedCategories(data, sortEmptyFirst));
  }

  /** Every category of the saved file is valid and decodes to the saved messages. */
  lemma SavedEntriesMatch(prefix: string, sortEmptyFirst: bool, data: Categories)
    ensures var entries := Decoded(LanguageFileContent(prefix, sortEmptyFirst, data)).entries;
      && ValidLanguageFile(prefix, entries)
      && (forall k | k in entries :: k[|prefix|..] in data && StringsOf(entries[k].entries) == data[k[|prefix|..]])
      && (forall c | c in data :: prefix + c in entries)
  {
    var sorted := SortedCategories(data, sortEmptyFirst);
    SavedLanguageDecodes(prefix, sortEmptyFirst, data);
    var entries := Decoded(LanguageFileContent(prefix, sortEmptyFirst, data)).entries;
    forall k | k in entries ensures ValidCategory(prefix, k, entries[k]) && k[|prefix|..] in data &&
      StringsOf(entries[k].entries) == data[k[|prefix|..]]
    {
      var c := k[|prefix|..];
      SortTranslationsMapSorts(data[c], sortEmptyFirst);
      DecodedMessages(sorted[c], data[c]);
    }
  }

  /** Round trip: the saved language file loads back as exactly the saved categories. */
  lemma SaveThenLoad(disk: Disk, file: string, prefix: string, sortEmptyFirst: bool, data: Categories)
    requires file in disk.files && disk.files[file] == Decoded(LanguageFileContent(prefix, sortEmptyFirst, data))
    ensures LoadLanguage(disk, prefix, file) == Ok(data)
  {
    SavedEntriesMatch(prefix, sortEmptyFirst, data);
    StrippedIs(prefix, disk.files[file].entries, data);
    LoadLanguageSpec(disk, prefix, file);
  }

  /** The loop of saveLanguageToFile over the categories in order: each renamed with the prefix, its messages sorted. */
  method PrefixAndSort(prefix: string, sortEmptyFirst: bool, sorted: seq<(string, Messages)>)
    returns (out: seq<(string, seq<Entry>)>)
    ensures |out| == |sorted|
    ensures forall k | 0 <= k < |sorted| :: out[k] == (prefix + sorted[k].0, SortTranslationsMap(sorted[k].1, sortEmptyFirst))
  {
    ghost var target := seq(|sorted|, k requires 0 <= k < |sorted| =>
      (prefix + sorted[k].0, SortTranslationsMap(sorted[k].1, sortEmptyFirst)));
    out := [];
    var i := 0;
    while i < |sorted|
      invariant 0 <= i <= |sorted|
      invariant out == target[..i]
    {
      var (category, messages) := sorted[i];
      assert target[..i + 1] == target[..i] + [target[i]];
      out := out + [(prefix + category, SortTranslationsMap(messages, sortEmptyFirst))];
      i := i + 1;
    }
    assert out == target;
  }

  method SaveLanguageToFile(fs: FileSystem, file: string, prefix: string, sortEmptyFirst: bool, data: Categories)
    modifies fs
    ensures fs.log == old(fs.log) + [Write(file, LanguageFileContent(prefix, sortEmptyFirst, data))]
  {
    var out := PrefixAndSort(prefix, sortEmptyFirst, Entries(data));
    forall k | 0 <= k < |out| ensures out[k] == LanguageFileContent(prefix, sortEmptyFirst, data).categories[k] {
      LanguageFileAt(prefix, sortEmptyFirst, data, k);
    }
    SameElements(out, LanguageFileContent(prefix, sortEmptyFirst, data).categories);
    fs.Put(Write(file, CategoryFile(out)));
  }

  // ---- updateTranslationsArray and fillTranslationsArray ----

  method UpdateTranslationsArray(existing: Categories, incoming: Categories) returns (result: Categories)
    ensures result == UpdateCategories(existing, incoming)
  {
    result := existing;
    var todo := existing.Keys;
    while todo != {}
      invariant todo <= existing.Keys
      invariant result.Keys == existing.Keys
      invariant forall c | c in existing ::
        result[c] == if c !in todo && c in incoming then UpdateMessages(existing[c], incoming[c]) else existing[c]
      decreases |todo|
    {
      var category := Least(todo);
      todo := todo - {category};
      if category in incoming {
        var updated := UpdateMessagesArray(existing[category], incoming[category]);
        result := result[category := updated];
      }
    }
  }

  method FillTranslationsArray(incoming: Categories, previous: Categories) returns (result: Categories)
    ensures result == FillCategories(incoming, previous)
  {
    result := incoming;
    var todo := incoming.Keys;
    while todo != {}
      invariant todo <= incoming.Keys
      invariant result.Keys == incoming.Keys
      invariant forall c | c in incoming ::
        result[c] == if c !in todo && c in previous then FillMessages(incoming[c], previous[c]) else incoming[c]
      decreases |todo|
    {
      var category := Least(todo);
      todo := todo - {category};
      if category in previous {
        var filled := FillMessagesArray(incoming[category], previous[category]);
        result := result[category := filled];
      }
    }
  }

  /** What an existing file is rewritten with: imported (updated) or exported (filled) data. */
  function Reconciled(previous: Categories, categories: Categories, onlyExisting: bool): Categories
  {
    if onlyExisting then UpdateCategories(previous, categories) else FillCategories(categories, previous)
  }
}
