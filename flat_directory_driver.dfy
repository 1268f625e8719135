/**
 * FlatDirectoryDriver: a directory per language under the configured path,
 * holding any number of language files. Loading merges the files of one
 * language with conflict detection; saving reconciles each existing file
 * of a language with the language's data on its own and never creates one.
 */
module FlatDirectoryDriver {
  import opened Wrappers
  import opened Ordering
  import opened StringUtils
  import opened Errors
  import opened Catalogs
  import opened Merge
  import opened Disk
  import opened BaseFlatCategoryDriver

  // ---- parsePathLanguage ----

  /** A path below the base that names no language: ".<extension>" alone, or with nothing before it in its directory. */
  predicate Unnamed(subPath: string, extension: string)
  {
    var dotExtension := "." + extension;
    EndsWith(subPath, dotExtension) &&
    var stem := subPath[..|subPath| - |dotExtension|];
    stem == "" || EndsWith(stem, "/")
  }

  /** What parsePathLanguage makes of the path below the base: no language, or the name it gives. */
  function ParseSubPath(subPath: string, extension: string): (r: Option<string>)
    ensures r.None? <==> Unnamed(subPath, extension)
    ensures r.Some? ==>
      '/' !in r.value && StartsWith(subPath, r.value) &&
      (subPath == r.value || subPath[|r.value|] == '/' || subPath == r.value + "." + extension)
  {
    var dotExtension := "." + extension;
    if EndsWith(subPath, dotExtension) then
      var stem := subPath[..|subPath| - |dotExtension|];
      assert subPath == stem + dotExtension;
      if stem == "" || EndsWith(stem, "/") then None else Some(FirstSegment(stem))
    else Some(FirstSegment(subPath))
  }

  /**
   * parsePathLanguage: the file must lie under the base path; the language
   * is the first directory of the rest, or the file name without
   * ".<extension>" when the file lies directly under the base.
   */
  function ParsePathLanguage(file: string, basePath: string, extension: string): (r: Result<Option<string>, Error>)
    ensures r.Err? <==> !StartsWith(Normalize(file), basePath)
    ensures r.Err? ==> r.error == InvalidArgument("File outside of base path")
    ensures r == Ok(None) <==> StartsWith(Normalize(file), basePath) && Unnamed(Normalize(file)[|basePath|..], extension)
    ensures r.Ok? && r.value.Some? ==>
      var subPath := Normalize(file)[|basePath|..];
      var language := r.value.value;
      '/' !in language && StartsWith(subPath, language) &&
      (subPath == language || subPath[|language|] == '/' || subPath == language + "." + extension)
  {
    var path := Normalize(file);
    if !StartsWith(path, basePath) then Err(InvalidArgument("File outside of base path"))
    else Ok(ParseSubPath(path[|basePath|..], extension))
  }

  /** A language file inside a normalised base path parses to its directory's name. */
  lemma ParseNameInDirectory(basePath: string, language: string, name: string, extension: string)
    requires '\\' !in basePath
    requires '/' !in language && '\\' !in language
    requires name != "" && '/' !in name && '\\' !in name
    requires '/' !in extension && '\\' !in extension
    ensures ParsePathLanguage(basePath + language + "/" + name + "." + extension, basePath, extension) == Ok(Some(language))
  {
    var stem := language + "/" + name;
    var tail := stem + "." + extension;
    var path := basePath + language + "/" + name + "." + extension;
    assert path == basePath + tail;
    NormalizeFixed(path);
    assert path[|basePath|..] == tail;
    assert stem[|stem| - 1] == name[|name| - 1];
    ParseNamedStem(stem, extension);
    FirstSegmentOfJoin(language, name);
  }

  /** A stem not ending in '/' followed by ".<extension>" names the stem's first segment. */
  lemma ParseNamedStem(stem: string, extension: string)
    requires stem != "" && stem[|stem| - 1] != '/'
    ensures ParseSubPath(stem + "." + extension, extension) == Some(FirstSegment(stem))
  {
    StemWithExtension(stem, extension);
  }

  /** A stem not ending in '/', followed by ".<extension>": what the parser sees of it. */
  lemma StemWithExtension(stem: string, extension: string)
    requires stem != "" && stem[|stem| - 1] != '/'
    ensures var subPath := stem + "." + extension;
      && EndsWith(subPath, "." + extension)
      && subPath[..|subPath| - |"." + extension|] == stem
      && !EndsWith(stem, "/")
  {
    var dotExtension := "." + extension;
    var subPath := stem + dotExtension;
    assert subPath[|subPath| - |dotExtension|..] == dotExtension;
    assert stem[|stem| - 1..] == [stem[|stem| - 1]];
  }

  /** A file named name.<extension> in the directory of a language. */
  function LanguageDirectoryFile(realPath: string, language: string, name: string, extension: string): string
  {
    realPath + "/" + language + "/" + name + "." + extension
  }

  lemma DirectoryFileNormalized(realPath: string, language: string, name: string, extension: string)
    requires realPath != [] && realPath[|realPath| - 1] != '/' && realPath[|realPath| - 1] != '\\'
    requires '\\' !in language && '\\' !in name && '\\' !in extension
    ensures '\\' !in BasePath(realPath)
    ensures Normalize(LanguageDirectoryFile(realPath, language, name, extension)) ==
            Normalize(BasePath(realPath) + language + "/" + name + "." + extension)
  {
    var tail := language + "/" + name + "." + extension;
    assert LanguageDirectoryFile(realPath, language, name, extension) == realPath + "/" + tail;
    NormalizeUnderPath(realPath, tail);
    assert BasePath(realPath) + language + "/" + name + "." + extension == BasePath(realPath) + tail;
    NormalizeFixed(BasePath(realPath) + tail);
  }

  /** Round trip: a file in a language's directory parses back to that language. */
  lemma ParseLanguageDirectoryFile(realPath: string, language: string, name: string, extension: string)
    requires realPath != [] && realPath[|realPath| - 1] != '/' && realPath[|realPath| - 1] != '\\'
    requires '/' !in language && '\\' !in language
    requires name != "" && '/' !in name && '\\' !in name
    requires '/' !in extension && '\\' !in extension
    ensures ParsePathLanguage(LanguageDirectoryFile(realPath, language, name, extension), BasePath(realPath), extension) == Ok(Some(language))
  {
    var base := BasePath(realPath);
    DirectoryFileNormalized(realPath, language, name, extension);
    ParseSeesNormalized(LanguageDirectoryFile(realPath, language, name, extension),
      base + language + "/" + name + "." + extension, base, extension);
    ParseNameInDirectory(base, language, name, extension);
  }

  /** Only the separator-normalised path matters to the parser. */
  lemma ParseSeesNormalized(a: string, b: string, basePath: string, extension: string)
    requires Normalize(a) == Normalize(b)
    ensures ParsePathLanguage(a, basePath, extension) == ParsePathLanguage(b, basePath, extension)
  {
  }

  // ---- loadAllTranslations ----

  /** The language a listed file contributes: a parsed name that PHP takes as true. */
  function FileLanguage(basePath: string, extension: string, file: string): Option<string>
  {
    match ParsePathLanguage(file, basePath, extension)
    case Ok(Some(language)) => if PhpFalsy(language) then None else Some(language)
    case _ => None
  }

  /**
   * The loop of loadAllTranslations over the listed files still to do: the
   * first file of a language is adopted whole, later ones are merged into it
   * and a clash is raised again with the language filled in.
   */
  function LoadFiles(disk: Disk, s: FlatSettings, basePath: string, files: seq<string>, acc: Catalog): Result<Catalog, Error>
    decreases |files|
  {
    if files == [] then Ok(acc)
    else
      match ParsePathLanguage(files[0], basePath, s.extension)
      case Err(e) => Err(e)
      case Ok(language) =>
        if language.None? || PhpFalsy(language.value) then LoadFiles(disk, s, basePath, files[1..], acc)
        else
          match LoadLanguage(disk, s.categoryPrefix, files[0])
          case Err(e) => Err(e)
          case Ok(categories) =>
            var l := language.value;
            if l !in acc then LoadFiles(disk, s, basePath, files[1..], acc[l := categories])
            else
              match MergeSourceLanguage(acc[l], categories)
              case Err(clash) => Err(ConflictIn(l, clash))
              case Ok(merged) => LoadFiles(disk, s, basePath, files[1..], acc[l := merged])
  }

  /** loadAllTranslations: resolve the path, list the language files, load and merge them. */
  function LoadAll(disk: Disk, s: FlatSettings): Result<Catalog, Error>
  {
    match RealPath(disk, s.path)
    case Err(e) => Err(e)
    case Ok(realPath) =>
      match FindFiles(disk, realPath, "/*/*." + s.extension, false)
      case Err(e) => Err(e)
      case Ok(files) => LoadFiles(disk, s, BasePath(realPath), files, map[])
  }

  /** The step of the loop for the first file, when it loads. */
  function NextAcc(disk: Disk, s: FlatSettings, basePath: string, file: string, acc: Catalog): Catalog
  {
    match FileLanguage(basePath, s.extension, file)
    case None => acc
    case Some(l) =>
      match LoadLanguage(disk, s.categoryPrefix, file)
      case Err(_) => acc
      case Ok(categories) =>
        if l !in acc then acc[l := categories]
        else
          match MergeSourceLanguage(acc[l], categories)
          case Err(_) => acc
          case Ok(merged) => acc[l := merged]
  }

  lemma LoadFilesUnfold(disk: Disk, s: FlatSettings, basePath: string, files: seq<string>, acc: Catalog)
    requires files != [] && LoadFiles(disk, s, basePath, files, acc).Ok?
    ensures LoadFiles(disk, s, basePath, files, acc) == LoadFiles(disk, s, basePath, files[1..], NextAcc(disk, s, basePath, files[0], acc))
  {
  }

  /** The languages loaded: those already there and those some listed file names. */
  lemma {:induction false} LoadFilesKeys(disk: Disk, s: FlatSettings, basePath: string, files: seq<string>, acc: Catalog)
    requires LoadFiles(disk, s, basePath, files, acc).Ok?
    ensures forall l :: l in LoadFiles(disk, s, basePath, files, acc).value <==>
      l in acc || exists i | 0 <= i < |files| :: FileLanguage(basePath, s.extension, files[i]) == Some(l)
    decreases |files|
  {
    if files != [] {
      var next := NextAcc(disk, s, basePath, files[0], acc);
      LoadFilesUnfold(disk, s, basePath, files, acc);
      LoadFilesKeys(disk, s, basePath, files[1..], next);
      assert forall i | 1 <= i < |files| :: files[i] == files[1..][i - 1];
      forall l | l in LoadFiles(disk, s, basePath, files, acc).value
        ensures l in acc || exists i | 0 <= i < |files| :: FileLanguage(basePath, s.extension, files[i]) == Some(l)
      {
        if l !in next {
          var i :| 0 <= i < |files[1..]| && FileLanguage(basePath, s.extension, files[1..][i]) == Some(l);
          assert FileLanguage(basePath, s.extension, files[i + 1]) == Some(l);
        }
      }
    }
  }

  /** A conflict the load raises names a listed language and the two translations that clash. */
  lemma {:induction false} LoadFilesConflict(disk: Disk, s: FlatSettings, basePath: string, files: seq<string>, acc: Catalog)
    requires LoadFiles(disk, s, basePath, files, acc).Err?
    requires LoadFiles(disk, s, basePath, files, acc).error.Conflict?
    ensures var e := LoadFiles(disk, s, basePath, files, acc).error.conflict;
      && e.previous.None?
      && |e.translations| == 2 && e.translations[0] != "" && e.translations[0] != e.translations[1]
      && exists i | 0 <= i < |files| :: FileLanguage(basePath, s.extension, files[i]) == Some(e.language)
    decreases |files|
  {
    var parsed := ParsePathLanguage(files[0], basePath, s.extension);
    var loaded := LoadLanguage(disk, s.categoryPrefix, files[0]);
    var l := FileLanguage(basePath, s.extension, files[0]);
    LoadLanguageSpec(disk, s.categoryPrefix, files[0]);
    if l.Some? && loaded.Ok? && l.value in acc && MergeSourceLanguage(acc[l.value], loaded.value).Err? {
      MergeSourceLanguageSpec(acc[l.value], loaded.value);
    } else if parsed.Ok? && (l.None? || loaded.Ok?) {
      var next := NextAcc(disk, s, basePath, files[0], acc);
      assert LoadFiles(disk, s, basePath, files, acc) == LoadFiles(disk, s, basePath, files[1..], next);
      LoadFilesConflict(disk, s, basePath, files[1..], next);
      var e := LoadFiles(disk, s, basePath, files, acc).error.conflict;
      var i :| 0 <= i < |files[1..]| && FileLanguage(basePath, s.extension, files[1..][i]) == Some(e.language);
      assert files[i + 1] == files[1..][i];
    }
  }

  /** Every non-empty translation of cats is held by language l of data. */
  predicate Carries(data: Catalog, l: string, cats: Categories)
  {
    forall c, m | c in cats && m in cats[c] && cats[c][m] != "" ::
      l in data && c in data[l] && m in data[l][c] && data[l][c][m] == cats[c][m]
  }

  /** A successful merge holds every incoming translation and every non-empty accumulated one. */
  lemma MergeHoldsBoth(acc: Categories, inc: Categories)
    requires MergeSourceLanguage(acc, inc).Ok?
    ensures var merged := MergeSourceLanguage(acc, inc).value;
      && (forall c, m | c in inc && m in inc[c] :: c in merged && m in merged[c] && merged[c][m] == inc[c][m])
      && (forall c, m | c in acc && m in acc[c] && acc[c][m] != "" :: c in merged && m in merged[c] && merged[c][m] == acc[c][m])
  {
    MergeSourceLanguageSpec(acc, inc);
    forall c, m | c in acc && m in acc[c] && acc[c][m] != ""
      ensures var merged := MergeSourceLanguage(acc, inc).value; c in merged && m in merged[c] && merged[c][m] == acc[c][m]
    {
      assert !CategoryClashAt(acc, inc, c, m);
    }
  }

  /** The step keeps what language l carries. */
  lemma NextKeeps(disk: Disk, s: FlatSettings, basePath: string, file: string, acc: Catalog, l: string, cats: Categories)
    requires Carries(acc, l, cats)
    requires LoadFiles(disk, s, basePath, [file], acc).Ok?
    ensures Carries(NextAcc(disk, s, basePath, file, acc), l, cats)
  {
    var language := FileLanguage(basePath, s.extension, file);
    if language == Some(l) {
      var loaded := LoadLanguage(disk, s.categoryPrefix, file).value;
      if l in acc {
        MergeHoldsBoth(acc[l], loaded);
      }
    }
  }

  /** The step adopts or merges the first file, so language l then carries all of it. */
  lemma NextCarries(disk: Disk, s: FlatSettings, basePath: string, file: string, acc: Catalog, l: string)
    requires LoadFiles(disk, s, basePath, [file], acc).Ok?
    requires FileLanguage(basePath, s.extension, file) == Some(l)
    ensures LoadLanguage(disk, s.categoryPrefix, file).Ok?
    ensures Carries(NextAcc(disk, s, basePath, file, acc), l, LoadLanguage(disk, s.categoryPrefix, file).value)
  {
    var loaded := LoadLanguage(disk, s.categoryPrefix, file).value;
    if l in acc {
      MergeHoldsBoth(acc[l], loaded);
    }
  }

  /** What a language carries survives the rest of the load. */
  lemma {:induction false} LoadFilesKeeps(disk: Disk, s: FlatSettings, basePath: string, files: seq<string>, acc: Catalog,
                                          l: string, cats: Categories)
    requires LoadFiles(disk, s, basePath, files, acc).Ok?
    requires Carries(acc, l, cats)
    ensures Carries(LoadFiles(disk, s, basePath, files, acc).value, l, cats)
    decreases |files|
  {
    if files != [] {
      LoadFilesUnfold(disk, s, basePath, files, acc);
      assert LoadFiles(disk, s, basePath, [files[0]], acc).Ok? by {
        FirstStepOk(disk, s, basePath, files, acc);
      }
      NextKeeps(disk, s, basePath, files[0], acc, l, cats);
      LoadFilesKeeps(disk, s, basePath, files[1..], NextAcc(disk, s, basePath, files[0], acc), l, cats);
    }
  }

  /** A load that succeeds gets past its first file. */
  lemma FirstStepOk(disk: Disk, s: FlatSettings, basePath: string, files: seq<string>, acc: Catalog)
    requires files != [] && LoadFiles(disk, s, basePath, files, acc).Ok?
    ensures LoadFiles(disk, s, basePath, [files[0]], acc).Ok?
  {
    assert [files[0]][1..] == [];
  }

  /**
   * The files of one language never overwrite each other: after a
   * successful load the language holds every non-empty translation of each
   * of its files.
   */
  lemma {:induction false} LoadFilesCarriesEveryFile(disk: Disk, s: FlatSettings, basePath: string, files: seq<string>,
                                                     acc: Catalog, i: nat, l: string)
    requires LoadFiles(disk, s, basePath, files, acc).Ok?
    requires i < |files| && FileLanguage(basePath, s.extension, files[i]) == Some(l)
    ensures LoadLanguage(disk, s.categoryPrefix, files[i]).Ok?
    ensures Carries(LoadFiles(disk, s, basePath, files, acc).value, l, LoadLanguage(disk, s.categoryPrefix, files[i]).value)
    decreases |files|
  {
    var next := NextAcc(disk, s, basePath, files[0], acc);
    LoadFilesUnfold(disk, s, basePath, files, acc);
    FirstStepOk(disk, s, basePath, files, acc);
    if i == 0 {
      NextCarries(disk, s, basePath, files[0], acc, l);
      LoadFilesKeeps(disk, s, basePath, files[1..], next, l, LoadLanguage(disk, s.categoryPrefix, files[0]).value);
    } else {
      assert files[1..][i - 1] == files[i];
      LoadFilesCarriesEveryFile(disk, s, basePath, files[1..], next, i - 1, l);
    }
  }

  method LoadAllTranslations(disk: Disk, s: FlatSettings) returns (r: Result<Catalog, Error>)
    ensures r == LoadAll(disk, s)
  {
    var realPath := RealPath(disk, s.path);
    if realPath.Err? {
      return Err(realPath.error);
    }
    var basePath := BasePath(realPath.value);
    var listed := FindFiles(disk, realPath.value, "/*/*." + s.extension, false);
    if listed.Err? {
      return Err(listed.error);
    }
    var files := listed.value;
    var data: Catalog := map[];
    var i := 0;
    while i < |files|
      invariant 0 <= i <= |files|
      invariant LoadFiles(disk, s, basePath, files[i..], data) == LoadAll(disk, s)
    {
      assert files[i..][1..] == files[i + 1..];
      var language := ParsePathLanguage(files[i], basePath, s.extension);
      if language.Err? {
        return Err(language.error);
      }
      if language.value.Some? && !PhpFalsy(language.value.value) {
        var l := language.value.value;
        var categories := LoadLanguageFromFile(disk, s.categoryPrefix, files[i]);
        if categories.Err? {
          return Err(categories.error);
        }
        if l !in data {
          data := data[l := categories.value];
        } else {
          var merged := MergeLanguage(data[l], categories.value);
          if merged.Err? {
            return Err(ConflictIn(l, merged.error));
          }
          data := data[l := merged.value];
        }
      }
      i := i + 1;
    }
    return Ok(data);
  }

  // ---- saveAllTranslations ----

  /** One listed file: loaded, reconciled with the language's data on its own, rewritten only when that changes it. */
  function SaveFile(disk: Disk, s: FlatSettings, file: string, categories: Categories, onlyExisting: bool, suffix: string): Run
  {
    match LoadLanguage(disk, s.categoryPrefix, file)
    case Err(e) => Fail(e)
    case Ok(previous) =>
      var updated := Reconciled(previous, categories, onlyExisting);
      if updated != previous then Run([Write(file + suffix, LanguageFileContent(s.categoryPrefix, s.sortEmptyFirst, updated))], None)
      else Done
  }

  function FileSteps(disk: Disk, s: FlatSettings, files: seq<string>, categories: Categories, onlyExisting: bool, suffix: string): (r: seq<Run>)
    ensures |r| == |files|
  {
    seq(|files|, i requires 0 <= i < |files| => SaveFile(disk, s, files[i], categories, onlyExisting, suffix))
  }

  /** The listing of a language's directory that saving asks for. */
  function LanguageListing(realPath: string, language: string, extension: string): Listing
  {
    Listing(realPath + "/" + language, "*." + extension, false)
  }

  /** One language: list its directory (a missing one fails) and save every file found there. */
  function SaveLanguage(disk: Disk, s: FlatSettings, realPath: string, language: string, categories: Categories,
                        onlyExisting: bool, suffix: string): Run
  {
    var listing := LanguageListing(realPath, language, s.extension);
    match FindFiles(disk, listing.dir, listing.only, listing.recursive)
    case Err(e) => Fail(e)
    case Ok(files) => Sequence(FileSteps(disk, s, files, categories, onlyExisting, suffix))
  }

  /** The runs saving the given languages of the data, in the given order. */
  function LanguageSteps(disk: Disk, s: FlatSettings, realPath: string, data: Catalog, languages: seq<string>,
                         onlyExisting: bool, suffix: string): (r: seq<Run>)
    requires forall l | l in languages :: l in data
    ensures |r| == |languages|
  {
    seq(|languages|, i requires 0 <= i < |languages| =>
      SaveLanguage(disk, s, realPath, languages[i], data[languages[i]], onlyExisting, suffix))
  }

  function SaveSteps(disk: Disk, s: FlatSettings, realPath: string, data: Catalog, onlyExisting: bool, suffix: string): (r: seq<Run>)
    ensures |r| == |data|
  {
    LanguageSteps(disk, s, realPath, data, SortedKeys(data.Keys), onlyExisting, suffix)
  }

  /** saveAllTranslations: resolve the path, then save every language until one fails. */
  function SaveAll(disk: Disk, s: FlatSettings, data: Catalog, onlyExisting: bool, suffix: string): Run
  {
    match RealPath(disk, s.path)
    case Err(e) => Fail(e)
    case Ok(realPath) => Sequence(SaveSteps(disk, s, realPath, data, onlyExisting, suffix))
  }

  /** A write that rewrites an existing file, listed for the language, which reconciling changed. */
  predicate Rewrites(disk: Disk, s: FlatSettings, file: string, categories: Categories, onlyExisting: bool, suffix: string, w: Write)
  {
    && file in disk.files
    && LoadLanguage(disk, s.categoryPrefix, file).Ok?
    && var previous := LoadLanguage(disk, s.categoryPrefix, file).value;
    && Reconciled(previous, categories, onlyExisting) != previous
    && w == Write(file + suffix, LanguageFileContent(s.categoryPrefix, s.sortEmptyFirst, Reconciled(previous, categories, onlyExisting)))
  }

  predicate Listed(disk: Disk, s: FlatSettings, realPath: string, language: string, file: string)
  {
    var listing := LanguageListing(realPath, language, s.extension);
    listing in disk.listings && file in disk.listings[listing]
  }

  lemma SaveLanguageRewrites(disk: Disk, s: FlatSettings, realPath: string, language: string, categories: Categories,
                             onlyExisting: bool, suffix: string)
    ensures forall w | w in SaveLanguage(disk, s, realPath, language, categories, onlyExisting, suffix).writes ::
      exists file | Listed(disk, s, realPath, language, file) :: Rewrites(disk, s, file, categories, onlyExisting, suffix, w)
  {
    var listing := LanguageListing(realPath, language, s.extension);
    if listing in disk.listings {
      var files := disk.listings[listing];
      var steps := FileSteps(disk, s, files, categories, onlyExisting, suffix);
      SequenceWrites(steps);
      forall w | w in SaveLanguage(disk, s, realPath, language, categories, onlyExisting, suffix).writes
        ensures exists file | Listed(disk, s, realPath, language, file) :: Rewrites(disk, s, file, categories, onlyExisting, suffix, w)
      {
        var i :| 0 <= i < |steps| && w in steps[i].writes;
        LoadLanguageSpec(disk, s.categoryPrefix, files[i]);
        assert Rewrites(disk, s, files[i], categories, onlyExisting, suffix, w);
      }
    }
  }

  /**
   * Saving never creates a file: import and export alike only rewrite
   * existing files listed in a language's directory, and only those that
   * reconciling changed.
   */
  lemma SaveNeverCreates(disk: Disk, s: FlatSettings, data: Catalog, onlyExisting: bool, suffix: string)
    ensures forall w | w in SaveAll(disk, s, data, onlyExisting, suffix).writes ::
      s.path in disk.realPaths &&
      exists l, file | l in data && Listed(disk, s, disk.realPaths[s.path], l, file) ::
        Rewrites(disk, s, file, data[l], onlyExisting, suffix, w)
  {
    if s.path in disk.realPaths {
      var realPath := disk.realPaths[s.path];
      var languages := SortedKeys(data.Keys);
      var steps := SaveSteps(disk, s, realPath, data, onlyExisting, suffix);
      SequenceWrites(steps);
      forall w | w in SaveAll(disk, s, data, onlyExisting, suffix).writes
        ensures exists l, file | l in data && Listed(disk, s, realPath, l, file) :: Rewrites(disk, s, file, data[l], onlyExisting, suffix, w)
      {
        var i :| 0 <= i < |steps| && w in steps[i].writes;
        SaveLanguageRewrites(disk, s, realPath, languages[i], data[languages[i]], onlyExisting, suffix);
      }
    }
  }

  /** A file has been reconciled: it loads, and its changed content is among the writes. */
  predicate Reconciles(disk: Disk, s: FlatSettings, file: string, categories: Categories, onlyExisting: bool, suffix: string,
                       writes: seq<Write>)
  {
    && LoadLanguage(disk, s.categoryPrefix, file).Ok?
    && var previous := LoadLanguage(disk, s.categoryPrefix, file).value;
    && var updated := Reconciled(previous, categories, onlyExisting);
    && (updated != previous ==> Write(file + suffix, LanguageFileContent(s.categoryPrefix, s.sortEmptyFirst, updated)) in writes)
  }

  lemma SaveLanguageSucceeds(disk: Disk, s: FlatSettings, realPath: string, language: string, categories: Categories,
                             onlyExisting: bool, suffix: string)
    requires SaveLanguage(disk, s, realPath, language, categories, onlyExisting, suffix).failure.None?
    ensures LanguageListing(realPath, language, s.extension) in disk.listings
    ensures forall file | file in disk.listings[LanguageListing(realPath, language, s.extension)] ::
      Reconciles(disk, s, file, categories, onlyExisting, suffix, SaveLanguage(disk, s, realPath, language, categories, onlyExisting, suffix).writes)
  {
    var files := disk.listings[LanguageListing(realPath, language, s.extension)];
    var steps := FileSteps(disk, s, files, categories, onlyExisting, suffix);
    SequenceSucceeds(steps);
    forall file | file in files
      ensures Reconciles(disk, s, file, categories, onlyExisting, suffix, SaveLanguage(disk, s, realPath, language, categories, onlyExisting, suffix).writes)
    {
      var i :| 0 <= i < |files| && files[i] == file;
      assert steps[i] == SaveFile(disk, s, file, categories, onlyExisting, suffix);
    }
  }

  /** A successful save has reconciled every file listed for every language of the data. */
  lemma SaveReconcilesEveryFile(disk: Disk, s: FlatSettings, data: Catalog, onlyExisting: bool, suffix: string)
    requires SaveAll(disk, s, data, onlyExisting, suffix).failure.None?
    ensures s.path in disk.realPaths
    ensures forall l | l in data :: LanguageListing(disk.realPaths[s.path], l, s.extension) in disk.listings
    ensures forall l, file | l in data && Listed(disk, s, disk.realPaths[s.path], l, file) ::
      Reconciles(disk, s, file, data[l], onlyExisting, suffix, SaveAll(disk, s, data, onlyExisting, suffix).writes)
  {
    var realPath := disk.realPaths[s.path];
    var languages := SortedKeys(data.Keys);
    var steps := SaveSteps(disk, s, realPath, data, onlyExisting, suffix);
    var all := SaveAll(disk, s, data, onlyExisting, suffix).writes;
    SequenceSucceeds(steps);
    forall l | l in data
      ensures LanguageListing(realPath, l, s.extension) in disk.listings
      ensures forall file | Listed(disk, s, realPath, l, file) :: Reconciles(disk, s, file, data[l], onlyExisting, suffix, all)
    {
      var i :| 0 <= i < |languages| && languages[i] == l;
      assert steps[i] == SaveLanguage(disk, s, realPath, l, data[l], onlyExisting, suffix);
      SaveLanguageSucceeds(disk, s, realPath, l, data[l], onlyExisting, suffix);
      forall file | Listed(disk, s, realPath, l, file) ensures Reconciles(disk, s, file, data[l], onlyExisting, suffix, all) {
        assert Reconciles(disk, s, file, data[l], onlyExisting, suffix, steps[i].writes);
      }
    }
  }

  /** One listed file, recorded in the file system's log. */
  method SaveFileWith(fs: FileSystem, s: FlatSettings, file: string, categories: Categories, onlyExisting: bool, suffix: string,
                      ghost run: Run) returns (failure: Option<Error>)
    requires run == SaveFile(fs.disk, s, file, categories, onlyExisting, suffix)
    modifies fs
    ensures fs.log == old(fs.log) + run.writes
    ensures failure == run.failure
  {
    var previous := LoadLanguageFromFile(fs.disk, s.categoryPrefix, file);
    if previous.Err? {
      return Some(previous.error);
    }
    var updated;
    if onlyExisting {
      updated := UpdateTranslationsArray(previous.value, categories);
    } else {
      updated := FillTranslationsArray(categories, previous.value);
    }
    if updated != previous.value {
      SaveLanguageToFile(fs, file + suffix, s.categoryPrefix, s.sortEmptyFirst, updated);
    }
    return None;
  }

  /** The inner loop of saveAllTranslations: the files listed in one language's directory. */
  method SaveLanguageFiles(fs: FileSystem, s: FlatSettings, realPath: string, language: string, categories: Categories,
                           onlyExisting: bool, suffix: string, ghost run: Run) returns (failure: Option<Error>)
    requires run == SaveLanguage(fs.disk, s, realPath, language, categories, onlyExisting, suffix)
    modifies fs
    ensures fs.log == old(fs.log) + run.writes
    ensures failure == run.failure
  {
    var listing := LanguageListing(realPath, language, s.extension);
    var listed := FindFiles(fs.disk, listing.dir, listing.only, listing.recursive);
    if listed.Err? {
      return Some(listed.error);
    }
    var files := listed.value;
    ghost var steps := FileSteps(fs.disk, s, files, categories, onlyExisting, suffix);
    var i := 0;
    while i < |files|
      invariant 0 <= i <= |files|
      invariant fs.log == old(fs.log) + Sequence(steps[..i]).writes
      invariant Sequence(steps[..i]).failure.None?
    {
      ghost var before := fs.log;
      failure := SaveFileWith(fs, s, files[i], categories, onlyExisting, suffix, steps[i]);
      SequenceStep(steps, i, old(fs.log), before, fs.log);
      if failure.Some? {
        SequenceFailsAt(steps, i);
        return;
      }
      i := i + 1;
    }
    assert steps[..i] == steps;
    return None;
  }

  /** The outer loop of saveAllTranslations over the languages of the data, in the order given. */
  method SaveLanguages(fs: FileSystem, s: FlatSettings, realPath: string, data: Catalog, languages: seq<string>,
                       onlyExisting: bool, suffix: string) returns (failure: Option<Error>)
    requires forall l | l in languages :: l in data
    modifies fs
    ensures fs.log == old(fs.log) + Sequence(LanguageSteps(fs.disk, s, realPath, data, languages, onlyExisting, suffix)).writes
    ensures failure == Sequence(LanguageSteps(fs.disk, s, realPath, data, languages, onlyExisting, suffix)).failure
  {
    ghost var steps := LanguageSteps(fs.disk, s, realPath, data, languages, onlyExisting, suffix);
    var i := 0;
    while i < |languages|
      invariant 0 <= i <= |languages|
      invariant fs.log == old(fs.log) + Sequence(steps[..i]).writes
      invariant Sequence(steps[..i]).failure.None?
    {
      var language := languages[i];
      ghost var before := fs.log;
      failure := SaveLanguageFiles(fs, s, realPath, language, data[language], onlyExisting, suffix, steps[i]);
      SequenceStep(steps, i, old(fs.log), before, fs.log);
      if failure.Some? {
        SequenceFailsAt(steps, i);
        return;
      }
      i := i + 1;
    }
    assert steps[..i] == steps;
    return None;
  }

  method SaveAllTranslations(fs: FileSystem, s: FlatSettings, data: Catalog, onlyExisting: bool, suffix: string)
    returns (failure: Option<Error>)
    modifies fs
    ensures fs.log == old(fs.log) + SaveAll(fs.disk, s, data, onlyExisting, suffix).writes
    ensures failure == SaveAll(fs.disk, s, data, onlyExisting, suffix).failure
  {
    var realPath := RealPath(fs.disk, s.path);
    if realPath.Err? {
      return Some(realPath.error);
    }
    failure := SaveLanguages(fs, s, realPath.value, data, SortedKeys(data.Keys), onlyExisting, suffix);
  }
}
