/**
 * FlatCategoryDriver: one file <language>.<extension> per language directly
 * under the configured path, holding every category of that language.
 * Loading lists the directory (non-recursively) and reads the language off
 * each file name; saving writes one file per language of the data.
 */
module FlatCategoryDriver {
  import opened Wrappers
  import opened Ordering
  import opened StringUtils
  import opened Errors
  import opened Catalogs
  import opened Disk
  import opened BaseFlatCategoryDriver

  // ---- parsePathLanguage ----

  /**
   * parsePathLanguage: the file must lie directly under the base path; its
   * name without ".<extension>" is the language, and the bare ".<extension>"
   * has none.
   */
  function ParsePathLanguage(file: string, basePath: string, extension: string): (r: Result<Option<string>, Error>)
    ensures r == Err(InvalidArgument("File outside of base path")) <==> !StartsWith(Normalize(file), basePath)
    ensures r == Err(InvalidArgument("File from nested subdirectories")) <==>
      StartsWith(Normalize(file), basePath) && '/' in Normalize(file)[|basePath|..]
    ensures r.Ok? <==> StartsWith(Normalize(file), basePath) && '/' !in Normalize(file)[|basePath|..]
    ensures r == Ok(None) <==> r.Ok? && Normalize(file)[|basePath|..] == "." + extension
    ensures r.Ok? && r.value.Some? ==>
      var rest := Normalize(file)[|basePath|..];
      '/' !in r.value.value &&
      (rest == r.value.value + "." + extension || (rest == r.value.value && !EndsWith(rest, "." + extension)))
  {
    var path := Normalize(file);
    var dotExtension := "." + extension;
    if !StartsWith(path, basePath) then Err(InvalidArgument("File outside of base path"))
    else
      var basename := path[|basePath|..];
      if '/' in basename then Err(InvalidArgument("File from nested subdirectories"))
      else if EndsWith(basename, dotExtension) then
        var stem := basename[..|basename| - |dotExtension|];
        assert basename == stem + dotExtension;
        if stem == "" then Ok(None) else Ok(Some(stem))
      else Ok(Some(basename))
  }

  /** The file saveAllTranslations writes a language to. */
  function LanguageFilePath(realPath: string, language: string, extension: string): string
  {
    realPath + "/" + language + "." + extension
  }

  /** A plain name with the extension, directly under a normalised base path, parses to that name. */
  lemma ParseNameUnderBase(basePath: string, language: string, extension: string)
    requires '\\' !in basePath
    requires language != "" && '/' !in language && '\\' !in language
    requires '/' !in extension && '\\' !in extension
    ensures ParsePathLanguage(basePath + language + "." + extension, basePath, extension) == Ok(Some(language))
  {
    var tail := language + "." + extension;
    var path := basePath + language + "." + extension;
    assert path == basePath + tail;
    NormalizeFixed(path);
    assert path[|basePath|..] == tail;
    assert tail[..|tail| - |"." + extension|] == language;
  }

  /** Round trip: the file a language is saved to parses back to that language. */
  lemma ParseLanguageFilePath(realPath: string, language: string, extension: string)
    requires realPath != [] && realPath[|realPath| - 1] != '/' && realPath[|realPath| - 1] != '\\'
    requires language != "" && '/' !in language && '\\' !in language
    requires '/' !in extension && '\\' !in extension
    ensures ParsePathLanguage(LanguageFilePath(realPath, language, extension), BasePath(realPath), extension) == Ok(Some(language))
  {
    var base := BasePath(realPath);
    var tail := language + "." + extension;
    var file := LanguageFilePath(realPath, language, extension);
    assert file == realPath + "/" + tail;
    NormalizeUnderPath(realPath, tail);
    ParseNameUnderBase(base, language, extension);
    assert base + language + "." + extension == base + tail;
    NormalizeFixed(base + tail);
    ParseSeesNormalized(file, base + tail, base, extension);
  }

  /** Only the separator-normalised path matters to the parser. */
  lemma ParseSeesNormalized(a: string, b: string, basePath: string, extension: string)
    requires Normalize(a) == Normalize(b)
    ensures ParsePathLanguage(a, basePath, extension) == ParsePathLanguage(b, basePath, extension)
  {
  }

  // ---- loadAllTranslations ----

  /** The language a listed file contributes: a parsed name that PHP takes as true. */
  function FileLanguage(basePath: string, extension: string, file: string): Option<string>
  {
    match ParsePathLanguage(file, basePath, extension)
    case Ok(Some(language)) => if PhpFalsy(language) then None else Some(language)
    case _ => None
  }

  /** A listed file the loop gets past: it parses, and its language file loads if it names a language. */
  predicate Loadable(disk: Disk, s: FlatSettings, basePath: string, file: string)
  {
    ParsePathLanguage(file, basePath, s.extension).Ok? &&
    (FileLanguage(basePath, s.extension, file).Some? ==> LoadLanguage(disk, s.categoryPrefix, file).Ok?)
  }

  /** The loop of loadAllTranslations over the listed files still to do, in listing order. */
  function LoadFiles(disk: Disk, s: FlatSettings, basePath: string, files: seq<string>, acc: Catalog): Result<Catalog, Error>
    decreases |files|
  {
    if files == [] then Ok(acc)
    else
      match ParsePathLanguage(files[0], basePath, s.extension)
      case Err(e) => Err(e)
      case Ok(language) =>
        if language.None? || PhpFalsy(language.value) then LoadFiles(disk, s, basePath, files[1..], acc)
        else
          match LoadLanguage(disk, s.categoryPrefix, files[0])
          case Err(e) => Err(e)
          case Ok(categories) => LoadFiles(disk, s, basePath, files[1..], acc[language.value := categories])
  }

  /** loadAllTranslations: resolve the path, list "*.<extension>" non-recursively, load every language file. */
  function LoadAll(disk: Disk, s: FlatSettings): Result<Catalog, Error>
  {
    match RealPath(disk, s.path)
    case Err(e) => Err(e)
    case Ok(realPath) =>
      match FindFiles(disk, realPath, "*." + s.extension, false)
      case Err(e) => Err(e)
      case Ok(files) => LoadFiles(disk, s, BasePath(realPath), files, map[])
  }

  /** The load succeeds exactly when every listed file is loadable. */
  lemma {:induction false} LoadFilesOk(disk: Disk, s: FlatSettings, basePath: string, files: seq<string>, acc: Catalog)
    ensures LoadFiles(disk, s, basePath, files, acc).Ok? <==> forall i | 0 <= i < |files| :: Loadable(disk, s, basePath, files[i])
    decreases |files|
  {
    if files != [] {
      var language := ParsePathLanguage(files[0], basePath, s.extension);
      var next := acc;
      if language.Ok? && language.value.Some? && !PhpFalsy(language.value.value) {
        var loaded := LoadLanguage(disk, s.categoryPrefix, files[0]);
        if loaded.Ok? {
          next := acc[language.value.value := loaded.value];
        }
      }
      LoadFilesOk(disk, s, basePath, files[1..], next);
      assert forall i | 1 <= i < |files| :: files[i] == files[1..][i - 1];
    }
  }

  /** The languages loaded: those already there and those some listed file names. */
  lemma {:induction false} LoadFilesKeys(disk: Disk, s: FlatSettings, basePath: string, files: seq<string>, acc: Catalog)
    requires LoadFiles(disk, s, basePath, files, acc).Ok?
    ensures forall l :: l in LoadFiles(disk, s, basePath, files, acc).value <==>
      l in acc || exists i | 0 <= i < |files| :: FileLanguage(basePath, s.extension, files[i]) == Some(l)
    decreases |files|
  {
    if files != [] {
      var next := acc;
      var language := FileLanguage(basePath, s.extension, files[0]);
      if language.Some? {
        next := acc[language.value := LoadLanguage(disk, s.categoryPrefix, files[0]).value];
      }
      LoadFilesKeys(disk, s, basePath, files[1..], next);
      assert forall i | 1 <= i < |files| :: files[i] == files[1..][i - 1];
      forall l | l in LoadFiles(disk, s, basePath, files, acc).value
        ensures l in acc || exists i | 0 <= i < |files| :: FileLanguage(basePath, s.extension, files[i]) == Some(l)
      {
        if l !in next {
          var i :| 0 <= i < |files[1..]| && FileLanguage(basePath, s.extension, files[1..][i]) == Some(l);
          assert FileLanguage(basePath, s.extension, files[i + 1]) == Some(l);
        }
      }
    }
  }

  /** A language no remaining file names keeps the value it has. */
  lemma {:induction false} LoadFilesKeeps(disk: Disk, s: FlatSettings, basePath: string, files: seq<string>, acc: Catalog, l: string)
    requires LoadFiles(disk, s, basePath, files, acc).Ok?
    requires l in acc
    requires forall i | 0 <= i < |files| :: FileLanguage(basePath, s.extension, files[i]) != Some(l)
    ensures l in LoadFiles(disk, s, basePath, files, acc).value
    ensures LoadFiles(disk, s, basePath, files, acc).value[l] == acc[l]
    decreases |files|
  {
    if files != [] {
      var next := acc;
      var language := FileLanguage(basePath, s.extension, files[0]);
      if language.Some? {
        next := acc[language.value := LoadLanguage(disk, s.categoryPrefix, files[0]).value];
      }
      assert FileLanguage(basePath, s.extension, files[0]) != Some(l);
      assert forall i | 0 <= i < |files[1..]| :: files[1..][i] == files[i + 1];
      LoadFilesKeeps(disk, s, basePath, files[1..], next, l);
    }
  }

  /** Later files win: a language holds what the last file naming it loads. */
  lemma {:induction false} LoadFilesLastWins(disk: Disk, s: FlatSettings, basePath: string, files: seq<string>, acc: Catalog, i: nat, l: string)
    requires LoadFiles(disk, s, basePath, files, acc).Ok?
    requires i < |files| && FileLanguage(basePath, s.extension, files[i]) == Some(l)
    requires forall j | i < j < |files| :: FileLanguage(basePath, s.extension, files[j]) != Some(l)
    ensures LoadLanguage(disk, s.categoryPrefix, files[i]).Ok?
    ensures l in LoadFiles(disk, s, basePath, files, acc).value
    ensures LoadFiles(disk, s, basePath, files, acc).value[l] == LoadLanguage(disk, s.categoryPrefix, files[i]).value
    decreases |files|
  {
    var next := acc;
    var language := FileLanguage(basePath, s.extension, files[0]);
    if language.Some? {
      next := acc[language.value := LoadLanguage(disk, s.categoryPrefix, files[0]).value];
    }
    if i == 0 {
      assert forall j | 0 <= j < |files[1..]| :: files[1..][j] == files[j + 1];
      LoadFilesKeeps(disk, s, basePath, files[1..], next, l);
    } else {
      assert files[1..][i - 1] == files[i];
      assert forall j | i - 1 < j < |files[1..]| :: files[1..][j] == files[j + 1];
      LoadFilesLastWins(disk, s, basePath, files[1..], next, i - 1, l);
    }
  }

  method LoadAllTranslations(disk: Disk, s: FlatSettings) returns (r: Result<Catalog, Error>)
    ensures r == LoadAll(disk, s)
  {
    var realPath := RealPath(disk, s.path);
    if realPath.Err? {
      return Err(realPath.error);
    }
    var basePath := BasePath(realPath.value);
    var listed := FindFiles(disk, realPath.value, "*." + s.extension, false);
    if listed.Err? {
      return Err(listed.error);
    }
    var files := listed.value;
    var data: Catalog := map[];
    var i := 0;
    while i < |files|
      invariant 0 <= i <= |files|
      invariant LoadFiles(disk, s, basePath, files[i..], data) == LoadAll(disk, s)
    {
      assert files[i..][1..] == files[i + 1..];
      var language := ParsePathLanguage(files[i], basePath, s.extension);
      if language.Err? {
        return Err(language.error);
      }
      if language.value.Some? && !PhpFalsy(language.value.value) {
        var categories := LoadLanguageFromFile(disk, s.categoryPrefix, files[i]);
        if categories.Err? {
          return Err(categories.error);
        }
        data := data[language.value.value := categories.value];
      }
      i := i + 1;
    }
    return Ok(data);
  }

  // ---- saveAllTranslations ----

  /**
   * One language of saveAllTranslations: an existing file is loaded and
   * rewritten only when reconciling changes it; a missing one is written
   * with the data unless only existing files may be touched.
   */
  function SaveLanguage(disk: Disk, s: FlatSettings, realPath: string, language: string, categories: Categories,
                        onlyExisting: bool, suffix: string): Run
  {
    var file := LanguageFilePath(realPath, language, s.extension);
    if file in disk.files then
      match LoadLanguage(disk, s.categoryPrefix, file)
      case Err(e) => Fail(e)
      case Ok(previous) =>
        var updated := Reconciled(previous, categories, onlyExisting);
        if updated != previous then Run([Write(file + suffix, LanguageFileContent(s.categoryPrefix, s.sortEmptyFirst, updated))], None)
        else Done
    else if onlyExisting then Done
    else Run([Write(file + suffix, LanguageFileContent(s.categoryPrefix, s.sortEmptyFirst, categories))], None)
  }

  /** The runs saving the given languages of the data, in the given order. */
  function LanguageSteps(disk: Disk, s: FlatSettings, realPath: string, data: Catalog, languages: seq<string>,
                         onlyExisting: bool, suffix: string): (r: seq<Run>)
    requires forall l | l in languages :: l in data
    ensures |r| == |languages|
  {
    seq(|languages|, i requires 0 <= i < |languages| =>
      SaveLanguage(disk, s, realPath, languages[i], data[languages[i]], onlyExisting, suffix))
  }

  /** The languages of the data in the order they are saved, each with its run. */
  function SaveSteps(disk: Disk, s: FlatSettings, realPath: string, data: Catalog, onlyExisting: bool, suffix: string): (r: seq<Run>)
    ensures |r| == |data|
  {
    LanguageSteps(disk, s, realPath, data, SortedKeys(data.Keys), onlyExisting, suffix)
  }

  /** saveAllTranslations: resolve the path, then save every language until one fails. */
  function SaveAll(disk: Disk, s: FlatSettings, data: Catalog, onlyExisting: bool, suffix: string): Run
  {
    match RealPath(disk, s.path)
    case Err(e) => Fail(e)
    case Ok(realPath) => Sequence(SaveSteps(disk, s, realPath, data, onlyExisting, suffix))
  }

  /** A rewrite by import: the language's file exists, loads, and the update changes it. */
  predicate ImportedWrite(disk: Disk, s: FlatSettings, realPath: string, language: string, categories: Categories,
                          suffix: string, w: Write)
  {
    var file := LanguageFilePath(realPath, language, s.extension);
    && file in disk.files
    && LoadLanguage(disk, s.categoryPrefix, file).Ok?
    && var previous := LoadLanguage(disk, s.categoryPrefix, file).value;
    && UpdateCategories(previous, categories) != previous
    && w == Write(file + suffix, LanguageFileContent(s.categoryPrefix, s.sortEmptyFirst, UpdateCategories(previous, categories)))
  }

  /** Import never creates a file: every write rewrites an existing language file the update changes. */
  lemma ImportRewritesOnlyExisting(disk: Disk, s: FlatSettings, data: Catalog, suffix: string)
    ensures forall w | w in SaveAll(disk, s, data, true, suffix).writes ::
      s.path in disk.realPaths &&
      exists l | l in data :: ImportedWrite(disk, s, disk.realPaths[s.path], l, data[l], suffix, w)
  {
    if s.path in disk.realPaths {
      var realPath := disk.realPaths[s.path];
      var languages := SortedKeys(data.Keys);
      var steps := LanguageSteps(disk, s, realPath, data, languages, true, suffix);
      assert SaveAll(disk, s, data, true, suffix) == Sequence(steps);
      SequenceWrites(steps);
      forall w | w in Sequence(steps).writes
        ensures exists l | l in data :: ImportedWrite(disk, s, realPath, l, data[l], suffix, w)
      {
        var i :| 0 <= i < |steps| && w in steps[i].writes;
        ImportedLanguage(disk, s, realPath, languages[i], data[languages[i]], suffix, steps[i], w);
      }
    }
  }

  /** A write of one language's import run rewrites that language's existing file. */
  lemma ImportedLanguage(disk: Disk, s: FlatSettings, realPath: string, language: string, categories: Categories,
                         suffix: string, run: Run, w: Write)
    requires run == SaveLanguage(disk, s, realPath, language, categories, true, suffix)
    requires w in run.writes
    ensures ImportedWrite(disk, s, realPath, language, categories, suffix, w)
  {
  }

  /** What export leaves for one language: the data written where there was no file, the filled data where filling changed it. */
  predicate Exported(disk: Disk, s: FlatSettings, realPath: string, language: string, categories: Categories,
                     suffix: string, writes: seq<Write>)
  {
    var file := LanguageFilePath(realPath, language, s.extension);
    if file !in disk.files then
      Write(file + suffix, LanguageFileContent(s.categoryPrefix, s.sortEmptyFirst, categories)) in writes
    else
      && LoadLanguage(disk, s.categoryPrefix, file).Ok?
      && var previous := LoadLanguage(disk, s.categoryPrefix, file).value;
      && (FillCategories(categories, previous) != previous ==>
          Write(file + suffix, LanguageFileContent(s.categoryPrefix, s.sortEmptyFirst, FillCategories(categories, previous))) in writes)
  }

  /** A successful export saves every language of the data. */
  lemma ExportWritesEveryLanguage(disk: Disk, s: FlatSettings, data: Catalog, suffix: string)
    requires SaveAll(disk, s, data, false, suffix).failure.None?
    ensures s.path in disk.realPaths
    ensures forall l | l in data :: Exported(disk, s, disk.realPaths[s.path], l, data[l], suffix, SaveAll(disk, s, data, false, suffix).writes)
  {
    var realPath := disk.realPaths[s.path];
    var languages := SortedKeys(data.Keys);
    var steps := LanguageSteps(disk, s, realPath, data, languages, false, suffix);
    assert SaveAll(disk, s, data, false, suffix) == Sequence(steps);
    SequenceSucceeds(steps);
    var writes := Sequence(steps).writes;
    forall l | l in data ensures Exported(disk, s, realPath, l, data[l], suffix, writes) {
      var i := IndexOf(languages, l);
      ExportedLanguage(disk, s, realPath, l, data[l], suffix, steps[i], writes);
    }
  }

  /** Where a member of a sequence sits. */
  lemma IndexOf(names: seq<string>, c: string) returns (i: nat)
    requires c in names
    ensures i < |names| && names[i] == c
  {
    i :| 0 <= i < |names| && names[i] == c;
  }

  /** One language's export run, found among the writes, leaves what Exported describes. */
  lemma ExportedLanguage(disk: Disk, s: FlatSettings, realPath: string, language: string, categories: Categories,
                         suffix: string, run: Run, writes: seq<Write>)
    requires run == SaveLanguage(disk, s, realPath, language, categories, false, suffix)
    requires run.failure.None? && forall w | w in run.writes :: w in writes
    ensures Exported(disk, s, realPath, language, categories, suffix, writes)
  {
  }

  /** One language fails only when its file exists and does not load, with the loader's error. */
  lemma SaveLanguageFailure(disk: Disk, s: FlatSettings, realPath: string, language: string, categories: Categories,
                            onlyExisting: bool, suffix: string)
    requires SaveLanguage(disk, s, realPath, language, categories, onlyExisting, suffix).failure.Some?
    ensures
      var file := LanguageFilePath(realPath, language, s.extension);
      file in disk.files &&
      LoadLanguage(disk, s.categoryPrefix, file) == Err(SaveLanguage(disk, s, realPath, language, categories, onlyExisting, suffix).failure.value)
  {
  }

  /** A save fails only on a missing path or on an existing language file that does not load, with that error. */
  lemma SaveFailure(disk: Disk, s: FlatSettings, data: Catalog, onlyExisting: bool, suffix: string)
    requires SaveAll(disk, s, data, onlyExisting, suffix).failure.Some?
    ensures
      var failure := SaveAll(disk, s, data, onlyExisting, suffix).failure.value;
      || (s.path !in disk.realPaths && failure == Runtime("Cannot check path: " + s.path))
      || (s.path in disk.realPaths && exists l | l in data ::
            var file := LanguageFilePath(disk.realPaths[s.path], l, s.extension);
            file in disk.files && LoadLanguage(disk, s.categoryPrefix, file) == Err(failure))
  {
    if s.path in disk.realPaths {
      var realPath := disk.realPaths[s.path];
      var languages := SortedKeys(data.Keys);
      var steps := SaveSteps(disk, s, realPath, data, onlyExisting, suffix);
      SequenceFails(steps);
      var i :| 0 <= i < |steps| && steps[i].failure == Sequence(steps).failure;
      assert steps[i] == SaveLanguage(disk, s, realPath, languages[i], data[languages[i]], onlyExisting, suffix);
      SaveLanguageFailure(disk, s, realPath, languages[i], data[languages[i]], onlyExisting, suffix);
    }
  }

  /** One language of the save loop, recorded in the file system's log. */
  method SaveLanguageFile(fs: FileSystem, s: FlatSettings, realPath: string, language: string, categories: Categories,
                          onlyExisting: bool, suffix: string, ghost run: Run) returns (failure: Option<Error>)
    requires run == SaveLanguage(fs.disk, s, realPath, language, categories, onlyExisting, suffix)
    modifies fs
    ensures fs.log == old(fs.log) + run.writes
    ensures failure == run.failure
  {
    var file := LanguageFilePath(realPath, language, s.extension);
    if file in fs.disk.files {
      var previous := LoadLanguageFromFile(fs.disk, s.categoryPrefix, file);
      if previous.Err? {
        return Some(previous.error);
      }
      var updated;
      if onlyExisting {
        updated := UpdateTranslationsArray(previous.value, categories);
      } else {
        updated := FillTranslationsArray(categories, previous.value);
      }
      if updated != previous.value {
        SaveLanguageToFile(fs, file + suffix, s.categoryPrefix, s.sortEmptyFirst, updated);
      }
    } else if !onlyExisting {
      SaveLanguageToFile(fs, file + suffix, s.categoryPrefix, s.sortEmptyFirst, categories);
    }
    return None;
  }

  /** The loop of saveAllTranslations over the languages of the data, in the order given. */
  method SaveLanguages(fs: FileSystem, s: FlatSettings, realPath: string, data: Catalog, languages: seq<string>,
                       onlyExisting: bool, suffix: string) returns (failure: Option<Error>)
    requires forall l | l in languages :: l in data
    modifies fs
    ensures fs.log == old(fs.log) + Sequence(LanguageSteps(fs.disk, s, realPath, data, languages, onlyExisting, suffix)).writes
    ensures failure == Sequence(LanguageSteps(fs.disk, s, realPath, data, languages, onlyExisting, suffix)).failure
  {
    ghost var steps := LanguageSteps(fs.disk, s, realPath, data, languages, onlyExisting, suffix);
    var i := 0;
    while i < |languages|
      invariant 0 <= i <= |languages|
      invariant fs.log == old(fs.log) + Sequence(steps[..i]).writes
      invariant Sequence(steps[..i]).failure.None?
    {
      var language := languages[i];
      ghost var before := fs.log;
      failure := SaveLanguageFile(fs, s, realPath, language, data[language], onlyExisting, suffix, steps[i]);
      SequenceStep(steps, i, old(fs.log), before, fs.log);
      if failure.Some? {
        SequenceFailsAt(steps, i);
        return;
      }
      i := i + 1;
    }
    assert steps[..i] == steps;
    return None;
  }

  method SaveAllTranslations(fs: FileSystem, s: FlatSettings, data: Catalog, onlyExisting: bool, suffix: string)
    returns (failure: Option<Error>)
    modifies fs
    ensures fs.log == old(fs.log) + SaveAll(fs.disk, s, data, onlyExisting, suffix).writes
    ensures failure == SaveAll(fs.disk, s, data, onlyExisting, suffix).failure
  {
    var realPath := RealPath(fs.disk, s.path);
    if realPath.Err? {
      return Some(realPath.error);
    }
    failure := SaveLanguages(fs, s, realPath.value, data, SortedKeys(data.Keys), onlyExisting, suffix);
  }
}
