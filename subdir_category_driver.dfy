/**
 * The legacy SubdirCategoryDriver: the layout of BaseSubdirCategoryDriver
 * with JSON files, messages written in the order they are stored, and no
 * category prefix option. The class mixes in only the JSON helpers, yet its
 * loader calls stripCategoryPrefix and its saver reads categoryPrefix; a
 * yii Component answers both with an exception (UnknownMethodException,
 * UnknownPropertyException). The functions below model the class as
 * written; Corrected gives the evidently intended driver, which is the
 * subdirectory driver with the empty prefix.
 */
module SubdirCategoryDriver {
  import opened Wrappers
  import opened Ordering
  import opened StringUtils
  import opened Errors
  import opened Catalogs
  import opened Disk
  import opened BaseSubdirCategoryDriver

  datatype LegacySettings = LegacySettings(path: string, extension: string)

  /** The intended driver: JSON category files, no prefix (stripping keeps the name), no sorting. */
  function Corrected(s: LegacySettings): SubdirSettings
  {
    SubdirSettings(s.path, s.extension, false, "", JsonCodec, false)
  }

  // ---- loadAllTranslations as written ----

  /** The loop as written: the first file that names a language and a category raises once its messages load. */
  function LoadFilesAsWritten(disk: Disk, s: LegacySettings, basePath: string, files: seq<string>): Result<Catalog, Error>
    decreases |files|
  {
    if files == [] then Ok(map[])
    else
      match ParsePathParts(files[0], basePath, s.extension)
      case Err(e) => Err(e)
      case Ok(parts) =>
        if parts.None? || PhpFalsy(parts.value.0) || PhpFalsy(parts.value.1) then LoadFilesAsWritten(disk, s, basePath, files[1..])
        else
          match LoadTranslations(disk, JsonCodec, files[0])
          case Err(e) => Err(e)
          case Ok(_) => Err(UnknownMember("stripCategoryPrefix"))
  }

  function LoadAllAsWritten(disk: Disk, s: LegacySettings): Result<Catalog, Error>
  {
    match RealPath(disk, s.path)
    case Err(e) => Err(e)
    case Ok(realPath) =>
      match FindFiles(disk, realPath, "*." + s.extension, true)
      case Err(e) => Err(e)
      case Ok(files) => LoadFilesAsWritten(disk, s, BasePath(realPath), files)
  }

  /** As written, a load that succeeds has loaded nothing. */
  lemma {:induction false} LoadsNothing(disk: Disk, s: LegacySettings, basePath: string, files: seq<string>)
    requires LoadFilesAsWritten(disk, s, basePath, files).Ok?
    ensures LoadFilesAsWritten(disk, s, basePath, files).value == map[]
    decreases |files|
  {
    if files != [] {
      LoadsNothing(disk, s, basePath, files[1..]);
    }
  }

  /**
   * Wherever the intended driver loads a category, the driver as written
   * raises instead.
   */
  lemma {:induction false} LoadFailsWhereCorrectedLoads(disk: Disk, s: LegacySettings, basePath: string, files: seq<string>,
                                                        acc: Catalog)
    requires LoadFiles(disk, Corrected(s), basePath, files, acc).Ok?
    requires exists i | 0 <= i < |files| :: FileCategory(Corrected(s), basePath, files[i]).Some?
    ensures LoadFilesAsWritten(disk, s, basePath, files) == Err(UnknownMember("stripCategoryPrefix"))
    decreases |files|
  {
    var c := Corrected(s);
    LoadFilesUnfold(disk, c, basePath, files, acc);
    if FileCategory(c, basePath, files[0]).None? {
      var i :| 0 <= i < |files| && FileCategory(c, basePath, files[i]).Some?;
      assert files[1..][i - 1] == files[i];
      LoadFailsWhereCorrectedLoads(disk, s, basePath, files[1..], NextAcc(disk, c, basePath, files[0], acc));
    }
  }

  /** One turn of the loop as written. */
  lemma LoadFilesAsWrittenStep(disk: Disk, s: LegacySettings, basePath: string, files: seq<string>)
    requires files != []
    ensures var parts := ParsePathParts(files[0], basePath, s.extension);
      LoadFilesAsWritten(disk, s, basePath, files) ==
        if parts.Err? then Err(parts.error)
        else if parts.value.None? || PhpFalsy(parts.value.value.0) || PhpFalsy(parts.value.value.1) then
          LoadFilesAsWritten(disk, s, basePath, files[1..])
        else if LoadTranslations(disk, JsonCodec, files[0]).Err? then Err(LoadTranslations(disk, JsonCodec, files[0]).error)
        else Err(UnknownMember("stripCategoryPrefix"))
  {
  }

  /** The loop over the listed files, as written. */
  method LoadListedFiles(disk: Disk, s: LegacySettings, basePath: string, files: seq<string>) returns (r: Result<Catalog, Error>)
    ensures r == LoadFilesAsWritten(disk, s, basePath, files)
  {
    var i := 0;
    while i < |files|
      invariant 0 <= i <= |files|
      invariant LoadFilesAsWritten(disk, s, basePath, files[i..]) == LoadFilesAsWritten(disk, s, basePath, files)
    {
      LoadFilesAsWrittenStep(disk, s, basePath, files[i..]);
      assert files[i..][1..] == files[i + 1..];
      var parts := ParsePathParts(files[i], basePath, s.extension);
      if parts.Err? {
        return Err(parts.error);
      }
      if parts.value.Some? && !PhpFalsy(parts.value.value.0) && !PhpFalsy(parts.value.value.1) {
        var translations := LoadTranslationsFromFile(disk, JsonCodec, files[i]);
        if translations.Err? {
          return Err(translations.error);
        }
        return Err(UnknownMember("stripCategoryPrefix"));
      }
      i := i + 1;
    }
    return Ok(map[]);
  }

  method LoadAllTranslations(disk: Disk, s: LegacySettings) returns (r: Result<Catalog, Error>)
    ensures r == LoadAllAsWritten(disk, s)
  {
    var realPath := RealPath(disk, s.path);
    if realPath.Err? {
      return Err(realPath.error);
    }
    var listed := FindFiles(disk, realPath.value, "*." + s.extension, true);
    if listed.Err? {
      return Err(listed.error);
    }
    r := LoadListedFiles(disk, s, BasePath(realPath.value), listed.value);
  }

  // ---- saveAllTranslations as written ----

  /** As written: the first category of any language raises before anything is written. */
  function SaveAllAsWritten(disk: Disk, s: LegacySettings, data: Catalog, onlyExisting: bool, suffix: string): Run
  {
    match RealPath(disk, s.path)
    case Err(e) => Fail(e)
    case Ok(_) => if exists l | l in data :: data[l] != map[] then Fail(UnknownMember("categoryPrefix")) else Done
  }

  /** As written, save never reaches a write: it fails, or there was no category to write. */
  lemma SaveAsWrittenWritesNothing(disk: Disk, s: LegacySettings, data: Catalog, onlyExisting: bool, suffix: string)
    ensures SaveAllAsWritten(disk, s, data, onlyExisting, suffix).writes == []
    ensures SaveAllAsWritten(disk, s, data, onlyExisting, suffix).failure.None? <==>
      s.path in disk.realPaths && forall l | l in data :: data[l] == map[]
  {
  }

  method SaveAllTranslations(disk: Disk, s: LegacySettings, data: Catalog, onlyExisting: bool, suffix: string)
    returns (failure: Option<Error>)
    ensures failure == SaveAllAsWritten(disk, s, data, onlyExisting, suffix).failure
  {
    var realPath := RealPath(disk, s.path);
    if realPath.Err? {
      return Some(realPath.error);
    }
    var languages := SortedKeys(data.Keys);
    var i := 0;
    while i < |languages|
      invariant 0 <= i <= |languages|
      invariant forall j | 0 <= j < i :: data[languages[j]] == map[]
    {
      if data[languages[i]] != map[] {
        return Some(UnknownMember("categoryPrefix"));
      }
      i := i + 1;
    }
    assert forall l | l in data :: data[l] == map[] by {
      forall l | l in data ensures data[l] == map[] {
        var j := IndexOf(languages, l);
      }
    }
    return None;
  }

  /**
   * Wherever the intended driver exports a category, the driver as written
   * raises without writing anything.
   */
  lemma ExportFailsWhereCorrectedWrites(disk: Disk, s: LegacySettings, data: Catalog, suffix: string, l: string, c: string)
    requires s.path in disk.realPaths && l in data && c in data[l]
    ensures SaveAllAsWritten(disk, s, data, false, suffix) == Fail(UnknownMember("categoryPrefix"))
    ensures SaveAll(disk, Corrected(s), data, false, suffix).failure.None?
    ensures ExportWrite(Corrected(s), disk.realPaths[s.path], l, c, data[l][c], suffix) in SaveAll(disk, Corrected(s), data, false, suffix).writes
  {
    assert data[l] != map[] by {
      assert c in data[l];
    }
    ExportWritesEveryCategory(disk, Corrected(s), data, suffix);
  }

  // ---- the intended driver ----

  /**
   * Round trip of the intended driver: the file it writes for a category is
   * loaded back as that language and category, with the saved messages.
   */
  lemma CorrectedRoundTrip(s: LegacySettings, realPath: string, l: string, c: string, messages: Messages, disk: Disk)
    requires realPath != [] && realPath[|realPath| - 1] != '/' && realPath[|realPath| - 1] != '\\'
    requires !PhpFalsy(l) && '/' !in l && '\\' !in l && '\\' !in s.extension
    requires !PhpFalsy(c) && '\\' !in c && c[|c| - 1] != '/'
    requires var file := CategoryFilePath(realPath, l, "", c, s.extension);
      file in disk.files && disk.files[file] == Decoded(MessagesContent(Corrected(s), messages))
    ensures var file := CategoryFilePath(realPath, l, "", c, s.extension);
      && FileCategory(Corrected(s), BasePath(realPath), file) == Some((l, c))
      && LoadTranslations(disk, JsonCodec, file) == Ok(messages)
  {
    assert "" + c == c;
    FileCategoryOfSavedFile(Corrected(s), realPath, l, c);
    SaveThenLoad(disk, Corrected(s), CategoryFilePath(realPath, l, "", c, s.extension), messages);
  }

  lemma StringsOfOne(k: string, v: string)
    ensures AllStrings(map[k := Str(v)]) && StringsOf(map[k := Str(v)]) == map[k := v]
  {
  }

  /** A tree holding one category file with one message: the load as written raises, the intended load reads it. */
  lemma OneFileTree(s: LegacySettings, realPath: string, l: string, c: string, k: string, v: string, disk: Disk)
    requires realPath != [] && realPath[|realPath| - 1] != '/' && realPath[|realPath| - 1] != '\\'
    requires !PhpFalsy(l) && '/' !in l && '\\' !in l && '\\' !in s.extension
    requires !PhpFalsy(c) && '\\' !in c && c[|c| - 1] != '/'
    requires disk == OneFile(s, realPath, CategoryFilePath(realPath, l, "", c, s.extension), k, v)
    ensures LoadAllAsWritten(disk, s) == Err(UnknownMember("stripCategoryPrefix"))
    ensures LoadAll(disk, Corrected(s)) == Ok(map[l := map[c := map[k := v]]])
  {
    var file := CategoryFilePath(realPath, l, "", c, s.extension);
    assert "" + c == c;
    FileCategoryOfSavedFile(Corrected(s), realPath, l, c);
    OneFileDisk(s, realPath, file, k, v, disk);
    OneListedFileLoads(disk, s, realPath, file, l, c, map[k := v]);
    OneListedFileRaises(disk, s, realPath, file, l, c, map[k := v]);
  }

  /** The tree with one file holding one message, the listing of the messages directory naming just that file. */
  function OneFile(s: LegacySettings, realPath: string, file: string, k: string, v: string): Disk
  {
    Disk(map[file := Arr(map[k := Str(v)])], map[s.path := realPath], map[Listing(realPath, "*." + s.extension, true) := [file]])
  }

  /** What the one-file tree answers. */
  lemma OneFileDisk(s: LegacySettings, realPath: string, file: string, k: string, v: string, disk: Disk)
    requires disk == OneFile(s, realPath, file, k, v)
    ensures RealPath(disk, s.path) == Ok(realPath)
    ensures FindFiles(disk, realPath, "*." + s.extension, true) == Ok([file])
    ensures LoadTranslations(disk, JsonCodec, file) == Ok(map[k := v])
  {
    StringsOfOne(k, v);
  }

  /** A tree whose listing is one file, loaded as category c of language l: the intended driver reads it. */
  lemma OneListedFileLoads(disk: Disk, s: LegacySettings, realPath: string, file: string, l: string, c: string, m: Messages)
    requires RealPath(disk, s.path) == Ok(realPath)
    requires FindFiles(disk, realPath, "*." + s.extension, true) == Ok([file])
    requires FileCategory(Corrected(s), BasePath(realPath), file) == Some((l, c))
    requires LoadTranslations(disk, JsonCodec, file) == Ok(m)
    ensures LoadFiles(disk, Corrected(s), BasePath(realPath), [file], map[]) == Ok(map[l := map[c := m]])
    ensures LoadAll(disk, Corrected(s)) == Ok(map[l := map[c := m]])
  {
    assert [file][1..] == [];
    assert Store(map[], l, c, m) == map[l := map[c := m]];
  }

  /** The same tree: the driver as written raises. */
  lemma OneListedFileRaises(disk: Disk, s: LegacySettings, realPath: string, file: string, l: string, c: string, m: Messages)
    requires RealPath(disk, s.path) == Ok(realPath)
    requires FindFiles(disk, realPath, "*." + s.extension, true) == Ok([file])
    requires FileCategory(Corrected(s), BasePath(realPath), file) == Some((l, c))
    requires LoadTranslations(disk, JsonCodec, file) == Ok(m)
    ensures LoadAllAsWritten(disk, s) == Err(UnknownMember("stripCategoryPrefix"))
  {
    OneListedFileLoads(disk, s, realPath, file, l, c, m);
    assert FileCategory(Corrected(s), BasePath(realPath), [file][0]).Some?;
    LoadFailsWhereCorrectedLoads(disk, s, BasePath(realPath), [file], map[]);
  }

  /** The tree with the single file ru/app.json under the messages directory shows both halves. */
  lemma LoadCounterexample()
    ensures
      var file := "/m/ru/app.json";
      var disk := Disk(map[file := Arr(map["Hi" := Str("Privet")])], map["@app/messages" := "/m"],
                       map[Listing("/m", "*.json", true) := [file]]);
      var s := LegacySettings("@app/messages", "json");
      && LoadAllAsWritten(disk, s) == Err(UnknownMember("stripCategoryPrefix"))
      && LoadAll(disk, Corrected(s)) == Ok(map["ru" := map["app" := map["Hi" := "Privet"]]])
  {
    var s := LegacySettings("@app/messages", "json");
    CounterexampleFile();
    OneFileTree(s, "/m", "ru", "app", "Hi", "Privet", OneFile(s, "/m", "/m/ru/app.json", "Hi", "Privet"));
  }

  /** Where the intended driver keeps category app of language ru under /m. */
  lemma CounterexampleFile()
    ensures CategoryFilePath("/m", "ru", "", "app", "json") == "/m/ru/app.json"
    ensures "*." + "json" == "*.json"
  {
    assert "" + "app" == "app";
    NormalizeFixed("app");
  }
}
