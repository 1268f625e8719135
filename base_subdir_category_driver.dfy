/**
 * BaseSubdirCategoryDriver with its two codecs: one file
 * <language>/<category>.<extension> per category, holding that category's
 * messages. A category with '/' in its name lives in nested directories.
 * Loading lists the tree recursively and reads language and category off
 * each path; saving writes one file per category of the data.
 */
module BaseSubdirCategoryDriver {
  import opened Wrappers
  import opened Ordering
  import opened StringUtils
  import opened Errors
  import opened Catalogs
  import opened DataUtils
  import opened CategoryUtils
  import opened Disk

  /** How a file is read: SubdirCategoryJsonDriver decodes JSON, SubdirCategoryPhpDriver includes a PHP file. */
  datatype Codec = JsonCodec | PhpCodec

  /**
   * The options of a subdirectory driver. sortsOnSave holds for the drivers
   * built on BaseSubdirCategoryDriver, whose saves sort the messages; the
   * legacy SubdirCategoryDriver writes them as they are.
   */
  datatype SubdirSettings = SubdirSettings(
    path: string,
    extension: string,
    sortEmptyFirst: bool,
    categoryPrefix: string,
    codec: Codec,
    sortsOnSave: bool)

  // ---- loadTranslationsFromFile ----

  /**
   * One category file: an unreadable JSON file is an InvalidArgumentException;
   * a PHP file that is missing or does not return an array, a JSON file
   * that is not an object, and any value that is not a string are
   * SourceDataExceptions.
   */
  function LoadTranslations(disk: Disk, codec: Codec, file: string): (r: Result<Messages, Error>)
    ensures r.Ok? <==> file in disk.files && disk.files[file].Arr? && AllStrings(disk.files[file].entries)
    ensures r.Ok? ==> r.value == StringsOf(disk.files[file].entries)
    ensures codec == JsonCodec && file !in disk.files ==> r == Err(InvalidArgument("Cannot read file"))
    ensures (codec == PhpCodec || file in disk.files) && r.Err? ==> r == Err(SourceData)
  {
    var decoded :=
      if codec == JsonCodec then LoadJsonFile(disk, file)
      else if file in disk.files && disk.files[file].Arr? then Ok(disk.files[file].entries)
      else Err(SourceData);
    match decoded
    case Err(e) => Err(e)
    case Ok(entries) => if AllStrings(entries) then Ok(StringsOf(entries)) else Err(SourceData)
  }

  method LoadTranslationsFromFile(disk: Disk, codec: Codec, file: string) returns (r: Result<Messages, Error>)
    ensures r == LoadTranslations(disk, codec, file)
  {
    var decoded: Result<map<string, Value>, Error>;
    if codec == JsonCodec {
      decoded := LoadJsonFile(disk, file);
    } else if file in disk.files && disk.files[file].Arr? {
      decoded := Ok(disk.files[file].entries);
    } else {
      decoded := Err(SourceData);
    }
    if decoded.Err? {
      return Err(decoded.error);
    }
    var entries := decoded.value;
    var left := entries.Keys;
    while left != {}
      invariant left <= entries.Keys
      invariant forall m | m in entries && m !in left :: entries[m].Str?
      decreases |left|
    {
      var message := Least(left);
      left := left - {message};
      if !entries[message].Str? {
        return Err(SourceData);
      }
    }
    return Ok(StringsOf(entries));
  }

  // ---- parsePathParts ----

  /** What a listed path names once ".<extension>", when it ends the path, is removed. */
  function Stem(sub: string, extension: string): string
  {
    if EndsWith(sub, "." + extension) then sub[..|sub| - |"." + extension|] else sub
  }

  /** explode('/', s, 2) rejoined gives s back. */
  lemma SplitAtFirstSlashJoins(s: string)
    ensures var parts := SplitAtFirstSlash(s);
      '/' !in parts.0 && (s == parts.0 + "/" + parts.1 || (s == parts.0 && parts.1 == ""))
  {
    var parts := SplitAtFirstSlash(s);
    if parts.0 != s {
      assert s == s[..|parts.0|] + [s[|parts.0|]] + s[|parts.0| + 1..];
    }
  }

  /**
   * parsePathParts: the file must lie under the base path; a bare
   * ".<extension>" name gives nothing; otherwise the first directory is the
   * language and the rest, without ".<extension>", the category.
   */
  function ParsePathParts(file: string, basePath: string, extension: string): (r: Result<Option<(string, string)>, Error>)
    ensures r.Err? <==> !StartsWith(Normalize(file), basePath)
    ensures r.Err? ==> r.error == InvalidArgument("File outside of base path")
    ensures r == Ok(None) <==>
      && StartsWith(Normalize(file), basePath)
      && var sub := Normalize(file)[|basePath|..];
      && EndsWith(sub, "." + extension)
      && (Stem(sub, extension) == "" || EndsWith(Stem(sub, extension), "/"))
    ensures r.Ok? && r.value.Some? ==>
      var stem := Stem(Normalize(file)[|basePath|..], extension);
      var language := r.value.value.0;
      var category := r.value.value.1;
      '/' !in language && (stem == language + "/" + category || (stem == language && category == ""))
  {
    var path := Normalize(file);
    if !StartsWith(path, basePath) then Err(InvalidArgument("File outside of base path"))
    else
      var sub := path[|basePath|..];
      var stem := Stem(sub, extension);
      if EndsWith(sub, "." + extension) && (stem == "" || EndsWith(stem, "/")) then Ok(None)
      else
        SplitAtFirstSlashJoins(stem);
        Ok(Some(SplitAtFirstSlash(stem)))
  }

  /** The file saveAllTranslations writes a category of a language to. */
  function CategoryFilePath(realPath: string, language: string, prefix: string, category: string, extension: string): string
  {
    realPath + "/" + language + "/" + Normalize(prefix + category) + "." + extension
  }

  /** A language directory and a name with the extension, under a normalised base path, parse to that pair. */
  lemma ParseNameUnderBase(basePath: string, language: string, name: string, extension: string)
    requires '\\' !in basePath && '\\' !in extension
    requires '/' !in language && '\\' !in language
    requires name != "" && '\\' !in name && name[|name| - 1] != '/'
    ensures ParsePathParts(basePath + language + "/" + name + "." + extension, basePath, extension) == Ok(Some((language, name)))
    ensures Normalize(basePath + language + "/" + name + "." + extension) == basePath + language + "/" + name + "." + extension
  {
    var dotExtension := "." + extension;
    var stem := language + "/" + name;
    var tail := stem + dotExtension;
    var path := basePath + language + "/" + name + "." + extension;
    assert path == basePath + tail;
    NormalizeFixed(path);
    assert path[|basePath|..] == tail;
    assert Stem(tail, extension) == stem;
    assert stem[|stem| - 1] == name[|name| - 1];
    SplitAtFirstSlashOfJoin(language, name);
  }

  /** Only the separator-normalised path matters to the parser. */
  lemma ParseSeesNormalized(a: string, b: string, basePath: string, extension: string)
    requires Normalize(a) == Normalize(b)
    ensures ParsePathParts(a, basePath, extension) == ParsePathParts(b, basePath, extension)
  {
  }

  /** A category path, normalised, is the base path followed by language, name and extension. */
  lemma CategoryFileNormalized(realPath: string, language: string, prefix: string, category: string, extension: string)
    requires realPath != [] && realPath[|realPath| - 1] != '/' && realPath[|realPath| - 1] != '\\'
    requires '\\' !in language && '\\' !in extension
    ensures var name := Normalize(prefix + category);
      Normalize(CategoryFilePath(realPath, language, prefix, category, extension)) == BasePath(realPath) + language + "/" + name + "." + extension
    ensures '\\' !in BasePath(realPath) && '\\' !in Normalize(prefix + category)
  {
    var name := Normalize(prefix + category);
    var tail := language + "/" + name + "." + extension;
    assert CategoryFilePath(realPath, language, prefix, category, extension) == realPath + "/" + tail;
    NormalizeUnderPath(realPath, tail);
    assert BasePath(realPath) + tail == BasePath(realPath) + language + "/" + name + "." + extension;
  }

  /**
   * Round trip of the layout: the file a category is saved to parses back
   * to the language and the prefixed category, its '\' turned into '/'.
   */
  lemma ParseCategoryFilePath(realPath: string, language: string, prefix: string, category: string, extension: string)
    requires realPath != [] && realPath[|realPath| - 1] != '/' && realPath[|realPath| - 1] != '\\'
    requires '/' !in language && '\\' !in language && '\\' !in extension
    requires prefix + category != "" && (prefix + category)[|prefix + category| - 1] != '/'
    requires (prefix + category)[|prefix + category| - 1] != '\\'
    ensures ParsePathParts(CategoryFilePath(realPath, language, prefix, category, extension), BasePath(realPath), extension)
      == Ok(Some((language, Normalize(prefix + category))))
  {
    var base := BasePath(realPath);
    var name := Normalize(prefix + category);
    var file := CategoryFilePath(realPath, language, prefix, category, extension);
    var full := base + language + "/" + name + "." + extension;
    CategoryFileNormalized(realPath, language, prefix, category, extension);
    NormalizedLast(prefix + category);
    ParseNameUnderBase(base, language, name, extension);
    ParseSeesNormalized(file, full, base, extension);
  }

  /** Normalising keeps a name non-empty and keeps a last character that is neither separator. */
  lemma NormalizedLast(s: string)
    requires s != [] && s[|s| - 1] != '/' && s[|s| - 1] != '\\'
    ensures Normalize(s) != [] && Normalize(s)[|Normalize(s)| - 1] != '/'
  {
  }

  // ---- loadAllTranslations ----

  /** The (language, category) a listed file is loaded as: parts PHP takes as true, the category without the prefix. */
  function FileCategory(s: SubdirSettings, basePath: string, file: string): Option<(string, string)>
  {
    match ParsePathParts(file, basePath, s.extension)
    case Ok(Some(parts)) =>
      if PhpFalsy(parts.0) || PhpFalsy(parts.1) then None
      else
        (match StripCategoryPrefix(s.categoryPrefix, parts.1)
         case Ok(category) => Some((parts.0, category))
         case Err(_) => None)
    case _ => None
  }

  /** The saved file of a category is loaded as that very language and category. */
  lemma FileCategoryOfSavedFile(s: SubdirSettings, realPath: string, language: string, category: string)
    requires realPath != [] && realPath[|realPath| - 1] != '/' && realPath[|realPath| - 1] != '\\'
    requires !PhpFalsy(language) && '/' !in language && '\\' !in language && '\\' !in s.extension
    requires '\\' !in s.categoryPrefix + category && !PhpFalsy(s.categoryPrefix + category)
    requires (s.categoryPrefix + category)[|s.categoryPrefix + category| - 1] != '/'
    ensures FileCategory(s, BasePath(realPath), CategoryFilePath(realPath, language, s.categoryPrefix, category, s.extension))
      == Some((language, category))
  {
    var prefixed := s.categoryPrefix + category;
    ParseCategoryFilePath(realPath, language, s.categoryPrefix, category, s.extension);
    NormalizeFixed(prefixed);
    StripAfterPrefixing(s.categoryPrefix, category);
  }

  /** $data[$language][$category] = $messages. */
  function Store(data: Catalog, language: string, category: string, messages: Messages): Catalog
  {
    data[language := (if language in data then data[language] else map[])[category := messages]]
  }

  /** The loop of loadAllTranslations over the listed files still to do, in listing order. */
  function LoadFiles(disk: Disk, s: SubdirSettings, basePath: string, files: seq<string>, acc: Catalog): Result<Catalog, Error>
    decreases |files|
  {
    if files == [] then Ok(acc)
    else
      match ParsePathParts(files[0], basePath, s.extension)
      case Err(e) => Err(e)
      case Ok(parts) =>
        if parts.None? || PhpFalsy(parts.value.0) || PhpFalsy(parts.value.1) then LoadFiles(disk, s, basePath, files[1..], acc)
        else
          match LoadTranslations(disk, s.codec, files[0])
          case Err(e) => Err(e)
          case Ok(messages) =>
            match StripCategoryPrefix(s.categoryPrefix, parts.value.1)
            case Err(e) => Err(e)
            case Ok(category) => LoadFiles(disk, s, basePath, files[1..], Store(acc, parts.value.0, category, messages))
  }

  /** loadAllTranslations: resolve the path, list "*.<extension>" recursively, load every category file. */
  function LoadAll(disk: Disk, s: SubdirSettings): Result<Catalog, Error>
  {
    match RealPath(disk, s.path)
    case Err(e) => Err(e)
    case Ok(realPath) =>
      match FindFiles(disk, realPath, "*." + s.extension, true)
      case Err(e) => Err(e)
      case Ok(files) => LoadFiles(disk, s, BasePath(realPath), files, map[])
  }

  /** The step of the loop for the first file, when it loads. */
  function NextAcc(disk: Disk, s: SubdirSettings, basePath: string, file: string, acc: Catalog): Catalog
  {
    match FileCategory(s, basePath, file)
    case None => acc
    case Some(lc) =>
      match LoadTranslations(disk, s.codec, file)
      case Err(_) => acc
      case Ok(messages) => Store(acc, lc.0, lc.1, messages)
  }

  lemma LoadFilesUnfold(disk: Disk, s: SubdirSettings, basePath: string, files: seq<string>, acc: Catalog)
    requires files != [] && LoadFiles(disk, s, basePath, files, acc).Ok?
    ensures LoadFiles(disk, s, basePath, files, acc) == LoadFiles(disk, s, basePath, files[1..], NextAcc(disk, s, basePath, files[0], acc))
  {
  }

  lemma LoadFilesLoadsFirst(disk: Disk, s: SubdirSettings, basePath: string, files: seq<string>, acc: Catalog)
    requires files != [] && LoadFiles(disk, s, basePath, files, acc).Ok?
    ensures FileCategory(s, basePath, files[0]).Some? ==> LoadTranslations(disk, s.codec, files[0]).Ok?
  {
  }

  /** Whether the catalog holds category c of language l. */
  predicate Holds(data: Catalog, l: string, c: string)
  {
    l in data && c in data[l]
  }

  /** Some of the files is loaded as category c of language l. */
  predicate Names(s: SubdirSettings, basePath: string, files: seq<string>, l: string, c: string)
  {
    exists i | 0 <= i < |files| :: FileCategory(s, basePath, files[i]) == Some((l, c))
  }

  lemma NamesCons(s: SubdirSettings, basePath: string, files: seq<string>)
    requires files != []
    ensures forall l, c :: Names(s, basePath, files, l, c) <==>
      FileCategory(s, basePath, files[0]) == Some((l, c)) || Names(s, basePath, files[1..], l, c)
  {
    forall l, c ensures Names(s, basePath, files, l, c) <==>
      FileCategory(s, basePath, files[0]) == Some((l, c)) || Names(s, basePath, files[1..], l, c)
    {
      if Names(s, basePath, files, l, c) {
        var i :| 0 <= i < |files| && FileCategory(s, basePath, files[i]) == Some((l, c));
        if i > 0 {
          assert files[1..][i - 1] == files[i];
        }
      }
      if Names(s, basePath, files[1..], l, c) {
        var i :| 0 <= i < |files[1..]| && FileCategory(s, basePath, files[1..][i]) == Some((l, c));
        assert files[i + 1] == files[1..][i];
      }
    }
  }

  /** The step adds the category the first file is loaded as, and keeps every other. */
  lemma NextHolds(disk: Disk, s: SubdirSettings, basePath: string, file: string, acc: Catalog)
    requires FileCategory(s, basePath, file).Some? ==> LoadTranslations(disk, s.codec, file).Ok?
    ensures forall l, c :: Holds(NextAcc(disk, s, basePath, file, acc), l, c) <==>
      Holds(acc, l, c) || FileCategory(s, basePath, file) == Some((l, c))
  {
  }

  /** The categories loaded: those already there and those some listed file is loaded as. */
  lemma {:induction false} LoadFilesKeys(disk: Disk, s: SubdirSettings, basePath: string, files: seq<string>, acc: Catalog)
    requires LoadFiles(disk, s, basePath, files, acc).Ok?
    ensures forall l, c :: Holds(LoadFiles(disk, s, basePath, files, acc).value, l, c) <==>
      Holds(acc, l, c) || Names(s, basePath, files, l, c)
    decreases |files|
  {
    if files != [] {
      var next := NextAcc(disk, s, basePath, files[0], acc);
      LoadFilesUnfold(disk, s, basePath, files, acc);
      LoadFilesLoadsFirst(disk, s, basePath, files, acc);
      NextHolds(disk, s, basePath, files[0], acc);
      LoadFilesKeys(disk, s, basePath, files[1..], next);
      NamesCons(s, basePath, files);
    }
  }

  /** No file from position from on is loaded as category c of language l. */
  predicate NotNamedFrom(s: SubdirSettings, basePath: string, files: seq<string>, from: nat, l: string, c: string)
  {
    forall j | from <= j < |files| :: FileCategory(s, basePath, files[j]) != Some((l, c))
  }

  lemma NotNamedTail(s: SubdirSettings, basePath: string, files: seq<string>, from: nat, l: string, c: string)
    requires files != [] && 1 <= from && NotNamedFrom(s, basePath, files, from, l, c)
    ensures NotNamedFrom(s, basePath, files[1..], from - 1, l, c)
  {
    var rest := files[1..];
    forall j | from - 1 <= j < |rest| ensures FileCategory(s, basePath, rest[j]) != Some((l, c)) {
      assert rest[j] == files[j + 1];
    }
  }

  /** A category no remaining file is loaded as keeps the messages it has. */
  lemma {:induction false} LoadFilesKeeps(disk: Disk, s: SubdirSettings, basePath: string, files: seq<string>, acc: Catalog,
                                          result: Catalog, l: string, c: string)
    requires LoadFiles(disk, s, basePath, files, acc) == Ok(result)
    requires Holds(acc, l, c)
    requires NotNamedFrom(s, basePath, files, 0, l, c)
    ensures Holds(result, l, c) && result[l][c] == acc[l][c]
    decreases |files|
  {
    if files != [] {
      LoadFilesUnfold(disk, s, basePath, files, acc);
      NextKeeps(disk, s, basePath, files[0], acc, l, c);
      NotNamedTail(s, basePath, files, 1, l, c);
      LoadFilesKeeps(disk, s, basePath, files[1..], NextAcc(disk, s, basePath, files[0], acc), result, l, c);
    }
  }

  /** The step leaves alone a category the file is not loaded as. */
  lemma NextKeeps(disk: Disk, s: SubdirSettings, basePath: string, file: string, acc: Catalog, l: string, c: string)
    requires Holds(acc, l, c) && FileCategory(s, basePath, file) != Some((l, c))
    ensures Holds(NextAcc(disk, s, basePath, file, acc), l, c)
    ensures NextAcc(disk, s, basePath, file, acc)[l][c] == acc[l][c]
  {
  }

  /** The first file, when no later file is loaded as the same category, gives that category its messages. */
  lemma LoadFilesFirstWins(disk: Disk, s: SubdirSettings, basePath: string, files: seq<string>, acc: Catalog,
                           result: Catalog, l: string, c: string)
    requires LoadFiles(disk, s, basePath, files, acc) == Ok(result)
    requires files != [] && FileCategory(s, basePath, files[0]) == Some((l, c))
    requires NotNamedFrom(s, basePath, files, 1, l, c)
    ensures LoadTranslations(disk, s.codec, files[0]).Ok?
    ensures Holds(result, l, c) && result[l][c] == LoadTranslations(disk, s.codec, files[0]).value
  {
    LoadFilesUnfold(disk, s, basePath, files, acc);
    LoadFilesLoadsFirst(disk, s, basePath, files, acc);
    NotNamedTail(s, basePath, files, 1, l, c);
    LoadFilesKeeps(disk, s, basePath, files[1..], NextAcc(disk, s, basePath, files[0], acc), result, l, c);
  }

  /** Later files win: a category holds what the last file loaded as it holds. */
  lemma {:induction false} LoadFilesLastWins(disk: Disk, s: SubdirSettings, basePath: string, files: seq<string>, acc: Catalog,
                                             result: Catalog, i: nat, l: string, c: string)
    requires LoadFiles(disk, s, basePath, files, acc) == Ok(result)
    requires i < |files| && FileCategory(s, basePath, files[i]) == Some((l, c))
    requires NotNamedFrom(s, basePath, files, i + 1, l, c)
    ensures LoadTranslations(disk, s.codec, files[i]).Ok?
    ensures Holds(result, l, c) && result[l][c] == LoadTranslations(disk, s.codec, files[i]).value
    decreases |files|, 1
  {
    if i == 0 {
      LoadFilesFirstWins(disk, s, basePath, files, acc, result, l, c);
    } else {
      LoadFilesLaterWins(disk, s, basePath, files, acc, result, i, l, c);
    }
  }

  /** The step of LoadFilesLastWins past the first file. */
  lemma {:induction false} LoadFilesLaterWins(disk: Disk, s: SubdirSettings, basePath: string, files: seq<string>, acc: Catalog,
                                              result: Catalog, i: nat, l: string, c: string)
    requires LoadFiles(disk, s, basePath, files, acc) == Ok(result)
    requires 0 < i < |files| && FileCategory(s, basePath, files[i]) == Some((l, c))
    requires NotNamedFrom(s, basePath, files, i + 1, l, c)
    ensures LoadTranslations(disk, s.codec, files[i]).Ok?
    ensures Holds(result, l, c) && result[l][c] == LoadTranslations(disk, s.codec, files[i]).value
    decreases |files|, 0
  {
    LoadFilesUnfold(disk, s, basePath, files, acc);
    NotNamedTail(s, basePath, files, i + 1, l, c);
    assert files[1..][i - 1] == files[i];
    LoadFilesLastWins(disk, s, basePath, files[1..], NextAcc(disk, s, basePath, files[0], acc), result, i - 1, l, c);
  }

  method LoadAllTranslations(disk: Disk, s: SubdirSettings) returns (r: Result<Catalog, Error>)
    ensures r == LoadAll(disk, s)
  {
    var realPath := RealPath(disk, s.path);
    if realPath.Err? {
      return Err(realPath.error);
    }
    var basePath := BasePath(realPath.value);
    var listed := FindFiles(disk, realPath.value, "*." + s.extension, true);
    if listed.Err? {
      return Err(listed.error);
    }
    var files := listed.value;
    var data: Catalog := map[];
    var i := 0;
    while i < |files|
      invariant 0 <= i <= |files|
      invariant LoadFiles(disk, s, basePath, files[i..], data) == LoadAll(disk, s)
    {
      assert files[i..][1..] == files[i + 1..];
      var parts := ParsePathParts(files[i], basePath, s.extension);
      if parts.Err? {
        return Err(parts.error);
      }
      if parts.value.Some? && !PhpFalsy(parts.value.value.0) && !PhpFalsy(parts.value.value.1) {
        var (language, name) := parts.value.value;
        var translations := LoadTranslationsFromFile(disk, s.codec, files[i]);
        if translations.Err? {
          return Err(translations.error);
        }
        var category := StripCategoryPrefix(s.categoryPrefix, name);
        if category.Err? {
          return Err(category.error);
        }
        var messages := if language in data then data[language] else map[];
        data := data[language := messages[category.value := translations.value]];
      }
      i := i + 1;
    }
    return Ok(data);
  }

  // ---- saveAllTranslations ----

  /** What saveTranslations hands to the encoder: a listing of the messages, sorted unless the driver is the legacy one. */
  function MessagesContent(s: SubdirSettings, messages: Messages): (r: Content)
    ensures r.MessageFile? && Lists(r.messages, messages)
  {
    if s.sortsOnSave then
      SortTranslationsMapSorts(messages, s.sortEmptyFirst);
      MessageFile(SortTranslationsMap(messages, s.sortEmptyFirst))
    else
      MessageFile(Entries(messages))
  }

  /** Round trip of the content: a saved category file loads back as exactly the saved messages, with either codec. */
  lemma SaveThenLoad(disk: Disk, s: SubdirSettings, file: string, messages: Messages)
    requires file in disk.files && disk.files[file] == Decoded(MessagesContent(s, messages))
    ensures LoadTranslations(disk, s.codec, file) == Ok(messages)
  {
    DecodedMessages(MessagesContent(s, messages).messages, messages);
  }

  /** saveTranslations: the messages, ordered as the driver orders them, handed to the codec. */
  method SaveTranslations(fs: FileSystem, s: SubdirSettings, file: string, messages: Messages)
    modifies fs
    ensures fs.log == old(fs.log) + [Write(file, MessagesContent(s, messages))]
  {
    if s.sortsOnSave {
      fs.Put(Write(file, MessageFile(SortTranslationsMap(messages, s.sortEmptyFirst))));
    } else {
      fs.Put(Write(file, MessageFile(Entries(messages))));
    }
  }

  /**
   * One category of saveAllTranslations: import rewrites an existing file
   * only when the update changes it and skips a missing one; export writes
   * the data as it is.
   */
  function SaveCategory(disk: Disk, s: SubdirSettings, realPath: string, language: string, category: string, messages: Messages,
                        onlyExisting: bool, suffix: string): Run
  {
    var file := CategoryFilePath(realPath, language, s.categoryPrefix, category, s.extension);
    if !onlyExisting then Run([Write(file + suffix, MessagesContent(s, messages))], None)
    else if file !in disk.files then Done
    else
      match LoadTranslations(disk, s.codec, file)
      case Err(e) => Fail(e)
      case Ok(existing) =>
        var updated := UpdateMessages(existing, messages);
        if updated != existing then Run([Write(file + suffix, MessagesContent(s, updated))], None) else Done
  }

  /** The runs saving the given categories of one language, in the given order. */
  function CategorySteps(disk: Disk, s: SubdirSettings, realPath: string, language: string, categories: Categories,
                         names: seq<string>, onlyExisting: bool, suffix: string): (r: seq<Run>)
    requires forall c | c in names :: c in categories
    ensures |r| == |names|
    ensures forall i | 0 <= i < |names| ::
      r[i] == SaveCategory(disk, s, realPath, language, names[i], categories[names[i]], onlyExisting, suffix)
  {
    seq(|names|, i requires 0 <= i < |names| =>
      SaveCategory(disk, s, realPath, language, names[i], categories[names[i]], onlyExisting, suffix))
  }

  /** The inner loop: every category of a language, in ascending order, until one fails. */
  function SaveLanguage(disk: Disk, s: SubdirSettings, realPath: string, language: string, categories: Categories,
                        onlyExisting: bool, suffix: string): Run
  {
    Sequence(CategorySteps(disk, s, realPath, language, categories, SortedKeys(categories.Keys), onlyExisting, suffix))
  }

  /** The runs saving the given languages of the data, in the given order. */
  function LanguageSteps(disk: Disk, s: SubdirSettings, realPath: string, data: Catalog, languages: seq<string>,
                         onlyExisting: bool, suffix: string): (r: seq<Run>)
    requires forall l | l in languages :: l in data
    ensures |r| == |languages|
    ensures forall i | 0 <= i < |languages| ::
      r[i] == SaveLanguage(disk, s, realPath, languages[i], data[languages[i]], onlyExisting, suffix)
  {
    seq(|languages|, i requires 0 <= i < |languages| =>
      SaveLanguage(disk, s, realPath, languages[i], data[languages[i]], onlyExisting, suffix))
  }

  function SaveSteps(disk: Disk, s: SubdirSettings, realPath: string, data: Catalog, onlyExisting: bool, suffix: string): (r: seq<Run>)
    ensures |r| == |data|
  {
    LanguageSteps(disk, s, realPath, data, SortedKeys(data.Keys), onlyExisting, suffix)
  }

  /** saveAllTranslations: resolve the path, then save every category of every language until one fails. */
  function SaveAll(disk: Disk, s: SubdirSettings, data: Catalog, onlyExisting: bool, suffix: string): Run
  {
    match RealPath(disk, s.path)
    case Err(e) => Fail(e)
    case Ok(realPath) => Sequence(SaveSteps(disk, s, realPath, data, onlyExisting, suffix))
  }

  /** The write export makes for category c of language l. */
  function ExportWrite(s: SubdirSettings, realPath: string, l: string, c: string, messages: Messages, suffix: string): Write
  {
    Write(CategoryFilePath(realPath, l, s.categoryPrefix, c, s.extension) + suffix, MessagesContent(s, messages))
  }

  /** Under export every category step writes its data and does not fail. */
  lemma ExportSteps(disk: Disk, s: SubdirSettings, realPath: string, language: string, categories: Categories,
                    names: seq<string>, suffix: string)
    requires forall c | c in names :: c in categories
    ensures forall i | 0 <= i < |names| ::
      CategorySteps(disk, s, realPath, language, categories, names, false, suffix)[i] ==
      Run([ExportWrite(s, realPath, language, names[i], categories[names[i]], suffix)], None)
  {
  }

  /** Export of the given categories of one language writes each of them, and nothing else, without failing. */
  lemma ExportCategories(disk: Disk, s: SubdirSettings, realPath: string, language: string, categories: Categories,
                         names: seq<string>, suffix: string)
    requires forall c | c in names :: c in categories
    ensures var run := Sequence(CategorySteps(disk, s, realPath, language, categories, names, false, suffix));
      && run.failure.None?
      && (forall i | 0 <= i < |names| :: ExportWrite(s, realPath, language, names[i], categories[names[i]], suffix) in run.writes)
      && (forall w | w in run.writes :: exists i | 0 <= i < |names| ::
            w == ExportWrite(s, realPath, language, names[i], categories[names[i]], suffix))
  {
    var steps := CategorySteps(disk, s, realPath, language, categories, names, false, suffix);
    ExportSteps(disk, s, realPath, language, categories, names, suffix);
    SequenceAllSucceed(steps);
    SequenceSucceeds(steps);
    SequenceWrites(steps);
  }

  /** Export of one language writes each of its categories without failing. */
  lemma ExportLanguage(disk: Disk, s: SubdirSettings, realPath: string, language: string, categories: Categories, suffix: string)
    ensures SaveLanguage(disk, s, realPath, language, categories, false, suffix).failure.None?
    ensures forall c | c in categories ::
      ExportWrite(s, realPath, language, c, categories[c], suffix) in SaveLanguage(disk, s, realPath, language, categories, false, suffix).writes
  {
    var names := SortedKeys(categories.Keys);
    var run := Sequence(CategorySteps(disk, s, realPath, language, categories, names, false, suffix));
    ExportCategories(disk, s, realPath, language, categories, names, suffix);
    assert SaveLanguage(disk, s, realPath, language, categories, false, suffix) == run;
    forall c | c in categories ensures ExportWrite(s, realPath, language, c, categories[c], suffix) in run.writes {
      var i := IndexOf(names, c);
    }
  }

  /** Export of one language writes nothing but its categories. */
  lemma ExportLanguageOnly(disk: Disk, s: SubdirSettings, realPath: string, language: string, categories: Categories, suffix: string)
    ensures forall w | w in SaveLanguage(disk, s, realPath, language, categories, false, suffix).writes ::
      exists c | c in categories :: w == ExportWrite(s, realPath, language, c, categories[c], suffix)
  {
    var names := SortedKeys(categories.Keys);
    var run := Sequence(CategorySteps(disk, s, realPath, language, categories, names, false, suffix));
    ExportCategories(disk, s, realPath, language, categories, names, suffix);
    assert SaveLanguage(disk, s, realPath, language, categories, false, suffix) == run;
  }

  /** Where a member of a sequence sits. */
  lemma IndexOf(names: seq<string>, c: string) returns (i: nat)
    requires c in names
    ensures i < |names| && names[i] == c
  {
    i :| 0 <= i < |names| && names[i] == c;
  }

  /** Export of the given languages writes each of their categories, and nothing else, without failing. */
  lemma ExportLanguages(disk: Disk, s: SubdirSettings, realPath: string, data: Catalog, languages: seq<string>, suffix: string)
    requires forall l | l in languages :: l in data
    ensures var run := Sequence(LanguageSteps(disk, s, realPath, data, languages, false, suffix));
      && run.failure.None?
      && (forall l, c | l in languages && c in data[l] :: ExportWrite(s, realPath, l, c, data[l][c], suffix) in run.writes)
      && (forall w | w in run.writes :: exists l, c | l in languages && c in data[l] ::
            w == ExportWrite(s, realPath, l, c, data[l][c], suffix))
  {
    var steps := LanguageSteps(disk, s, realPath, data, languages, false, suffix);
    forall i | 0 <= i < |steps| ensures steps[i].failure.None? {
      ExportLanguage(disk, s, realPath, languages[i], data[languages[i]], suffix);
    }
    SequenceAllSucceed(steps);
    SequenceSucceeds(steps);
    SequenceWrites(steps);
    var all := Sequence(steps).writes;
    forall l, c | l in languages && c in data[l] ensures ExportWrite(s, realPath, l, c, data[l][c], suffix) in all {
      var i := IndexOf(languages, l);
      ExportLanguage(disk, s, realPath, l, data[l], suffix);
      assert ExportWrite(s, realPath, l, c, data[l][c], suffix) in steps[i].writes;
    }
    forall w | w in all
      ensures exists l, c | l in languages && c in data[l] :: w == ExportWrite(s, realPath, l, c, data[l][c], suffix)
    {
      var i :| 0 <= i < |steps| && w in steps[i].writes;
      var l := languages[i];
      ExportLanguageOnly(disk, s, realPath, l, data[l], suffix);
      var c :| c in data[l] && w == ExportWrite(s, realPath, l, c, data[l][c], suffix);
    }
  }

  /**
   * Export fails only when the path does not resolve; it then writes the
   * data of every category of every language, and nothing else.
   */
  lemma ExportWritesEveryCategory(disk: Disk, s: SubdirSettings, data: Catalog, suffix: string)
    ensures SaveAll(disk, s, data, false, suffix).failure.None? <==> s.path in disk.realPaths
    ensures s.path in disk.realPaths ==> forall l, c | l in data && c in data[l] ::
      ExportWrite(s, disk.realPaths[s.path], l, c, data[l][c], suffix) in SaveAll(disk, s, data, false, suffix).writes
    ensures forall w | w in SaveAll(disk, s, data, false, suffix).writes ::
      s.path in disk.realPaths &&
      exists l, c | l in data && c in data[l] :: w == ExportWrite(s, disk.realPaths[s.path], l, c, data[l][c], suffix)
  {
    if s.path in disk.realPaths {
      var realPath := disk.realPaths[s.path];
      var languages := SortedKeys(data.Keys);
      assert SaveAll(disk, s, data, false, suffix) == Sequence(LanguageSteps(disk, s, realPath, data, languages, false, suffix));
      ExportLanguages(disk, s, realPath, data, languages, suffix);
    }
  }

  /** A rewrite by import: the category's file exists, loads, and the update changes it. */
  predicate ImportedWrite(disk: Disk, s: SubdirSettings, realPath: string, language: string, category: string,
                          messages: Messages, suffix: string, w: Write)
  {
    var file := CategoryFilePath(realPath, language, s.categoryPrefix, category, s.extension);
    && file in disk.files
    && LoadTranslations(disk, s.codec, file).Ok?
    && var existing := LoadTranslations(disk, s.codec, file).value;
    && UpdateMessages(existing, messages) != existing
    && w == Write(file + suffix, MessagesContent(s, UpdateMessages(existing, messages)))
  }

  lemma ImportLanguage(disk: Disk, s: SubdirSettings, realPath: string, language: string, categories: Categories, suffix: string)
    ensures forall w | w in SaveLanguage(disk, s, realPath, language, categories, true, suffix).writes ::
      exists c | c in categories :: ImportedWrite(disk, s, realPath, language, c, categories[c], suffix, w)
  {
    var names := SortedKeys(categories.Keys);
    var steps := CategorySteps(disk, s, realPath, language, categories, names, true, suffix);
    SequenceWrites(steps);
    forall w | w in Sequence(steps).writes
      ensures exists c | c in categories :: ImportedWrite(disk, s, realPath, language, c, categories[c], suffix, w)
    {
      var i :| 0 <= i < |steps| && w in steps[i].writes;
      ImportedCategory(disk, s, realPath, language, names[i], categories[names[i]], suffix, steps[i], w);
    }
  }

  /** A write of one category's import run rewrites that category's existing file. */
  lemma ImportedCategory(disk: Disk, s: SubdirSettings, realPath: string, language: string, category: string,
                         messages: Messages, suffix: string, run: Run, w: Write)
    requires run == SaveCategory(disk, s, realPath, language, category, messages, true, suffix)
    requires w in run.writes
    ensures ImportedWrite(disk, s, realPath, language, category, messages, suffix, w)
  {
  }

  /** One category's run fails only on an existing file that does not load, with the loader's error. */
  lemma FailedCategory(disk: Disk, s: SubdirSettings, realPath: string, language: string, category: string,
                       messages: Messages, onlyExisting: bool, suffix: string, run: Run)
    requires run == SaveCategory(disk, s, realPath, language, category, messages, onlyExisting, suffix)
    requires run.failure.Some?
    ensures onlyExisting
    ensures var file := CategoryFilePath(realPath, language, s.categoryPrefix, category, s.extension);
      file in disk.files && LoadTranslations(disk, s.codec, file) == Err(run.failure.value)
  {
  }

  /** Import never creates a file: every write rewrites an existing category file the update changes. */
  lemma ImportRewritesOnlyExisting(disk: Disk, s: SubdirSettings, data: Catalog, suffix: string)
    ensures forall w | w in SaveAll(disk, s, data, true, suffix).writes ::
      s.path in disk.realPaths &&
      exists l, c | l in data && c in data[l] :: ImportedWrite(disk, s, disk.realPaths[s.path], l, c, data[l][c], suffix, w)
  {
    if s.path in disk.realPaths {
      var realPath := disk.realPaths[s.path];
      var languages := SortedKeys(data.Keys);
      var steps := SaveSteps(disk, s, realPath, data, true, suffix);
      SequenceWrites(steps);
      forall w | w in SaveAll(disk, s, data, true, suffix).writes
        ensures exists l, c | l in data && c in data[l] :: ImportedWrite(disk, s, realPath, l, c, data[l][c], suffix, w)
      {
        var i :| 0 <= i < |steps| && w in steps[i].writes;
        ImportLanguage(disk, s, realPath, languages[i], data[languages[i]], suffix);
      }
    }
  }

  /** One category fails only under import, when its file exists and does not load, with the loader's error. */
  lemma ImportLanguageFailure(disk: Disk, s: SubdirSettings, realPath: string, language: string, categories: Categories,
                              onlyExisting: bool, suffix: string)
    requires SaveLanguage(disk, s, realPath, language, categories, onlyExisting, suffix).failure.Some?
    ensures onlyExisting
    ensures exists c | c in categories ::
      var file := CategoryFilePath(realPath, language, s.categoryPrefix, c, s.extension);
      file in disk.files &&
      LoadTranslations(disk, s.codec, file) == Err(SaveLanguage(disk, s, realPath, language, categories, onlyExisting, suffix).failure.value)
  {
    var names := SortedKeys(categories.Keys);
    var steps := CategorySteps(disk, s, realPath, language, categories, names, onlyExisting, suffix);
    SequenceFails(steps);
    var i :| 0 <= i < |steps| && steps[i].failure == Sequence(steps).failure;
    FailedCategory(disk, s, realPath, language, names[i], categories[names[i]], onlyExisting, suffix, steps[i]);
  }

  /** A save fails only on a missing path or, under import, on an existing category file that does not load. */
  lemma SaveFailure(disk: Disk, s: SubdirSettings, data: Catalog, onlyExisting: bool, suffix: string)
    requires SaveAll(disk, s, data, onlyExisting, suffix).failure.Some?
    ensures
      var failure := SaveAll(disk, s, data, onlyExisting, suffix).failure.value;
      || (s.path !in disk.realPaths && failure == Runtime("Cannot check path: " + s.path))
      || (s.path in disk.realPaths && onlyExisting && exists l, c | l in data && c in data[l] ::
            var file := CategoryFilePath(disk.realPaths[s.path], l, s.categoryPrefix, c, s.extension);
            file in disk.files && LoadTranslations(disk, s.codec, file) == Err(failure))
  {
    if s.path in disk.realPaths {
      var realPath := disk.realPaths[s.path];
      var languages := SortedKeys(data.Keys);
      var steps := SaveSteps(disk, s, realPath, data, onlyExisting, suffix);
      SequenceFails(steps);
      var i :| 0 <= i < |steps| && steps[i].failure == Sequence(steps).failure;
      assert steps[i] == SaveLanguage(disk, s, realPath, languages[i], data[languages[i]], onlyExisting, suffix);
      ImportLanguageFailure(disk, s, realPath, languages[i], data[languages[i]], onlyExisting, suffix);
    }
  }

  /** One category of the save loop, recorded in the file system's log. */
  method SaveCategoryFile(fs: FileSystem, s: SubdirSettings, realPath: string, language: string, category: string,
                          messages: Messages, onlyExisting: bool, suffix: string, ghost run: Run) returns (failure: Option<Error>)
    requires run == SaveCategory(fs.disk, s, realPath, language, category, messages, onlyExisting, suffix)
    modifies fs
    ensures fs.log == old(fs.log) + run.writes
    ensures failure == run.failure
  {
    var file := CategoryFilePath(realPath, language, s.categoryPrefix, category, s.extension);
    if onlyExisting {
      if file !in fs.disk.files {
        return None;
      }
      var existing := LoadTranslationsFromFile(fs.disk, s.codec, file);
      if existing.Err? {
        return Some(existing.error);
      }
      var updated := UpdateMessagesArray(existing.value, messages);
      if updated != existing.value {
        SaveTranslations(fs, s, file + suffix, updated);
      }
    } else {
      SaveTranslations(fs, s, file + suffix, messages);
    }
    return None;
  }

  /**
   * The inner loop of saveAllTranslations over the categories of one
   * language, in the order given; steps are the runs of SaveCategory, one
   * per name.
   */
  method SaveCategories(fs: FileSystem, s: SubdirSettings, realPath: string, language: string, categories: Categories,
                        names: seq<string>, onlyExisting: bool, suffix: string, ghost steps: seq<Run>)
    returns (failure: Option<Error>)
    requires forall c | c in names :: c in categories
    requires |steps| == |names|
    requires forall k | 0 <= k < |names| ::
      steps[k] == SaveCategory(fs.disk, s, realPath, language, names[k], categories[names[k]], onlyExisting, suffix)
    modifies fs
    ensures fs.log == old(fs.log) + Sequence(steps).writes
    ensures failure == Sequence(steps).failure
  {
    var i := 0;
    while i < |names|
      invariant 0 <= i <= |names|
      invariant fs.log == old(fs.log) + Sequence(steps[..i]).writes
      invariant Sequence(steps[..i]).failure.None?
    {
      var category := names[i];
      ghost var before := fs.log;
      failure := SaveCategoryFile(fs, s, realPath, language, category, categories[category], onlyExisting, suffix, steps[i]);
      SequenceStep(steps, i, old(fs.log), before, fs.log);
      if failure.Some? {
        SequenceFailsAt(steps, i);
        return;
      }
      i := i + 1;
    }
    assert steps[..i] == steps;
    return None;
  }

  /** One language: its categories in ascending order. */
  method SaveLanguageFiles(fs: FileSystem, s: SubdirSettings, realPath: string, language: string, categories: Categories,
                           onlyExisting: bool, suffix: string, ghost run: Run) returns (failure: Option<Error>)
    requires run == SaveLanguage(fs.disk, s, realPath, language, categories, onlyExisting, suffix)
    modifies fs
    ensures fs.log == old(fs.log) + run.writes
    ensures failure == run.failure
  {
    var names := SortedKeys(categories.Keys);
    failure := SaveCategories(fs, s, realPath, language, categories, names, onlyExisting, suffix,
                              CategorySteps(fs.disk, s, realPath, language, categories, names, onlyExisting, suffix));
  }

  /** The loop over the languages; steps are the runs of SaveLanguage, one per language. */
  method SaveLanguages(fs: FileSystem, s: SubdirSettings, realPath: string, data: Catalog, languages: seq<string>,
                       onlyExisting: bool, suffix: string, ghost steps: seq<Run>) returns (failure: Option<Error>)
    requires forall l | l in languages :: l in data
    requires |steps| == |languages|
    requires forall k | 0 <= k < |languages| ::
      steps[k] == SaveLanguage(fs.disk, s, realPath, languages[k], data[languages[k]], onlyExisting, suffix)
    modifies fs
    ensures fs.log == old(fs.log) + Sequence(steps).writes
    ensures failure == Sequence(steps).failure
  {
    var i := 0;
    while i < |languages|
      invariant 0 <= i <= |languages|
      invariant fs.log == old(fs.log) + Sequence(steps[..i]).writes
      invariant Sequence(steps[..i]).failure.None?
    {
      var language := languages[i];
      ghost var before := fs.log;
      failure := SaveLanguageFiles(fs, s, realPath, language, data[language], onlyExisting, suffix, steps[i]);
      SequenceStep(steps, i, old(fs.log), before, fs.log);
      if failure.Some? {
        SequenceFailsAt(steps, i);
        return;
      }
      i := i + 1;
    }
    assert steps[..i] == steps;
    return None;
  }

  method SaveAllTranslations(fs: FileSystem, s: SubdirSettings, data: Catalog, onlyExisting: bool, suffix: string)
    returns (failure: Option<Error>)
    modifies fs
    ensures fs.log == old(fs.log) + SaveAll(fs.disk, s, data, onlyExisting, suffix).writes
    ensures failure == SaveAll(fs.disk, s, data, onlyExisting, suffix).failure
  {
    var realPath := RealPath(fs.disk, s.path);
    if realPath.Err? {
      return Some(realPath.error);
    }
    var languages := SortedKeys(data.Keys);
    failure := SaveLanguages(fs, s, realPath.value, data, languages, onlyExisting, suffix,
                             LanguageSteps(fs.disk, s, realPath.value, data, languages, onlyExisting, suffix));
  }
}
