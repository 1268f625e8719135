/**
 * The drivers behind DriverInterface: how an array configuration becomes a
 * driver (the class's option defaults, then its init() checks), and
 * loadAllTranslations / saveAllTranslations dispatched to the driver's
 * class. The legacy SubdirCategoryDriver is built as the class is written:
 * its load raises at the first category file it reads and its save raises
 * before writing the first category.
 */
module Drivers {
  import opened Wrappers
  import opened Errors
  import opened Catalogs
  import opened Disk
  import BaseFlatCategoryDriver
  import FlatCategoryDriver
  import FlatDirectoryDriver
  import BaseSubdirCategoryDriver
  import SubdirCategoryDriver

  /** The concrete driver classes a configuration can name. */
  datatype DriverClass =
    | FlatCategoryClass     // FlatCategoryDriver
    | FlatDirectoryClass    // FlatDirectoryDriver
    | SubdirJsonClass       // SubdirCategoryJsonDriver
    | SubdirPhpClass        // SubdirCategoryPhpDriver
    | SubdirLegacyClass     // SubdirCategoryDriver

  /** One option of an array configuration: not mentioned (the class default stays), null, or a value. */
  datatype Setting<T> = Unset | Null | Set(value: T)

  datatype DriverConfig = DriverConfig(
    className: Option<DriverClass>,
    path: Setting<string>,
    extension: Setting<string>,
    sortEmptyFirst: Setting<bool>,
    categoryPrefix: Setting<string>)

  /** A built driver. */
  datatype Driver =
    | FlatCategory(flat: BaseFlatCategoryDriver.FlatSettings)
    | FlatDirectory(flat: BaseFlatCategoryDriver.FlatSettings)
    | Subdir(subdir: BaseSubdirCategoryDriver.SubdirSettings)
    | Legacy(legacy: SubdirCategoryDriver.LegacySettings)

  /** What the manager's options hold for a driver: an object already built, or its configuration. */
  datatype DriverSpec = Given(driver: Driver) | Configured(config: DriverConfig)

  const PathRequired := "Option \"path\" is required"
  const ExtensionRequired := "Option \"extension\" is required"

  /** The extension a class declares: 'php' for the PHP subdirectory driver, 'json' for the others. */
  function DefaultExtension(k: DriverClass): string
  {
    if k == SubdirPhpClass then "php" else "json"
  }

  /** BaseSubdirCategoryDriver's subclasses, whose init() also demands an extension. */
  predicate ChecksExtension(k: DriverClass)
  {
    k == SubdirJsonClass || k == SubdirPhpClass
  }

  /** A string option as PHP then uses it: null interpolates as the empty string. */
  function StringOf(s: Setting<string>, default: string): string
  {
    match s
    case Unset => default
    case Null => ""
    case Set(v) => v
  }

  /** sortEmptyFirst as a condition: null is falsy. */
  function FlagOf(s: Setting<bool>): bool
  {
    s.Set? && s.value
  }

  /** An option the legacy class does not declare, set in its configuration; yii refuses it. */
  function LegacyUnknownOption(c: DriverConfig): Option<string>
  {
    if c.sortEmptyFirst != Unset then Some("sortEmptyFirst")
    else if c.categoryPrefix != Unset then Some("categoryPrefix")
    else None
  }

  function PathOf(d: Driver): string
  {
    match d
    case FlatCategory(f) => f.path
    case FlatDirectory(f) => f.path
    case Subdir(s) => s.path
    case Legacy(s) => s.path
  }

  function ExtensionOf(d: Driver): string
  {
    match d
    case FlatCategory(f) => f.extension
    case FlatDirectory(f) => f.extension
    case Subdir(s) => s.extension
    case Legacy(s) => s.extension
  }

  /**
   * Build a driver from its configuration: yii sets the configured options
   * over the class defaults, then init() demands a path and, for the
   * BaseSubdirCategoryDriver classes, an extension. A configuration builds
   * exactly when it names a class, sets a path, does not null the extension
   * of a BaseSubdirCategoryDriver class, and gives the legacy class only the
   * options it declares; the driver keeps the configured path and the
   * configured extension, or the class's own when none is configured; the
   * legacy class builds the legacy driver, which has no further options.
   */
  function Instantiate(c: DriverConfig): (r: Result<Driver, Error>)
    ensures r.Ok? <==>
      && c.className.Some?
      && c.path.Set?
      && !(ChecksExtension(c.className.value) && c.extension == Null)
      && !(c.className.value == SubdirLegacyClass && (c.sortEmptyFirst != Unset || c.categoryPrefix != Unset))
    ensures c.className.Some? && c.className.value != SubdirLegacyClass && !c.path.Set? ==>
      r == Err(InvalidConfig(PathRequired))
    ensures r.Ok? ==> PathOf(r.value) == c.path.value
    ensures r.Ok? && c.extension == Unset ==> ExtensionOf(r.value) == DefaultExtension(c.className.value)
    ensures r.Ok? && c.extension.Set? ==> ExtensionOf(r.value) == c.extension.value
    ensures r.Ok? ==> (r.value.Legacy? <==> c.className.value == SubdirLegacyClass)
  {
    match c.className
    case None => Err(NotInstantiable)
    case Some(k) =>
      if k == SubdirLegacyClass && LegacyUnknownOption(c).Some? then Err(UnknownMember(LegacyUnknownOption(c).value))
      else if !c.path.Set? then Err(InvalidConfig(PathRequired))
      else if ChecksExtension(k) && c.extension == Null then Err(InvalidConfig(ExtensionRequired))
      else
        var path := c.path.value;
        var extension := StringOf(c.extension, DefaultExtension(k));
        var sortEmptyFirst := FlagOf(c.sortEmptyFirst);
        var prefix := StringOf(c.categoryPrefix, "");
        match k
        case FlatCategoryClass =>
          Ok(FlatCategory(BaseFlatCategoryDriver.FlatSettings(path, extension, sortEmptyFirst, prefix)))
        case FlatDirectoryClass =>
          Ok(FlatDirectory(BaseFlatCategoryDriver.FlatSettings(path, extension, sortEmptyFirst, prefix)))
        case SubdirJsonClass =>
          Ok(Subdir(BaseSubdirCategoryDriver.SubdirSettings(path, extension, sortEmptyFirst, prefix,
                                                            BaseSubdirCategoryDriver.JsonCodec, true)))
        case SubdirPhpClass =>
          Ok(Subdir(BaseSubdirCategoryDriver.SubdirSettings(path, extension, sortEmptyFirst, prefix,
                                                            BaseSubdirCategoryDriver.PhpCodec, true)))
        case SubdirLegacyClass =>
          Ok(Legacy(SubdirCategoryDriver.LegacySettings(path, extension)))
  }

  /** Instance::ensure: an object is taken as it is, a configuration is built. */
  function Ensure(spec: DriverSpec): Result<Driver, Error>
  {
    match spec
    case Given(d) => Ok(d)
    case Configured(c) => Instantiate(c)
  }

  // ---- DriverInterface ----

  /** loadAllTranslations of the driver's class. */
  function Load(disk: Disk, d: Driver): Result<Catalog, Error>
  {
    match d
    case FlatCategory(f) => FlatCategoryDriver.LoadAll(disk, f)
    case FlatDirectory(f) => FlatDirectoryDriver.LoadAll(disk, f)
    case Subdir(s) => BaseSubdirCategoryDriver.LoadAll(disk, s)
    case Legacy(s) => SubdirCategoryDriver.LoadAllAsWritten(disk, s)
  }

  /** saveAllTranslations of the driver's class. */
  function Save(disk: Disk, d: Driver, data: Catalog, onlyExisting: bool, suffix: string): Run
  {
    match d
    case FlatCategory(f) => FlatCategoryDriver.SaveAll(disk, f, data, onlyExisting, suffix)
    case FlatDirectory(f) => FlatDirectoryDriver.SaveAll(disk, f, data, onlyExisting, suffix)
    case Subdir(s) => BaseSubdirCategoryDriver.SaveAll(disk, s, data, onlyExisting, suffix)
    case Legacy(s) => SubdirCategoryDriver.SaveAllAsWritten(disk, s, data, onlyExisting, suffix)
  }

  /** A write that puts the suffix after the name of a file already on disk. */
  predicate BesideExisting(disk: Disk, suffix: string, w: Write)
  {
    exists f | f in disk.files :: w.path == f + suffix
  }

  /**
   * Whatever the driver, a save with onlyExisting never creates a file of
   * its own: every write goes to an existing file's name plus the suffix.
   */
  lemma ImportWritesBesideExisting(disk: Disk, d: Driver, data: Catalog, suffix: string)
    ensures forall w | w in Save(disk, d, data, true, suffix).writes :: BesideExisting(disk, suffix, w)
  {
    match d
    case FlatCategory(f) =>
      FlatCategoryDriver.ImportRewritesOnlyExisting(disk, f, data, suffix);
      forall w | w in Save(disk, d, data, true, suffix).writes ensures BesideExisting(disk, suffix, w) {
        var realPath := disk.realPaths[f.path];
        var l :| l in data && FlatCategoryDriver.ImportedWrite(disk, f, realPath, l, data[l], suffix, w);
        var file := FlatCategoryDriver.LanguageFilePath(realPath, l, f.extension);
        assert file in disk.files && w.path == file + suffix;
      }
    case FlatDirectory(f) =>
      FlatDirectoryDriver.SaveNeverCreates(disk, f, data, true, suffix);
      forall w | w in Save(disk, d, data, true, suffix).writes ensures BesideExisting(disk, suffix, w) {
        var realPath := disk.realPaths[f.path];
        var l, file :| l in data && FlatDirectoryDriver.Listed(disk, f, realPath, l, file) &&
          FlatDirectoryDriver.Rewrites(disk, f, file, data[l], true, suffix, w);
        assert file in disk.files && w.path == file + suffix;
      }
    case Subdir(s) =>
      BaseSubdirCategoryDriver.ImportRewritesOnlyExisting(disk, s, data, suffix);
      forall w | w in Save(disk, d, data, true, suffix).writes ensures BesideExisting(disk, suffix, w) {
        var realPath := disk.realPaths[s.path];
        var l, c :| l in data && c in data[l] &&
          BaseSubdirCategoryDriver.ImportedWrite(disk, s, realPath, l, c, data[l][c], suffix, w);
        var file := BaseSubdirCategoryDriver.CategoryFilePath(realPath, l, s.categoryPrefix, c, s.extension);
        assert file in disk.files && w.path == file + suffix;
      }
    case Legacy(s) =>
      SubdirCategoryDriver.SaveAsWrittenWritesNothing(disk, s, data, true, suffix);
  }

  /** The tree holding the single file ru/app.json, with one message, under the messages directory /m. */
  function LegacyTree(): Disk
  {
    Disk(map["/m/ru/app.json" := Arr(map["Hi" := Str("Privet")])], map["@app/messages" := "/m"],
         map[Listing("/m", "*.json", true) := ["/m/ru/app.json"]])
  }

  /** A configuration of the legacy class with the messages path and nothing else. */
  function LegacyConfig(path: string): DriverConfig
  {
    DriverConfig(Some(SubdirLegacyClass), Set(path), Unset, Unset, Unset)
  }

  /**
   * A legacy driver configured over the tree with the single file
   * ru/app.json raises on load, where the subdirectory driver it was meant
   * to be reads that file.
   */
  lemma LegacyLoadRaises()
    ensures Instantiate(LegacyConfig("@app/messages")).Ok?
    ensures Load(LegacyTree(), Instantiate(LegacyConfig("@app/messages")).value) == Err(UnknownMember("stripCategoryPrefix"))
  {
    SubdirCategoryDriver.LoadCounterexample();
  }

  /** A legacy driver over a resolvable path raises on the first category it would save, before any write. */
  lemma LegacySaveRaises(disk: Disk, path: string, data: Catalog, onlyExisting: bool, suffix: string)
    requires path in disk.realPaths
    requires exists l | l in data :: data[l] != map[]
    ensures Instantiate(LegacyConfig(path)).Ok?
    ensures Save(disk, Instantiate(LegacyConfig(path)).value, data, onlyExisting, suffix) ==
      Fail(UnknownMember("categoryPrefix"))
  {
  }

  method LoadAllTranslations(disk: Disk, d: Driver) returns (r: Result<Catalog, Error>)
    ensures r == Load(disk, d)
  {
    match d
    case FlatCategory(f) => r := FlatCategoryDriver.LoadAllTranslations(disk, f);
    case FlatDirectory(f) => r := FlatDirectoryDriver.LoadAllTranslations(disk, f);
    case Subdir(s) => r := BaseSubdirCategoryDriver.LoadAllTranslations(disk, s);
    case Legacy(s) => r := SubdirCategoryDriver.LoadAllTranslations(disk, s);
  }

  /** run names the save being carried out, so that callers reason about it without unfolding it. */
  method SaveAllTranslations(fs: FileSystem, d: Driver, data: Catalog, onlyExisting: bool, suffix: string, ghost run: Run)
    returns (failure: Option<Error>)
    requires run == Save(fs.disk, d, data, onlyExisting, suffix)
    modifies fs
    ensures fs.log == old(fs.log) + run.writes
    ensures failure == run.failure
  {
    match d
    case FlatCategory(f) => failure := FlatCategoryDriver.SaveAllTranslations(fs, f, data, onlyExisting, suffix);
    case FlatDirectory(f) => failure := FlatDirectoryDriver.SaveAllTranslations(fs, f, data, onlyExisting, suffix);
    case Subdir(s) => failure := BaseSubdirCategoryDriver.SaveAllTranslations(fs, s, data, onlyExisting, suffix);
    case Legacy(s) =>
      SubdirCategoryDriver.SaveAsWrittenWritesNothing(fs.disk, s, data, onlyExisting, suffix);
      failure := SubdirCategoryDriver.SaveAllTranslations(fs.disk, s, data, onlyExisting, suffix);
  }
}
