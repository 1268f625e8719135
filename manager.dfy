/**
 * The Manager component: source drivers and an export driver built on first
 * use and kept, export (every source's catalog merged, then saved through
 * the export driver with onlyExisting off) and import (the export driver's
 * catalog saved into every source with onlyExisting on, beside the source
 * files unless overwriting).
 */
module Manager {
  import opened Wrappers
  import opened Errors
  import opened Catalogs
  import opened Disk
  import opened Merge
  import opened Drivers

  const NoSourcesText := "No source drivers defined in \"sourceDrivers\""

  /** The suffix import gives the files it writes. */
  function ImportSuffix(overwrite: bool): string
  {
    if overwrite then "" else ".new"
  }

  // ---- the drivers ----

  /** getSourceDrivers: every source in order, stopping at the first that cannot be built. */
  function EnsureFrom(specs: seq<DriverSpec>, acc: seq<Driver>): Result<seq<Driver>, Error>
    decreases |specs|
  {
    if specs == [] then Ok(acc)
    else
      match Ensure(specs[0])
      case Err(e) => Err(e)
      case Ok(d) => EnsureFrom(specs[1..], acc + [d])
  }

  function EnsureAll(specs: seq<DriverSpec>): Result<seq<Driver>, Error>
  {
    EnsureFrom(specs, [])
  }

  /**
   * The sources build exactly when each of them does, into the drivers in
   * the same order; otherwise the error is that of the first source that
   * does not build.
   */
  lemma {:induction false} EnsureFromSpec(specs: seq<DriverSpec>, acc: seq<Driver>)
    ensures var r := EnsureFrom(specs, acc);
      && (r.Ok? <==> forall i | 0 <= i < |specs| :: Ensure(specs[i]).Ok?)
      && (r.Ok? ==> |r.value| == |acc| + |specs| && r.value[..|acc|] == acc &&
                    forall i | 0 <= i < |specs| :: r.value[|acc| + i] == Ensure(specs[i]).value)
      && (r.Err? ==> exists k | 0 <= k < |specs| :: Ensure(specs[k]).Err? && r.error == Ensure(specs[k]).error &&
                       forall i | 0 <= i < k :: Ensure(specs[i]).Ok?)
    decreases |specs|
  {
    if specs != [] {
      match Ensure(specs[0])
      case Err(e) =>
      case Ok(d) =>
        EnsureFromSpec(specs[1..], acc + [d]);
        var r := EnsureFrom(specs, acc);
        assert forall i | 1 <= i < |specs| :: specs[1..][i - 1] == specs[i];
        if r.Ok? {
          assert r.value[..|acc| + 1] == acc + [d];
          assert r.value[..|acc|] == r.value[..|acc| + 1][..|acc|] == (acc + [d])[..|acc|] == acc;
          assert r.value[|acc|] == r.value[..|acc| + 1][|acc|] == d;
          forall i | 1 <= i < |specs| ensures r.value[|acc| + i] == Ensure(specs[i]).value {
            assert r.value[|acc| + 1 + (i - 1)] == Ensure(specs[1..][i - 1]).value;
          }
        } else {
          var k :| 0 <= k < |specs[1..]| && Ensure(specs[1..][k]).Err? && r.error == Ensure(specs[1..][k]).error &&
            forall i | 0 <= i < k :: Ensure(specs[1..][i]).Ok?;
          assert Ensure(specs[k + 1]).Err? && forall i | 0 <= i < k + 1 :: Ensure(specs[i]).Ok?;
        }
    }
  }

  /** getExportDriver: an array configuration without a class gets FlatCategoryDriver. */
  function ExportSpec(spec: DriverSpec): (r: DriverSpec)
    ensures spec.Configured? ==> r.Configured? && r.config.className.Some?
    ensures spec.Configured? && spec.config.className.None? ==> r.config.className == Some(FlatCategoryClass)
    ensures spec.Configured? && spec.config.className.Some? ==> r == spec
    ensures spec.Configured? ==> r.config.(className := spec.config.className) == spec.config
    ensures spec.Given? ==> r == spec
  {
    match spec
    case Given(_) => spec
    case Configured(c) => if c.className.None? then Configured(c.(className := Some(FlatCategoryClass))) else spec
  }

  // ---- export ----

  /** The loop of export: each source's catalog merged into the data gathered so far. */
  function Collect(disk: Disk, drivers: seq<Driver>, data: Catalog): Result<Catalog, Error>
    decreases |drivers|
  {
    if drivers == [] then Ok(data)
    else
      match Load(disk, drivers[0])
      case Err(e) => Err(e)
      case Ok(translations) =>
        match MergeExport(data, translations)
        case Err(e) => Err(e)
        case Ok(merged) => Collect(disk, drivers[1..], merged)
  }

  /** export(): the sources are built, loaded and merged, then the export driver is built and saves. */
  function ExportRun(disk: Disk, sources: seq<DriverSpec>, exportDriver: DriverSpec): Run
  {
    match EnsureAll(sources)
    case Err(e) => Fail(e)
    case Ok(drivers) =>
      match Collect(disk, drivers, map[])
      case Err(e) => Fail(e)
      case Ok(data) => ExportSave(disk, data, exportDriver)
  }

  /** The last step of export: the export driver saves the merged data with onlyExisting off. */
  function ExportSave(disk: Disk, data: Catalog, exportDriver: DriverSpec): Run
  {
    match Ensure(ExportSpec(exportDriver))
    case Err(e) => Fail(e)
    case Ok(d) => Save(disk, d, data, false, "")
  }

  predicate HasMessage(data: Catalog, l: string, c: string, m: string)
  {
    l in data && c in data[l] && m in data[l][c]
  }

  /** A merge keeps every message it was given and every non-empty translation gathered so far. */
  lemma MergeKeepsTranslated(data: Catalog, translations: Catalog, l: string, c: string, m: string)
    requires MergeExport(data, translations).Ok?
    requires HasMessage(data, l, c, m)
    ensures var res := MergeExport(data, translations).value;
      && HasMessage(res, l, c, m)
      && (data[l][c][m] != "" ==> res[l][c][m] == data[l][c][m])
  {
    if HasMessage(translations, l, c, m) {
      MergeExportSpec(data, translations);
      assert !ConflictAt(data, translations, l, c, m);
      MergeKeepsIncoming(data, translations, l, c, m);
    } else {
      MergeKeepsAccumulated(data, translations, l, c, m);
    }
  }

  lemma {:induction false} CollectKeeps(disk: Disk, drivers: seq<Driver>, data: Catalog, l: string, c: string, m: string)
    requires Collect(disk, drivers, data).Ok?
    requires HasMessage(data, l, c, m)
    ensures var res := Collect(disk, drivers, data).value;
      && HasMessage(res, l, c, m)
      && (data[l][c][m] != "" ==> res[l][c][m] == data[l][c][m])
    decreases |drivers|
  {
    if drivers != [] {
      var translations := Load(disk, drivers[0]).value;
      MergeKeepsTranslated(data, translations, l, c, m);
      CollectKeeps(disk, drivers[1..], MergeExport(data, translations).value, l, c, m);
    }
  }

  /**
   * When export gathers its data, every source loaded, no message of any
   * source is lost, and a non-empty translation of any source is exported
   * unchanged.
   */
  lemma {:induction false} CollectCoversSources(disk: Disk, drivers: seq<Driver>, data: Catalog, i: nat,
                                                l: string, c: string, m: string)
    requires Collect(disk, drivers, data).Ok?
    requires i < |drivers|
    ensures Load(disk, drivers[i]).Ok?
    ensures var source := Load(disk, drivers[i]).value;
      var res := Collect(disk, drivers, data).value;
      HasMessage(source, l, c, m) ==>
        && HasMessage(res, l, c, m)
        && (source[l][c][m] != "" ==> res[l][c][m] == source[l][c][m])
    decreases |drivers|
  {
    var translations := Load(disk, drivers[0]).value;
    var merged := MergeExport(data, translations).value;
    if i == 0 {
      if HasMessage(translations, l, c, m) {
        MergeKeepsIncoming(data, translations, l, c, m);
        CollectKeeps(disk, drivers[1..], merged, l, c, m);
      }
    } else {
      CollectCoversSources(disk, drivers[1..], merged, i - 1, l, c, m);
    }
  }

  /** With a single source, export saves exactly what that source loads. */
  lemma SingleSourceExportsItsCatalog(disk: Disk, d: Driver)
    ensures Collect(disk, [d], map[]) == Load(disk, d)
  {
    assert [d][1..] == [];
  }

  /**
   * Export does not depend on the order of two sources: when both orders
   * gather without a conflict, they gather the same catalog.
   */
  lemma SourceOrderIrrelevant(disk: Disk, first: Driver, second: Driver)
    requires Collect(disk, [first, second], map[]).Ok? && Collect(disk, [second, first], map[]).Ok?
    ensures Collect(disk, [first, second], map[]) == Collect(disk, [second, first], map[])
  {
    var t1 := Load(disk, first).value;
    var t2 := Load(disk, second).value;
    EarlyReturnAgrees(t1);
    EarlyReturnAgrees(t2);
    assert [first, second][1..] == [second] && [second, first][1..] == [first];
    assert [second][1..] == [] && [first][1..] == [];
    MergeOrderIndependent(t1, t2);
  }

  /**
   * Two sources whose non-empty translations of one message differ make
   * export fail with a conflict naming that message and the two
   * translations, before anything is saved.
   */
  lemma TwoSourcesConflict(disk: Disk, first: Driver, second: Driver, l: string, c: string, m: string)
    requires Load(disk, first).Ok? && Load(disk, second).Ok?
    requires ConflictAt(Load(disk, first).value, Load(disk, second).value, l, c, m)
    ensures var r := Collect(disk, [first, second], map[]);
      && r.Err?
      && exists l', c', m' ::
           && ConflictAt(Load(disk, first).value, Load(disk, second).value, l', c', m')
           && r.error == Conflict(MergeConflict(l', c', m',
                [Load(disk, first).value[l'][c'][m'], Load(disk, second).value[l'][c'][m']], None))
  {
    var t1 := Load(disk, first).value;
    var t2 := Load(disk, second).value;
    assert MergeExport(map[], t1) == Ok(t1);
    assert [first, second][1..] == [second];
    MergeExportSpec(t1, t2);
  }

  /** A single legacy source builds. */
  lemma EnsureLegacy(path: string)
    ensures Instantiate(LegacyConfig(path)).Ok?
    ensures EnsureAll([Configured(LegacyConfig(path))]) == Ok([Instantiate(LegacyConfig(path)).value])
  {
    var specs := [Configured(LegacyConfig(path))];
    var d := Instantiate(LegacyConfig(path)).value;
    assert Ensure(specs[0]) == Ok(d);
    assert specs[1..] == [];
    assert [] + [d] == [d];
    assert EnsureFrom(specs, []) == EnsureFrom([], [d]);
  }

  /**
   * A legacy SubdirCategoryDriver among the sources stops export when it
   * loads: on the one-file tree, export raises before anything is saved.
   */
  lemma LegacySourceStopsExport(exportDriver: DriverSpec)
    ensures ExportRun(LegacyTree(), [Configured(LegacyConfig("@app/messages"))], exportDriver) ==
      Fail(UnknownMember("stripCategoryPrefix"))
  {
    EnsureLegacy("@app/messages");
    LegacyLoadRaises();
    SingleSourceExportsItsCatalog(LegacyTree(), Instantiate(LegacyConfig("@app/messages")).value);
  }

  // ---- import ----

  /** import(): the export driver is built and loads, then every source saves that data. */
  function ImportRun(disk: Disk, sources: seq<DriverSpec>, exportDriver: DriverSpec, overwrite: bool): Run
  {
    match Ensure(ExportSpec(exportDriver))
    case Err(e) => Fail(e)
    case Ok(d) =>
      match Load(disk, d)
      case Err(e) => Fail(e)
      case Ok(data) => ImportSave(disk, sources, data, overwrite)
  }

  /** The second half of import: the sources are built, then each saves the data in turn. */
  function ImportSave(disk: Disk, sources: seq<DriverSpec>, data: Catalog, overwrite: bool): Run
  {
    match EnsureAll(sources)
    case Err(e) => Fail(e)
    case Ok(drivers) => Sequence(ImportSteps(disk, drivers, data, ImportSuffix(overwrite)))
  }

  function ImportSteps(disk: Disk, drivers: seq<Driver>, data: Catalog, suffix: string): (r: seq<Run>)
    ensures |r| == |drivers|
  {
    seq(|drivers|, i requires 0 <= i < |drivers| => Save(disk, drivers[i], data, true, suffix))
  }

  /** Each source's save writes beside existing files, and so does the loop of them. */
  lemma ImportStepsBeside(disk: Disk, drivers: seq<Driver>, data: Catalog, suffix: string)
    ensures forall w | w in Sequence(ImportSteps(disk, drivers, data, suffix)).writes :: BesideExisting(disk, suffix, w)
  {
    var steps := ImportSteps(disk, drivers, data, suffix);
    SequenceWrites(steps);
    forall w | w in Sequence(steps).writes ensures BesideExisting(disk, suffix, w) {
      var i :| 0 <= i < |steps| && w in steps[i].writes;
      ImportWritesBesideExisting(disk, drivers[i], data, suffix);
    }
  }

  /**
   * Import never creates a file of its own: every write goes to the name of
   * a file already on disk, plus ".new" unless overwriting, so that without
   * overwrite no source file is touched.
   */
  lemma ImportWritesBesideSources(disk: Disk, sources: seq<DriverSpec>, exportDriver: DriverSpec, overwrite: bool)
    ensures forall w | w in ImportRun(disk, sources, exportDriver, overwrite).writes ::
      BesideExisting(disk, ImportSuffix(overwrite), w)
    ensures !overwrite ==> forall w | w in ImportRun(disk, sources, exportDriver, overwrite).writes ::
      exists f | f in disk.files :: w.path == f + ".new"
  {
    var run := ImportRun(disk, sources, exportDriver, overwrite);
    if run.writes != [] {
      var d := Ensure(ExportSpec(exportDriver)).value;
      var data := Load(disk, d).value;
      var drivers := EnsureAll(sources).value;
      assert run == Sequence(ImportSteps(disk, drivers, data, ImportSuffix(overwrite)));
      ImportStepsBeside(disk, drivers, data, ImportSuffix(overwrite));
    }
  }

  /**
   * A legacy SubdirCategoryDriver among the sources stops import as soon as
   * it is given a category to save, without writing anything.
   */
  lemma LegacySourceStopsImport(data: Catalog, overwrite: bool)
    requires exists l | l in data :: data[l] != map[]
    ensures ImportSave(LegacyTree(), [Configured(LegacyConfig("@app/messages"))], data, overwrite) ==
      Fail(UnknownMember("categoryPrefix"))
  {
    EnsureLegacy("@app/messages");
    assert "@app/messages" in LegacyTree().realPaths;
    LegacySaveRaises(LegacyTree(), "@app/messages", data, true, ImportSuffix(overwrite));
    var d := Instantiate(LegacyConfig("@app/messages")).value;
    var steps := ImportSteps(LegacyTree(), [d], data, ImportSuffix(overwrite));
    assert steps[0] == Fail(UnknownMember("categoryPrefix"));
    assert steps[..0] == [];
    assert Sequence(steps) == Then(Done, steps[0]);
  }

  /** Import fails exactly when building or loading fails or some source's save fails. */
  lemma ImportFailure(disk: Disk, sources: seq<DriverSpec>, exportDriver: DriverSpec, overwrite: bool)
    requires Ensure(ExportSpec(exportDriver)).Ok?
    requires Load(disk, Ensure(ExportSpec(exportDriver)).value).Ok?
    requires EnsureAll(sources).Ok?
    ensures var drivers := EnsureAll(sources).value;
      var data := Load(disk, Ensure(ExportSpec(exportDriver)).value).value;
      ImportRun(disk, sources, exportDriver, overwrite).failure.None? <==>
        forall i | 0 <= i < |drivers| :: Save(disk, drivers[i], data, true, ImportSuffix(overwrite)).failure.None?
  {
    var drivers := EnsureAll(sources).value;
    var data := Load(disk, Ensure(ExportSpec(exportDriver)).value).value;
    var steps := ImportSteps(disk, drivers, data, ImportSuffix(overwrite));
    assert ImportRun(disk, sources, exportDriver, overwrite) == Sequence(steps);
    assert forall i | 0 <= i < |drivers| :: steps[i] == Save(disk, drivers[i], data, true, ImportSuffix(overwrite));
    if forall i | 0 <= i < |drivers| :: steps[i].failure.None? {
      SequenceAllSucceed(steps);
    }
    if Sequence(steps).failure.None? {
      SequenceSucceeds(steps);
    }
  }

  // ---- the loops of export and import ----

  /** The merge loop of export. */
  method CollectAll(disk: Disk, drivers: seq<Driver>) returns (r: Result<Catalog, Error>)
    ensures r == Collect(disk, drivers, map[])
  {
    var data: Catalog := map[];
    var i := 0;
    while i < |drivers|
      invariant 0 <= i <= |drivers|
      invariant Collect(disk, drivers[i..], data) == Collect(disk, drivers, map[])
    {
      assert drivers[i..][0] == drivers[i] && drivers[i..][1..] == drivers[i + 1..];
      var translations := LoadAllTranslations(disk, drivers[i]);
      if translations.Err? {
        return Err(translations.error);
      }
      var merged := MergeExportTranslations(data, translations.value);
      if merged.Err? {
        return Err(merged.error);
      }
      data := merged.value;
      i := i + 1;
    }
    assert drivers[i..] == [];
    return Ok(data);
  }

  /** The save loop of import: each source in turn, stopping at the first failure. */
  method SaveInto(fs: FileSystem, drivers: seq<Driver>, data: Catalog, suffix: string, ghost steps: seq<Run>)
    returns (failure: Option<Error>)
    requires |steps| == |drivers|
    requires forall k | 0 <= k < |drivers| :: steps[k] == Save(fs.disk, drivers[k], data, true, suffix)
    modifies fs
    ensures fs.log == old(fs.log) + Sequence(steps).writes
    ensures failure == Sequence(steps).failure
  {
    var i := 0;
    while i < |drivers|
      invariant 0 <= i <= |drivers| == |steps|
      invariant fs.log == old(fs.log) + Sequence(steps[..i]).writes
      invariant Sequence(steps[..i]).failure.None?
    {
      ghost var before := fs.log;
      failure := SaveAllTranslations(fs, drivers[i], data, true, suffix, steps[i]);
      SequenceStep(steps, i, old(fs.log), before, fs.log);
      if failure.Some? {
        SequenceFailsAt(steps, i);
        return;
      }
      i := i + 1;
    }
    assert steps[..i] == steps;
    return None;
  }

  // ---- the component ----

  class Manager {
    const overwrite: bool
    const sourceDrivers: seq<DriverSpec>
    const exportDriver: DriverSpec
    var sourceCache: Option<seq<Driver>>
    var exportCache: Option<Driver>

    /** A cached driver is the one its configuration builds. */
    ghost predicate Valid()
      reads this
    {
      && (sourceCache.Some? ==> EnsureAll(sourceDrivers) == Ok(sourceCache.value))
      && (exportCache.Some? ==> Ensure(ExportSpec(exportDriver)) == Ok(exportCache.value))
    }

    /**
     * The component's configuration; nothing is built yet. A yii component's
     * constructor ends by calling init(); here the two are split, because a
     * constructor cannot report init()'s failure: a caller constructs, then
     * calls Init and uses the manager only when Init reports no failure.
     */
    constructor (overwrite: bool, sourceDrivers: seq<DriverSpec>, exportDriver: DriverSpec)
      ensures this.overwrite == overwrite
      ensures this.sourceDrivers == sourceDrivers
      ensures this.exportDriver == exportDriver
      ensures sourceCache.None? && exportCache.None?
      ensures Valid()
    {
      this.overwrite := overwrite;
      this.sourceDrivers := sourceDrivers;
      this.exportDriver := exportDriver;
      sourceCache := None;
      exportCache := None;
    }

    /** init(): a manager needs at least one source driver. */
    method Init() returns (failure: Option<Error>)
      ensures failure.Some? <==> sourceDrivers == []
      ensures failure.Some? ==> failure.value == InvalidConfig(NoSourcesText)
    {
      if sourceDrivers == [] {
        return Some(InvalidConfig(NoSourcesText));
      }
      return None;
    }

    method GetSourceDrivers() returns (r: Result<seq<Driver>, Error>)
      requires Valid()
      modifies this
      ensures Valid()
      ensures r == EnsureAll(sourceDrivers)
      ensures r.Ok? ==> sourceCache == Some(r.value)
      ensures r.Err? ==> sourceCache == old(sourceCache)
      ensures exportCache == old(exportCache)
    {
      if sourceCache.Some? {
        return Ok(sourceCache.value);
      }
      var drivers: seq<Driver> := [];
      var i := 0;
      while i < |sourceDrivers|
        invariant 0 <= i <= |sourceDrivers|
        invariant EnsureFrom(sourceDrivers[i..], drivers) == EnsureAll(sourceDrivers)
      {
        assert sourceDrivers[i..][1..] == sourceDrivers[i + 1..];
        var d := Ensure(sourceDrivers[i]);
        if d.Err? {
          return Err(d.error);
        }
        drivers := drivers + [d.value];
        i := i + 1;
      }
      sourceCache := Some(drivers);
      return Ok(drivers);
    }

    method GetExportDriver() returns (r: Result<Driver, Error>)
      requires Valid()
      modifies this
      ensures Valid()
      ensures r == Ensure(ExportSpec(exportDriver))
      ensures r.Ok? ==> exportCache == Some(r.value)
      ensures r.Err? ==> exportCache == old(exportCache)
      ensures sourceCache == old(sourceCache)
    {
      if exportCache.Some? {
        return Ok(exportCache.value);
      }
      var config := exportDriver;
      if config.Configured? && config.config.className.None? {
        config := Configured(config.config.(className := Some(FlatCategoryClass)));
      }
      r := Ensure(config);
      if r.Ok? {
        exportCache := Some(r.value);
      }
    }

    method Export(fs: FileSystem) returns (failure: Option<Error>)
      requires Valid()
      modifies this, fs
      ensures Valid()
      ensures fs.log == old(fs.log) + ExportRun(fs.disk, sourceDrivers, exportDriver).writes
      ensures failure == ExportRun(fs.disk, sourceDrivers, exportDriver).failure
    {
      var sources := GetSourceDrivers();
      if sources.Err? {
        return Some(sources.error);
      }
      var drivers := sources.value;
      var data := CollectAll(fs.disk, drivers);
      if data.Err? {
        return Some(data.error);
      }
      assert ExportRun(fs.disk, sourceDrivers, exportDriver) == ExportSave(fs.disk, data.value, exportDriver);
      var target := GetExportDriver();
      if target.Err? {
        return Some(target.error);
      }
      failure := SaveAllTranslations(fs, target.value, data.value, false, "", ExportSave(fs.disk, data.value, exportDriver));
    }

    method Import(fs: FileSystem) returns (failure: Option<Error>)
      requires Valid()
      modifies this, fs
      ensures Valid()
      ensures fs.log == old(fs.log) + ImportRun(fs.disk, sourceDrivers, exportDriver, overwrite).writes
      ensures failure == ImportRun(fs.disk, sourceDrivers, exportDriver, overwrite).failure
    {
      var source := GetExportDriver();
      if source.Err? {
        return Some(source.error);
      }
      var data := LoadAllTranslations(fs.disk, source.value);
      if data.Err? {
        return Some(data.error);
      }
      assert ImportRun(fs.disk, sourceDrivers, exportDriver, overwrite) == ImportSave(fs.disk, sourceDrivers, data.value, overwrite);
      var sources := GetSourceDrivers();
      if sources.Err? {
        return Some(sources.error);
      }
      var drivers := sources.value;
      var suffix := if overwrite then "" else ".new";
      assert ImportRun(fs.disk, sourceDrivers, exportDriver, overwrite) ==
        Sequence(ImportSteps(fs.disk, drivers, data.value, suffix));
      failure := SaveInto(fs, drivers, data.value, suffix, ImportSteps(fs.disk, drivers, data.value, suffix));
    }
  }
}
