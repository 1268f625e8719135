# yii2-i18n-json-export, modelled in Dafny

This project models the core of the Yii2 extension that moves a translation
catalog between several on-disk layouts ("source drivers") and one
consolidated export file. A catalog is language → category → message →
translation, and the empty translation means "not translated yet".

The model covers:

- `Manager::export`. It folds every source driver's catalog into one with the
  conflict-detecting merge (`mergeExportTranslations`), then saves the result
  through the export driver with `onlyExisting = false`.
- `Manager::import`. It loads the export catalog once, then saves it into
  every source driver with `onlyExisting = true`. The suffix is `''` when
  `overwrite` is set and `'.new'` otherwise.
- The `init` check and the lazily cached drivers. An export configuration
  without a class defaults to `FlatCategoryDriver`.
- The conflict record `MergeConflictException` and its message text.
- The reconciliation rules the drivers apply on save: `updateTranslationsArray`
  (selective update) and `fillTranslationsArray` (fill from the old file).
- `DataUtils::sortTranslationsMap`.
- `stripCategoryPrefix`.
- The path layouts:
  - `FlatCategoryDriver`: one `<language>.<ext>` file per language.
  - `FlatDirectoryDriver`: a directory per language holding any number of
    files, merged with conflict detection on load.
  - `BaseSubdirCategoryDriver` with its JSON and PHP subclasses:
    `<language>/<category>.<ext>`.
  - The older `SubdirCategoryDriver`.

  For each layout the model covers its path parser, the matching path
  composition used on save, and its `loadAllTranslations` /
  `saveAllTranslations` loops.

Modules, one per source file or concern:

| module | what it holds |
|---|---|
| `Wrappers`, `Errors` | `Option`/`Result`, the exception kinds, the `MergeConflict` record |
| `Ordering`, `StringUtils` | byte order, `strcasecmp` folding, `strtr`/`rtrim`/`explode` on paths |
| `Catalogs` | the catalog types, iteration order, update and fill |
| `CategoryUtils`, `DataUtils` | `stripCategoryPrefix`, `sortTranslationsMap` |
| `Merge` | `mergeExportTranslations` and the per-language merge `FlatDirectoryDriver` uses |
| `Disk` | the file-system boundary |
| `BaseFlatCategoryDriver`, `FlatCategoryDriver`, `FlatDirectoryDriver` | the flat layouts |
| `BaseSubdirCategoryDriver`, `SubdirCategoryDriver` | the subdirectory layouts |
| `Drivers`, `Manager` | building drivers from configuration; the `Manager` component |

How the model treats the code:

- Loops that build arrays, or write files one after another, are methods with
  loop invariants. Each is proved equal to a specification function, and the
  lemmas state what that function promises.
- `Manager` is a class whose getters fill its two cache fields.
- The disk is a value:
  - the files, already decoded;
  - the answers of `realpath`;
  - the answers of `FileHelper::findFiles`.
- Writes are appended to the log of a `FileSystem` object. A save is described
  by a `Run`: the writes it makes, and the error it stops at, if any.
- PHP's `foreach` over an array visits keys in ascending byte order in the
  model.

Two behaviours a reader might not expect, which the model keeps as the code
has them:

- **Empty incoming value.** An incoming empty translation conflicts with a
  different non-empty accumulated one (src/Manager.php:151-156). Only an empty
  accumulated value gives way without a conflict. So the merge is
  order-sensitive when empties are involved. `Merge.EmptyThenTranslated` and
  `Merge.TranslatedThenEmpty` show both orders. When neither order conflicts,
  the order does not matter (`Merge.MergeOrderIndependent`).
- **Subdirectory loads.** The subdirectory drivers store each file's messages
  under its (language, category), so a later file for the same pair replaces
  an earlier one without a conflict (src/drivers/BaseSubdirCategoryDriver.php:80).
- **The older `SubdirCategoryDriver`.** A configuration naming it builds a
  driver that runs as the class is written: its load and its save raise (see
  "## Findings"). So a manager with such a source fails on export and import.

## Model

| member | source | states |
|---|---|---|
| Errors.ConflictTextIdentifiesCoordinates | src/MergeConflictException.php:23-36 | the text "Conflicting translations in \`L\` language for (\`C\`, \`M\`)" determines language, category and message whenever none of them contains a backtick |
| Ordering.SortedKeys | src/drivers/BaseFlatCategoryDriver.php:69-71 | the iteration order of a key set lists every key exactly once and nothing else |
| Ordering.SortedKeysAscending | src/drivers/BaseFlatCategoryDriver.php:69-71 | after ksort the keys are strictly ascending in byte order |
| Ordering.LexLessTransitive | src/drivers/BaseFlatCategoryDriver.php:70 | the byte order that ksort uses is transitive |
| Ordering.LexLessTotal | src/drivers/BaseFlatCategoryDriver.php:70 | any two distinct keys are ordered one way or the other |
| Ordering.LexLessAsymmetric | src/drivers/BaseFlatCategoryDriver.php:70 | no two keys are each below the other, so ksort has one result |
| Ordering.LexLessPrefixed | src/drivers/BaseFlatCategoryDriver.php:72 | prepending the category prefix keeps the order of two categories |
| Ordering.CaseLeqTotal | src/helpers/DataUtils.php:40 | strcasecmp compares any two keys |
| Ordering.CaseLeqTransitive | src/helpers/DataUtils.php:40 | strcasecmp order is transitive |
| StringUtils.Strtr | src/drivers/BaseSubdirCategoryDriver.php:66 | strtr(s, '\\', '/') keeps the length and replaces exactly the backslashes |
| StringUtils.RTrimSlashes | src/drivers/BaseSubdirCategoryDriver.php:67 | the result is a prefix of the input that does not end in '/' |
| StringUtils.NormalizeUnderPath | src/drivers/BaseSubdirCategoryDriver.php:66-67 | a path built under the real path normalises to the base path followed by its tail |
| StringUtils.FirstSegment | src/drivers/FlatDirectoryDriver.php:153 | explode('/')[0]: a '/'-free prefix followed by '/' or by the end of the string |
| StringUtils.FirstSegmentOfJoin | src/drivers/FlatDirectoryDriver.php:153 | the first segment of a + "/" + b is a when a has no '/' |
| StringUtils.SplitAtFirstSlash | src/drivers/BaseSubdirCategoryDriver.php:210 | explode('/', s, 2) + [1 => '']: the first segment, then the rest after the first '/', or '' when there is no '/' |
| StringUtils.SplitAtFirstSlashOfJoin | src/drivers/BaseSubdirCategoryDriver.php:210 | splitting a + "/" + b gives back (a, b) when a has no '/' |
| Catalogs.Entries | src/drivers/BaseFlatCategoryDriver.php:71 | foreach visits every key of an array once, each with its own value |
| Catalogs.EntriesAscending | src/drivers/BaseFlatCategoryDriver.php:69-71 | after ksort the categories are visited in ascending key order |
| Catalogs.ToMapOfListing | src/drivers/JsonDriverTrait.php:27 | an array built from a listing of a map is that map again |
| Catalogs.UpdateMessagesArray | src/drivers/BaseSubdirCategoryDriver.php:155-167 | the copy-then-assign loop computes the selective update of one message map |
| Catalogs.UpdateKeepsKeys | src/drivers/BaseFlatCategoryDriver.php:86-103 | the update returns exactly the categories and messages of the existing data |
| Catalogs.UpdateOnlyNonEmpty | src/drivers/BaseFlatCategoryDriver.php:91-99 | a message takes the new value exactly when the new data has a non-empty value at the same category and message; otherwise it keeps its existing value |
| Catalogs.UpdateNeutral | src/drivers/BaseFlatCategoryDriver.php:89-102 | update(e, e) == e and update(e, {}) == e |
| Catalogs.UpdateIdempotent | src/drivers/BaseFlatCategoryDriver.php:89-102 | updating twice with the same data gives the same result as once |
| Catalogs.FillMessagesArray | src/drivers/BaseFlatCategoryDriver.php:119-126 | the inner loop computes the fill of one message map |
| Catalogs.FillKeepsKeys | src/drivers/BaseFlatCategoryDriver.php:111-131 | the fill returns exactly the categories and messages of the new data |
| Catalogs.FillOnlyEmpty | src/drivers/BaseFlatCategoryDriver.php:116-128 | a message changes exactly when it is empty and the old data holds a non-empty value there, which it then takes |
| Catalogs.FillSelf | src/drivers/BaseFlatCategoryDriver.php:114-130 | fill(m, m) == m |
| Catalogs.FillLeavesEmptyOnlyWithoutFallback | src/drivers/BaseFlatCategoryDriver.php:120-124 | a message left empty was empty and had no non-empty old value; a non-empty new translation is never altered |
| CategoryUtils.StripCategoryPrefix | src/drivers/CategoryUtilsTrait.php:16-28 | the empty prefix is the identity; otherwise the result is Ok exactly when the category starts with the prefix, and it is then the bytes after the prefix; any other category is a source-data error |
| CategoryUtils.StripAfterPrefixing | src/drivers/CategoryUtilsTrait.php:16-28 | stripping undoes the prefixing done on save: strip(prefix . c) == c |
| CategoryUtils.StripInjective | src/drivers/CategoryUtilsTrait.php:23-25 | two categories that strip to the same name are the same category |
| CategoryUtils.Prefixed | src/drivers/BaseFlatCategoryDriver.php:71-72 | each category appears under prefix . category with its own value, and every key carries the prefix |
| DataUtils.PrecedesTotal | src/helpers/DataUtils.php:35-40 | the uksort comparator orders any two entries |
| DataUtils.PrecedesTransitive | src/helpers/DataUtils.php:35-40 | the uksort comparator is transitive |
| DataUtils.Insert | src/helpers/DataUtils.php:32-41 | inserting into a sorted sequence keeps it sorted and adds exactly the new entry |
| DataUtils.SortEntries | src/helpers/DataUtils.php:32-41 | the sort returns a sorted permutation of its input |
| DataUtils.SortTranslationsMap | src/helpers/DataUtils.php:28-44 | the sorted map has as many entries as the input |
| DataUtils.SortTranslationsMapSorts | src/helpers/DataUtils.php:28-44 | the result is a permutation of the input's key → value pairs; with emptiesOnTop every empty translation comes before every non-empty one; within each group, or throughout without emptiesOnTop, keys are in strcasecmp order |
| DataUtils.SortedListing | src/helpers/DataUtils.php:30-43 | the sorted copy lists the input map and meets both order rules |
| DataUtils.SortedOrder | src/helpers/DataUtils.php:35-40 | in a sorted sequence, with emptiesOnTop no non-empty translation precedes an empty one, and keys of the same group are in strcasecmp order |
| DataUtils.PermutationLists | src/helpers/DataUtils.php:30 | a permutation of a listing of a map still lists that map, with the same length |
| DataUtils.ExampleOrder | src/helpers/DataUtils.php:28-44 | on {"a": "X", "z": ""} the order rules allow only z, a with emptiesOnTop and only a, z without |
| DataUtils.SortExampleEmptiesOnTop | src/helpers/DataUtils.php:28-44 | sortTranslationsMap({"a": "X", "z": ""}, true) is [z, a] |
| DataUtils.SortExampleCaseOrder | src/helpers/DataUtils.php:28-44 | sortTranslationsMap({"a": "X", "z": ""}, false) is [a, z] |
| Merge.MergeMessagesOk | src/Manager.php:150-161 | the message loop succeeds exactly when no incoming message meets a different non-empty accumulated value |
| Merge.MergeMessagesValue | src/Manager.php:150-161 | on success the category is the accumulated one with every incoming message written over it |
| Merge.MergeMessagesErr | src/Manager.php:151-156 | on failure some incoming message clashes, and the error carries it with [accumulated, incoming] |
| Merge.MergeMessagesSpec | src/Manager.php:150-161 | the three facts above for the whole incoming category |
| Merge.MergeCategoriesOk | src/Manager.php:142-162 | the category loop succeeds exactly when no incoming category holds a clashing message |
| Merge.MergeCategoriesValue | src/Manager.php:142-162 | on success, missing categories are copied whole and present ones merged message by message |
| Merge.MergeCategoriesErr | src/Manager.php:142-162 | on failure the error names a clashing category and message with both values |
| Merge.MergeSourceLanguageSpec | src/drivers/FlatDirectoryDriver.php:69 | the per-language merge succeeds exactly when nothing clashes, gives the deep union with incoming values winning, and otherwise reports a clash with [accumulated, incoming] |
| Merge.MergedFromNothing | src/Manager.php:143-146 | merging into nothing, or merging nothing in, leaves the other side unchanged |
| Merge.MergeExportOk | src/Manager.php:134-163 | the language loop succeeds exactly when no coordinate of the incoming languages conflicts |
| Merge.MergeExportValue | src/Manager.php:134-163 | on success, missing languages are copied whole and present ones merged category by category |
| Merge.MergeExportErr | src/Manager.php:134-163 | on failure the error names a conflicting language, category and message with both values |
| Merge.EarlyReturnAgrees | src/Manager.php:128-130 | with nothing accumulated, the loop would also return the incoming catalog unchanged, so the early return changes nothing |
| Merge.MergeExportSpec | src/Manager.php:126-166 | the merge succeeds exactly when no coordinate holds a non-empty accumulated value that differs from the incoming one; the result is the deep union with incoming values written over the accumulated ones; a failure is a MergeConflict(language, category, message, [accumulated, incoming]) with no previous exception |
| Merge.MergedCoveredIsIncoming | src/Manager.php:132-165 | when the incoming catalog covers every accumulated coordinate, the result is the incoming catalog |
| Merge.MergeOrderIndependent | src/Manager.php:126-166 | when two catalogs merge without a conflict in either order, both orders give the same catalog |
| Merge.MergeKeepsIncoming | src/Manager.php:132-165 | after a successful merge every incoming coordinate is present with its incoming value |
| Merge.MergeKeepsAccumulated | src/Manager.php:132-165 | after a successful merge every accumulated coordinate the incoming catalog lacks keeps its value |
| Merge.EqualNeverConflicts | src/Manager.php:152 | equal values never conflict |
| Merge.EmptyThenTranslated | src/Manager.php:151-159 | {Hi: ""} followed by {Hi: "Hello"} merges to "Hello" |
| Merge.TranslatedThenEmpty | src/Manager.php:151-156 | {Hi: "Hello"} followed by {Hi: ""} is a conflict carrying ["Hello", ""] |
| Merge.MergeLanguage | src/Manager.php:142-162 | the nested loops over one language compute the per-language merge |
| Merge.MergeExportTranslations | src/Manager.php:126-166 | the copy-then-assign loops compute MergeExport, whose properties are the lemmas above |
| Disk.RealPath | src/drivers/BaseSubdirCategoryDriver.php:60-64 | realpath succeeds exactly for a resolvable path; otherwise the error is "Cannot check path: <path>" |
| Disk.FindFiles | src/drivers/BaseSubdirCategoryDriver.php:69-71 | the listing of the directory, or the InvalidArgumentException for a directory that does not exist |
| Disk.LoadJsonFile | src/drivers/JsonDriverTrait.php:20-32 | the decoded object of an existing file; "Cannot read file" for a missing one; a source-data error when the content is not an object |
| Disk.StringsOf | src/drivers/SubdirCategoryJsonDriver.php:33-37 | a decoded object whose values are all strings is read as the same keys with those strings |
| Disk.DecodedMessages | src/drivers/JsonDriverTrait.php:20-48 | a message map written as a listing decodes back to an object of strings equal to the map |
| Disk.Then | src/drivers/BaseSubdirCategoryDriver.php:97-120 | running two steps in turn: a failed first step ends the run; otherwise the writes are concatenated and the second step's outcome counts |
| Disk.ThenAssociative | src/drivers/BaseSubdirCategoryDriver.php:97-120 | running steps in turn does not depend on grouping |
| Disk.SequenceWrites | src/drivers/BaseSubdirCategoryDriver.php:97-120 | every write of a loop of steps is a write of one of the steps |
| Disk.SequenceSucceeds | src/drivers/BaseSubdirCategoryDriver.php:97-120 | a loop of steps that does not fail runs every step to completion and keeps all their writes |
| Disk.SequenceAllSucceed | src/drivers/BaseSubdirCategoryDriver.php:97-120 | a loop of steps none of which fails does not fail |
| Disk.SequenceFails | src/drivers/BaseSubdirCategoryDriver.php:97-120 | a loop of steps fails only with the error of one of its steps |
| Disk.FileSystem.constructor | src/drivers/JsonDriverTrait.php:38-48 | a fresh file system holds the given disk and has written nothing |
| Disk.FileSystem.Put | src/drivers/JsonDriverTrait.php:38-48 | a write is appended to the log, and nothing else changes |
| BaseFlatCategoryDriver.LoadCategoriesOk | src/drivers/BaseFlatCategoryDriver.php:45-57 | the load loop succeeds exactly when every category is an object of strings whose name starts with the prefix; otherwise it is a source-data error |
| BaseFlatCategoryDriver.LoadCategoriesValue | src/drivers/BaseFlatCategoryDriver.php:45-57 | on success every category is stored under its stripped name with its messages |
| BaseFlatCategoryDriver.LoadLanguageSpec | src/drivers/BaseFlatCategoryDriver.php:41-60 | loadLanguageFromFile succeeds exactly for an existing file holding a valid language object, returns the categories with the prefix stripped, and otherwise gives "Cannot read file" or a source-data error |
| BaseFlatCategoryDriver.LoadWithoutPrefix | src/drivers/BaseFlatCategoryDriver.php:56 | with the empty prefix the category names are kept as they are |
| BaseFlatCategoryDriver.LoadLanguageFromFile | src/drivers/BaseFlatCategoryDriver.php:41-60 | the loop computes LoadLanguage |
| BaseFlatCategoryDriver.LanguageFileContent | src/drivers/BaseFlatCategoryDriver.php:66-78 | the saved object has one entry per category |
| BaseFlatCategoryDriver.LanguageFileAt | src/drivers/BaseFlatCategoryDriver.php:69-76 | the i-th saved entry is prefix . (i-th category in ascending order) with that category's messages sorted by sortTranslationsMap |
| BaseFlatCategoryDriver.SavedEntriesMatch | src/drivers/BaseFlatCategoryDriver.php:66-78 | the saved object decodes to valid categories, each carrying the prefix and holding exactly the saved messages |
| BaseFlatCategoryDriver.SaveThenLoad | src/drivers/BaseFlatCategoryDriver.php:41-78 | round trip: a saved language file loads back as exactly the saved categories |
| BaseFlatCategoryDriver.PrefixAndSort | src/drivers/BaseFlatCategoryDriver.php:71-76 | the loop renames every category with the prefix and sorts its messages, in order |
| BaseFlatCategoryDriver.SaveLanguageToFile | src/drivers/BaseFlatCategoryDriver.php:66-78 | exactly one write: the file with the prefixed, ordered, sorted content |
| BaseFlatCategoryDriver.UpdateTranslationsArray | src/drivers/BaseFlatCategoryDriver.php:86-103 | the nested copy-then-assign loops compute the selective update |
| BaseFlatCategoryDriver.FillTranslationsArray | src/drivers/BaseFlatCategoryDriver.php:111-131 | the nested copy-then-assign loops compute the fill |
| FlatCategoryDriver.ParsePathLanguage | src/drivers/FlatCategoryDriver.php:96-134 | "File outside of base path" exactly when the normalised path is not under the base; "File from nested subdirectories" exactly when the rest contains '/'; no language exactly for the rest ".ext"; otherwise the rest without ".ext" |
| FlatCategoryDriver.ParseNameUnderBase | src/drivers/FlatCategoryDriver.php:96-134 | base . L . ".ext" parses to L for every non-empty L without slashes |
| FlatCategoryDriver.ParseLanguageFilePath | src/drivers/FlatCategoryDriver.php:71 | the save path real/L.ext parses back to L |
| FlatCategoryDriver.ParseSeesNormalized | src/drivers/FlatCategoryDriver.php:100 | paths that differ only in '\\' versus '/' parse alike |
| FlatCategoryDriver.LoadFilesOk | src/drivers/FlatCategoryDriver.php:46-53 | the load loop succeeds exactly when every listed file parses and every file naming a language loads |
| FlatCategoryDriver.LoadFilesKeys | src/drivers/FlatCategoryDriver.php:46-53 | the loaded languages are exactly those that listed files name; a falsy or absent language is skipped |
| FlatCategoryDriver.LoadFilesKeeps | src/drivers/FlatCategoryDriver.php:46-53 | a language no listed file names keeps its value |
| FlatCategoryDriver.LoadFilesLastWins | src/drivers/FlatCategoryDriver.php:52 | a language holds the categories of the last file naming it |
| FlatCategoryDriver.LoadAllTranslations | src/drivers/FlatCategoryDriver.php:29-56 | the loop computes LoadAll |
| FlatCategoryDriver.ImportRewritesOnlyExisting | src/drivers/FlatCategoryDriver.php:62-87 | an import writes only file . suffix for an existing language file that loads and that the update changes, with the updated content |
| FlatCategoryDriver.ImportedLanguage | src/drivers/FlatCategoryDriver.php:73-81 | each write of one language's import is such a rewrite |
| FlatCategoryDriver.ExportWritesEveryLanguage | src/drivers/FlatCategoryDriver.php:62-87 | a successful export writes the data of every language without a file, and the filled data of every existing file the fill changes |
| FlatCategoryDriver.ExportedLanguage | src/drivers/FlatCategoryDriver.php:73-85 | one language's export leaves what ExportWritesEveryLanguage describes |
| FlatCategoryDriver.SaveLanguageFailure | src/drivers/FlatCategoryDriver.php:73-74 | one language fails only when its file exists and does not load, with the loader's error |
| FlatCategoryDriver.SaveFailure | src/drivers/FlatCategoryDriver.php:62-87 | a save fails only on an unresolvable path or on an existing language file that does not load |
| FlatCategoryDriver.SaveLanguageFile | src/drivers/FlatCategoryDriver.php:71-85 | one language's branch performs exactly its run's writes and reports its failure |
| FlatCategoryDriver.SaveLanguages | src/drivers/FlatCategoryDriver.php:70-86 | the language loop performs the writes of each language in turn and stops at the first failure |
| FlatCategoryDriver.SaveAllTranslations | src/drivers/FlatCategoryDriver.php:62-87 | saveAllTranslations performs exactly the writes of SaveAll and reports its failure |
| FlatDirectoryDriver.ParseSubPath | src/drivers/FlatDirectoryDriver.php:137-153 | no language exactly when the rest is ".ext" or "dir/.ext"; otherwise the first '/'-free segment of the rest |
| FlatDirectoryDriver.ParsePathLanguage | src/drivers/FlatDirectoryDriver.php:120-154 | "File outside of base path" exactly when the normalised path is not under the base; no language for the ".ext" and "dir/.ext" cases; otherwise the first path segment |
| FlatDirectoryDriver.ParseNameInDirectory | src/drivers/FlatDirectoryDriver.php:120-154 | base . L . "/" . name . ".ext" parses to L |
| FlatDirectoryDriver.ParseNamedStem | src/drivers/FlatDirectoryDriver.php:137-153 | a stem not ending in '/' with ".ext" appended yields its first segment |
| FlatDirectoryDriver.ParseLanguageDirectoryFile | src/drivers/FlatDirectoryDriver.php:96-101 | a file in the language directory parses back to that language |
| FlatDirectoryDriver.ParseSeesNormalized | src/drivers/FlatDirectoryDriver.php:122 | paths that differ only in '\\' versus '/' parse alike |
| FlatDirectoryDriver.LoadFilesKeys | src/drivers/FlatDirectoryDriver.php:54-78 | the loaded languages are exactly those that listed files name |
| FlatDirectoryDriver.LoadFilesConflict | src/drivers/FlatDirectoryDriver.php:70-77 | a conflict is re-raised with the language of a listed file and no previous exception; its pair is non-empty accumulated and different incoming |
| FlatDirectoryDriver.MergeHoldsBoth | src/drivers/FlatDirectoryDriver.php:62-69 | a merged language holds every message of the later file and every non-empty message of the earlier ones |
| FlatDirectoryDriver.LoadFilesKeeps | src/drivers/FlatDirectoryDriver.php:54-78 | what the catalog carries for a language is still carried after the remaining files |
| FlatDirectoryDriver.LoadFilesCarriesEveryFile | src/drivers/FlatDirectoryDriver.php:54-78 | every file naming a language loads, and its messages are carried by the result |
| FlatDirectoryDriver.LoadAllTranslations | src/drivers/FlatDirectoryDriver.php:37-81 | the loop computes LoadAll |
| FlatDirectoryDriver.SaveLanguageRewrites | src/drivers/FlatDirectoryDriver.php:101-109 | every write of a language rewrites one of its listed files, as file . suffix, with the changed reconciled content |
| FlatDirectoryDriver.SaveNeverCreates | src/drivers/FlatDirectoryDriver.php:87-111 | no save creates a file: every write rewrites a listed file of a language of the data |
| FlatDirectoryDriver.SaveLanguageSucceeds | src/drivers/FlatDirectoryDriver.php:95-109 | a successful language lists its directory and reconciles every listed file on its own |
| FlatDirectoryDriver.SaveReconcilesEveryFile | src/drivers/FlatDirectoryDriver.php:87-111 | a successful save reconciles every file of every language of the data |
| FlatDirectoryDriver.SaveFileWith | src/drivers/FlatDirectoryDriver.php:102-108 | one file's step performs exactly its run's writes and reports its failure |
| FlatDirectoryDriver.SaveLanguageFiles | src/drivers/FlatDirectoryDriver.php:96-109 | the file loop performs each file's writes in turn and stops at the first failure |
| FlatDirectoryDriver.SaveLanguages | src/drivers/FlatDirectoryDriver.php:95-110 | the language loop performs each language's writes in turn and stops at the first failure |
| FlatDirectoryDriver.SaveAllTranslations | src/drivers/FlatDirectoryDriver.php:87-111 | saveAllTranslations performs exactly the writes of SaveAll and reports its failure |
| BaseSubdirCategoryDriver.LoadTranslations | src/drivers/SubdirCategoryJsonDriver.php:29-40 | a file loads exactly when it exists and decodes to an array of strings; a missing JSON file is "Cannot read file"; anything else is a source-data error |
| BaseSubdirCategoryDriver.LoadTranslationsFromFile | src/drivers/SubdirCategoryPhpDriver.php:41-56 | the validation loop computes LoadTranslations |
| BaseSubdirCategoryDriver.ParsePathParts | src/drivers/BaseSubdirCategoryDriver.php:176-211 | "File outside of base path" exactly when the normalised path is not under the base; (null, null) exactly for the ".ext" and "dir/.ext" cases; otherwise (language, category) split at the first '/', with category '' when there is none |
| BaseSubdirCategoryDriver.ParseNameUnderBase | src/drivers/BaseSubdirCategoryDriver.php:176-211 | base . L . "/" . name . ".ext" parses to (L, name) |
| BaseSubdirCategoryDriver.CategoryFileNormalized | src/drivers/BaseSubdirCategoryDriver.php:99-104 | the save path normalises to base . L . "/" . strtr(prefix . C) . ".ext" |
| BaseSubdirCategoryDriver.ParseCategoryFilePath | src/drivers/BaseSubdirCategoryDriver.php:99-104 | round trip: the save path of (L, prefix . C) parses back to (L, prefix . C) |
| BaseSubdirCategoryDriver.ParseSeesNormalized | src/drivers/BaseSubdirCategoryDriver.php:178 | paths that differ only in '\\' versus '/' parse alike |
| BaseSubdirCategoryDriver.FileCategoryOfSavedFile | src/drivers/BaseSubdirCategoryDriver.php:72-80 | a saved category file is read back under its language and its stripped category |
| BaseSubdirCategoryDriver.LoadFilesKeys | src/drivers/BaseSubdirCategoryDriver.php:72-81 | the loaded (language, category) pairs are exactly those that listed files name; falsy ones are skipped |
| BaseSubdirCategoryDriver.LoadFilesKeeps | src/drivers/BaseSubdirCategoryDriver.php:72-81 | a pair no later file names keeps its messages |
| BaseSubdirCategoryDriver.LoadFilesFirstWins | src/drivers/BaseSubdirCategoryDriver.php:80 | the first file's messages survive when no later file names its pair |
| BaseSubdirCategoryDriver.LoadFilesLastWins | src/drivers/BaseSubdirCategoryDriver.php:80 | a pair holds the messages of the last file naming it |
| BaseSubdirCategoryDriver.LoadFilesLaterWins | src/drivers/BaseSubdirCategoryDriver.php:80 | the same for a file after the first |
| BaseSubdirCategoryDriver.LoadAllTranslations | src/drivers/BaseSubdirCategoryDriver.php:56-84 | the loop computes LoadAll |
| BaseSubdirCategoryDriver.MessagesContent | src/drivers/BaseSubdirCategoryDriver.php:127-133 | what is handed to the encoder lists exactly the messages |
| BaseSubdirCategoryDriver.SaveThenLoad | src/drivers/BaseSubdirCategoryDriver.php:127-133 | round trip: a saved category file loads back as exactly the saved messages, with either codec |
| BaseSubdirCategoryDriver.SaveTranslations | src/drivers/BaseSubdirCategoryDriver.php:127-133 | exactly one write, of the sorted messages (unsorted for the older driver) |
| BaseSubdirCategoryDriver.ExportSteps | src/drivers/BaseSubdirCategoryDriver.php:116-118 | export writes every category unconditionally to its save path plus suffix |
| BaseSubdirCategoryDriver.ExportCategories | src/drivers/BaseSubdirCategoryDriver.php:98-119 | a language's export writes every given category and nothing else, without failing |
| BaseSubdirCategoryDriver.ExportLanguage | src/drivers/BaseSubdirCategoryDriver.php:98-119 | one language's export does not fail and writes each of its categories |
| BaseSubdirCategoryDriver.ExportLanguageOnly | src/drivers/BaseSubdirCategoryDriver.php:98-119 | one language's export writes nothing but its categories |
| BaseSubdirCategoryDriver.ExportLanguages | src/drivers/BaseSubdirCategoryDriver.php:97-120 | the export of the given languages writes each of their categories and nothing else, without failing |
| BaseSubdirCategoryDriver.ExportWritesEveryCategory | src/drivers/BaseSubdirCategoryDriver.php:89-121 | export fails exactly when the path does not resolve; otherwise it writes the data of every category of every language, and nothing else |
| BaseSubdirCategoryDriver.ImportLanguage | src/drivers/BaseSubdirCategoryDriver.php:106-115 | every write of a language's import rewrites an existing category file that the update changes |
| BaseSubdirCategoryDriver.ImportedCategory | src/drivers/BaseSubdirCategoryDriver.php:106-115 | each write of one category's import is such a rewrite |
| BaseSubdirCategoryDriver.FailedCategory | src/drivers/BaseSubdirCategoryDriver.php:106-111 | a category fails only under onlyExisting, on an existing file that does not load, with the loader's error |
| BaseSubdirCategoryDriver.ImportRewritesOnlyExisting | src/drivers/BaseSubdirCategoryDriver.php:89-121 | import never creates a file: every write rewrites an existing category file of the data that the update changes |
| BaseSubdirCategoryDriver.ImportLanguageFailure | src/drivers/BaseSubdirCategoryDriver.php:97-115 | a language fails only on an existing category file that does not load |
| BaseSubdirCategoryDriver.SaveFailure | src/drivers/BaseSubdirCategoryDriver.php:89-121 | a save fails only on an unresolvable path, or under onlyExisting on an existing file that does not load |
| BaseSubdirCategoryDriver.SaveCategoryFile | src/drivers/BaseSubdirCategoryDriver.php:99-118 | one category's branch performs exactly its run's writes and reports its failure |
| BaseSubdirCategoryDriver.SaveCategories | src/drivers/BaseSubdirCategoryDriver.php:98-119 | the category loop performs each category's writes in turn and stops at the first failure |
| BaseSubdirCategoryDriver.SaveLanguageFiles | src/drivers/BaseSubdirCategoryDriver.php:97-120 | one language's categories are saved in ascending order |
| BaseSubdirCategoryDriver.SaveLanguages | src/drivers/BaseSubdirCategoryDriver.php:97-120 | the language loop performs each language's writes in turn and stops at the first failure |
| BaseSubdirCategoryDriver.SaveAllTranslations | src/drivers/BaseSubdirCategoryDriver.php:89-121 | saveAllTranslations performs exactly the writes of SaveAll and reports its failure |
| SubdirCategoryDriver.LoadsNothing | src/drivers/SubdirCategoryDriver.php:64-75 | as written, a load that succeeds returns the empty catalog |
| SubdirCategoryDriver.LoadFailsWhereCorrectedLoads | src/drivers/SubdirCategoryDriver.php:72 | as written, a load fails with an unknown member wherever the corrected driver loads at least one category |
| SubdirCategoryDriver.LoadFilesAsWrittenStep | src/drivers/SubdirCategoryDriver.php:64-73 | one iteration as written: parse, skip, read, then the call of the missing stripCategoryPrefix |
| SubdirCategoryDriver.LoadListedFiles | src/drivers/SubdirCategoryDriver.php:64-73 | the loop computes the as-written load of the listed files |
| SubdirCategoryDriver.LoadAllTranslations | src/drivers/SubdirCategoryDriver.php:48-76 | the as-written loadAllTranslations |
| SubdirCategoryDriver.SaveAllTranslations | src/drivers/SubdirCategoryDriver.php:81-113 | as written, save reports the failure of SaveAllAsWritten: an unresolvable path, or the unknown-property error at the first category |
| SubdirCategoryDriver.SaveAsWrittenWritesNothing | src/drivers/SubdirCategoryDriver.php:81-113 | as written, save never writes, and it succeeds exactly when the path resolves and no language has a category |
| SubdirCategoryDriver.ExportFailsWhereCorrectedWrites | src/drivers/SubdirCategoryDriver.php:91 | as written, export of any catalog with a category fails on categoryPrefix, while the corrected driver writes that category |
| SubdirCategoryDriver.CorrectedRoundTrip | src/drivers/SubdirCategoryDriver.php:92-96 | the corrected driver reads a saved category file back under (L, C) with exactly the saved messages |
| SubdirCategoryDriver.OneFileTree | src/drivers/SubdirCategoryDriver.php:48-76 | on a tree holding one category file, the load as written fails and the corrected one returns that file's messages |
| SubdirCategoryDriver.OneListedFileLoads | src/drivers/SubdirCategoryDriver.php:48-76 | the corrected load of a single listed category file returns its messages |
| SubdirCategoryDriver.OneListedFileRaises | src/drivers/SubdirCategoryDriver.php:48-76 | the as-written load of a single listed category file fails on stripCategoryPrefix |
| SubdirCategoryDriver.LoadCounterexample | src/drivers/SubdirCategoryDriver.php:72 | on the concrete tree /m/ru/app.json = {"Hi": "Privet"} the load as written fails and the corrected one gives {"ru": {"app": {"Hi": "Privet"}}} |
| Drivers.Instantiate | src/drivers/BaseSubdirCategoryDriver.php:41-51 | a configuration builds exactly when it names a class, sets a path, does not null a subdirectory driver's extension, and gives the older driver only options it declares; the driver keeps the configured path and extension, or the class default ('json', or 'php' for the PHP driver); the older class builds the legacy driver, which loads and saves as written |
| Drivers.ImportWritesBesideExisting | src/drivers/DriverInterface.php:21 | with onlyExisting, every driver writes only to an existing file's name plus the suffix |
| Drivers.LegacyLoadRaises | src/drivers/SubdirCategoryDriver.php:48-76 | the driver built for a legacy configuration raises on load over the one-file tree |
| Drivers.LegacySaveRaises | src/drivers/SubdirCategoryDriver.php:81-113 | the driver built for a legacy configuration raises on save of any catalog with a category |
| Drivers.LoadAllTranslations | src/drivers/DriverInterface.php:11 | dispatching loadAllTranslations to the driver's class, the legacy class as written, computes Load |
| Drivers.SaveAllTranslations | src/drivers/DriverInterface.php:21 | dispatching saveAllTranslations, the legacy class as written, performs exactly the writes of Save |
| Manager.EnsureFromSpec | src/Manager.php:86-99 | building the source drivers succeeds exactly when every configuration builds, keeps the configuration order, and otherwise fails with the error of the first one that does not build |
| Manager.ExportSpec | src/Manager.php:105-118 | an export configuration without a class gets FlatCategoryDriver and is otherwise unchanged; an object or a configuration with a class is used as given |
| Manager.MergeKeepsTranslated | src/Manager.php:126-166 | a merge step keeps every accumulated coordinate, and never changes a non-empty value |
| Manager.CollectKeeps | src/Manager.php:59-63 | the export fold keeps every coordinate it has gathered, and never changes a non-empty value |
| Manager.CollectCoversSources | src/Manager.php:59-63 | after a successful fold, every source loads, and every coordinate of every source is present, with the source's value when that value is non-empty |
| Manager.SingleSourceExportsItsCatalog | src/Manager.php:59-63 | with one source the exported catalog is that source's catalog |
| Manager.SourceOrderIrrelevant | src/Manager.php:59-63 | when two sources gather without a conflict in either order, export gathers the same catalog in both orders |
| Manager.TwoSourcesConflict | src/Manager.php:59-63 | two sources that conflict anywhere make export fail with a conflict carrying [first, second] values at a conflicting coordinate |
| Manager.LegacySourceStopsExport | src/Manager.php:57-63 | with a legacy SubdirCategoryDriver source on the one-file tree, export raises the unknown-method error and writes nothing |
| Manager.LegacySourceStopsImport | src/Manager.php:73-80 | with a legacy SubdirCategoryDriver source and data holding a category, import raises the unknown-property error and writes nothing |
| Manager.ImportWritesBesideSources | src/Manager.php:73-80 | import writes only to an existing file's name plus the suffix, which is ".new" unless overwriting |
| Manager.ImportFailure | src/Manager.php:77-79 | import succeeds exactly when every source driver's save succeeds |
| Manager.CollectAll | src/Manager.php:59-63 | the driver loop of export computes the fold |
| Manager.SaveInto | src/Manager.php:77-79 | the driver loop of import performs each driver's writes in turn and stops at the first failure |
| Manager.Manager.constructor | src/Manager.php:16-36 | the options are stored and nothing is built yet |
| Manager.Manager.Init | src/Manager.php:42-49 | init fails exactly when no source drivers are configured, with "No source drivers defined in \"sourceDrivers\"" |
| Manager.Manager.GetSourceDrivers | src/Manager.php:86-99 | builds the source drivers on first use, caches them, and returns the cached ones afterwards |
| Manager.Manager.GetExportDriver | src/Manager.php:105-118 | builds the export driver, with the FlatCategoryDriver default, on first use and caches it |
| Manager.Manager.Export | src/Manager.php:57-66 | export performs exactly the writes of ExportRun: the fold of all sources saved with onlyExisting = false |
| Manager.Manager.Import | src/Manager.php:73-80 | import performs exactly the writes of ImportRun: the export catalog saved into every source with onlyExisting = true and the chosen suffix |

## Left out

- `DataUtils::mergeSourceLanguage`: `FlatDirectoryDriver` calls it (src/drivers/FlatDirectoryDriver.php:69), but the package's `DataUtils` has no such method; the model assumes it is the per-language part of `mergeExportTranslations` (src/Manager.php:142-162), `Merge.MergeSourceLanguage`.
- Disk.FileSystem and Disk.Sequence: reads inside one export or import see the disk as it was when the run began, not the files written earlier in the same run. So two categories of one language whose names normalise to the same file (`a\b` and `a/b`), saved with overwrite, end as update(old, second) rather than update(update(old, first), second). Two import sources that share a file both write content computed from the old file.
- `\Yii::getAlias`: aliases are not expanded. The configured path is looked up directly in the disk's `realpath` answers.
- JSON and PHP encoding and decoding (`Json::encode`/`decode`, `jsonOptions`, `jsonEndNewLine`, `include`, `VarDumper::export`, `phpFileHeader`, `phpDocBlock`): a file is its decoded value, and a write records the content handed to the encoder.
- Failures of `file_put_contents` ("Cannot save file"): writes always succeed, because the disk is a value.
- `FileHelper::findFiles` globbing (`only`, `recursive`): the listing for each directory and pattern is an input of the model, not computed from the files.
- `is_file`: a file exists exactly when the disk holds it.
- PHP array order: `foreach` visits keys in ascending byte order. The model does not track insertion order, so `!==` between two arrays becomes map inequality, and the key order of a fill result (that of the new data) is not modelled.
- PHP's conversion of numeric-string keys to integers is not modelled: every key is a string.
- Catalogs.Entries: its ensures lists each key once with its value. The ascending order is stated separately, in Catalogs.EntriesAscending.
- DataUtils.SortTranslationsMap: its own ensures states only the length. The permutation and order properties are in DataUtils.SortTranslationsMapSorts. `strcasecmp` is modelled as ASCII case folding without locale. The relative order of keys that differ only in case is left open, as unstable `uksort` leaves it.
- StringUtils.RTrimSlashes: states that the result is a '/'-free-ended prefix, not that only slashes were removed; every use applies it to a real path that does not end in '/'.
- The exception texts of `SourceDataException` are not modelled; it is one error kind.
- Which undeclared option a configuration of the older `SubdirCategoryDriver` reports first is fixed (sortEmptyFirst, then categoryPrefix).
- Component IDs: a driver given as a string ID to `Instance::ensure` is not modelled. A driver is either a built object or an array configuration.
- Object identity: the cached drivers are values, so it is not modelled that `getSourceDrivers` returns the same objects each time.
- The export driver is built after the sources are loaded in `export`, but before them in `import`. The model keeps this order, but a failure to build it is reported only after the sources have loaded.
- Manager.Manager.GetSourceDrivers: the array keys of `sourceDrivers` are not kept; the drivers are a sequence in configuration order.

## Findings

| source | as written | input that shows it | evidently intended | confidence | as-written member | corrected member |
|---|---|---|---|---|---|---|
| src/drivers/SubdirCategoryDriver.php:72 | load calls stripCategoryPrefix, which the class neither declares nor gets from a trait (it uses only JsonDriverTrait), so yii raises an unknown-method error on the first file that names a language and a category | a path resolving to /m whose listing is the one file /m/ru/app.json holding {"Hi": "Privet"} | the file is read as {"ru": {"app": {"Hi": "Privet"}}}, as the subdirectory driver with the empty prefix reads it | high; not executed | SubdirCategoryDriver.LoadCounterexample | SubdirCategoryDriver.CorrectedRoundTrip |
| src/drivers/SubdirCategoryDriver.php:91 | save reads $this->categoryPrefix, which the class does not declare, so yii raises an unknown-property error before the first write | a resolvable path and a catalog with one language holding one category | export writes each category's messages to real/L/C.json | high; not executed | SubdirCategoryDriver.ExportFailsWhereCorrectedWrites | BaseSubdirCategoryDriver.ExportWritesEveryCategory |

The corrected driver, `SubdirCategoryDriver.Corrected`, is the subdirectory driver with JSON files, the empty prefix and messages saved in the order they are stored. A configuration naming the older class builds the driver as written (`Drivers.LegacyLoadRaises`, `Drivers.LegacySaveRaises`).
