/**
 * The file system as the drivers see it. Codecs, globbing and path aliases
 * stay outside: a file is already decoded into a Value, realpath() and
 * FileHelper::findFiles are given answers, and a save hands Content to the
 * encoder, which the FileSystem object records as a Write.
 */
module Disk {
  import opened Wrappers
  import opened Errors
  import opened Catalogs

  /** A decoded file or a part of one: a string, an array, or anything else (number, bool, null). */
  datatype Value = Str(s: string) | Arr(entries: map<string, Value>) | Other

  /** What a save hands to the encoder, pairs in the order they are written. */
  datatype Content =
    | CategoryFile(categories: seq<(string, seq<(string, string)>)>)
    | MessageFile(messages: seq<(string, string)>)

  datatype Write = Write(path: string, content: Content)

  /** A FileHelper::findFiles request: directory, the single 'only' pattern and 'recursive'. */
  datatype Listing = Listing(dir: string, only: string, recursive: bool)

  /**
   * files: every regular file with its decoded content (is_file is membership);
   * realPaths: realpath() of the paths that exist;
   * listings: findFiles answers for the directories that exist.
   */
  datatype Disk = Disk(
    files: map<string, Value>,
    realPaths: map<string, string>,
    listings: map<Listing, seq<string>>)

  /** A run of saves: the writes done, and the exception that stopped it, if any. */
  datatype Run = Run(writes: seq<Write>, failure: Option<Error>)

  const Done := Run([], None)

  function Fail(e: Error): Run
  {
    Run([], Some(e))
  }

  /** One step after another: a failure stops everything after it. */
  function Then(first: Run, next: Run): (r: Run)
    ensures first.failure.Some? ==> r == first
    ensures first.failure.None? ==> r.writes == first.writes + next.writes && r.failure == next.failure
  {
    if first.failure.Some? then first else Run(first.writes + next.writes, next.failure)
  }

  lemma ThenAssociative(a: Run, b: Run, c: Run)
    ensures Then(Then(a, b), c) == Then(a, Then(b, c))
  {
    if a.failure.None? && b.failure.None? {
      assert (a.writes + b.writes) + c.writes == a.writes + (b.writes + c.writes);
    }
  }

  /** Steps run in order until one fails: the run of a save loop. */
  function Sequence(runs: seq<Run>): Run
  {
    if runs == [] then Done else Then(Sequence(runs[..|runs| - 1]), runs[|runs| - 1])
  }

  /** Every write of a sequence is a write of one of its steps. */
  lemma {:induction false} SequenceWrites(runs: seq<Run>)
    ensures forall w | w in Sequence(runs).writes :: exists i | 0 <= i < |runs| :: w in runs[i].writes
  {
    if runs != [] {
      var init := runs[..|runs| - 1];
      SequenceWrites(init);
      forall w | w in Sequence(runs).writes ensures exists i | 0 <= i < |runs| :: w in runs[i].writes {
        if w in Sequence(init).writes {
          var i :| 0 <= i < |init| && w in init[i].writes;
          assert runs[i] == init[i];
        }
      }
    }
  }

  /** A sequence that does not fail ran every step to completion, keeping all their writes. */
  lemma {:induction false} SequenceSucceeds(runs: seq<Run>)
    requires Sequence(runs).failure.None?
    ensures forall i | 0 <= i < |runs| :: runs[i].failure.None? && forall w | w in runs[i].writes :: w in Sequence(runs).writes
  {
    if runs != [] {
      var init := runs[..|runs| - 1];
      SequenceSucceeds(init);
      forall i | 0 <= i < |runs| ensures runs[i].failure.None? && forall w | w in runs[i].writes :: w in Sequence(runs).writes {
        if i < |init| {
          assert runs[i] == init[i];
        }
      }
    }
  }

  /** Steps none of which fails make a sequence that does not fail. */
  lemma {:induction false} SequenceAllSucceed(runs: seq<Run>)
    requires forall i | 0 <= i < |runs| :: runs[i].failure.None?
    ensures Sequence(runs).failure.None?
  {
    if runs != [] {
      SequenceAllSucceed(runs[..|runs| - 1]);
    }
  }

  /** A failing sequence reports the exception of one of its steps. */
  lemma {:induction false} SequenceFails(runs: seq<Run>)
    requires Sequence(runs).failure.Some?
    ensures exists i | 0 <= i < |runs| :: runs[i].failure == Sequence(runs).failure
  {
    var init := runs[..|runs| - 1];
    if Sequence(init).failure.Some? {
      SequenceFails(init);
      var i :| 0 <= i < |init| && init[i].failure == Sequence(init).failure;
      assert runs[i] == init[i];
    }
  }

  /** The steps up to and including step i: those before it, then it. */
  lemma SequenceSnoc(runs: seq<Run>, i: nat)
    requires i < |runs|
    ensures Sequence(runs[..i + 1]) == Then(Sequence(runs[..i]), runs[i])
  {
    assert runs[..i + 1][..i] == runs[..i];
  }

  /** Once a prefix of the steps has failed, the later steps change nothing. */
  lemma {:induction false} SequenceStops(runs: seq<Run>, k: nat)
    requires k <= |runs| && Sequence(runs[..k]).failure.Some?
    ensures Sequence(runs) == Sequence(runs[..k])
    decreases |runs|
  {
    if k < |runs| {
      var init := runs[..|runs| - 1];
      assert init[..k] == runs[..k];
      SequenceStops(init, k);
    } else {
      assert runs[..k] == runs;
    }
  }

  /** One more step of a save loop whose log so far is that of the steps before it. */
  lemma SequenceStep(runs: seq<Run>, i: nat, start: seq<Write>, before: seq<Write>, after: seq<Write>)
    requires i < |runs|
    requires before == start + Sequence(runs[..i]).writes && Sequence(runs[..i]).failure.None?
    requires after == before + runs[i].writes
    ensures after == start + Sequence(runs[..i + 1]).writes
    ensures runs[i].failure.None? ==> Sequence(runs[..i + 1]).failure.None?
  {
    var prior := Sequence(runs[..i]);
    SequenceSnoc(runs, i);
    assert Sequence(runs[..i + 1]) == Run(prior.writes + runs[i].writes, runs[i].failure);
    assert after == start + (prior.writes + runs[i].writes);
  }

  /** A save loop that stops at a failing step i: its run is that of the steps up to i. */
  lemma SequenceFailsAt(runs: seq<Run>, i: nat)
    requires i < |runs| && Sequence(runs[..i]).failure.None? && runs[i].failure.Some?
    ensures Sequence(runs) == Sequence(runs[..i + 1])
    ensures Sequence(runs).failure == runs[i].failure
  {
    SequenceSnoc(runs, i);
    SequenceStops(runs, i + 1);
  }

  /** realpath(): the configured path (aliases already resolved), or the RuntimeException every driver raises. */
  function RealPath(disk: Disk, path: string): (r: Result<string, Error>)
    ensures r.Ok? <==> path in disk.realPaths
    ensures r.Ok? ==> r.value == disk.realPaths[path]
    ensures r.Err? ==> r.error == Runtime("Cannot check path: " + path)
  {
    if path in disk.realPaths then Ok(disk.realPaths[path]) else Err(Runtime("Cannot check path: " + path))
  }

  /** FileHelper::findFiles: the listing, or its InvalidArgumentException for a missing directory. */
  function FindFiles(disk: Disk, dir: string, only: string, recursive: bool): (r: Result<seq<string>, Error>)
    ensures r.Ok? <==> Listing(dir, only, recursive) in disk.listings
    ensures r.Ok? ==> r.value == disk.listings[Listing(dir, only, recursive)]
    ensures r.Err? ==> r.error == InvalidArgument("The dir argument must be a directory: " + dir)
  {
    var key := Listing(dir, only, recursive);
    if key in disk.listings then Ok(disk.listings[key])
    else Err(InvalidArgument("The dir argument must be a directory: " + dir))
  }

  /** JsonDriverTrait::loadJsonFile: an unreadable file, then a non-object, are errors. */
  function LoadJsonFile(disk: Disk, file: string): (r: Result<map<string, Value>, Error>)
    ensures r.Ok? <==> file in disk.files && disk.files[file].Arr?
    ensures r.Ok? ==> r.value == disk.files[file].entries
    ensures file !in disk.files ==> r == Err(InvalidArgument("Cannot read file"))
    ensures file in disk.files && !disk.files[file].Arr? ==> r == Err(SourceData)
  {
    if file !in disk.files then Err(InvalidArgument("Cannot read file"))
    else if !disk.files[file].Arr? then Err(SourceData)
    else Ok(disk.files[file].entries)
  }

  /** The "every value is a string" check shared by all loaders. */
  predicate AllStrings(entries: map<string, Value>)
  {
    forall m | m in entries :: entries[m].Str?
  }

  /** An array of strings as a message map. */
  function StringsOf(entries: map<string, Value>): (r: Messages)
    requires AllStrings(entries)
    ensures r.Keys == entries.Keys
    ensures forall m | m in r :: entries[m] == Str(r[m])
  {
    map m | m in entries :: entries[m].s
  }

  /** What the decoder gives back for written messages. */
  function MessagesValue(messages: seq<(string, string)>): (r: Value)
    ensures r.Arr?
  {
    Arr(ToMap(seq(|messages|, i requires 0 <= i < |messages| => (messages[i].0, Str(messages[i].1)))))
  }

  /** What the decoder gives back for written content: the codec is taken to round-trip. */
  function Decoded(c: Content): (r: Value)
    ensures r.Arr?
  {
    match c
    case MessageFile(messages) => MessagesValue(messages)
    case CategoryFile(categories) =>
      Arr(ToMap(seq(|categories|, i requires 0 <= i < |categories| =>
        (categories[i].0, MessagesValue(categories[i].1)))))
  }

  /** Decoding a listing of a message map gives back that map. */
  lemma DecodedMessages(messages: seq<(string, string)>, m: Messages)
    requires Lists(messages, m)
    ensures MessagesValue(messages).Arr? && AllStrings(MessagesValue(messages).entries)
    ensures StringsOf(MessagesValue(messages).entries) == m
  {
    var pairs := seq(|messages|, i requires 0 <= i < |messages| => (messages[i].0, Str(messages[i].1)));
    var asValues := map k | k in m :: Str(m[k]);
    assert Lists(pairs, asValues) by {
      forall k | k in asValues ensures exists i | 0 <= i < |pairs| :: pairs[i].0 == k {
        var i :| 0 <= i < |messages| && messages[i].0 == k;
        assert pairs[i].0 == k;
      }
    }
    ToMapOfListing(pairs, asValues);
  }

  /** The disk the drivers read from, and the writes they have made. Reads see the disk as it was. */
  class FileSystem {
    const disk: Disk
    var log: seq<Write>

    constructor (disk: Disk)
      ensures this.disk == disk && log == []
    {
      this.disk := disk;
      log := [];
    }

    /** The encoder plus file_put_contents: records the write. */
    method Put(w: Write)
      modifies this
      ensures log == old(log) + [w]
    {
      log := log + [w];
    }
  }
}
