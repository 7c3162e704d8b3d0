/**
 * The command that runs the whole pipeline (src/yodawg/reddit.py): prepare
 * the wallpaper folder and its skip-list store, take the first `count`
 * image URLs of the subreddit, download the new ones, purge the small
 * images and, when asked, the images with a boring background, and report
 * how many entries the folder gained.
 */
module Reddit {
  import opened Wrappers
  import opened Strings
  import opened OrderedDict
  import opened FileSystem
  import opened Blacklist
  import opened ImageAnalysis
  import Urls
  import Download
  import TooSmall

  /** The skip-list store's file inside the wallpaper folder. */
  const STORE := ".blacklist.db"

  /** The command-line options the pipeline reads; the folder choice (`--nsfw`) is the `folder` argument. */
  datatype Params = Params(count: int, maxNew: Option<int>, clear: bool, filterBoring: bool)

  /** How `main` ends: an exception, exit code 1 for no URLs, or exit code 0 with the reported count. */
  datatype Outcome = Crashed | NoUrls | Done(newFiles: int)

  /** `list(islice(urls, count))` for a count `islice` accepts. */
  function Take(urls: seq<string>, count: nat): (r: seq<string>)
    ensures r <= urls && |r| == if count < |urls| then count else |urls|
  {
    if count < |urls| then urls[..count] else urls
  }

  /** The store the folder's store file holds; empty while it is missing. */
  function StoredIn(entries: map<string, Node>): Data {
    StoredAt(entries, STORE)
  }

  /** The folder once the store exists: its file is created with only the header when missing. */
  function WithStore(entries: map<string, Node>): map<string, Node> {
    if STORE in entries then entries else entries[STORE := Table([HEADER])]
  }

  /** The folder before any URL is fetched: `--clear` leaves only a fresh store. */
  function Prepared(entries: map<string, Node>, clear: bool): map<string, Node> {
    if clear then map[STORE := Table([HEADER])] else WithStore(entries)
  }

  // ---------------------------------------------------------------------
  // The boring-background pass

  /** A candidate of the pass: a regular file whose name does not start with a dot. */
  predicate Candidate(entries: map<string, Node>, name: string) {
    IsRegularFile(entries, name) && !StartsWith(name, ".")
  }

  /** A candidate that `is_boring_background` flags. */
  predicate BoringFile(entries: map<string, Node>, name: string, decoder: Decoder) {
    Candidate(entries, name) && Boring(Decode(entries[name], decoder), DEFAULT_THRESHOLD)
  }

  /** The folder after a run of the pass, and whether it ran without an exception. */
  datatype Pass = Pass(entries: map<string, Node>, ok: bool)

  /** The skip-list entry the pass records. */
  function BoringInfo(now: string): Info {
    Info(Value(BoringBackground), now)
  }

  /**
   * One turn: a boring candidate is recorded in the store, then unlinked;
   * a refused store write or unlink raises and ends `main`.
   */
  function BoringStep(entries: map<string, Node>, name: string, decoder: Decoder, faults: Faults, now: string): Pass {
    if !BoringFile(entries, name, decoder) then Pass(entries, true)
    else if name in faults.addFails then Pass(entries, false)
    else if name in faults.unlinkFails then Pass(ListedIn(entries, name, now), false)
    else Pass(ListedIn(entries, name, now) - {name}, true)
  }

  /** The folder once `add(name, BORING_BACKGROUND)` has rewritten the store's file. */
  function ListedIn(entries: map<string, Node>, name: string, now: string): map<string, Node> {
    entries[STORE := Table(Serialize(Set(StoredIn(entries), name, BoringInfo(now))))]
  }

  /** The pass over the entries `names`, in that order, up to the first exception. */
  function BoringPass(names: seq<string>, entries: map<string, Node>, decoder: Decoder, faults: Faults, now: string): Pass
    decreases |names|
  {
    if names == [] then Pass(entries, true)
    else
      var before := BoringPass(names[..|names| - 1], entries, decoder, faults, now);
      if !before.ok then before
      else BoringStep(before.entries, names[|names| - 1], decoder, faults, now)
  }

  lemma BoringPassSnoc(names: seq<string>, i: nat, entries: map<string, Node>, decoder: Decoder, faults: Faults, now: string)
    requires i < |names|
    ensures var before := BoringPass(names[..i], entries, decoder, faults, now);
            BoringPass(names[..i + 1], entries, decoder, faults, now)
              == if !before.ok then before else BoringStep(before.entries, names[i], decoder, faults, now)
  {
    assert names[..i + 1][..i] == names[..i];
  }

  /** Once a turn has raised, the later entries are not reached. */
  lemma {:induction false} PassStopsAtFailure(names: seq<string>, i: nat, entries: map<string, Node>, decoder: Decoder,
                                              faults: Faults, now: string)
    requires i <= |names| && !BoringPass(names[..i], entries, decoder, faults, now).ok
    ensures BoringPass(names, entries, decoder, faults, now) == BoringPass(names[..i], entries, decoder, faults, now)
    decreases |names| - i
  {
    if i < |names| {
      BoringPassSnoc(names, i, entries, decoder, faults, now);
      PassStopsAtFailure(names, i + 1, entries, decoder, faults, now);
    } else {
      assert names[..i] == names;
    }
  }

  /**
   * What the pass keeps true, relative to the folder `start` it began with:
   * every entry but the store is either untouched or was a boring candidate
   * of `done` that is now gone, with its skip-list entry recorded first.
   */
  ghost predicate Kept(after: map<string, Node>, start: map<string, Node>, done: seq<string>, decoder: Decoder, now: string) {
    && (STORE in start ==> start[STORE].Table?)
    && (STORE in after ==> after[STORE].Table?)
    && forall n :: n != STORE ==>
         && (n in after ==> n in start && after[n] == start[n])
         && (n in start && n !in after ==>
               n in done && BoringFile(start, n, decoder) && Get(StoredIn(after), n) == Some(BoringInfo(now)))
  }

  /** The store file is never a candidate: its name starts with a dot. */
  lemma StoreNotCandidate(entries: map<string, Node>)
    ensures !Candidate(entries, STORE)
  {
    assert STORE[..1] == ".";
  }

  /**
   * Every run of the pass, finished or cut short, only removes boring
   * candidates, records each in the store before removing it, and leaves
   * every other entry as it was.
   */
  lemma {:induction false} PassKeeps(names: seq<string>, start: map<string, Node>, decoder: Decoder, faults: Faults, now: string)
    requires STORE in start ==> start[STORE].Table?
    ensures Kept(BoringPass(names, start, decoder, faults, now).entries, start, names, decoder, now)
    decreases |names|
  {
    if names != [] {
      var init := names[..|names| - 1];
      var name := names[|names| - 1];
      PassKeeps(init, start, decoder, faults, now);
      var before := BoringPass(init, start, decoder, faults, now);
      assert forall n :: n in init ==> n in names;
      if before.ok {
        StoreNotCandidate(before.entries);
        StepKeeps(before.entries, start, init, name, decoder, faults, now);
      }
    }
  }

  lemma StepKeeps(before: map<string, Node>, start: map<string, Node>, done: seq<string>, name: string,
                  decoder: Decoder, faults: Faults, now: string)
    requires Kept(before, start, done, decoder, now) && !Candidate(before, STORE)
    ensures Kept(BoringStep(before, name, decoder, faults, now).entries, start, done + [name], decoder, now)
  {
    if !BoringFile(before, name, decoder) || name in faults.addFails {
      KeptLonger(before, start, done, name, decoder, now);
    } else if name in faults.unlinkFails {
      ListedKeeps(before, start, done, name, decoder, now);
    } else {
      RemovedKeeps(before, start, done, name, decoder, now);
    }
  }

  lemma KeptLonger(after: map<string, Node>, start: map<string, Node>, done: seq<string>, name: string,
                   decoder: Decoder, now: string)
    requires Kept(after, start, done, decoder, now)
    ensures Kept(after, start, done + [name], decoder, now)
  {
  }

  /** Rewriting the store's file with one more entry, as `add` does. */
  lemma StoredInListed(entries: map<string, Node>, name: string, now: string)
    ensures StoredIn(ListedIn(entries, name, now)) == Set(StoredIn(entries), name, BoringInfo(now))
  {
    SaveLoadRoundTrip(Set(StoredIn(entries), name, BoringInfo(now)));
  }

  lemma ListedKeeps(before: map<string, Node>, start: map<string, Node>, done: seq<string>, name: string,
                    decoder: Decoder, now: string)
    requires Kept(before, start, done, decoder, now) && BoringFile(before, name, decoder)
    ensures Kept(ListedIn(before, name, now), start, done + [name], decoder, now)
    ensures Get(StoredIn(ListedIn(before, name, now)), name) == Some(BoringInfo(now))
  {
    StoredInListed(before, name, now);
  }

  lemma RemovedKeeps(before: map<string, Node>, start: map<string, Node>, done: seq<string>, name: string,
                     decoder: Decoder, now: string)
    requires Kept(before, start, done, decoder, now) && BoringFile(before, name, decoder) && !Candidate(before, STORE)
    ensures Kept(ListedIn(before, name, now) - {name}, start, done + [name], decoder, now)
  {
    ListedKeeps(before, start, done, name, decoder, now);
    assert name in start && start[name] == before[name];
    DropKeeps(ListedIn(before, name, now), start, done + [name], name, decoder, now);
  }

  /** Unlinking a boring candidate of `start` already recorded in the store. */
  lemma DropKeeps(listed: map<string, Node>, start: map<string, Node>, done: seq<string>, name: string,
                  decoder: Decoder, now: string)
    requires Kept(listed, start, done, decoder, now) && name != STORE && name in done
    requires name in start && BoringFile(start, name, decoder) && Get(StoredIn(listed), name) == Some(BoringInfo(now))
    ensures Kept(listed - {name}, start, done, decoder, now)
  {
    assert StoredIn(listed - {name}) == StoredIn(listed);
  }

  /**
   * Without faults, the pass over distinct names runs to the end and removes
   * every boring candidate among them.
   */
  lemma {:induction false} PassCompletes(names: seq<string>, start: map<string, Node>, decoder: Decoder, now: string)
    requires STORE in start ==> start[STORE].Table?
    requires forall i, j :: 0 <= i < j < |names| ==> names[i] != names[j]
    ensures BoringPass(names, start, decoder, NO_FAULTS, now).ok
    ensures forall n :: n in names && BoringFile(start, n, decoder) ==> n !in BoringPass(names, start, decoder, NO_FAULTS, now).entries
    decreases |names|
  {
    if names != [] {
      var init := names[..|names| - 1];
      var name := names[|names| - 1];
      PassCompletes(init, start, decoder, now);
      PassKeeps(init, start, decoder, NO_FAULTS, now);
      var before := BoringPass(init, start, decoder, NO_FAULTS, now);
      StoreNotCandidate(start);
      assert forall n :: n in names <==> n in init || n == name;
      if BoringFile(start, name, decoder) {
        assert name in before.entries && before.entries[name] == start[name];
      }
    }
  }

  /** One turn of the loop in `main`, on the entry `name`. */
  method BoringTurn(folder: Folder, db: BlacklistDB, name: string, decoder: Decoder, faults: Faults, now: string)
    returns (ok: bool)
    requires db.folder == folder && db.name == STORE && db.Valid()
    modifies folder
    ensures db.Valid()
    ensures Pass(folder.entries, ok) == BoringStep(old(folder.entries), name, decoder, faults, now)
  {
    ghost var start := folder.entries;
    if !IsRegularFile(folder.entries, name) || StartsWith(name, ".") {
      return true;
    }
    var boring := IsBoringBackground(Decode(folder.entries[name], decoder), DEFAULT_THRESHOLD);
    if !boring {
      return true;
    }
    StoreNotCandidate(start);
    ok := RecordAndUnlink(folder, db, name, faults, now);
  }

  /** `db.add(path.name, BORING_BACKGROUND)`, then `path.unlink()`; either may raise. */
  method RecordAndUnlink(folder: Folder, db: BlacklistDB, name: string, faults: Faults, now: string) returns (ok: bool)
    requires db.folder == folder && db.name == STORE && db.Valid()
    requires name != STORE && IsRegularFile(folder.entries, name)
    modifies folder
    ensures db.Valid()
    ensures Pass(folder.entries, ok) ==
      if name in faults.addFails then Pass(old(folder.entries), false)
      else if name in faults.unlinkFails then Pass(ListedIn(old(folder.entries), name, now), false)
      else Pass(ListedIn(old(folder.entries), name, now) - {name}, true)
  {
    ghost var start := folder.entries;
    assert db.Stored() == StoredIn(start);
    var added := db.Add(name, Member(BoringBackground), now, name in faults.addFails);
    if !added {
      return false;
    }
    assert folder.entries == ListedIn(start, name, now);
    assert IsRegularFile(folder.entries, name);
    ok := folder.Unlink(name, name in faults.unlinkFails);
  }

  /**
   * The `--filter-boring` loop of `main`: for every entry, in the order
   * `iterdir` lists them, unlink a boring candidate after recording it in
   * the store; the first exception ends the loop (and `main`).
   */
  method FilterBoring(folder: Folder, db: BlacklistDB, decoder: Decoder, faults: Faults, now: string)
    returns (visited: seq<string>, ok: bool)
    requires db.folder == folder && db.name == STORE && db.Valid()
    modifies folder
    ensures db.Valid()
    ensures Visits(visited, old(folder.entries))
    ensures Pass(folder.entries, ok) == BoringPass(visited, old(folder.entries), decoder, faults, now)
  {
    ghost var start := folder.entries;
    visited := folder.IterDir();
    ok := true;
    var i := 0;
    while i < |visited| && ok
      invariant 0 <= i <= |visited|
      invariant db.Valid()
      invariant Pass(folder.entries, ok) == BoringPass(visited[..i], start, decoder, faults, now)
      invariant !ok ==> BoringPass(visited, start, decoder, faults, now) == BoringPass(visited[..i], start, decoder, faults, now)
    {
      BoringPassSnoc(visited, i, start, decoder, faults, now);
      ok := BoringTurn(folder, db, visited[i], decoder, faults, now);
      i := i + 1;
      if !ok {
        PassStopsAtFailure(visited, i, start, decoder, faults, now);
      }
    }
    assert ok ==> visited[..i] == visited;
  }

  // ---------------------------------------------------------------------
  // main

  /** The entries, the store aside, of two folders agree, and each holds the store only as a table. */
  ghost predicate SameFiles(a: map<string, Node>, b: map<string, Node>) {
    && (STORE in a ==> a[STORE].Table?)
    && (STORE in b ==> b[STORE].Table?)
    && forall n :: n != STORE ==> (n in a ==> n in b && a[n] == b[n])
  }

  /** The small images the purge leaves behind stay behind: the boring pass only removes files. */
  lemma NoSmallAfterPass(before: map<string, Node>, after: map<string, Node>, decoder: Decoder)
    requires SameFiles(after, before)
    requires forall n :: n in before ==> !TooSmall.Small(before, n, decoder)
    ensures forall n :: n in after ==> !TooSmall.Small(after, n, decoder)
  {
  }

  /**
   * Lines 41-51 of `main`: create the folder and the store, and with
   * `--clear` remove the folder and start again with an empty store.
   */
  method Prepare(folder: Folder, clear: bool) returns (db: BlacklistDB)
    requires folder.Valid()
    requires STORE in folder.entries ==> folder.entries[STORE].Table?
    modifies folder
    ensures db.folder == folder && db.name == STORE && db.Valid()
    ensures folder.entries == Prepared(old(folder.entries), clear)
  {
    folder.Mkdir();
    db := new BlacklistDB(folder, STORE);
    if clear {
      folder.Clear();
      db := new BlacklistDB(folder, STORE);
    }
  }

  /**
   * The `--filter-boring` step of `main`: the pass over the entries in the
   * order `visited` that `iterdir` lists them. It only removes boring
   * candidates, each recorded first, and without faults it leaves no small
   * image and no boring candidate behind.
   */
  method BoringStage(folder: Folder, db: BlacklistDB, decoder: Decoder, faults: Faults, now: string)
    returns (visited: seq<string>, ok: bool)
    requires db.folder == folder && db.name == STORE && db.Valid()
    modifies folder
    ensures db.Valid()
    ensures Visits(visited, old(folder.entries))
    ensures Pass(folder.entries, ok) == BoringPass(visited, old(folder.entries), decoder, faults, now)
    ensures Kept(folder.entries, old(folder.entries), visited, decoder, now)
    ensures SameFiles(folder.entries, old(folder.entries))
    ensures faults == NO_FAULTS ==> ok && forall n :: n in folder.entries ==> !BoringFile(folder.entries, n, decoder)
  {
    ghost var start := folder.entries;
    visited, ok := FilterBoring(folder, db, decoder, faults, now);
    PassKeeps(visited, start, decoder, faults, now);
    if faults == NO_FAULTS {
      PassCompletes(visited, start, decoder, now);
      BoringGone(visited, start, folder.entries, decoder, now);
    }
  }

  /** `visited` lists every entry of the folder `entries` exactly once. */
  ghost predicate Visits(visited: seq<string>, entries: map<string, Node>) {
    && |visited| == |entries|
    && (forall n :: n in visited <==> n in entries)
    && forall i, j :: 0 <= i < j < |visited| ==> visited[i] != visited[j]
  }

  /** The folder the URL filter works on: checking the store creates its file, if there is a URL to check. */
  function Opened(urls: seq<string>, entries: map<string, Node>): map<string, Node> {
    if urls == [] then entries else WithStore(entries)
  }

  /**
   * `download_images(urls, …, params.new)` from the folder `start`: `planned`
   * are the URLs neither on the skip list nor already saved, capped at
   * `maxNew`, and `downloaded` is the folder once each of them was fetched
   * and written.
   */
  ghost predicate DownloadStep(start: map<string, Node>, urls: seq<string>, maxNew: Option<int>, server: Download.Server,
                               planned: seq<string>, downloaded: map<string, Node>) {
    var checked := Opened(urls, start);
    planned == Download.Cap(Download.NewUrls(urls, StoredIn(start), true, checked), maxNew)
    && downloaded == Download.AfterWrites(planned, server, true, checked)
  }

  /**
   * `purge_small_images` from the folder `downloaded`: the small files are
   * recorded as `TOO_SMALL` and removed, and nothing else changes.
   */
  ghost predicate PurgeStep(downloaded: map<string, Node>, purged: map<string, Node>, decoder: Decoder, faults: Faults,
                            now: string) {
    && (STORE in purged ==> purged[STORE].Table?)
    && TooSmall.StoreAfter(StoredIn(purged), StoredIn(downloaded), downloaded.Keys, downloaded, decoder, faults, now)
    && TooSmall.FolderAfter(purged, downloaded, downloaded.Keys, decoder, faults, Some(STORE))
  }

  /**
   * The optional boring pass from the folder `purged`, over its entries in
   * the order `visited`, ending as `final`; without `--filter-boring` the
   * folder stays as the purge left it.
   */
  ghost predicate FilterStep(purged: map<string, Node>, visited: seq<string>, final: Pass, filterBoring: bool,
                             decoder: Decoder, faults: Faults, now: string) {
    if filterBoring then Visits(visited, purged) && final == BoringPass(visited, purged, decoder, faults, now)
    else final == Pass(purged, true)
  }

  /** What each step of `main` left behind once the URLs were taken. */
  datatype Stages = Stages(planned: seq<string>, downloaded: map<string, Node>, purged: map<string, Node>,
                           visited: seq<string>)

  /** The steps of `main` on `urls`, from the folder `start`: download, then purge, then the boring pass. */
  ghost predicate Ran(stages: Stages, start: map<string, Node>, final: Pass, urls: seq<string>, params: Params,
                      server: Download.Server, decoder: Decoder, faults: Faults, now: string) {
    && DownloadStep(start, urls, params.maxNew, server, stages.planned, stages.downloaded)
    && PurgeStep(stages.downloaded, stages.purged, decoder, faults, now)
    && FilterStep(stages.purged, stages.visited, final, params.filterBoring, decoder, faults, now)
  }

  /**
   * After the download, `main` only removes files: every file the run ends
   * with was in the downloaded folder with the same content, and every
   * file removed was a small or a boring one.
   */
  lemma RunOnlyRemoves(stages: Stages, start: map<string, Node>, final: Pass, urls: seq<string>, params: Params,
                       server: Download.Server, decoder: Decoder, faults: Faults, now: string, n: string)
    requires Ran(stages, start, final, urls, params, server, decoder, faults, now)
    requires n != STORE
    ensures n in final.entries ==> n in stages.downloaded && final.entries[n] == stages.downloaded[n]
    ensures n in stages.downloaded && n !in final.entries ==>
              TooSmall.Small(stages.downloaded, n, decoder) || BoringFile(stages.purged, n, decoder)
  {
    if params.filterBoring {
      PassKeeps(stages.visited, stages.purged, decoder, faults, now);
    }
  }

  /**
   * Lines 63-66 of `main`: download the new images, then purge the small
   * ones. `planned` are the URLs fetched and `downloaded` the folder between
   * the two steps.
   */
  method DownloadAndPurge(urls: seq<string>, maxNew: Option<int>, folder: Folder, db: BlacklistDB,
                          server: Download.Server, decoder: Decoder, now: string, faults: Faults)
    returns (planned: seq<string>, downloaded: map<string, Node>)
    requires db.folder == folder && db.name == STORE && db.Valid()
    modifies folder
    ensures db.Valid()
    ensures DownloadStep(old(folder.entries), urls, maxNew, server, planned, downloaded)
    ensures PurgeStep(downloaded, folder.entries, decoder, faults, now)
    ensures faults == NO_FAULTS ==> forall n :: n in folder.entries ==> !TooSmall.Small(folder.entries, n, decoder)
  {
    ghost var start := folder.entries;
    assert Download.EntriesAfterFilter(urls, folder, db) == Opened(urls, start);
    assert db.Stored() == StoredIn(start);
    planned := Download.DownloadImages(urls, folder, db, maxNew, server);
    downloaded := folder.entries;
    var _, _ := TooSmall.PurgeSmallImages(folder, db, decoder, now, faults);
  }

  /**
   * Lines 60-81 of `main`, once there are URLs: count the entries, download,
   * purge the small images, optionally the boring ones, and report how many
   * entries the folder gained. `stages` holds what each step left behind.
   */
  method Process(urls: seq<string>, params: Params, folder: Folder, db: BlacklistDB, server: Download.Server,
                 decoder: Decoder, now: string, faults: Faults)
    returns (outcome: Outcome, stages: Stages)
    requires db.folder == folder && db.name == STORE && db.Valid()
    modifies folder
    ensures folder.Valid() && folder.onDisk
    ensures Ran(stages, old(folder.entries), Pass(folder.entries, outcome.Done?), urls, params, server, decoder, faults, now)
    ensures outcome.Crashed? ==> params.filterBoring
    ensures !outcome.NoUrls?
    ensures outcome.Done? ==> outcome.newFiles == |folder.entries| - |old(folder.entries)|
    ensures faults == NO_FAULTS ==>
              && outcome.Done?
              && (forall n :: n in folder.entries ==> !TooSmall.Small(folder.entries, n, decoder))
              && (params.filterBoring ==> forall n :: n in folder.entries ==> !BoringFile(folder.entries, n, decoder))
  {
    var n0 := folder.CountEntries();
    var planned, downloaded := DownloadAndPurge(urls, params.maxNew, folder, db, server, decoder, now, faults);
    var purged := folder.entries;
    var visited := [];
    var ok := true;
    if params.filterBoring {
      visited, ok := BoringStage(folder, db, decoder, faults, now);
      if faults == NO_FAULTS {
        NoSmallAfterPass(purged, folder.entries, decoder);
      }
    }
    stages := Stages(planned, downloaded, purged, visited);
    if !ok {
      return Crashed, stages;
    }
    var n1 := folder.CountEntries();
    outcome := Done(n1 as int - n0 as int);
  }

  /**
   * `main()`. `source` answers the listing requests, `server` the image
   * GETs, `decoder` stands for PIL, `now` for every timestamp written, and
   * `faults` for the store writes and unlinks the system refuses. `urls`
   * is the list the run works on and `stages` what each later step left
   * behind.
   */
  method Pipeline(params: Params, folder: Folder, source: Urls.Source, server: Download.Server, decoder: Decoder,
                  now: string, faults: Faults)
    returns (urls: seq<string>, outcome: Outcome, stages: Stages)
    requires folder.Valid()
    requires STORE in folder.entries ==> folder.entries[STORE].Table?
    modifies folder
    ensures folder.Valid() && folder.onDisk
    ensures params.count < 0 ==> outcome == Crashed && folder.entries == Prepared(old(folder.entries), params.clear)
    ensures params.count >= 0 ==> urls == Take(Urls.AllUrls(Urls.Pages(source, 0, None)), params.count)
    ensures outcome == NoUrls <==> params.count >= 0 && urls == []
    ensures outcome == NoUrls ==> folder.entries == Prepared(old(folder.entries), params.clear)
    ensures params.count >= 0 && urls != [] ==>
              Ran(stages, Prepared(old(folder.entries), params.clear), Pass(folder.entries, outcome.Done?), urls, params,
                  server, decoder, faults, now)
    ensures outcome == Crashed ==> params.count < 0 || params.filterBoring
    ensures params.count >= 0 && urls != [] && !params.filterBoring ==> outcome.Done?
    ensures outcome.Done? ==> outcome.newFiles == |folder.entries| - |Prepared(old(folder.entries), params.clear)|
    ensures faults == NO_FAULTS && params.count >= 0 && urls != [] ==>
              && outcome.Done?
              && (forall n :: n in folder.entries ==> !TooSmall.Small(folder.entries, n, decoder))
              && (params.filterBoring ==> forall n :: n in folder.entries ==> !BoringFile(folder.entries, n, decoder))
  {
    stages := Stages([], map[], map[], []);
    var db := Prepare(folder, params.clear);
    if params.count < 0 {
      return [], Crashed, stages;
    }
    var all := Urls.FetchUrls(source);
    urls := Take(all, params.count);
    if urls == [] {
      return urls, NoUrls, stages;
    }
    outcome, stages := Process(urls, params, folder, db, server, decoder, now, faults);
  }

  /** After a fault-free pass over every entry, no boring candidate is left. */
  lemma BoringGone(visited: seq<string>, start: map<string, Node>, after: map<string, Node>, decoder: Decoder, now: string)
    requires forall n :: n in visited <==> n in start
    requires after == BoringPass(visited, start, decoder, NO_FAULTS, now).entries
    requires Kept(after, start, visited, decoder, now)
    requires forall n :: n in visited && BoringFile(start, n, decoder) ==> n !in after
    ensures forall n :: n in after ==> !BoringFile(after, n, decoder)
  {
    StoreNotCandidate(after);
  }
}
