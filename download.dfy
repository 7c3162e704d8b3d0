/**
 * Download planning and retry: the filename a URL is saved under, the filter
 * that drops blacklisted or already present files, the `max_new` cap, the
 * retry loop, and the per-URL write, run one URL after another.
 */
module Download {
  import opened Wrappers
  import opened OrderedDict
  import opened FileSystem
  import opened Blacklist
  import Strings
  import opened Filtering
  import opened Writes

  /** `MAX_DOWNLOAD_RETRIES` in the configuration. */
  const MAX_DOWNLOAD_RETRIES: nat := 5

  /** The outcome of one GET: a body, or any exception (non-2xx, timeout, reset). */
  datatype Attempt = Body(data: Bytes) | Failed

  /** The outcome of attempt number `i` (from 0) on one URL. */
  type Responder = nat -> Attempt

  /** The responder of every URL. */
  type Server = string -> Responder

  /** The body of the first successful attempt in `from .. limit - 1`. */
  function FirstBody(respond: Responder, from: nat, limit: nat): Option<Bytes>
    decreases limit - from
  {
    if from >= limit then None
    else if respond(from).Body? then Some(respond(from).data)
    else FirstBody(respond, from + 1, limit)
  }

  /** What `get_image` returns for a URL with these attempt outcomes. */
  function Fetched(respond: Responder): Option<Bytes> {
    FirstBody(respond, 0, MAX_DOWNLOAD_RETRIES)
  }

  lemma {:induction false} FirstBodyCharacterised(respond: Responder, from: nat, limit: nat)
    ensures FirstBody(respond, from, limit).None? <==> forall i :: from <= i < limit ==> respond(i).Failed?
    ensures FirstBody(respond, from, limit).Some? ==>
      exists k :: from <= k < limit && respond(k) == Body(FirstBody(respond, from, limit).value)
               && forall i :: from <= i < k ==> respond(i).Failed?
    decreases limit - from
  {
    if from < limit && respond(from).Failed? {
      FirstBodyCharacterised(respond, from + 1, limit);
    }
  }

  /**
   * `get_image` gives up (None) exactly when all five attempts fail, and
   * otherwise returns the body of the first attempt that succeeds.
   */
  lemma FetchedCharacterised(respond: Responder)
    ensures Fetched(respond).None? <==> forall i :: 0 <= i < MAX_DOWNLOAD_RETRIES ==> respond(i).Failed?
    ensures Fetched(respond).Some? ==>
      exists k :: 0 <= k < MAX_DOWNLOAD_RETRIES && respond(k) == Body(Fetched(respond).value)
               && forall i :: 0 <= i < k ==> respond(i).Failed?
  {
    FirstBodyCharacterised(respond, 0, MAX_DOWNLOAD_RETRIES);
  }

  /** The sleeps after `k` failed attempts: 1, 2, ..., k seconds. */
  function Delays(k: nat): (d: seq<nat>)
    ensures |d| == k && forall i :: 0 <= i < k ==> d[i] == i + 1
  {
    seq(k, i requires 0 <= i < k => i + 1)
  }

  /**
   * `get_image`: up to five attempts; the first body is returned at once; each
   * failure is followed by a sleep of `1 + attempt` seconds, the last one
   * included. `attempts` counts the GETs made, `delays` the sleeps.
   */
  method GetImage(respond: Responder) returns (data: Option<Bytes>, attempts: nat, delays: seq<nat>)
    ensures 1 <= attempts <= MAX_DOWNLOAD_RETRIES
    ensures forall i :: 0 <= i < attempts - 1 ==> respond(i).Failed?
    ensures data.Some? ==> respond(attempts - 1) == Body(data.value)
    ensures data.None? ==> attempts == MAX_DOWNLOAD_RETRIES && respond(attempts - 1).Failed?
    ensures delays == Delays(if data.Some? then attempts - 1 else attempts)
    ensures data == Fetched(respond)
  {
    attempts := 0;
    delays := [];
    while attempts < MAX_DOWNLOAD_RETRIES
      invariant attempts <= MAX_DOWNLOAD_RETRIES
      invariant forall i :: 0 <= i < attempts ==> respond(i).Failed?
      invariant delays == Delays(attempts)
      invariant FirstBody(respond, attempts, MAX_DOWNLOAD_RETRIES) == Fetched(respond)
    {
      var outcome := respond(attempts);
      attempts := attempts + 1;
      if outcome.Body? {
        return Some(outcome.data), attempts, delays;
      }
      delays := delays + [attempts];
    }
    data := None;
  }

  /**
   * `get_filename_from_url`: the text after the last "/", cut at the first
   * "?"; it holds neither character.
   */
  function FilenameFromUrl(url: string): (name: string)
    ensures '/' !in name && '?' !in name
  {
    Strings.BeforeFirst(Strings.AfterLast(url, '/'), '?')
  }

  /** Deriving a filename from a filename changes nothing. */
  lemma FilenameIdempotent(url: string)
    ensures FilenameFromUrl(FilenameFromUrl(url)) == FilenameFromUrl(url)
  {
    var name := FilenameFromUrl(url);
    assert Strings.AfterLast(name, '/') == name;
    BeforeFirstAbsent(name, '?');
  }

  lemma {:induction false} BeforeFirstAbsent(s: string, c: char)
    requires c !in s
    ensures Strings.BeforeFirst(s, c) == s
    decreases |s|
  {
    if s != [] {
      BeforeFirstAbsent(s[1..], c);
    }
  }

  /** A URL passes the filter: its file is neither blacklisted nor present. */
  predicate Keep(url: string, stored: Data, onDisk: bool, entries: map<string, Node>) {
    var name := FilenameFromUrl(url);
    name !in Keys(stored) && !PathExists(onDisk, entries, name)
  }

  function KeepFn(stored: Data, onDisk: bool, entries: map<string, Node>): string -> bool {
    url => Keep(url, stored, onDisk, entries)
  }

  /** The URLs `filter_new_urls` returns, in input order. */
  function NewUrls(urls: seq<string>, stored: Data, onDisk: bool, entries: map<string, Node>): seq<string> {
    Filter(urls, KeepFn(stored, onDisk, entries))
  }

  /** A URL survives the filter exactly when it is in the input and passes. */
  lemma NewUrlsMembers(urls: seq<string>, stored: Data, onDisk: bool, entries: map<string, Node>, u: string)
    ensures u in NewUrls(urls, stored, onDisk, entries) <==> u in urls && Keep(u, stored, onDisk, entries)
  {
    FilterMembers(urls, KeepFn(stored, onDisk, entries), u);
  }

  /**
   * `new_urls[:max_new]` when `max_new` is given and smaller than the count:
   * Python slicing, so a negative bound drops that many from the end.
   */
  function Cap(urls: seq<string>, maxNew: Option<int>): seq<string> {
    if maxNew.Some? && |urls| > maxNew.value then
      var m := maxNew.value;
      urls[..if m >= 0 then m else if |urls| + m >= 0 then |urls| + m else 0]
    else urls
  }

  /**
   * The cap keeps a prefix: the first `max_new` survivors when there are
   * more, everything otherwise.
   */
  lemma CapKeepsPrefix(urls: seq<string>, maxNew: Option<int>)
    ensures var r := Cap(urls, maxNew); |r| <= |urls| && r == urls[..|r|]
    ensures maxNew.None? || |urls| <= maxNew.value ==> Cap(urls, maxNew) == urls
    ensures maxNew.Some? && 0 <= maxNew.value < |urls| ==> |Cap(urls, maxNew)| == maxNew.value
    ensures maxNew.Some? && maxNew.value < 0 ==>
              |Cap(urls, maxNew)| == if |urls| + maxNew.value >= 0 then |urls| + maxNew.value else 0
  {
  }

  /** No URL whose file is blacklisted reaches the fetch step, whatever the folder and cap. */
  lemma BlacklistedNeverPlanned(urls: seq<string>, stored: Data, onDisk: bool, entries: map<string, Node>,
                                maxNew: Option<int>, u: string)
    requires FilenameFromUrl(u) in Keys(stored)
    ensures u !in Cap(NewUrls(urls, stored, onDisk, entries), maxNew)
  {
    NewUrlsMembers(urls, stored, onDisk, entries, u);
    CapKeepsPrefix(NewUrls(urls, stored, onDisk, entries), maxNew);
  }

  lemma NewUrlsTake(urls: seq<string>, i: nat, stored: Data, onDisk: bool, entries: map<string, Node>)
    requires i < |urls|
    ensures NewUrls(urls[..i + 1], stored, onDisk, entries)
            == NewUrls(urls[..i], stored, onDisk, entries) + if Keep(urls[i], stored, onDisk, entries) then [urls[i]] else []
  {
    FilterTake(urls, i, KeepFn(stored, onDisk, entries));
  }

  /**
   * `filter_new_urls`. Each `is_blacklisted` call reloads the store, creating
   * its file first when it is missing; that is the only change, and it happens
   * on the first URL, before any existence check, so every check sees the
   * final state of the folder.
   */
  method FilterNewUrls(urls: seq<string>, folder: Folder, db: BlacklistDB) returns (r: seq<string>)
    requires db.Valid() && folder.Valid()
    modifies db.folder
    ensures db.Valid() && folder.Valid() && db.Stored() == old(db.Stored())
    ensures db.folder.entries == if urls == [] then old(db.folder.entries) else old(db.WithFile())
    ensures r == NewUrls(urls, old(db.Stored()), folder.onDisk, folder.entries)
  {
    if urls == [] {
      return [];
    }
    ghost var stored := db.Stored();
    ghost var onDisk := folder.onDisk;
    ghost var withFile := db.WithFile();
    ghost var final := if folder == db.folder then withFile else folder.entries;
    var passes := FilterTurn(urls[0], folder, db, stored, onDisk, withFile, final);
    NewUrlsTake(urls, 0, stored, onDisk, final);
    r := if passes then [urls[0]] else [];
    var i := 1;
    while i < |urls|
      invariant i <= |urls|
      invariant db.Valid() && folder.Valid() && db.Stored() == stored && folder.onDisk == onDisk
      invariant db.folder.entries == withFile && folder.entries == final
      invariant r == NewUrls(urls[..i], stored, onDisk, final)
    {
      passes := FilterTurn(urls[i], folder, db, stored, onDisk, withFile, final);
      NewUrlsTake(urls, i, stored, onDisk, final);
      if passes {
        r := r + [urls[i]];
      }
      i := i + 1;
    }
    assert urls[..|urls|] == urls;
  }

  /**
   * One URL of `filter_new_urls`: the `is_blacklisted` lookup (which leaves
   * the store's file in place), then the existence check.
   */
  method FilterTurn(url: string, folder: Folder, db: BlacklistDB, ghost stored: Data, ghost onDisk: bool,
                    ghost withFile: map<string, Node>, ghost final: map<string, Node>)
    returns (passes: bool)
    requires db.Valid() && folder.Valid() && db.Stored() == stored && folder.onDisk == onDisk
    requires withFile == db.WithFile()
    requires final == if folder == db.folder then withFile else folder.entries
    modifies db.folder
    ensures db.Valid() && folder.Valid() && db.Stored() == stored && folder.onDisk == onDisk
    ensures db.folder.entries == withFile && folder.entries == final
    ensures passes == Keep(url, stored, onDisk, final)
  {
    var name := FilenameFromUrl(url);
    var blacklisted := db.IsBlacklisted(name);
    passes := !blacklisted && !PathExists(folder.onDisk, folder.entries, name);
  }

  function FetchedFn(server: Server): string -> Option<Bytes> {
    url => Fetched(server(url))
  }

  /** The folder after the writes of `planned`, one URL after the other. */
  function AfterWrites(planned: seq<string>, server: Server, onDisk: bool, entries: map<string, Node>): map<string, Node> {
    WriteAll(planned, FilenameFromUrl, FetchedFn(server), false, onDisk, entries)
  }

  lemma AfterWritesStep(planned: seq<string>, i: nat, server: Server, entries: map<string, Node>)
    requires i < |planned|
    ensures var before := AfterWrites(planned[..i], server, true, entries);
            var data := Fetched(server(planned[i]));
            var name := FilenameFromUrl(planned[i]);
            AfterWrites(planned[..i + 1], server, true, entries)
              == if TaskWrites(data, false, true, before, name) then before[name := File(data.value)] else before
  {
    assert planned[..i + 1] == planned[..i] + [planned[i]];
    WriteAllSnoc(planned[..i], planned[i], FilenameFromUrl, FetchedFn(server), false, true, entries);
  }

  /**
   * The store an operation sees is `db`; `folder` may be the very folder
   * that holds its file, as it is in the pipeline.
   */
  function EntriesAfterFilter(urls: seq<string>, folder: Folder, db: BlacklistDB): map<string, Node>
    reads folder, db, db.folder
  {
    if folder == db.folder && urls != [] then db.WithFile() else folder.entries
  }

  /**
   * `download_images`, with the concurrent tasks run in list order: create
   * the folder, filter, cap, stop if nothing is left, else fetch each URL and
   * write its body when there is one. `planned` is the list of URLs fetched.
   * The store's contents never change.
   */
  method DownloadImages(urls: seq<string>, folder: Folder, db: BlacklistDB, maxNew: Option<int>, server: Server)
    returns (planned: seq<string>)
    requires db.Valid() && folder.Valid()
    modifies folder, db.folder
    ensures db.Valid() && folder.Valid() && folder.onDisk
    ensures db.Stored() == old(db.Stored())
    ensures planned == Cap(NewUrls(urls, old(db.Stored()), true, old(EntriesAfterFilter(urls, folder, db))), maxNew)
    ensures folder.entries == AfterWrites(planned, server, true, old(EntriesAfterFilter(urls, folder, db)))
    ensures folder != db.folder ==> db.folder.entries == if urls == [] then old(db.folder.entries) else old(db.WithFile())
  {
    folder.Mkdir();
    var survivors := FilterNewUrls(urls, folder, db);
    ghost var start := folder.entries;
    assert start == old(EntriesAfterFilter(urls, folder, db));
    planned := survivors;
    if maxNew.Some? && |planned| > maxNew.value {
      planned := Cap(planned, maxNew);
    }
    if planned == [] {
      return;
    }
    ghost var stored := old(db.Stored());
    CapKeepsPrefix(survivors, maxNew);
    // The store's file exists when it lives in this folder, so no planned
    // name is the store's name.
    assert folder == db.folder ==> forall u :: u in planned ==> FilenameFromUrl(u) != db.name by {
      forall u | u in planned && folder == db.folder ensures FilenameFromUrl(u) != db.name {
        assert u in survivors;
        NewUrlsMembers(urls, stored, true, start, u);
      }
    }
    FetchAndWrite(planned, folder, server);
    if folder == db.folder {
      WriteAllFrame(planned, FilenameFromUrl, FetchedFn(server), false, true, start, db.name);
    }
  }

  /** The per-URL tasks, run in list order: fetch, and write the body when there is one. */
  method FetchAndWrite(planned: seq<string>, folder: Folder, server: Server)
    requires folder.Valid() && folder.onDisk
    modifies folder
    ensures folder.Valid() && folder.onDisk
    ensures folder.entries == AfterWrites(planned, server, true, old(folder.entries))
  {
    var i := 0;
    while i < |planned|
      invariant i <= |planned|
      invariant folder.Valid() && folder.onDisk
      invariant folder.entries == AfterWrites(planned[..i], server, true, old(folder.entries))
    {
      var url := planned[i];
      AfterWritesStep(planned, i, server, old(folder.entries));
      var data, _, _ := GetImage(server(url));
      ghost var before := folder.entries;
      var name := FilenameFromUrl(url);
      if data.Some? {
        var _ := folder.WriteFile(name, data.value);
      }
      assert folder.entries == if TaskWrites(data, false, true, before, name) then before[name := File(data.value)] else before;
      i := i + 1;
    }
    assert planned[..|planned|] == planned;
  }
}
