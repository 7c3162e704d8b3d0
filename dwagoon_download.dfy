/**
 * The earlier downloader (src/dwagoon/download.py): no skip list and no
 * filter before fetching; every URL is fetched, and the body is written
 * only when no file of that name exists yet.  The retry loop is the same
 * five attempts with sleeps of 1..5 seconds as `Download.GetImage`.
 */
module DwagoonDownload {
  import opened Wrappers
  import opened FileSystem
  import opened Writes
  import Download

  /** The folder after the per-URL downloads of `urls` with the cache check, in list order. */
  function AfterCachedWrites(urls: seq<string>, server: Download.Server, entries: map<string, Node>): map<string, Node> {
    WriteAll(urls, Download.FilenameFromUrl, Download.FetchedFn(server), true, true, entries)
  }

  lemma AfterCachedWritesStep(urls: seq<string>, i: nat, server: Download.Server, entries: map<string, Node>)
    requires i < |urls|
    ensures var before := AfterCachedWrites(urls[..i], server, entries);
            var data := Download.Fetched(server(urls[i]));
            var name := Download.FilenameFromUrl(urls[i]);
            AfterCachedWrites(urls[..i + 1], server, entries)
              == if TaskWrites(data, true, true, before, name) then before[name := File(data.value)] else before
  {
    assert urls[..i + 1] == urls[..i] + [urls[i]];
    WriteAllSnoc(urls[..i], urls[i], Download.FilenameFromUrl, Download.FetchedFn(server), true, true, entries);
  }

  /**
   * `download_images`, with the concurrent tasks run in list order: create
   * the folder, then for every URL fetch it and, when a body came back and
   * no file of that name exists, write it.  `attempts[i]` is the number of
   * GETs made for `urls[i]`: every URL is fetched at least once.
   */
  method DownloadImages(urls: seq<string>, folder: Folder, server: Download.Server) returns (attempts: seq<nat>)
    requires folder.Valid()
    modifies folder
    ensures folder.Valid() && folder.onDisk
    ensures folder.entries == AfterCachedWrites(urls, server, old(folder.entries))
    ensures |attempts| == |urls| && Tried(attempts)
  {
    folder.Mkdir();
    ghost var start := folder.entries;
    attempts := [];
    for i := 0 to |urls|
      invariant folder.Valid() && folder.onDisk
      invariant folder.entries == AfterCachedWrites(urls[..i], server, start)
      invariant |attempts| == i && Tried(attempts)
    {
      var tries := DownloadTurn(urls, i, folder, server, start);
      TriedSnoc(attempts, tries);
      attempts := attempts + [tries];
    }
    assert urls[..|urls|] == urls;
  }

  /** Every count is that of a fetch: at least one GET, at most the retry limit. */
  predicate Tried(attempts: seq<nat>) {
    forall i :: 0 <= i < |attempts| ==> 1 <= attempts[i] <= Download.MAX_DOWNLOAD_RETRIES
  }

  lemma TriedSnoc(attempts: seq<nat>, tries: nat)
    requires Tried(attempts) && 1 <= tries <= Download.MAX_DOWNLOAD_RETRIES
    ensures Tried(attempts + [tries])
  {
  }

  /** The download of `urls[i]`, after those of the URLs before it. */
  method DownloadTurn(urls: seq<string>, i: nat, folder: Folder, server: Download.Server, ghost start: map<string, Node>)
    returns (attempts: nat)
    requires i < |urls| && folder.Valid() && folder.onDisk
    requires folder.entries == AfterCachedWrites(urls[..i], server, start)
    modifies folder
    ensures folder.Valid() && folder.onDisk
    ensures folder.entries == AfterCachedWrites(urls[..i + 1], server, start)
    ensures 1 <= attempts <= Download.MAX_DOWNLOAD_RETRIES
  {
    AfterCachedWritesStep(urls, i, server, start);
    attempts := DownloadOne(urls[i], folder, server);
  }

  /** The download of one URL: fetch; with a body and no file of that name yet, write it. */
  method DownloadOne(url: string, folder: Folder, server: Download.Server) returns (attempts: nat)
    requires folder.Valid() && folder.onDisk
    modifies folder
    ensures folder.Valid() && folder.onDisk
    ensures var data := Download.Fetched(server(url));
            var name := Download.FilenameFromUrl(url);
            folder.entries == if TaskWrites(data, true, true, old(folder.entries), name)
                              then old(folder.entries)[name := File(data.value)] else old(folder.entries)
    ensures 1 <= attempts <= Download.MAX_DOWNLOAD_RETRIES
  {
    var data, tries, _ := Download.GetImage(server(url));
    attempts := tries;
    if data.Some? {
      var name := Download.FilenameFromUrl(url);
      if !PathExists(folder.onDisk, folder.entries, name) {
        var _ := folder.WriteFile(name, data.value);
      }
    }
  }

  /** A file present before the run keeps its content: nothing is overwritten. */
  lemma ExistingFilesKept(urls: seq<string>, server: Download.Server, entries: map<string, Node>, name: string)
    requires name in entries
    ensures var after := AfterCachedWrites(urls, server, entries);
            name in after && after[name] == entries[name]
  {
    CachedNeverOverwritten(urls, Download.FilenameFromUrl, Download.FetchedFn(server), true, entries, name);
  }

  /**
   * A name is written only for a URL whose fetch returned a body; names of
   * no such URL keep their entry, or stay absent.
   */
  lemma OnlyFetchedWritten(urls: seq<string>, server: Download.Server, entries: map<string, Node>, name: string)
    requires forall u :: u in urls && Download.FilenameFromUrl(u) == name ==> Download.Fetched(server(u)).None?
    ensures var after := AfterCachedWrites(urls, server, entries);
            (name in after <==> name in entries) && (name in entries ==> after[name] == entries[name])
  {
    WriteAllFrame(urls, Download.FilenameFromUrl, Download.FetchedFn(server), true, true, entries, name);
  }

  /**
   * A new file holds the body of the first URL, in list order, that is
   * saved under its name and got a body.
   */
  lemma FirstFetchedWins(urls: seq<string>, server: Download.Server, entries: map<string, Node>, i: nat)
    requires i < |urls| && Download.Fetched(server(urls[i])).Some?
    requires Writable(true, entries, Download.FilenameFromUrl(urls[i]))
    requires Download.FilenameFromUrl(urls[i]) !in entries
    requires forall j :: 0 <= j < i && Download.Fetched(server(urls[j])).Some? ==>
               Download.FilenameFromUrl(urls[j]) != Download.FilenameFromUrl(urls[i])
    ensures var after := AfterCachedWrites(urls, server, entries);
            var name := Download.FilenameFromUrl(urls[i]);
            name in after && after[name] == File(Download.Fetched(server(urls[i])).value)
  {
    FirstWriteWins(urls, Download.FilenameFromUrl, Download.FetchedFn(server), true, entries, i);
  }
}
