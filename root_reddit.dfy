/**
 * The first one-file script (reddit.py at the top of the repository): one
 * listing page, its image URLs, one GET per URL with no retry, the file
 * named after the last `/`-separated piece of the URL, and a pass that
 * unlinks the downloaded files narrower than 1920 pixels.
 */
module RootReddit {
  import opened Wrappers
  import opened Strings
  import opened FileSystem
  import opened Filtering
  import opened Writes
  import Urls
  import DraftUrls
  import Download
  import ImageAnalysis

  // ---------------------------------------------------------------------
  // extract_urls

  /**
   * The gallery branch of `extract_urls`: `post.get("gallery_data", {})`,
   * then the items with a known media id and a MIME type holding `/`.
   */
  function GalleryUrls(post: Urls.Post): seq<string> {
    var gallery := if post.galleryData.Some? then post.galleryData.value else Urls.Gallery(None);
    var metadata := if post.mediaMetadata.Some? then post.mediaMetadata.value else map[];
    var items := if gallery.items.Some? then gallery.items.value else [];
    Urls.ItemUrls(items, metadata)
  }

  /** The URLs one post contributes: its gallery, or its own URL when it names an image. */
  function PostUrls(post: Urls.Post): seq<string> {
    var url := if post.url.Some? then post.url.value else "";
    if StartsWith(url, Urls.GALLERY_PREFIX) then GalleryUrls(post)
    else if Urls.HasImageSuffix(url) then [url]
    else []
  }

  /** The loop over `children`; `child["data"]` raises on a child without data. */
  function ChildrenUrls(children: seq<Urls.Child>): DraftUrls.Stream
    decreases |children|
  {
    if children == [] then DraftUrls.DONE
    else if children[0].data.None? then DraftUrls.RAISE
    else
      var rest := ChildrenUrls(children[1..]);
      DraftUrls.Stream(PostUrls(children[0].data.value) + rest.urls, rest.raised)
  }

  /**
   * `extract_urls(page)`: the URLs the generator yields, and whether it
   * raises; `page["data"]["children"]` raises when either key is missing.
   */
  function ExtractUrls(page: Urls.Page): DraftUrls.Stream {
    if page.data.None? || page.data.value.children.None? then DraftUrls.RAISE
    else ChildrenUrls(page.data.value.children.value)
  }

  /** A post yields what the paginating drafts yield for it. */
  lemma PostUrlsAgree(post: Urls.Post)
    ensures PostUrls(post) == Urls.PostUrls(post)
  {
    if post.galleryData.None? {
      assert Urls.ItemUrls([], map[]) == [];
    }
  }

  lemma {:induction false} ChildrenUrlsAgree(children: seq<Urls.Child>)
    ensures ChildrenUrls(children) == DraftUrls.ChildrenStream(children)
    decreases |children|
  {
    if children != [] && children[0].data.Some? {
      ChildrenUrlsAgree(children[1..]);
      PostUrlsAgree(children[0].data.value);
    }
  }

  /**
   * The single-page extraction yields exactly what one page of the
   * paginating draft yields, and raises exactly when it does; when it
   * does not raise, the URLs are those of the final crawler's page.
   */
  lemma ExtractUrlsAgrees(page: Urls.Page)
    ensures ExtractUrls(page) == DraftUrls.PageStream(page)
    ensures !ExtractUrls(page).raised <==> DraftUrls.WellFormed(page)
    ensures !ExtractUrls(page).raised ==> ExtractUrls(page).urls == Urls.PageUrls(Some(page))
  {
    if page.data.Some? && page.data.value.children.Some? {
      ChildrenUrlsAgree(page.data.value.children.value);
    }
    DraftUrls.PageStreamAgrees(page);
  }

  // ---------------------------------------------------------------------
  // download_image, download_all_images

  /** `url.split("/")[-1]`: the file name keeps any query string. */
  function FileName(url: string): string {
    AfterLast(url, '/')
  }

  /** The body of the single GET of a URL (`raise_for_status` turns a bad status into no body). */
  function FirstAttempt(server: Download.Server): string -> Option<Bytes> {
    u => if server(u)(0).Body? then Some(server(u)(0).data) else None
  }

  /** A URL with a query string is saved under a name that still holds it. */
  lemma QueryKeptInName(url: string)
    requires '?' in FileName(url)
    ensures FileName(url) != Download.FilenameFromUrl(url)
  {
  }

  /**
   * `download_image(url, folder)`: one GET; with a body, write it to
   * `folder / FileName(url)` and return that name; any exception (no body,
   * the name cannot be written) returns None and changes nothing.
   */
  method DownloadImage(url: string, folder: Folder, server: Download.Server) returns (path: Option<string>)
    requires folder.Valid()
    modifies folder
    ensures folder.Valid() && folder.onDisk == old(folder.onDisk)
    ensures path.Some? <==> FirstAttempt(server)(url).Some? && Writable(old(folder.onDisk), old(folder.entries), FileName(url))
    ensures path.Some? ==> path.value == FileName(url)
    ensures folder.entries == if path.Some? then old(folder.entries)[FileName(url) := File(FirstAttempt(server)(url).value)]
                              else old(folder.entries)
  {
    var response := server(url)(0);
    if response.Failed? {
      return None;
    }
    var name := FileName(url);
    var ok := folder.WriteFile(name, response.data);
    path := if ok then Some(name) else None;
  }

  /** The folder after the downloads of `urls`, run one after another. */
  function AfterDownloads(urls: seq<string>, server: Download.Server, entries: map<string, Node>): map<string, Node> {
    WriteAll(urls, FileName, FirstAttempt(server), false, true, entries)
  }

  /** `download_image` returns a path for `u`, given the folder as it was before all downloads. */
  function SavedFn(server: Download.Server, entries: map<string, Node>): string -> bool {
    u => FirstAttempt(server)(u).Some? && Writable(true, entries, FileName(u))
  }

  /** `f` applied to every element of `s`. */
  function MapAll(s: seq<string>, f: string -> string): (r: seq<string>)
    ensures |r| == |s| && forall i :: 0 <= i < |s| ==> r[i] == f(s[i])
  {
    seq(|s|, i requires 0 <= i < |s| => f(s[i]))
  }

  /** `[f for f in results if f is not None]` */
  function Downloads(urls: seq<string>, server: Download.Server, entries: map<string, Node>): seq<string> {
    MapAll(Filter(urls, SavedFn(server, entries)), FileName)
  }

  lemma MapAllSnoc(s: seq<string>, x: string, f: string -> string)
    ensures MapAll(s + [x], f) == MapAll(s, f) + [f(x)]
  {
  }

  /**
   * A download leaves a name writable exactly when it was writable before
   * all downloads: no task creates or removes a directory.
   */
  lemma WritableKept(urls: seq<string>, server: Download.Server, entries: map<string, Node>, name: string)
    ensures Writable(true, AfterDownloads(urls, server, entries), name) == Writable(true, entries, name)
  {
    WriteAllFrame(urls, FileName, FirstAttempt(server), false, true, entries, name);
  }

  lemma DownloadStep(urls: seq<string>, i: nat, server: Download.Server, entries: map<string, Node>)
    requires i < |urls|
    ensures var before := AfterDownloads(urls[..i], server, entries);
            var data := FirstAttempt(server)(urls[i]);
            AfterDownloads(urls[..i + 1], server, entries)
              == if TaskWrites(data, false, true, before, FileName(urls[i])) then before[FileName(urls[i]) := File(data.value)]
                 else before
  {
    assert urls[..i + 1] == urls[..i] + [urls[i]];
    WriteAllSnoc(urls[..i], urls[i], FileName, FirstAttempt(server), false, true, entries);
  }

  lemma DownloadsStep(urls: seq<string>, i: nat, saved: string -> bool)
    requires i < |urls|
    ensures MapAll(Filter(urls[..i + 1], saved), FileName)
              == MapAll(Filter(urls[..i], saved), FileName) + if saved(urls[i]) then [FileName(urls[i])] else []
  {
    FilterTake(urls, i, saved);
    if saved(urls[i]) {
      MapAllSnoc(Filter(urls[..i], saved), urls[i], FileName);
    }
  }

  /**
   * `download_all_images(urls, folder)`, with the parallel jobs run in list
   * order: create the folder, download every URL, and return the paths of
   * the downloads that succeeded, in the order of `urls`.
   */
  method DownloadAllImages(urls: seq<string>, folder: Folder, server: Download.Server) returns (downloads: seq<string>)
    requires folder.Valid()
    modifies folder
    ensures folder.Valid() && folder.onDisk
    ensures folder.entries == AfterDownloads(urls, server, old(folder.entries))
    ensures downloads == Downloads(urls, server, old(folder.entries))
  {
    folder.Mkdir();
    ghost var start := folder.entries;
    downloads := [];
    for i := 0 to |urls|
      invariant folder.Valid() && folder.onDisk
      invariant folder.entries == AfterDownloads(urls[..i], server, start)
      invariant downloads == Downloads(urls[..i], server, start)
    {
      DownloadStep(urls, i, server, start);
      DownloadsStep(urls, i, SavedFn(server, start));
      WritableKept(urls[..i], server, start, FileName(urls[i]));
      var path := DownloadImage(urls[i], folder, server);
      if path.Some? {
        downloads := downloads + [path.value];
      }
    }
    assert urls[..|urls|] == urls;
  }

  /**
   * The paths returned are the names of the URLs whose download succeeded,
   * picked at increasing positions of `urls`: every success, no failure,
   * in input order.
   */
  lemma DownloadsInOrder(urls: seq<string>, server: Download.Server, entries: map<string, Node>) returns (idx: seq<nat>)
    ensures |idx| == |Downloads(urls, server, entries)|
    ensures forall k :: 0 <= k < |idx| ==> idx[k] < |urls| && Downloads(urls, server, entries)[k] == FileName(urls[idx[k]])
    ensures forall k, l :: 0 <= k < l < |idx| ==> idx[k] < idx[l]
    ensures forall j :: 0 <= j < |urls| ==> (j in idx <==> SavedFn(server, entries)(urls[j]))
  {
    idx := FilterPositions(urls, SavedFn(server, entries));
  }

  /**
   * A returned path holds the body of its URL unless a later successful
   * URL has the same file name: the later download overwrites it.
   */
  lemma LastDownloadWins(urls: seq<string>, server: Download.Server, entries: map<string, Node>, i: nat)
    requires i < |urls| && SavedFn(server, entries)(urls[i])
    requires forall j :: i < j < |urls| && FirstAttempt(server)(urls[j]).Some? ==> FileName(urls[j]) != FileName(urls[i])
    ensures var after := AfterDownloads(urls, server, entries);
            FileName(urls[i]) in after && after[FileName(urls[i])] == File(FirstAttempt(server)(urls[i]).value)
  {
    LastWriteWins(urls, FileName, FirstAttempt(server), true, entries, i);
  }

  // ---------------------------------------------------------------------
  // remove_small_images

  /** The width the script compares against, whatever `min_width` says. */
  const HARD_CODED_MIN_WIDTH: nat := 1920

  /** `get_image_width(f)`: None when the file is missing or does not decode. */
  function Width(entries: map<string, Node>, path: string, decoder: ImageAnalysis.Decoder): Option<nat> {
    if path in entries then
      match ImageAnalysis.Decode(entries[path], decoder)
      case Some(img) => Some(img.width)
      case None => None
    else None
  }

  function NarrowFn(entries: map<string, Node>, decoder: ImageAnalysis.Decoder, limit: nat): string -> bool {
    f => Width(entries, f, decoder).Some? && Width(entries, f, decoder).value < limit
  }

  /**
   * `[f for f in filepaths if get_image_width(f) < limit]`: None when some
   * width is None, since comparing None with an int raises.
   */
  function Smalls(paths: seq<string>, entries: map<string, Node>, decoder: ImageAnalysis.Decoder, limit: nat): (r: Option<seq<string>>)
    ensures r.None? <==> exists f :: f in paths && Width(entries, f, decoder).None?
    ensures r.Some? ==> forall f :: f in r.value <==> f in paths && Width(entries, f, decoder).value < limit
  {
    if forall f :: f in paths ==> Width(entries, f, decoder).Some? then
      var s := Filter(paths, NarrowFn(entries, decoder, limit));
      assert forall f :: f in s <==> f in paths && NarrowFn(entries, decoder, limit)(f) by {
        forall f {
          FilterMembers(paths, NarrowFn(entries, decoder, limit), f);
        }
      }
      Some(s)
    else None
  }

  /** The folder after unlinking `smalls` in order, and whether every unlink succeeded. */
  datatype Unlinked = Unlinked(entries: map<string, Node>, ok: bool)

  /** `for f in smalls: Path(f).unlink()`: the first failing unlink raises and ends the loop. */
  function UnlinkAll(smalls: seq<string>, entries: map<string, Node>, fails: set<string>): Unlinked
    decreases |smalls|
  {
    if smalls == [] then Unlinked(entries, true)
    else
      var before := UnlinkAll(smalls[..|smalls| - 1], entries, fails);
      var f := smalls[|smalls| - 1];
      if !before.ok then before
      else if f !in fails && IsRegularFile(before.entries, f) then Unlinked(before.entries - {f}, true)
      else Unlinked(before.entries, false)
  }

  lemma UnlinkAllSnoc(smalls: seq<string>, i: nat, entries: map<string, Node>, fails: set<string>)
    requires i < |smalls|
    ensures var before := UnlinkAll(smalls[..i], entries, fails);
            var f := smalls[i];
            UnlinkAll(smalls[..i + 1], entries, fails)
              == if !before.ok then before
                 else if f !in fails && IsRegularFile(before.entries, f) then Unlinked(before.entries - {f}, true)
                 else Unlinked(before.entries, false)
  {
    assert smalls[..i + 1][..i] == smalls[..i];
  }

  /** `after` is `entries` without the names in `removed`. */
  ghost predicate RemovedExactly(after: map<string, Node>, entries: map<string, Node>, removed: seq<string>) {
    forall g :: (g in after <==> g in entries && g !in removed) && (g in after ==> after[g] == entries[g])
  }

  predicate Distinct(s: seq<string>) {
    forall i, j :: 0 <= i < j < |s| ==> s[i] != s[j]
  }

  /** Every listed name is a regular file whose unlink the system allows. */
  ghost predicate AllUnlinkable(smalls: seq<string>, entries: map<string, Node>, fails: set<string>) {
    forall f :: f in smalls ==> IsRegularFile(entries, f) && f !in fails
  }

  /**
   * When the loop finishes, it removed exactly the listed files, each a
   * regular file beforehand, and the list held no repeats; with no refused
   * unlink, distinct regular files are all removed and the loop finishes.
   */
  lemma {:induction false} UnlinkAllRemoves(smalls: seq<string>, entries: map<string, Node>, fails: set<string>)
    ensures var r := UnlinkAll(smalls, entries, fails);
            r.ok ==> RemovedExactly(r.entries, entries, smalls) && AllUnlinkable(smalls, entries, fails) && Distinct(smalls)
    ensures AllUnlinkable(smalls, entries, fails) && Distinct(smalls) ==> UnlinkAll(smalls, entries, fails).ok
    decreases |smalls|
  {
    if smalls != [] {
      var n := |smalls| - 1;
      var init := smalls[..n];
      var f := smalls[n];
      assert smalls == init + [f];
      UnlinkAllRemoves(init, entries, fails);
      var before := UnlinkAll(init, entries, fails);
      if UnlinkAll(smalls, entries, fails).ok {
        UnlinkedLast(init, f, entries, fails, before);
      }
      if AllUnlinkable(smalls, entries, fails) && Distinct(smalls) {
        UnlinkableLast(init, f, entries, fails, before);
      }
    }
  }

  /** The step of `UnlinkAllRemoves` for a run that finishes. */
  lemma UnlinkedLast(init: seq<string>, f: string, entries: map<string, Node>, fails: set<string>, before: Unlinked)
    requires before == UnlinkAll(init, entries, fails)
    requires before.ok ==> RemovedExactly(before.entries, entries, init) && AllUnlinkable(init, entries, fails) && Distinct(init)
    requires UnlinkAll(init + [f], entries, fails).ok
    ensures var r := UnlinkAll(init + [f], entries, fails);
            RemovedExactly(r.entries, entries, init + [f]) && AllUnlinkable(init + [f], entries, fails) && Distinct(init + [f])
  {
    assert (init + [f])[..|init|] == init;
    assert before.ok && f !in fails && IsRegularFile(before.entries, f);
    assert f !in init;
    var s := init + [f];
    assert forall g :: g in s <==> g in init || g == f;
    assert forall i :: 0 <= i < |init| ==> s[i] == init[i];
  }

  /** The step of `UnlinkAllRemoves` for distinct unlinkable files. */
  lemma UnlinkableLast(init: seq<string>, f: string, entries: map<string, Node>, fails: set<string>, before: Unlinked)
    requires before == UnlinkAll(init, entries, fails)
    requires before.ok ==> RemovedExactly(before.entries, entries, init)
    requires AllUnlinkable(init, entries, fails) && Distinct(init) ==> before.ok
    requires AllUnlinkable(init + [f], entries, fails) && Distinct(init + [f])
    ensures UnlinkAll(init + [f], entries, fails).ok
  {
    var s := init + [f];
    assert s[..|init|] == init;
    DistinctSnoc(init, f);
    assert f in s && forall g :: g in init ==> g in s;
    assert before.ok;
  }

  lemma DistinctSnoc(init: seq<string>, f: string)
    requires Distinct(init + [f])
    ensures Distinct(init) && f !in init
  {
    var s := init + [f];
    assert forall i :: 0 <= i < |init| ==> s[i] == init[i];
    assert s[|init|] == f;
  }

  /** Unlink the listed files one after another; `ok` is false once an unlink raises. */
  method UnlinkEach(smalls: seq<string>, folder: Folder, faults: Faults) returns (ok: bool)
    requires folder.Valid()
    modifies folder
    ensures folder.Valid() && folder.onDisk == old(folder.onDisk)
    ensures Unlinked(folder.entries, ok) == UnlinkAll(smalls, old(folder.entries), faults.unlinkFails)
  {
    ghost var start := folder.entries;
    ok := true;
    var i := 0;
    while i < |smalls| && ok
      invariant 0 <= i <= |smalls|
      invariant folder.Valid() && folder.onDisk == old(folder.onDisk)
      invariant Unlinked(folder.entries, ok) == UnlinkAll(smalls[..i], start, faults.unlinkFails)
      invariant !ok ==> UnlinkAll(smalls, start, faults.unlinkFails) == UnlinkAll(smalls[..i], start, faults.unlinkFails)
    {
      UnlinkAllSnoc(smalls, i, start, faults.unlinkFails);
      ok := folder.Unlink(smalls[i], smalls[i] in faults.unlinkFails);
      i := i + 1;
      if !ok {
        FailureSticks(smalls, i, start, faults.unlinkFails);
      }
    }
    assert ok ==> smalls[..i] == smalls;
  }

  /** Once an unlink has raised, the rest of the list is not reached. */
  lemma {:induction false} FailureSticks(smalls: seq<string>, i: nat, entries: map<string, Node>, fails: set<string>)
    requires i <= |smalls| && !UnlinkAll(smalls[..i], entries, fails).ok
    ensures UnlinkAll(smalls, entries, fails) == UnlinkAll(smalls[..i], entries, fails)
    decreases |smalls| - i
  {
    if i < |smalls| {
      UnlinkAllSnoc(smalls, i, entries, fails);
      FailureSticks(smalls, i + 1, entries, fails);
    } else {
      assert smalls[..i] == smalls;
    }
  }

  /**
   * `remove_small_images(filepaths, min_width)` as written: the widths are
   * compared with 1920 whatever `min_width` is.  `ok` is false where the
   * script raises: an unreadable width, or a refused or repeated unlink.
   */
  method RemoveSmallImagesAsWritten(paths: seq<string>, minWidth: nat, folder: Folder, decoder: ImageAnalysis.Decoder,
                                    faults: Faults) returns (ok: bool)
    requires folder.Valid()
    modifies folder
    ensures folder.Valid() && folder.onDisk == old(folder.onDisk)
    ensures var smalls := Smalls(paths, old(folder.entries), decoder, HARD_CODED_MIN_WIDTH);
            if smalls.None? then !ok && folder.entries == old(folder.entries)
            else Unlinked(folder.entries, ok) == UnlinkAll(smalls.value, old(folder.entries), faults.unlinkFails)
  {
    var smalls := Smalls(paths, folder.entries, decoder, HARD_CODED_MIN_WIDTH);
    if smalls.None? {
      return false;
    }
    ok := UnlinkEach(smalls.value, folder, faults);
  }

  /**
   * `remove_small_images` comparing with `min_width`, as its parameter and
   * its closing message say.
   */
  method RemoveSmallImages(paths: seq<string>, minWidth: nat, folder: Folder, decoder: ImageAnalysis.Decoder,
                           faults: Faults) returns (ok: bool)
    requires folder.Valid()
    modifies folder
    ensures folder.Valid() && folder.onDisk == old(folder.onDisk)
    ensures var smalls := Smalls(paths, old(folder.entries), decoder, minWidth);
            if smalls.None? then !ok && folder.entries == old(folder.entries)
            else Unlinked(folder.entries, ok) == UnlinkAll(smalls.value, old(folder.entries), faults.unlinkFails)
  {
    var smalls := Smalls(paths, folder.entries, decoder, minWidth);
    if smalls.None? {
      return false;
    }
    ok := UnlinkEach(smalls.value, folder, faults);
  }

  /**
   * As written, a file of width `w` with `minWidth <= w < 1920` is removed
   * although it is at least `min_width` wide: `remove_small_images([f],
   * min_width=1000)` on a 1500-pixel-wide `f` unlinks it.
   */
  lemma MinWidthIgnored(f: string, entries: map<string, Node>, decoder: ImageAnalysis.Decoder, minWidth: nat)
    requires Width(entries, f, decoder).Some?
    requires minWidth <= Width(entries, f, decoder).value < HARD_CODED_MIN_WIDTH
    ensures Smalls([f], entries, decoder, HARD_CODED_MIN_WIDTH) == Some([f])
    ensures Smalls([f], entries, decoder, minWidth) == Some([])
  {
    FilterSnoc([], f, NarrowFn(entries, decoder, HARD_CODED_MIN_WIDTH));
    FilterSnoc([], f, NarrowFn(entries, decoder, minWidth));
    assert [] + [f] == [f];
  }

  /**
   * With the limit taken from `min_width`, a run that finishes removes the
   * listed files narrower than `min_width` and nothing else: every file at
   * least that wide, and every other entry, is left in place.
   */
  lemma RemovesOnlyNarrow(paths: seq<string>, entries: map<string, Node>, decoder: ImageAnalysis.Decoder,
                          minWidth: nat, fails: set<string>)
    requires Smalls(paths, entries, decoder, minWidth).Some?
    requires UnlinkAll(Smalls(paths, entries, decoder, minWidth).value, entries, fails).ok
    ensures var after := UnlinkAll(Smalls(paths, entries, decoder, minWidth).value, entries, fails).entries;
            forall f :: f in entries ==> (f in after <==> !(f in paths && Width(entries, f, decoder).value < minWidth))
  {
    var smalls := Smalls(paths, entries, decoder, minWidth).value;
    UnlinkAllRemoves(smalls, entries, fails);
    assert forall f :: f in smalls <==> f in paths && Width(entries, f, decoder).value < minWidth;
  }
}
