# dwagoon / yodawg wallpaper pipeline, modelled in Dafny

This project models the bookkeeping core of the dwagoon/yodawg wallpaper
downloader:

- **Skip list.** The list (`BlacklistDB`) records which filenames must not be downloaded again. Each entry has a reason and a timestamp, and the list is kept as a three-column CSV table.
- **Download planning and retry.** URLs whose file is on the skip list or already on disk are dropped, the rest are capped at `--new`, and each survivor is fetched with five linear-backoff attempts. A body that arrives is written under the URL's last path segment.
- **Purge of small images.** An image narrower than 1920 pixels is recorded on the skip list, then unlinked.
- **Boring-background pass.** A border band of `min(10, w // 20, h // 20)` pixels is sampled. An image is flagged when more than 70% of those pixels are near-white, or more than 70% are near-black.
- **Reddit listing extraction and pagination.** Gallery posts become `https://i.redd.it/{id}.{ext}` URLs, direct links to `.jpg`/`.jpeg`/`.png` are kept, and a cursor-driven loop walks the listing pages.
- **The `main` pipeline.** It prepares the folder and the store, optionally clears them, then runs download, purge and the boring pass, and reports how many entries the folder gained.
- **Palette padding.** The pywal wrapper `patched_get` pads a palette to sixteen `colorN` keys.
- **The earlier drafts, each modelled as written:**
  - `src/dwagoon/download.py`: no filter, and a cache check after the fetch;
  - `python/reddit/urls.py`: no `None`-page guard, and `KeyError`s on malformed pages;
  - the root `reddit.py` script: one page, query strings kept in filenames, `min_width` ignored.

The environment stands behind oracles passed as parameters:

- `Download.Server` gives the outcome of every GET attempt.
- `Urls.Source` gives the listing page each request returns.
- `ImageAnalysis.Decoder` stands in for PIL.
- `FileSystem.Faults` names the store writes and unlinks that the operating system refuses.
- A `now` string is the timestamp written.

A folder is a `FileSystem.Folder` object. Its fields are `onDisk` and a map from entry name to `File(bytes)`, `Table(rows)` (a CSV file) or `Directory`. Its methods update the folder in place.

The skip-list store is a `Blacklist.BlacklistDB` object. It holds a constant folder and a constant file name, and its contents are the ordered dict its file holds (`Stored()`). In the pipeline the store file is `.blacklist.db`, inside the wallpaper folder itself (`src/yodawg/reddit.py:44`). The pipeline's folder and the store's folder are therefore the same object, and the model keeps that aliasing:

- `--clear` wipes the store with the wallpapers.
- The small-image purge tries to decode the store's file, fails, and leaves it in place.
- The boring pass skips the store because its name starts with a dot.
- The entry counts include the store's file.

Python dicts keep insertion order, so a dict is an association list with unique keys (`OrderedDict`). Assigning to an existing key keeps its place, and the save/load round trip is exact on that list.

The model follows the code on these points, which are easy to misread:

- `purge_small_images` does not skip dot-prefixed files. It examines every regular file (`src/yodawg/toosmall.py:15-17`).
- `download_images` creates the folder before filtering, so a run with nothing to fetch still creates it (`src/yodawg/download.py:88-104`).
- The download step can write to the store. Each `is_blacklisted` call reloads the store and creates its file with only the header when it is missing (`src/yodawg/blacklist.py:41-54`).
- An exception in the boring pass is not caught. The first refused store write or unlink ends `main` (`src/yodawg/reddit.py:69-77`). The small-image purge, in contrast, catches and logs every exception.

## Model

| member | source | states |
|---|---|---|
| Blacklist.Collect | src/yodawg/blacklist.py:47-51 | loading the data rows one after another yields a dict with unique keys |
| Blacklist.LoadKeepsLastRow | src/yodawg/blacklist.py:47-51 | when a filename repeats in the file, the loaded dict holds the reason and timestamp of its last row |
| Blacklist.LoadedKeys | src/yodawg/blacklist.py:41-54 | a filename is in the loaded dict exactly when some data row (not the header) names it |
| Blacklist.SaveLoadRoundTrip | src/yodawg/blacklist.py:56-62 | writing the header plus one row per entry and loading the file back gives the same dict, order included |
| Blacklist.HeaderOnlyIsEmpty | src/yodawg/blacklist.py:35-39 | a freshly created file, holding only the header, loads as the empty dict |
| Blacklist.ListAll | src/yodawg/blacklist.py:86-96 | `list_all` returns a permutation of the `(filename, reason, timestamp)` triples, ordered by timestamp string, newest first |
| Blacklist.NotOlderIsTotalPreorder | src/yodawg/blacklist.py:90-94 | comparing timestamp strings in reverse is a total preorder, so the sort is well defined |
| Blacklist.SavedIsStored | src/yodawg/blacklist.py:56-62 | the file `_save_data` writes holds exactly the dict it was given |
| Blacklist.BlacklistDB.constructor | src/yodawg/blacklist.py:22-39 | the file is created with only the header when missing; an existing file is left as it is |
| Blacklist.BlacklistDB.LoadData | src/yodawg/blacklist.py:41-54 | the dict returned is the one the file holds; a missing file is created holding the header and yields the empty dict |
| Blacklist.BlacklistDB.SaveData | src/yodawg/blacklist.py:56-62 | the file is replaced by the header and one row per entry, in dict order; nothing else in the folder changes |
| Blacklist.BlacklistDB.Add | src/yodawg/blacklist.py:64-72 | an upsert: the filename maps to the reason's text and the timestamp, every other entry is unchanged, and the file holds the new dict; a refused write changes nothing |
| Blacklist.BlacklistDB.IsBlacklisted | src/yodawg/blacklist.py:74-77 | true exactly when the filename is a key of the stored dict; the stored dict is unchanged |
| Blacklist.BlacklistDB.GetReason | src/yodawg/blacklist.py:79-84 | `None` exactly when the filename is not listed; otherwise a reason stored for it |
| Blacklist.BlacklistDB.ListEntries | src/yodawg/blacklist.py:86-96 | returns `ListAll` of the stored dict and leaves it unchanged |
| OrderedDict.Get | src/yodawg/blacklist.py:77 | `d.get(k)`: `None` exactly when `k` is not a key, and otherwise an entry of `d` |
| OrderedDict.Set | src/yodawg/blacklist.py:71 | `d[k] = v`: only `k` changes, an existing key keeps its place, a new key goes last, and keys stay unique |
| OrderedDict.SetAbsent | src/yodawg/blacklist.py:48 | assigning a key that is not present appends it |
| Download.FetchedCharacterised | src/yodawg/download.py:19-33 | `get_image` returns `None` exactly when all five attempts fail, and otherwise the body of the first attempt that succeeds |
| Download.Delays | src/yodawg/download.py:29-31 | the sleeps after `k` failed attempts are 1, 2, ..., `k` seconds |
| Download.GetImage | src/yodawg/download.py:19-33 | between one and five attempts; the first body ends the loop; on total failure exactly five attempts and five sleeps (1..5 s), the last one included |
| Download.FilenameFromUrl | src/yodawg/download.py:36-38 | the name is free of "/" and "?" |
| Download.FilenameIdempotent | src/yodawg/download.py:36-38 | deriving a filename from a derived filename changes nothing |
| Strings.AfterLast | src/yodawg/download.py:38 | `s.split(c)[-1]`: the suffix after the last `c`, free of `c`, all of `s` when `c` is absent |
| Strings.BeforeFirst | src/yodawg/download.py:38 | `s.split(c)[0]`: the prefix before the first `c`, free of `c` |
| Download.NewUrlsMembers | src/yodawg/download.py:59-75 | a URL survives the filter exactly when it is in the input and its file is neither on the skip list nor present |
| Filtering.FilterPositions | src/yodawg/download.py:59-75 | the filter's result is the input's passing elements, picked at increasing positions, and no others |
| Filtering.FilterMembers | src/yodawg/download.py:59-75 | an element is in the filter's result exactly when it is in the input and passes |
| Download.FilterNewUrls | src/yodawg/download.py:41-75 | returns the survivors in input order; the skip list is unchanged and its file is created when missing |
| Download.CapKeepsPrefix | src/yodawg/download.py:97-100 | the cap keeps a prefix: exactly the first `max_new` survivors when there are more, all of them otherwise (Python slicing for a negative `max_new`) |
| Download.BlacklistedNeverPlanned | src/yodawg/download.py:63-65 | no URL whose file is on the skip list reaches the fetch step, whatever the folder and the cap |
| Download.DownloadImages | src/yodawg/download.py:78-125 | the folder is created first; the URLs fetched are the capped survivors; the folder ends as those fetches and writes leave it; the store is unchanged |
| Download.FetchAndWrite | src/yodawg/download.py:106-125 | each planned URL is fetched in turn, and its body is written under its filename when there is one and the name can be opened |
| Writes.WriteAllFrame | src/yodawg/download.py:110-122 | the downloads touch only names of URLs whose fetch returned a body, create only regular files, and remove nothing |
| Writes.LastWriteWins | src/yodawg/download.py:115-119 | without a cache check, a written file holds the body of the last URL with a body that has the same name |
| Writes.CachedNeverOverwritten | src/dwagoon/download.py:42-45 | with the cache check, a file present before the downloads keeps its content |
| Writes.FirstWriteWins | src/dwagoon/download.py:42-50 | with the cache check, a new file holds the body of the first URL with a body that has its name |
| DwagoonDownload.DownloadImages | src/dwagoon/download.py:29-55 | the folder is created; every URL is fetched, with between one and five attempts; the folder ends as the cached writes leave it |
| DwagoonDownload.DownloadOne | src/dwagoon/download.py:36-52 | a body is written only when no entry of that name exists yet |
| DwagoonDownload.ExistingFilesKept | src/dwagoon/download.py:42-45 | a file present before the run is never overwritten |
| DwagoonDownload.OnlyFetchedWritten | src/dwagoon/download.py:38-40 | a failed fetch writes nothing: names of URLs without a body keep their entry or stay absent |
| DwagoonDownload.FirstFetchedWins | src/dwagoon/download.py:42-50 | a new file holds the body of the first URL in list order saved under its name |
| TooSmall.PurgeSmallImages | src/yodawg/toosmall.py:10-30 | every entry is visited once; the store gains a `TOO_SMALL` entry for each small image whose write succeeds; exactly those whose unlink also succeeds are removed; nothing else changes; without faults no small image is left |
| TooSmall.PurgeFile | src/yodawg/toosmall.py:15-30 | directories are skipped and a decode error leaves the file alone; a small image is recorded, then unlinked; the log lists each unlink right after its skip-list write |
| TooSmall.ListAndUnlink | src/yodawg/toosmall.py:23-30 | a refused store write leaves the file; a refused unlink leaves the file but keeps the new entry |
| TooSmall.NothingSmallLeft | src/yodawg/toosmall.py:23-27 | without faults, no image narrower than 1920 pixels is left after the purge |
| ImageAnalysis.BorderWidth | src/yodawg/imageanalysis.py:34 | the band is at most 10 pixels and at most a twentieth of each side |
| ImageAnalysis.BorderWidthIsLargest | src/yodawg/imageanalysis.py:34 | one pixel more would exceed 10 or a twentieth of a side, so with `BorderWidth`'s bounds the band is exactly `min(10, width // 20, height // 20)` |
| ImageAnalysis.SampleBorder | src/yodawg/imageanalysis.py:36-54 | the nested sampling loops produce the top, bottom, left and right bands in that order |
| ImageAnalysis.CountExtremes | src/yodawg/imageanalysis.py:60-70 | the counting loop yields the numbers of near-white and near-black samples |
| ImageAnalysis.IsBoringBackground | src/yodawg/imageanalysis.py:11-88 | the verdict is `Boring`: no samples or a decode failure gives False, otherwise a strict ratio test on either count |
| ImageAnalysis.BorderPixelCount | src/yodawg/imageanalysis.py:39-54 | 2 · bw · (width + height) samples, the corners twice |
| ImageAnalysis.SmallImageNotBoring | src/yodawg/imageanalysis.py:56-57 | an image under 20 pixels on either side is never boring |
| ImageAnalysis.CountsBounded | src/yodawg/imageanalysis.py:67-70 | a pixel is counted at most once: white and black are disjoint |
| ImageAnalysis.NotBothBoring | src/yodawg/imageanalysis.py:72-76 | with a threshold of one half or more, an image never exceeds it on both counts |
| ImageAnalysis.SolidImage | src/yodawg/imageanalysis.py:59-76 | a one-colour image of at least 20 × 20 pixels is boring exactly when its colour is near-white or near-black |
| ImageAnalysis.GradientNotBoring | src/yodawg/imageanalysis.py:59-76 | a vertical black-to-white gradient of 1920 × 1080 pixels is not boring |
| ImageAnalysis.SolidWhiteBoring | test_boring_detection.py:26-28 | the solid white test image is boring |
| ImageAnalysis.SolidBlackBoring | test_boring_detection.py:29-31 | the solid black test image is boring |
| ImageAnalysis.TestGradientNotBoring | test_boring_detection.py:47-51 | the gradient test image is not boring |
| Urls.NoGalleryNoUrls | src/yodawg/urls.py:26-28 | a post without `gallery_data` yields no gallery URLs |
| Urls.ItemUrlsAppend | src/yodawg/urls.py:30-36 | gallery extraction keeps item order |
| Urls.ItemUrlsMembers | src/yodawg/urls.py:30-36 | a URL comes from a gallery exactly when some item has a non-empty media id present in the metadata and a mime type holding "/", and the URL is the host, the id, a dot and the mime subtype |
| Urls.GalleryUrlsShape | src/yodawg/urls.py:36 | every gallery URL is served by `https://i.redd.it/` |
| Urls.GalleryUrlFilename | src/yodawg/urls.py:35-36 | the filename derived from a gallery URL is the media id with the mime subtype as extension |
| Urls.NonGalleryPost | src/yodawg/urls.py:47-50 | a non-gallery post yields its URL unchanged exactly when it ends in `.jpg`, `.jpeg` or `.png` |
| Urls.NoPageNoUrls | src/yodawg/urls.py:41-42 | a `None` page yields no URLs |
| Urls.PageUrlsShape | src/yodawg/urls.py:44-50 | every URL of a page is a gallery image or carries an image suffix |
| Urls.ChildrenUrlsAppend | src/yodawg/urls.py:44-50 | page extraction keeps post order |
| Urls.PagesStep | src/yodawg/urls.py:55-64 | a fetched page opens the page stream, which goes on with its cursor exactly when it has one |
| Urls.AnsweredRequest | src/yodawg/urls.py:57-64 | an answered request yields its page; the loop continues exactly when the page has a cursor |
| Urls.FailedRequest | src/yodawg/urls.py:57-59 | a failed request ends the loop without yielding |
| Urls.FetchRedditPages | src/yodawg/urls.py:53-64 | the first request has no cursor, each later one carries the previous page's cursor; the loop ends at a failed request or after a page without a cursor |
| Urls.AllUrlsAppend | src/yodawg/urls.py:67-71 | the URLs of two runs of pages are those of the first, then those of the second |
| Urls.FetchUrls | src/yodawg/urls.py:67-71 | the URLs of every yielded page, page after page |
| DraftUrls.PageStreamAgrees | python/reddit/urls.py:30-37 | the draft extraction raises exactly when `data`, `children` or a child's `data` is missing, and otherwise yields what the final one yields |
| DraftUrls.PageStreamPrefix | python/reddit/urls.py:30-37 | what the draft yields from a page is a prefix of what the final extraction yields |
| DraftUrls.SamePages | python/reddit/urls.py:40-47 | the draft loop yields the same pages as the final one |
| DraftUrls.EndsCleanlyAtNull | python/reddit/urls.py:40-47 | the draft loop ends without raising exactly when its last page has `"after": null` |
| DraftUrls.FetchRedditPages | python/reddit/urls.py:40-47 | the pages yielded, and whether the loop raised at the end |
| DraftUrls.PagesStreamPrefix | python/reddit/urls.py:50-53 | over any run of pages the draft's URLs are a prefix of the final crawler's, and equal when nothing raises |
| DraftUrls.FetchUrls | python/reddit/urls.py:50-53 | the draft yields a prefix of what the final `fetch_urls` yields, and all of it when it does not raise |
| RootReddit.ExtractUrlsAgrees | reddit.py:21-40 | the one-page extraction yields what one page of the draft crawler yields and raises exactly when it does |
| RootReddit.PostUrlsAgree | reddit.py:26-40 | a post yields the same URLs as in the crawlers, despite `gallery_data` defaulting to `{}` |
| RootReddit.QueryKeptInName | reddit.py:49 | a URL with a query string is saved under a name that still holds it |
| RootReddit.DownloadImage | reddit.py:47-57 | one GET; a body written to the last "/" segment returns that path; any failure returns `None` and changes nothing |
| RootReddit.DownloadAllImages | reddit.py:59-71 | the folder is created, every URL is downloaded, and the successful paths are returned in input order |
| RootReddit.DownloadsInOrder | reddit.py:65-71 | the returned paths are those of exactly the successful URLs, picked at increasing positions |
| RootReddit.LastDownloadWins | reddit.py:47-57 | a file holds the body of the last successful URL with its name |
| RootReddit.Smalls | reddit.py:85 | the list comprehension raises when some width is `None`, and otherwise holds exactly the paths narrower than the limit |
| RootReddit.UnlinkAllRemoves | reddit.py:86-87 | a finished loop removed exactly the listed regular files; distinct unlinkable files are all removed |
| RootReddit.FailureSticks | reddit.py:86-87 | once an unlink raises, the rest of the list is not reached |
| RootReddit.UnlinkEach | reddit.py:86-87 | the loop leaves the folder as `UnlinkAll` describes |
| RootReddit.RemoveSmallImagesAsWritten | reddit.py:83-88 | files are compared with 1920 whatever `min_width` is |
| RootReddit.MinWidthIgnored | reddit.py:83-88 | with `min_width=1000`, a file 1500 pixels wide is removed |
| RootReddit.RemoveSmallImages | reddit.py:83-88 | the comparison uses `min_width`, as the parameter and the closing message say |
| RootReddit.RemovesOnlyNarrow | reddit.py:83-88 | a finished run removes exactly the listed files narrower than `min_width` and nothing else |
| Reddit.Take | src/yodawg/reddit.py:53 | `list(islice(urls, count))` is the first `count` URLs, or all of them |
| Reddit.Prepare | src/yodawg/reddit.py:41-51 | the folder and the store exist afterwards; `--clear` leaves only a fresh store holding the header |
| Reddit.StoreNotCandidate | src/yodawg/reddit.py:72 | the store's own file is never a candidate of the boring pass |
| Reddit.PassKeeps | src/yodawg/reddit.py:69-77 | every run of the boring pass, finished or cut short, removes only boring candidates, records each before removing it, and leaves every other entry as it was |
| Reddit.PassStopsAtFailure | src/yodawg/reddit.py:75-77 | once a store write or unlink raises, the later entries are not reached |
| Reddit.PassCompletes | src/yodawg/reddit.py:69-77 | without faults, the pass runs to the end and removes every boring candidate |
| Reddit.BoringTurn | src/yodawg/reddit.py:72-77 | one turn: a non-candidate or non-boring entry is skipped; a boring one is recorded as `BORING_BACKGROUND`, then unlinked |
| Reddit.FilterBoring | src/yodawg/reddit.py:69-77 | the loop visits every entry once and leaves the folder as the pass over that order does |
| Reddit.BoringStage | src/yodawg/reddit.py:69-77 | the folder ends as the pass over every entry in `iterdir` order; only boring candidates go, each recorded as `BORING_BACKGROUND` first, and every other entry is untouched; without faults, no boring candidate is left |
| Reddit.NoSmallAfterPass | src/yodawg/reddit.py:66-77 | when the purge left no image narrower than 1920 pixels, the boring pass, which only removes files, leaves none either |
| Reddit.DownloadAndPurge | src/yodawg/reddit.py:63-66 | the download fetches the URLs neither on the skip list nor already saved, capped at `--new`, and writes what they return; the purge then records the small files of that folder as `TOO_SMALL` and removes them, and changes nothing else; without faults no small image is left |
| Reddit.Process | src/yodawg/reddit.py:60-81 | the run on `urls` is download, then purge, then the optional boring pass, each from the folder the previous step left; without `--filter-boring` the final folder is the purge's; only the boring pass can raise; the reported count is the entries after minus before |
| Reddit.Pipeline | src/yodawg/reddit.py:31-81 | a negative count raises; the first `count` URLs are what the download step receives; no URLs gives exit code 1 before any download; otherwise download, purge and boring pass run in that order from the prepared folder, and exit code 0 reports the entries gained |
| Reddit.RunOnlyRemoves | src/yodawg/reddit.py:63-77 | after the download, `main` only removes files: every file left was downloaded with that content, and every file gone was small or boring |
| Palette.Numbered | src/yodawg/__init__.py:28 | `int(k.replace("color", ""))` for every key: `None` exactly when some suffix does not parse |
| Palette.PaddedFails | src/yodawg/__init__.py:26-29 | the key sort raises exactly when some colour key's suffix is not an integer |
| Palette.PaddingColorIsHighest | src/yodawg/__init__.py:34-36 | the padding colour is that of a colour key with the highest number |
| Palette.PaddedEntries | src/yodawg/__init__.py:32-38 | with 16 or more colour keys nothing changes; with `n` fewer, `color{n}`..`color15` take the padding colour and every other key keeps its value |
| Palette.NoColorsAllBlack | src/yodawg/__init__.py:34-38 | with no colour keys, `color0`..`color15` are all `#000000` |
| Palette.Scheme.PatchedGet | src/yodawg/__init__.py:20-40 | no "colors" key or a non-dict value: unchanged; otherwise the dict is padded in place, or the sort raises |
| Palette.SetRangeGet | src/yodawg/__init__.py:37-38 | the loop sets exactly `color{lo}`..`color{hi-1}` |
| Palette.GapLeavesColorZeroMissing | src/yodawg/__init__.py:24-38 | from a palette whose only colour key is `color1`, `color0` is still missing afterwards |
| Palette.PaddedCompleteEntries | src/yodawg/__init__.py:24 | the intended fix-up leaves every `color0`..`color15` present and every present key unchanged; absent colour names take the padding colour, and no other key is added |
| Sorting.SortBy | src/yodawg/__init__.py:26-29 | `sorted` returns a permutation of its input |
| Sorting.SortBySorted | src/yodawg/blacklist.py:90-94 | `sorted` orders its result by the key, given a total preorder |
| Strings.ParseNatToString | src/yodawg/__init__.py:28-38 | `int(str(n)) == n`, so `color{i}` parses back to `i` |
| Strings.RemoveAllLeading | src/yodawg/__init__.py:28 | `replace` removes the leading copy of the pattern and goes on with the rest |
| FileSystem.Folder.Mkdir | src/yodawg/download.py:89 | the folder exists afterwards and its entries are unchanged |
| FileSystem.Folder.Clear | src/yodawg/reddit.py:48-49 | `rmtree` then `mkdir`: an existing, empty folder |
| FileSystem.Folder.IterDir | src/yodawg/toosmall.py:15 | every entry exactly once |
| FileSystem.Folder.CountEntries | src/yodawg/reddit.py:60 | the number of entries |
| FileSystem.Folder.WriteFile | src/yodawg/download.py:118-119 | writes the bytes when the name can be opened, otherwise changes nothing |
| FileSystem.Folder.Unlink | src/yodawg/toosmall.py:27 | removes a regular file unless the system refuses; a directory or a missing name raises |

## Left out

- HTTP. `requests`, `aiohttp` and its timeouts are the `Server` and `Source` oracles. A non-2xx status is a failed attempt.
- Concurrency. The semaphore, `create_task`/`gather` and joblib's `Parallel` run their per-URL jobs one after another in list order. Interleavings, and write races between jobs with the same filename, are not modelled.
- Sleeping. `asyncio.sleep` is recorded as the list of delays, not as time.
- Image decoding. PIL's `open`, `load`, `convert` and `getpixel` are the `Decoder` oracle, which yields an RGB grid or nothing. `get_dominant_color` depends on PIL's resize and is not part of this model.
- Floating point. Brightness `(r+g+b)/3 > 240` is `r+g+b > 720`, and `< 15` is `r+g+b < 45`. The 0.7 threshold is the ratio 7/10, compared by cross-multiplication, so an exact 70% is not boring, as with the float.
- CSV and file formats. Quoting, newlines and encodings are not modelled: a row is a three-field record.
- Dates. `datetime.now().isoformat()` is the `now` string parameter, and the model does not enforce ISO format.
- One timestamp per run. `add` calls `datetime.now()` for each entry, so the entries recorded by one purge or boring pass get distinct, increasing timestamps. The model passes one `now` to a whole run, so those entries share a timestamp.
- Sorting.SortBy: the order among entries with equal timestamps is not stated. Python's `sorted` is stable, but the contracts promise only a permutation ordered by timestamp. Under one shared `now` this leaves the listed order of one run's entries open.
- The `int()` forms with surrounding whitespace or underscores. `Strings.ParseInt` accepts an optional sign and ASCII digits only.
- JSON values of unexpected types (a string where a dict is expected, and so on). Each key is present with the expected shape, or absent.
- A `gallery_data` that is `null` in the root script. There `post.get("gallery_data", {})` returns `None` and `.get` raises `AttributeError`. That post is modelled like a post without gallery data.
- Laziness. `Urls.Source` is a finite sequence: requests past its end fail. `islice` stops the generator after `count` URLs; the model fetches every page, which changes only how many requests are made, not the URLs used.
- `Strings.AfterLast` and `Strings.BeforeFirst` are defined directly, not through a general `split`. Their contracts state the properties of `split(c)[-1]` and `split(c)[0]` they rely on.
- `Palette.PaddingColorIsHighest`: when two colour keys have the same number (`color1` and `color01`), the model does not say which of them the stable sort puts last.
- `Blacklist.BlacklistDB.Valid` requires the store's name, when present, to be a CSV table. A directory or image file under that name, which would make the CSV reader raise, is not modelled.
- `TooSmall.ListAndUnlink` requires a decoded image file: the store's own table never decodes, so the purge never reaches this step for it.
- `Download.FilterNewUrls` handles the first URL before its loop. Only that turn can create the store's file, so the behaviour is the same as the source's loop.
- The CLI and its collaborators are not part of this model: `src/yodawg/cli.py`, both `rice.py` files, `savewall.py`/`savewal.py`, `message.py`, and the argument parsing of both `main` functions. The `--nsfw` folder choice is the `folder` argument, and `config.py`'s constants are given values.
- The import patching of `_monkeypatch_pywal` is not part of this model. `Palette.Scheme.PatchedGet` models only what the wrapper does to the result of `get`.
- Root `reddit.py`: the `pdb` trap and the `None` width of a failed decode are modelled as an exception (reddit.py:78-80). The script's `main` and its module-level call are not part of this model.

## Findings

| source | as written | input that shows it | evidently intended | confidence | as-written member | corrected member |
|---|---|---|---|---|---|---|
| src/yodawg/__init__.py:24-38 | pads from `color{n}` where `n` is the number of colour keys, so a palette with gaps keeps a key missing | `{"color1": "#ffffff"}`: `color1`..`color15` are written, `color0` stays missing and there are 15 colours | every `color0`..`color15` present afterwards ("Ensure colors["colors"] has at least 16 entries") | high; not executed | Palette.GapLeavesColorZeroMissing | Palette.PaddedCompleteEntries |
| reddit.py:83-88 | `remove_small_images` compares widths with the literal 1920 and uses `min_width` only in its message | `remove_small_images([f], min_width=1000)` with `f` 1500 pixels wide unlinks `f` | compare with `min_width` | high; not executed | RootReddit.MinWidthIgnored | RootReddit.RemoveSmallImages |
