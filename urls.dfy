/**
 * Image URLs out of a subreddit's JSON listing (src/yodawg/urls.py).
 *
 * A listing page is the decoded JSON object `{"data": {"children": [...],
 * "after": ...}}`.  Each key the code reads with `.get` is an `Option`
 * (`None` = the key is absent); `after` keeps apart an absent key, a JSON
 * `null` and a cursor string, because the earlier draft of this code
 * treats the first two differently.  The network is a `Source`: request
 * number `k`, sent with a cursor, answers with a page or fails.
 */
module Urls {
  import opened Wrappers
  import opened Strings
  import Download

  /** A post whose URL starts with this is a gallery. */
  const GALLERY_PREFIX: string := "https://www.reddit.com/gallery/"
  /** Gallery images are served from this host. */
  const IMAGE_HOST: string := "https://i.redd.it/"

  datatype Item = Item(mediaId: Option<string>)
  datatype Meta = Meta(mime: Option<string>)
  datatype Gallery = Gallery(items: Option<seq<Item>>)
  /** `galleryData` is `None` when the key is absent or holds `null`. */
  datatype Post = Post(url: Option<string>, galleryData: Option<Gallery>,
                       mediaMetadata: Option<map<string, Meta>>)
  datatype Child = Child(data: Option<Post>)
  datatype After = NoAfter | AfterNull | After(token: string)
  datatype Listing = Listing(children: Option<seq<Child>>, after: After)
  datatype Page = Page(data: Option<Listing>)

  /**
   * Request `k` made with a cursor answers with a page, or `None` when the
   * request fails (a connection error, a non-2xx status, a body that is not
   * JSON).  Requests past the end of the sequence fail.
   */
  type Source = seq<Option<string> -> Option<Page>>

  const EMPTY_POST: Post := Post(None, None, None)

  function Fetch(source: Source, k: nat, cursor: Option<string>): Option<Page> {
    if k < |source| then source[k](cursor) else None
  }

  /** `url.endswith((".jpg", ".jpeg", ".png"))` */
  predicate HasImageSuffix(url: string) {
    EndsWith(url, ".jpg") || EndsWith(url, ".jpeg") || EndsWith(url, ".png")
  }

  /** The mime type of a metadata entry, `""` when it has none. */
  function MimeOf(meta: Meta): string {
    if meta.mime.Some? then meta.mime.value else ""
  }

  /** The URL one gallery item yields, if its media id and mime type qualify. */
  function ItemUrl(item: Item, metadata: map<string, Meta>): Option<string> {
    match item.mediaId
    case None => None
    case Some(id) =>
      if id != "" && id in metadata && '/' in MimeOf(metadata[id]) then
        Some(IMAGE_HOST + id + "." + AfterLast(MimeOf(metadata[id]), '/'))
      else None
  }

  /** The text of an optional URL: one element or none. */
  function Yielded(url: Option<string>): seq<string> {
    if url.Some? then [url.value] else []
  }

  /** The URLs of each element of `s` in turn. */
  function ConcatMap<T>(s: seq<T>, f: T -> seq<string>): seq<string>
    decreases |s|
  {
    if s == [] then [] else f(s[0]) + ConcatMap(s[1..], f)
  }

  function ItemUrlFn(metadata: map<string, Meta>): Item -> seq<string> {
    item => Yielded(ItemUrl(item, metadata))
  }

  function ItemUrls(items: seq<Item>, metadata: map<string, Meta>): seq<string> {
    ConcatMap(items, ItemUrlFn(metadata))
  }

  /** `extract_urls_from_gallery(post)` */
  function GalleryUrls(post: Post): seq<string> {
    match post.galleryData
    case None => []
    case Some(gallery) =>
      var metadata := if post.mediaMetadata.Some? then post.mediaMetadata.value else map[];
      var items := if gallery.items.Some? then gallery.items.value else [];
      ItemUrls(items, metadata)
  }

  /** What one post contributes to `extract_urls_from_page`. */
  function PostUrls(post: Post): seq<string> {
    var url := if post.url.Some? then post.url.value else "";
    if StartsWith(url, GALLERY_PREFIX) then GalleryUrls(post)
    else if HasImageSuffix(url) then [url]
    else []
  }

  /** `child.get("data", {})` */
  function PostOf(child: Child): Post {
    if child.data.Some? then child.data.value else EMPTY_POST
  }

  function ChildUrls(child: Child): seq<string> {
    PostUrls(PostOf(child))
  }

  function ChildrenUrls(children: seq<Child>): seq<string> {
    ConcatMap(children, ChildUrls)
  }

  /** `extract_urls_from_page(page)`; a missing `data` or `children` yields nothing. */
  function PageUrls(page: Option<Page>): seq<string> {
    match page
    case None => []
    case Some(p) =>
      if p.data.Some? && p.data.value.children.Some? then ChildrenUrls(p.data.value.children.value)
      else []
  }

  /** `page.get("data", {}).get("after")`: both an absent key and `null` stop the loop. */
  function NextCursor(page: Page): Option<string> {
    if page.data.Some? && page.data.value.after.After? then Some(page.data.value.after.token)
    else None
  }

  /**
   * The pages `fetch_reddit_pages` yields from request `k` on, sent with
   * `cursor`: a failed request ends the stream, and a page whose cursor is
   * missing is the last one.
   */
  function Pages(source: Source, k: nat, cursor: Option<string>): seq<Page>
    decreases |source| - k
  {
    var page := Fetch(source, k, cursor);
    if k >= |source| || page.None? then []
    else [page.value] + (if NextCursor(page.value).None? then []
                         else Pages(source, k + 1, NextCursor(page.value)))
  }

  /** A fetched page opens the stream from its request on. */
  lemma PagesStep(source: Source, k: nat, cursor: Option<string>)
    requires Fetch(source, k, cursor).Some?
    ensures var p := Fetch(source, k, cursor).value;
      Pages(source, k, cursor) ==
        [p] + (if NextCursor(p).None? then [] else Pages(source, k + 1, NextCursor(p)))
  {
  }

  function YieldedPageUrls(page: Page): seq<string> {
    PageUrls(Some(page))
  }

  /** The URLs of a sequence of pages, page after page. */
  function AllUrls(pages: seq<Page>): seq<string> {
    ConcatMap(pages, YieldedPageUrls)
  }

  /** Concatenating per element turns `+` on the input into `+` on the output. */
  lemma {:induction false} ConcatMapAppend<T>(a: seq<T>, b: seq<T>, f: T -> seq<string>)
    ensures ConcatMap(a + b, f) == ConcatMap(a, f) + ConcatMap(b, f)
    decreases |a|
  {
    if a == [] {
      assert a + b == b;
    } else {
      assert (a + b)[0] == a[0];
      assert (a + b)[1..] == a[1..] + b;
      ConcatMapAppend(a[1..], b, f);
    }
  }

  /** A URL is in the concatenation exactly when some element contributes it. */
  lemma {:induction false} ConcatMapMembers<T>(s: seq<T>, f: T -> seq<string>, u: string)
    ensures u in ConcatMap(s, f) <==> exists i :: 0 <= i < |s| && u in f(s[i])
    decreases |s|
  {
    if s != [] {
      ConcatMapMembers(s[1..], f, u);
      if u in ConcatMap(s[1..], f) {
        var i :| 0 <= i < |s[1..]| && u in f(s[1..][i]);
        assert s[i + 1] == s[1..][i];
      }
      if exists i :: 0 <= i < |s| && u in f(s[i]) {
        var i :| 0 <= i < |s| && u in f(s[i]);
        if i > 0 {
          assert s[1..][i - 1] == s[i];
        }
      }
    }
  }

  /** A post without `gallery_data` yields nothing from gallery extraction. */
  lemma NoGalleryNoUrls(post: Post)
    requires post.galleryData.None?
    ensures GalleryUrls(post) == []
  {
  }

  /** Gallery extraction keeps item order: the items of `a` come before those of `b`. */
  lemma ItemUrlsAppend(a: seq<Item>, b: seq<Item>, metadata: map<string, Meta>)
    ensures ItemUrls(a + b, metadata) == ItemUrls(a, metadata) + ItemUrls(b, metadata)
  {
    ConcatMapAppend(a, b, ItemUrlFn(metadata));
  }

  /**
   * A URL comes out of gallery extraction exactly when some item has a
   * non-empty media id present in the metadata with a mime type containing
   * "/", and it is then the image host, the id, a dot and the mime subtype.
   */
  lemma ItemUrlsMembers(items: seq<Item>, metadata: map<string, Meta>, u: string)
    ensures u in ItemUrls(items, metadata) <==>
      exists i :: 0 <= i < |items| && items[i].mediaId.Some? &&
        var id := items[i].mediaId.value;
        id != "" && id in metadata && '/' in MimeOf(metadata[id]) &&
        u == IMAGE_HOST + id + "." + AfterLast(MimeOf(metadata[id]), '/')
  {
    ConcatMapMembers(items, ItemUrlFn(metadata), u);
  }

  /**
   * The file the download step derives from a gallery URL is the media id
   * with the mime subtype as extension, when neither holds "/" or "?".
   */
  lemma GalleryUrlFilename(id: string, mime: string)
    requires '/' !in id && '?' !in id && '?' !in mime
    ensures Download.FilenameFromUrl(IMAGE_HOST + id + "." + AfterLast(mime, '/')) ==
            id + "." + AfterLast(mime, '/')
  {
    SubtypeFree(mime);
    HostEndsWithSlash();
    FilenameOfParts(IMAGE_HOST, id, AfterLast(mime, '/'));
  }

  /** The mime subtype holds no "/", and no "?" when the mime type holds none. */
  lemma SubtypeFree(mime: string)
    requires '?' !in mime
    ensures var ext := AfterLast(mime, '/');
            '/' !in ext && '?' !in ext
  {
    var ext := AfterLast(mime, '/');
    assert ext == mime[|mime| - |ext|..];
  }

  lemma HostEndsWithSlash()
    ensures |IMAGE_HOST| > 0 && IMAGE_HOST[|IMAGE_HOST| - 1] == '/'
  {
    assert |IMAGE_HOST| == 18 && IMAGE_HOST[17] == '/';
  }

  lemma FilenameOfParts(host: string, id: string, ext: string)
    requires |host| > 0 && host[|host| - 1] == '/'
    requires '/' !in id && '?' !in id && '/' !in ext && '?' !in ext
    ensures Download.FilenameFromUrl(host + id + "." + ext) == id + "." + ext
  {
    var name := id + "." + ext;
    assert '/' !in name && '?' !in name;
    assert host + id + "." + ext == host + name;
    FilenameAfterSlash(host, name);
  }

  /** After a "/", a name free of "/" and "?" is what the download step derives. */
  lemma FilenameAfterSlash(p: string, name: string)
    requires |p| > 0 && p[|p| - 1] == '/' && '/' !in name && '?' !in name
    ensures Download.FilenameFromUrl(p + name) == name
  {
    AfterLastSuffix(p, name, '/');
    Download.BeforeFirstAbsent(name, '?');
  }

  /** The text after the last `c` of `p + s` is `s` when `s` has no `c` and `p` ends with one. */
  lemma {:induction false} AfterLastSuffix(p: string, s: string, c: char)
    requires |p| > 0 && p[|p| - 1] == c && c !in s
    ensures AfterLast(p + s, c) == s
    decreases |p|
  {
    var t := p + s;
    if |p| == 1 {
      assert t[1..] == s;
    } else {
      assert t[1..] == p[1..] + s;
      assert t[1..][|p| - 2] == c;
      AfterLastSuffix(p[1..], s, c);
    }
  }

  /** A non-gallery post yields its URL unchanged iff it ends in an image suffix. */
  lemma NonGalleryPost(post: Post, url: string, u: string)
    requires post.url == Some(url) && !StartsWith(url, GALLERY_PREFIX)
    ensures u in PostUrls(post) <==> u == url && HasImageSuffix(url)
  {
  }

  /** A `None` page (the request failed) yields no URLs. */
  lemma NoPageNoUrls()
    ensures PageUrls(None) == []
  {
  }

  /** Every URL on a page is served by the image host or carries an image suffix. */
  lemma PageUrlsShape(page: Option<Page>, u: string)
    requires u in PageUrls(page)
    ensures StartsWith(u, IMAGE_HOST) || HasImageSuffix(u)
  {
    var p := page.value;
    ChildrenUrlsShape(p.data.value.children.value, u);
  }

  lemma ChildrenUrlsShape(children: seq<Child>, u: string)
    requires u in ChildrenUrls(children)
    ensures StartsWith(u, IMAGE_HOST) || HasImageSuffix(u)
  {
    ConcatMapMembers(children, ChildUrls, u);
    var i :| 0 <= i < |children| && u in ChildUrls(children[i]);
    PostUrlsShape(PostOf(children[i]), u);
  }

  /** What a post yields is a gallery image or a URL with an image suffix. */
  lemma PostUrlsShape(post: Post, u: string)
    requires u in PostUrls(post)
    ensures StartsWith(u, IMAGE_HOST) || HasImageSuffix(u)
  {
    var url := if post.url.Some? then post.url.value else "";
    if StartsWith(url, GALLERY_PREFIX) {
      GalleryUrlsShape(post, u);
    }
  }

  /** Every gallery URL is served by the image host. */
  lemma GalleryUrlsShape(post: Post, u: string)
    requires u in GalleryUrls(post)
    ensures StartsWith(u, IMAGE_HOST)
  {
    var gallery := post.galleryData.value;
    var metadata := if post.mediaMetadata.Some? then post.mediaMetadata.value else map[];
    var items := if gallery.items.Some? then gallery.items.value else [];
    ItemUrlsMembers(items, metadata, u);
    assert u[..|IMAGE_HOST|] == IMAGE_HOST;
  }

  /** Page extraction keeps post order. */
  lemma ChildrenUrlsAppend(a: seq<Child>, b: seq<Child>)
    ensures ChildrenUrls(a + b) == ChildrenUrls(a) + ChildrenUrls(b)
  {
    ConcatMapAppend(a, b, ChildUrls);
  }

  /** The URLs of two runs of pages are those of the first run, then those of the second. */
  lemma AllUrlsAppend(a: seq<Page>, b: seq<Page>)
    ensures AllUrls(a + b) == AllUrls(a) + AllUrls(b)
  {
    ConcatMapAppend(a, b, YieldedPageUrls);
  }

  lemma AllUrlsTake(pages: seq<Page>, i: nat)
    requires i < |pages|
    ensures AllUrls(pages[..i + 1]) == AllUrls(pages[..i]) + PageUrls(Some(pages[i]))
  {
    assert pages[..i + 1] == pages[..i] + [pages[i]];
    AllUrlsAppend(pages[..i], [pages[i]]);
    assert [pages[i]][1..] == [];
    assert AllUrls([pages[i]]) == YieldedPageUrls(pages[i]) + AllUrls([]);
  }

  /**
   * The requests behind a run of pages: the first request carries no
   * cursor, request `j` answered with page `j`, and each request after the
   * first carries the cursor of the page before it (which therefore has one).
   */
  ghost predicate Requested(source: Source, pages: seq<Page>, cursors: seq<Option<string>>) {
    |pages| <= |cursors| &&
    (|cursors| > 0 ==> cursors[0] == None) &&
    (forall j :: 0 <= j < |pages| ==> Fetch(source, j, cursors[j]) == Some(pages[j])) &&
    (forall j :: 0 <= j < |cursors| - 1 ==>
      j < |pages| && NextCursor(pages[j]).Some? && cursors[j + 1] == NextCursor(pages[j]))
  }

  /**
   * Where `fetch_reddit_pages` stands before a request: it has yielded
   * `pages`, and `after` is the cursor it will send next.
   */
  ghost predicate Before(source: Source, pages: seq<Page>, cursors: seq<Option<string>>, after: Option<string>) {
    |cursors| == |pages| <= |source| &&
    pages + Pages(source, |pages|, after) == Pages(source, 0, None) &&
    Requested(source, pages, cursors) &&
    (|pages| == 0 ==> after == None) &&
    (|pages| > 0 ==> after == NextCursor(pages[|pages| - 1]) && after.Some?)
  }

  /** How `fetch_reddit_pages` ends: a failed request, or a page without a cursor. */
  ghost predicate Stopped(source: Source, pages: seq<Page>, cursors: seq<Option<string>>) {
    pages == Pages(source, 0, None) && Requested(source, pages, cursors) && |cursors| >= 1 &&
    ((|cursors| == |pages| + 1 && Fetch(source, |pages|, cursors[|pages|]).None?) ||
     (|cursors| == |pages| && NextCursor(pages[|pages| - 1]).None?))
  }

  /** A failed request ends the loop and yields nothing more. */
  lemma FailedRequest(source: Source, pages: seq<Page>, cursors: seq<Option<string>>, after: Option<string>)
    requires Before(source, pages, cursors, after) && Fetch(source, |pages|, after).None?
    ensures Stopped(source, pages, cursors + [after])
  {
    assert pages + [] == pages;
  }

  /** Request number `|pages|`, sent with the cursor of the last page, answered with `p`. */
  lemma RequestedStep(source: Source, pages: seq<Page>, cursors: seq<Option<string>>, after: Option<string>, p: Page)
    requires Requested(source, pages, cursors) && |cursors| == |pages|
    requires |pages| == 0 ==> after == None
    requires |pages| > 0 ==> after == NextCursor(pages[|pages| - 1]) && after.Some?
    requires Fetch(source, |pages|, after) == Some(p)
    ensures Requested(source, pages + [p], cursors + [after])
  {
  }

  /** An answered request yields its page; the loop goes on exactly when the page has a cursor. */
  lemma AnsweredRequest(source: Source, pages: seq<Page>, cursors: seq<Option<string>>, after: Option<string>, p: Page)
    requires Before(source, pages, cursors, after) && Fetch(source, |pages|, after) == Some(p)
    ensures NextCursor(p).Some? ==> Before(source, pages + [p], cursors + [after], NextCursor(p))
    ensures NextCursor(p).None? ==> Stopped(source, pages + [p], cursors + [after])
  {
    if NextCursor(p).None? {
      AnsweredLast(source, pages, cursors, after, p);
    } else {
      AnsweredMore(source, pages, cursors, after, p);
    }
  }

  lemma AnsweredLast(source: Source, pages: seq<Page>, cursors: seq<Option<string>>, after: Option<string>, p: Page)
    requires Before(source, pages, cursors, after) && Fetch(source, |pages|, after) == Some(p)
    requires NextCursor(p).None?
    ensures Stopped(source, pages + [p], cursors + [after])
  {
    PagesStep(source, |pages|, after);
    RequestedStep(source, pages, cursors, after, p);
    assert pages + [p] + [] == pages + [p];
  }

  lemma AnsweredMore(source: Source, pages: seq<Page>, cursors: seq<Option<string>>, after: Option<string>, p: Page)
    requires Before(source, pages, cursors, after) && Fetch(source, |pages|, after) == Some(p)
    requires NextCursor(p).Some?
    ensures Before(source, pages + [p], cursors + [after], NextCursor(p))
  {
    MoreYields(source, pages, after, p);
    RequestedStep(source, pages, cursors, after, p);
    BeforeIntro(source, pages + [p], cursors + [after], NextCursor(p));
  }

  lemma MoreYields(source: Source, pages: seq<Page>, after: Option<string>, p: Page)
    requires pages + Pages(source, |pages|, after) == Pages(source, 0, None)
    requires Fetch(source, |pages|, after) == Some(p) && NextCursor(p).Some?
    ensures (pages + [p]) + Pages(source, |pages| + 1, NextCursor(p)) == Pages(source, 0, None)
  {
    var rest := Pages(source, |pages| + 1, NextCursor(p));
    PagesStep(source, |pages|, after);
    assert pages + ([p] + rest) == (pages + [p]) + rest;
  }

  lemma BeforeIntro(source: Source, pages: seq<Page>, cursors: seq<Option<string>>, after: Option<string>)
    requires |cursors| == |pages| <= |source|
    requires pages + Pages(source, |pages|, after) == Pages(source, 0, None)
    requires Requested(source, pages, cursors)
    requires pages != [] && after == NextCursor(pages[|pages| - 1]) && after.Some?
    ensures Before(source, pages, cursors, after)
  {
  }

  /**
   * `fetch_reddit_pages`: `pages` is the stream `Pages` describes, and
   * `cursors` the cursor of every request made.  A failed request ends the
   * loop without yielding; a page without a cursor ends it after being
   * yielded.
   */
  method FetchRedditPages(source: Source) returns (pages: seq<Page>, cursors: seq<Option<string>>)
    ensures pages == Pages(source, 0, None)
    ensures Requested(source, pages, cursors) && |cursors| >= 1
    ensures |cursors| == |pages| || |cursors| == |pages| + 1
    ensures |cursors| == |pages| + 1 ==> Fetch(source, |pages|, cursors[|pages|]).None?
    ensures |cursors| == |pages| ==> NextCursor(pages[|pages| - 1]).None?
  {
    pages, cursors := [], [];
    var after: Option<string> := None;
    while true
      invariant Before(source, pages, cursors, after)
      decreases |source| - |pages|
    {
      var page := Fetch(source, |pages|, after);
      if page.None? {
        FailedRequest(source, pages, cursors, after);
        cursors := cursors + [after];
        break;
      }
      AnsweredRequest(source, pages, cursors, after, page.value);
      pages, cursors := pages + [page.value], cursors + [after];
      after := NextCursor(page.value);
      if after.None? {
        break;
      }
    }
  }

  /** `fetch_urls`: the URLs of every page yielded, page after page. */
  method FetchUrls(source: Source) returns (urls: seq<string>)
    ensures urls == AllUrls(Pages(source, 0, None))
  {
    var pages, _ := FetchRedditPages(source);
    urls := [];
    for i := 0 to |pages|
      invariant urls == AllUrls(pages[..i])
    {
      AllUrlsTake(pages, i);
      urls := urls + PageUrls(Some(pages[i]));
    }
    assert pages[..|pages|] == pages;
  }
}
