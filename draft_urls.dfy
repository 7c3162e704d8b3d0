/**
 * The earlier draft of the listing code (python/reddit/urls.py).  Gallery
 * and post extraction are the same as in `Urls`; the draft differs in what
 * raises: a failed request, a page without `data` or `data.children`, a
 * child without `data` and a page without an `after` key all raise, where
 * `Urls` stops or defaults.  A generator that raises keeps what it has
 * already yielded, so its output is a `Stream`: the URLs yielded, then
 * whether it raised.
 */
module DraftUrls {
  import opened Wrappers
  import Urls

  datatype Stream = Stream(urls: seq<string>, raised: bool)

  /** Run `a`, then `b` unless `a` raised. */
  function Then(a: Stream, b: Stream): Stream {
    if a.raised then a else Stream(a.urls + b.urls, b.raised)
  }

  const DONE: Stream := Stream([], false)
  const RAISE: Stream := Stream([], true)

  /** `for child in children: post = child["data"]; ...` */
  function ChildrenStream(children: seq<Urls.Child>): Stream
    decreases |children|
  {
    if children == [] then DONE
    else if children[0].data.None? then RAISE
    else Then(Stream(Urls.PostUrls(children[0].data.value), false), ChildrenStream(children[1..]))
  }

  /** Draft `extract_urls_from_page`: `page["data"]["children"]` must exist. */
  function PageStream(page: Urls.Page): Stream {
    if page.data.None? || page.data.value.children.None? then RAISE
    else ChildrenStream(page.data.value.children.value)
  }

  /** The pages yielded, and whether the loop ended by raising. */
  datatype PageRun = PageRun(pages: seq<Urls.Page>, raised: bool)

  /** What `page["data"]["after"]` gives: a cursor, `None`, or a `KeyError`. */
  datatype Next = Continue(cursor: string) | Stop | Raise

  function NextOf(page: Urls.Page): Next {
    if page.data.None? then Raise
    else match page.data.value.after
      case NoAfter => Raise
      case AfterNull => Stop
      case After(t) => Continue(t)
  }

  /**
   * Draft `fetch_reddit_pages` from request `k` on: a failed request raises;
   * every fetched page is yielded, and the cursor is read only afterwards.
   */
  function DraftPages(source: Urls.Source, k: nat, cursor: Option<string>): PageRun
    decreases |source| - k
  {
    var page := Urls.Fetch(source, k, cursor);
    if k >= |source| || page.None? then PageRun([], true)
    else match NextOf(page.value)
      case Raise => PageRun([page.value], true)
      case Stop => PageRun([page.value], false)
      case Continue(t) =>
        var rest := DraftPages(source, k + 1, Some(t));
        PageRun([page.value] + rest.pages, rest.raised)
  }

  /** Draft `fetch_urls`: extraction of a page runs before the next cursor is read. */
  function PagesStream(pages: seq<Urls.Page>): Stream
    decreases |pages|
  {
    if pages == [] then DONE
    else Then(PageStream(pages[0]), PagesStream(pages[1..]))
  }

  function RunStream(run: PageRun): Stream {
    Then(PagesStream(run.pages), Stream([], run.raised))
  }

  predicate WellFormed(page: Urls.Page) {
    page.data.Some? && page.data.value.children.Some? &&
    forall c :: c in page.data.value.children.value ==> c.data.Some?
  }

  lemma ThenAssociative(a: Stream, b: Stream, c: Stream)
    ensures Then(Then(a, b), c) == Then(a, Then(b, c))
  {
  }

  /**
   * On a page that has `data.children` and whose every child has `data`,
   * the draft yields what `Urls` yields and does not raise; on any other
   * page it raises.
   */
  lemma PageStreamAgrees(page: Urls.Page)
    ensures !PageStream(page).raised <==> WellFormed(page)
    ensures !PageStream(page).raised ==> PageStream(page).urls == Urls.PageUrls(Some(page))
  {
    if page.data.Some? && page.data.value.children.Some? {
      ChildrenStreamAgrees(page.data.value.children.value);
    }
  }

  lemma {:induction false} ChildrenStreamAgrees(children: seq<Urls.Child>)
    ensures !ChildrenStream(children).raised <==> forall c :: c in children ==> c.data.Some?
    ensures !ChildrenStream(children).raised ==> ChildrenStream(children).urls == Urls.ChildrenUrls(children)
    decreases |children|
  {
    if children != [] {
      ChildrenStreamAgrees(children[1..]);
      assert forall c :: c in children <==> c == children[0] || c in children[1..];
    }
  }

  /** Whatever the draft yields from a page is a prefix of what `Urls` yields from it. */
  lemma {:induction false} PageStreamPrefix(page: Urls.Page)
    ensures PageStream(page).urls <= Urls.PageUrls(Some(page))
  {
    if page.data.Some? && page.data.value.children.Some? {
      ChildrenStreamPrefix(page.data.value.children.value);
    }
  }

  lemma {:induction false} ChildrenStreamPrefix(children: seq<Urls.Child>)
    ensures ChildrenStream(children).urls <= Urls.ChildrenUrls(children)
    decreases |children|
  {
    if children != [] && children[0].data.Some? {
      ChildrenStreamPrefix(children[1..]);
      PrefixAppend(Urls.PostUrls(children[0].data.value), ChildrenStream(children[1..]).urls,
                   Urls.ChildrenUrls(children[1..]));
    }
  }

  lemma PrefixAppend(a: seq<string>, b: seq<string>, c: seq<string>)
    requires b <= c
    ensures a + b <= a + c
  {
    assert (a + c)[..|a + b|] == a + b;
  }

  lemma PrefixTransitive(a: seq<string>, b: seq<string>, c: seq<string>)
    requires a <= b && b <= c
    ensures a <= c
  {
    assert c[..|a|] == b[..|a|];
  }

  /**
   * Over any run of pages the draft's URLs are a prefix of those `Urls`
   * extracts, and all of them when no page makes it raise.
   */
  lemma {:induction false} PagesStreamPrefix(pages: seq<Urls.Page>)
    ensures PagesStream(pages).urls <= Urls.AllUrls(pages)
    ensures !PagesStream(pages).raised ==> PagesStream(pages).urls == Urls.AllUrls(pages)
    decreases |pages|
  {
    if pages != [] {
      PagesStreamPrefix(pages[1..]);
      PageStreamPrefix(pages[0]);
      PageStreamAgrees(pages[0]);
      var head := PageStream(pages[0]);
      var whole := Urls.PageUrls(Some(pages[0]));
      assert Urls.AllUrls(pages) == whole + Urls.AllUrls(pages[1..]);
      if head.raised {
        PrefixTransitive(head.urls, whole, Urls.AllUrls(pages));
      } else {
        PrefixAppend(whole, PagesStream(pages[1..]).urls, Urls.AllUrls(pages[1..]));
      }
    }
  }

  /** The draft yields the same pages as `Urls`: only whether it raises at the end differs. */
  lemma {:induction false} SamePages(source: Urls.Source, k: nat, cursor: Option<string>)
    ensures DraftPages(source, k, cursor).pages == Urls.Pages(source, k, cursor)
    decreases |source| - k
  {
    var page := Urls.Fetch(source, k, cursor);
    if k < |source| && page.Some? {
      if NextOf(page.value).Continue? {
        SamePages(source, k + 1, Some(NextOf(page.value).cursor));
      }
    }
  }

  /** The draft ends without raising exactly when its last page has `"after": null`. */
  lemma {:induction false} EndsCleanlyAtNull(source: Urls.Source, k: nat, cursor: Option<string>)
    ensures var run := DraftPages(source, k, cursor);
      !run.raised <==> |run.pages| > 0 && NextOf(run.pages[|run.pages| - 1]) == Stop
    decreases |source| - k
  {
    var page := Urls.Fetch(source, k, cursor);
    if k < |source| && page.Some? {
      if NextOf(page.value).Continue? {
        var t := NextOf(page.value).cursor;
        EndsCleanlyAtNull(source, k + 1, Some(t));
        var rest := DraftPages(source, k + 1, Some(t));
        if |rest.pages| > 0 {
          assert ([page.value] + rest.pages)[|rest.pages|] == rest.pages[|rest.pages| - 1];
        }
      }
    }
  }

  function Prepend(pages: seq<Urls.Page>, run: PageRun): PageRun {
    PageRun(pages + run.pages, run.raised)
  }

  lemma DraftPagesStep(source: Urls.Source, pages: seq<Urls.Page>, cursor: Option<string>, t: string)
    requires Urls.Fetch(source, |pages|, cursor).Some?
    requires NextOf(Urls.Fetch(source, |pages|, cursor).value) == Continue(t)
    ensures var p := Urls.Fetch(source, |pages|, cursor).value;
      Prepend(pages, DraftPages(source, |pages|, cursor)) ==
      Prepend(pages + [p], DraftPages(source, |pages| + 1, Some(t)))
  {
  }

  /**
   * Draft `fetch_reddit_pages`: it yields the pages `Urls` yields, and ends
   * without raising only after a page whose `after` is `null`.
   */
  method FetchRedditPages(source: Urls.Source) returns (pages: seq<Urls.Page>, raised: bool)
    ensures PageRun(pages, raised) == DraftPages(source, 0, None)
    ensures pages == Urls.Pages(source, 0, None)
    ensures !raised <==> |pages| > 0 && NextOf(pages[|pages| - 1]) == Stop
  {
    pages, raised := [], false;
    var after: Option<string> := None;
    while true
      invariant |pages| <= |source|
      invariant Prepend(pages, DraftPages(source, |pages|, after)) == DraftPages(source, 0, None)
      decreases |source| - |pages|
    {
      var page := Urls.Fetch(source, |pages|, after);
      if page.None? {
        assert pages + [] == pages;
        raised := true;
        break;
      }
      var next := NextOf(page.value);
      if next.Continue? {
        DraftPagesStep(source, pages, after, next.cursor);
        pages := pages + [page.value];
        after := Some(next.cursor);
      } else {
        pages := pages + [page.value];
        raised := next.Raise?;
        break;
      }
    }
    SamePages(source, 0, None);
    EndsCleanlyAtNull(source, 0, None);
  }

  /**
   * Draft `fetch_urls`: page after page, the URLs extracted, stopping at the
   * first exception.  What it yields is a prefix of what `Urls.FetchUrls`
   * yields, and all of it when it does not raise.
   */
  method FetchUrls(source: Urls.Source) returns (urls: seq<string>, raised: bool)
    ensures Stream(urls, raised) == RunStream(DraftPages(source, 0, None))
    ensures urls <= Urls.AllUrls(Urls.Pages(source, 0, None))
    ensures !raised ==> urls == Urls.AllUrls(Urls.Pages(source, 0, None))
  {
    var pages, pagesRaised := FetchRedditPages(source);
    urls, raised := [], false;
    var i := 0;
    while i < |pages| && !raised
      invariant 0 <= i <= |pages|
      invariant Then(Stream(urls, raised), PagesStream(pages[i..])) == PagesStream(pages)
    {
      var s := PageStream(pages[i]);
      assert pages[i..][1..] == pages[i + 1..];
      ThenAssociative(Stream(urls, raised), s, PagesStream(pages[i + 1..]));
      urls, raised := urls + s.urls, s.raised;
      i := i + 1;
    }
    assert Stream(urls, raised) == PagesStream(pages) by {
      if !raised {
        assert pages[i..] == [];
      }
    }
    if !raised && pagesRaised {
      raised := true;
    }
    PagesStreamPrefix(pages);
  }
}
