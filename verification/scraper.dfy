/** Source acquisition: one web search per category (blog, e-commerce, YouTube),
    each hit scraped and cleaned; failed scrapes and failed categories are dropped. */
module Scraper {
  import opened Wrappers
  import opened Text
  import opened Sources
  import Parsers

  const BlogSites := "site:gsmarena.com OR site:91mobiles.com OR site:smartprix.com"
  const EcommerceSites := "site:amazon.in OR site:flipkart.com"
  const YoutubeSite := "site:youtube.com"
  const HitsPerCategory: nat := 3

  datatype SearchTarget = SearchTarget(productName: string, query: string, kind: SourceType, limit: nat)

  /** A search result: the page address and, when known, its title. */
  datatype SearchHit = SearchHit(url: string, title: Option<string>)

  /** A scraped page: its final address, markdown and title when known. */
  datatype Page = Page(url: string, markdown: string, title: Option<string>)

  /** The search service: `search(query, limit)` and `scrape(url)`, either of which
      may fail. */
  datatype Client = Client(
    search: (string, nat) -> Result<seq<SearchHit>, string>,
    scrape: string -> Result<Page, string>)

  /** The site filter appended to a category's query. */
  function SiteFilter(kind: SourceType): string {
    match kind
    case Blog => BlogSites
    case Ecommerce => EcommerceSites
    case Youtube => YoutubeSite
  }

  /** What a category's query asks for between the quoted name and the site filter. */
  function QueryWords(kind: SourceType): string {
    match kind
    case Blog => " review India 2025 "
    case Ecommerce => " user reviews India "
    case Youtube => " review "
  }

  /** `buildTargets(productName)[kind]`. */
  function BuildTarget(productName: string, kind: SourceType): (r: SearchTarget)
    ensures r.productName == productName && r.kind == kind && r.limit == HitsPerCategory
    ensures StartsWith(r.query, "\"" + productName + "\"")
    ensures EndsWith(r.query, SiteFilter(kind))
  {
    var quoted := "\"" + productName + "\"";
    var query := quoted + QueryWords(kind) + SiteFilter(kind);
    assert query[..|quoted|] == quoted;
    assert query[|query| - |SiteFilter(kind)|..] == SiteFilter(kind);
    SearchTarget(productName, query, kind, HitsPerCategory)
  }

  /** The source built from one scraped hit: the page's title, else the hit's, else
      the product name; the category's type; cleaned content. */
  function SourceOf(target: SearchTarget, hit: SearchHit, page: Page): (r: ScrapedSource)
    ensures r.url == page.url && r.kind == target.kind
    ensures r.title == page.title.GetOr(hit.title.GetOr(target.productName))
    ensures r.content == Parsers.ParseReviewMarkdown(page.markdown)
    ensures Parsers.CleanContent(r.content)
  {
    Parsers.ParseScrapedSource(ScrapedSource(page.url, page.title.GetOr(hit.title.GetOr(target.productName)), target.kind, page.markdown))
  }

  /** Every source has the category's type and cleaned content of at most 2000
      characters. */
  predicate AllFrom(target: SearchTarget, r: seq<ScrapedSource>) {
    forall k :: 0 <= k < |r| ==> r[k].kind == target.kind && Parsers.CleanContent(r[k].content)
  }

  lemma AllFromCons(target: SearchTarget, x: ScrapedSource, rest: seq<ScrapedSource>)
    requires x.kind == target.kind && Parsers.CleanContent(x.content) && AllFrom(target, rest)
    ensures AllFrom(target, [x] + rest)
  {
    var r := [x] + rest;
    forall k | 0 <= k < |r| ensures r[k].kind == target.kind && Parsers.CleanContent(r[k].content) {
      if k > 0 { assert r[k] == rest[k - 1]; }
    }
  }

  /** The fulfilled scrapes, in hit order (`Promise.allSettled` then a filter). */
  function ScrapeHits(target: SearchTarget, hits: seq<SearchHit>, scrape: string -> Result<Page, string>): (r: seq<ScrapedSource>)
    ensures |r| <= |hits|
    ensures AllFrom(target, r)
    decreases |hits|
  {
    if hits == [] then []
    else
      var rest := ScrapeHits(target, hits[1..], scrape);
      if scrape(hits[0].url).Failure? then rest
      else
        var x := SourceOf(target, hits[0], scrape(hits[0].url).value);
        AllFromCons(target, x, rest);
        [x] + rest
  }

  /** `searchAndScrapeTarget`: a failed search fails the category. */
  function SearchAndScrape(target: SearchTarget, client: Client): (r: Result<seq<ScrapedSource>, string>)
    ensures r.Failure? <==> client.search(target.query, target.limit).Failure?
    ensures r.Success? ==> r.value == ScrapeHits(target, client.search(target.query, target.limit).value, client.scrape)
  {
    match client.search(target.query, target.limit)
    case Failure(e) => Failure(e)
    case Success(hits) => if hits == [] then Success([]) else Success(ScrapeHits(target, hits, client.scrape))
  }

  /** No hits means no page is scraped: the result is empty whatever the scraper does. */
  lemma NoHitsNoScrape(target: SearchTarget, client: Client, other: string -> Result<Page, string>)
    requires client.search(target.query, target.limit) == Success([])
    ensures SearchAndScrape(target, client) == Success([])
    ensures SearchAndScrape(target, client.(scrape := other)) == Success([])
  {
  }

  /** Scraping distributes over the hit list: the fulfilled scrapes of `a + b` are
      those of `a` followed by those of `b`. With `AllScrapesKept` and
      `AllScrapesFailed` on single hits, every fulfilled hit gives its source once,
      in hit order, and every rejected hit gives nothing. */
  lemma {:induction false} ScrapeHitsAppend(target: SearchTarget, a: seq<SearchHit>, b: seq<SearchHit>,
                                            scrape: string -> Result<Page, string>)
    ensures ScrapeHits(target, a + b, scrape) == ScrapeHits(target, a, scrape) + ScrapeHits(target, b, scrape)
    decreases |a|
  {
    if a == [] {
      assert a + b == b;
    } else {
      var s := a + b;
      assert s[0] == a[0] && s[1..] == a[1..] + b;
      ScrapeHitsAppend(target, a[1..], b, scrape);
      ScrapeHitsCons(target, s, scrape);
      ScrapeHitsCons(target, a, scrape);
      AppendAssoc(HitSources(target, a[0], scrape), ScrapeHits(target, a[1..], scrape), ScrapeHits(target, b, scrape));
    }
  }

  /** What one hit contributes: its source when the scrape is fulfilled. */
  function HitSources(target: SearchTarget, hit: SearchHit, scrape: string -> Result<Page, string>): (r: seq<ScrapedSource>)
    ensures |r| <= 1
    ensures r != [] <==> scrape(hit.url).Success?
  {
    if scrape(hit.url).Failure? then [] else [SourceOf(target, hit, scrape(hit.url).value)]
  }

  /** The first hit's contribution comes first. */
  lemma ScrapeHitsCons(target: SearchTarget, hits: seq<SearchHit>, scrape: string -> Result<Page, string>)
    requires hits != []
    ensures ScrapeHits(target, hits, scrape) == HitSources(target, hits[0], scrape) + ScrapeHits(target, hits[1..], scrape)
  {
  }

  /** One hit: its source when the scrape is fulfilled, nothing when it is rejected. */
  lemma OneHit(target: SearchTarget, hit: SearchHit, scrape: string -> Result<Page, string>)
    ensures scrape(hit.url).Failure? ==> ScrapeHits(target, [hit], scrape) == []
    ensures scrape(hit.url).Success? ==> ScrapeHits(target, [hit], scrape) == [SourceOf(target, hit, scrape(hit.url).value)]
  {
    assert [hit][1..] == [];
  }

  /** Reference definition: one source per hit, in hit order, for hits whose scrape
      all succeed. */
  function EverySource(target: SearchTarget, hits: seq<SearchHit>, scrape: string -> Result<Page, string>): (r: seq<ScrapedSource>)
    requires forall k :: 0 <= k < |hits| ==> scrape(hits[k].url).Success?
    ensures |r| == |hits|
    decreases |hits|
  {
    if hits == [] then []
    else
      var rest := hits[1..];
      assert forall k :: 0 <= k < |rest| ==> scrape(rest[k].url).Success? by {
        forall k | 0 <= k < |rest| ensures scrape(rest[k].url).Success? {
          assert rest[k] == hits[k + 1];
        }
      }
      [SourceOf(target, hits[0], scrape(hits[0].url).value)] + EverySource(target, rest, scrape)
  }

  /** When every scrape succeeds, there is one source per hit, in hit order. */
  lemma {:induction false} AllScrapesKept(target: SearchTarget, hits: seq<SearchHit>, scrape: string -> Result<Page, string>)
    requires forall k :: 0 <= k < |hits| ==> scrape(hits[k].url).Success?
    ensures ScrapeHits(target, hits, scrape) == EverySource(target, hits, scrape)
    decreases |hits|
  {
    if hits != [] {
      assert forall k :: 0 <= k < |hits| - 1 ==> hits[1..][k] == hits[k + 1];
      AllScrapesKept(target, hits[1..], scrape);
    }
  }

  /** When every scrape fails, nothing is kept. */
  lemma {:induction false} AllScrapesFailed(target: SearchTarget, hits: seq<SearchHit>, scrape: string -> Result<Page, string>)
    requires forall k :: 0 <= k < |hits| ==> scrape(hits[k].url).Failure?
    ensures ScrapeHits(target, hits, scrape) == []
    decreases |hits|
  {
    if hits != [] {
      AllScrapesFailed(target, hits[1..], scrape);
    }
  }

  /** One category's contribution: its sources, or nothing when it failed. */
  function Settled(r: Result<seq<ScrapedSource>, string>): (s: seq<ScrapedSource>)
    ensures r.Failure? ==> s == []
    ensures r.Success? ==> s == r.value
  {
    match r
    case Failure(_) => []
    case Success(v) => v
  }

  /** `scrapeAllSources`: blog, e-commerce and YouTube results concatenated in that
      order; a failing category contributes nothing. */
  function ScrapeAllSources(productName: string, client: Client): (r: seq<ScrapedSource>)
    ensures forall k :: 0 <= k < |r| ==> Parsers.CleanContent(r[k].content)
    ensures r == Settled(SearchAndScrape(BuildTarget(productName, Blog), client))
                 + Settled(SearchAndScrape(BuildTarget(productName, Ecommerce), client))
                 + Settled(SearchAndScrape(BuildTarget(productName, Youtube), client))
  {
    var blog := Settled(SearchAndScrape(BuildTarget(productName, Blog), client));
    var shop := Settled(SearchAndScrape(BuildTarget(productName, Ecommerce), client));
    var video := Settled(SearchAndScrape(BuildTarget(productName, Youtube), client));
    CleanConcat(blog, shop, video);
    blog + shop + video
  }

  lemma CleanConcat(blog: seq<ScrapedSource>, shop: seq<ScrapedSource>, video: seq<ScrapedSource>)
    requires forall k :: 0 <= k < |blog| ==> Parsers.CleanContent(blog[k].content)
    requires forall k :: 0 <= k < |shop| ==> Parsers.CleanContent(shop[k].content)
    requires forall k :: 0 <= k < |video| ==> Parsers.CleanContent(video[k].content)
    ensures forall k :: 0 <= k < |blog + shop + video| ==> Parsers.CleanContent((blog + shop + video)[k].content)
  {
    var r := blog + shop + video;
    forall k | 0 <= k < |r|
      ensures Parsers.CleanContent(r[k].content)
    {
      if k < |blog| {
        assert r[k] == blog[k];
      } else if k < |blog| + |shop| {
        assert r[k] == shop[k - |blog|];
      } else {
        assert r[k] == video[k - |blog| - |shop|];
      }
    }
  }

  /** The sources come grouped by category: blog sources first, then e-commerce,
      then YouTube. */
  predicate GroupedByCategory(r: seq<ScrapedSource>) {
    forall i, j :: 0 <= i < j < |r| ==> Rank(r[i].kind) <= Rank(r[j].kind)
  }

  function Rank(kind: SourceType): nat {
    match kind
    case Blog => 0
    case Ecommerce => 1
    case Youtube => 2
  }

  lemma ScrapeAllGrouped(productName: string, client: Client)
    ensures GroupedByCategory(ScrapeAllSources(productName, client))
  {
    var blog := Settled(SearchAndScrape(BuildTarget(productName, Blog), client));
    var shop := Settled(SearchAndScrape(BuildTarget(productName, Ecommerce), client));
    var video := Settled(SearchAndScrape(BuildTarget(productName, Youtube), client));
    CategoryKinds(productName, client, Blog);
    CategoryKinds(productName, client, Ecommerce);
    CategoryKinds(productName, client, Youtube);
    GroupedConcat(blog, shop, video);
  }

  lemma CategoryKinds(productName: string, client: Client, kind: SourceType)
    ensures var s := Settled(SearchAndScrape(BuildTarget(productName, kind), client));
            forall k :: 0 <= k < |s| ==> s[k].kind == kind
  {
    var target := BuildTarget(productName, kind);
    var s := Settled(SearchAndScrape(target, client));
    assert AllFrom(target, s);
  }

  lemma GroupedConcat(blog: seq<ScrapedSource>, shop: seq<ScrapedSource>, video: seq<ScrapedSource>)
    requires forall k :: 0 <= k < |blog| ==> blog[k].kind == Blog
    requires forall k :: 0 <= k < |shop| ==> shop[k].kind == Ecommerce
    requires forall k :: 0 <= k < |video| ==> video[k].kind == Youtube
    ensures GroupedByCategory(blog + shop + video)
  {
    var r := blog + shop + video;
    forall k | 0 <= k < |r|
      ensures Rank(r[k].kind) == if k < |blog| then 0 else if k < |blog| + |shop| then 1 else 2
    {
      if k < |blog| {
        assert r[k] == blog[k];
      } else if k < |blog| + |shop| {
        assert r[k] == shop[k - |blog|];
      } else {
        assert r[k] == video[k - |blog| - |shop|];
      }
    }
  }

  /** Every search failing gives no sources. */
  lemma AllCategoriesFail(productName: string, client: Client)
    requires forall q, n :: client.search(q, n).Failure?
    ensures ScrapeAllSources(productName, client) == []
  {
  }
}
