/**
 * `get_request_with_retry` and `parse_review_urls_of_hotel` of
 * tripadvisor-scrapper.py, and the call that starts a crawl from the seed URL.
 *
 * The network is an oracle: while the crawl visits frontier position p,
 * `net(p)(url)(i)` is what the i-th attempt of `requests.get(url).content`
 * does.  Fetched content is taken to be already parsed into a Page.
 */
module Scraper {
  import opened Wrappers
  import opened Backoff
  import opened Pages
  import opened Seed

  /** The fixed policy of `get_request_with_retry`. */
  const TRIES: int := 40
  const DELAY: int := 5
  const BACKOFF: int := 2

  type Headers = map<string, string>

  /** The request headers the program builds (they never reach the request). */
  const HEADERS: Headers :=
    map["User-Agent" := "Mozilla/5.0 (Macintosh; Intel Mac OS X 10.11; rv:47.0) Gecko/20100101 Firefox/47.0"]

  /** `requests.get(url).content`, attempt by attempt. */
  type Get = string -> nat -> Outcome<Page>

  /** The network seen at each frontier position. */
  type Network = nat -> Get

  /** `get_request_with_retry(url, header)`: one fetch under the 40/5/2
      policy.  `header` is accepted and not used. */
  method GetRequestWithRetry(url: string, header: Headers, get: Get) returns (run: Run<Page>)
    ensures run == RetryRun(get(url), TRIES, DELAY, BACKOFF)
    ensures 1 <= CallCount(run.events) <= TRIES
    ensures SleepsOf(run.events) == Delays(DELAY, BACKOFF, CallCount(run.events) - 1)
    ensures !run.exit.SleepRejected?
  {
    run := Retry(get(url), TRIES, DELAY, BACKOFF);
    RetryBounds(get(url), TRIES, DELAY, BACKOFF);
    DelaysAreGeometric(get(url), TRIES, DELAY, BACKOFF);
    RetrySleepRejected(get(url), TRIES, DELAY, BACKOFF);
  }

  /** A fetch that fails 40 times makes 40 requests and sleeps
      5 + 10 + ... + 5*2^38 = 5*(2^39 - 1) seconds before the last
      exception reaches the caller. */
  lemma PolicyExhausted(get: Get, url: string)
    requires forall i :: 0 <= i < TRIES - 1 ==> Retryable(get(url)(i))
    requires get(url)(TRIES - 1).Raise?
    ensures var r := RetryRun(get(url), TRIES, DELAY, BACKOFF);
      && r.exit == Propagated(get(url)(TRIES - 1).exc)
      && CallCount(r.events) == TRIES
      && Sum(SleepsOf(r.events)) == DELAY * (Power(BACKOFF, TRIES - 1) - 1)
  {
    AllAttemptsFail(get(url), TRIES, DELAY, BACKOFF);
    TotalDelay(DELAY, BACKOFF, TRIES - 1);
  }

  // ---------------------------------------------------------------------
  // The crawl

  /** Why the visit of one frontier URL raised. */
  datatype Cause =
    | FetchRaised(exc: Exc)
    | SleepRefused(delay: int)
    | PageBroken(error: ExtractError)

  /** The exception that ends a crawl.  `position` and `url` record which
      frontier URL was being visited; the Python exception carries neither. */
  datatype CrawlError = CrawlError(position: nat, url: string, cause: Cause)

  /** What a crawl hands back (the review texts, or the exception that escapes
      instead), and every call, warning and sleep of its fetches, in order. */
  datatype Crawl = Crawl(outcome: Result<seq<string>, CrawlError>, log: seq<Event>)

  /** One frontier URL: the texts it contributes, or why it raised, and the fetch's events. */
  datatype Visit = Visit(texts: Result<seq<string>, Cause>, events: seq<Event>)

  function VisitOf(run: Run<Page>): Visit
  {
    match run.exit
    case Returned(page) =>
      Visit(match Extract(page) case Ok(xs) => Ok(xs) case Err(e) => Err(PageBroken(e)), run.events)
    case Propagated(e) => Visit(Err(FetchRaised(e)), run.events)
    case SleepRejected(d) => Visit(Err(SleepRefused(d)), run.events)
  }

  function VisitAt(frontier: seq<string>, net: Network, p: nat): Visit
    requires p < |frontier|
  {
    VisitOf(RetryRun(net(p)(frontier[p]), TRIES, DELAY, BACKOFF))
  }

  /** The state of the outer loop after the first n frontier URLs. */
  function Through(frontier: seq<string>, net: Network, n: nat): Crawl
    requires n <= |frontier|
    decreases n
  {
    if n == 0 then Crawl(Ok([]), [])
    else
      var before := Through(frontier, net, n - 1);
      if before.outcome.Err? then before
      else
        var visit := VisitAt(frontier, net, n - 1);
        match visit.texts
        case Ok(xs) => Crawl(Ok(before.outcome.value + xs), before.log + visit.events)
        case Err(c) => Crawl(Err(CrawlError(n - 1, frontier[n - 1], c)), before.log + visit.events)
  }

  function CrawlSpec(frontier: seq<string>, net: Network): Crawl
  {
    Through(frontier, net, |frontier|)
  }

  lemma {:induction false} FailureIsFinal(frontier: seq<string>, net: Network, n: nat, m: nat)
    requires n <= m <= |frontier|
    requires Through(frontier, net, n).outcome.Err?
    ensures Through(frontier, net, m) == Through(frontier, net, n)
    decreases m - n
  {
    if n < m {
      FailureIsFinal(frontier, net, n, m - 1);
    }
  }

  /** The inner loop of `parse_review_urls_of_hotel`: appends to
      `reviewUrls` the first-`q` text of every child of the reviews container
      that has exactly two class values, or stops at the first text node
      (`has_attr` raises) or the first such child without a `q`. */
  method AppendReviewTexts(reviewUrls: seq<string>, children: seq<Child>)
    returns (r: Result<seq<string>, ExtractError>)
    ensures r == match Scan(children) case Ok(texts) => Ok(reviewUrls + texts) case Err(e) => Err(e)
  {
    var urls := reviewUrls;
    ghost var texts: seq<string> := [];
    for j := 0 to |children|
      invariant urls == reviewUrls + texts
      invariant Scan(children[..j]) == Ok(texts)
    {
      var child := children[j];
      assert children[..j + 1][..j] == children[..j];
      if child.Text? {
        ScanFailureIsFinal(children, j + 1);
        return Err(NotATag(j));
      }
      if child.classes.Some? {
        if |child.classes.value| == 2 {
          if child.quote.None? {
            ScanFailureIsFinal(children, j + 1);
            return Err(NoQuote(j));
          }
          urls := urls + [child.quote.value];
          texts := texts + [child.quote.value];
        }
      }
    }
    assert children[..|children|] == children;
    r := Ok(urls);
  }

  /** The body of the outer loop once the page is fetched: `find` the reviews
      container (iterating over a missing one raises) and run the inner loop. */
  method AppendPage(reviewUrls: seq<string>, page: Page) returns (r: Result<seq<string>, ExtractError>)
    ensures r == match Extract(page) case Ok(texts) => Ok(reviewUrls + texts) case Err(e) => Err(e)
  {
    if page.reviewsTab.None? {
      return Err(NoReviewsTab);
    }
    r := AppendReviewTexts(reviewUrls, page.reviewsTab.value);
  }

  /** `parse_review_urls_of_hotel(base_url, pagination_urls, header)`.
      `baseUrl` is only printed by the source, and `header` is passed to the
      fetch, which ignores it. */
  method ParseReviewUrlsOfHotel(baseUrl: string, paginationUrls: seq<string>, header: Headers, net: Network)
    returns (result: Crawl)
    ensures result == CrawlSpec(paginationUrls, net)
    ensures paginationUrls == [] ==> result == Crawl(Ok([]), [])
  {
    var reviewUrls: seq<string> := [];
    var log: seq<Event> := [];
    for p := 0 to |paginationUrls|
      invariant Through(paginationUrls, net, p) == Crawl(Ok(reviewUrls), log)
    {
      var url := paginationUrls[p];
      var run := GetRequestWithRetry(url, header, net(p));
      log := log + run.events;
      match run.exit {
        case Propagated(e) =>
          result := Crawl(Err(CrawlError(p, url, FetchRaised(e))), log);
          FailureIsFinal(paginationUrls, net, p + 1, |paginationUrls|);
          return;
        case SleepRejected(_) =>
          // a delay of 5*2^i is never negative
          assert false;
        case Returned(page) =>
          var appended := AppendPage(reviewUrls, page);
          match appended {
            case Err(err) =>
              result := Crawl(Err(CrawlError(p, url, PageBroken(err))), log);
              FailureIsFinal(paginationUrls, net, p + 1, |paginationUrls|);
              return;
            case Ok(extended) =>
              reviewUrls := extended;
          }
      }
    }
    result := Crawl(Ok(reviewUrls), log);
  }

  /** Lines 103-109: the crawl of the one seed URL. */
  method ScrapeHotel(id: string, hotelId: string, name: string, net: Network) returns (reviews: Crawl)
    ensures reviews == CrawlSpec([SeedUrl(id, hotelId, name)], net)
  {
    reviews := ParseReviewUrlsOfHotel(BASE_URL, [BASE_URL + HotelDefaultUrl(id, hotelId, name)], HEADERS, net);
  }

  // ---------------------------------------------------------------------
  // Properties of the crawl

  /** Reference definition: the concatenation of the pages' texts. */
  function Flatten(pages: seq<seq<string>>): seq<string>
  {
    if pages == [] then [] else Flatten(pages[..|pages| - 1]) + pages[|pages| - 1]
  }

  /** The crawl returns a list exactly when every frontier URL was fetched and extracted. */
  lemma {:induction false} ThroughSucceedsIff(frontier: seq<string>, net: Network, n: nat)
    requires n <= |frontier|
    ensures Through(frontier, net, n).outcome.Ok? <==> forall p :: 0 <= p < n ==> VisitAt(frontier, net, p).texts.Ok?
    decreases n
  {
    if n > 0 {
      ThroughSucceedsIff(frontier, net, n - 1);
    }
  }

  lemma CrawlSucceedsIff(frontier: seq<string>, net: Network)
    ensures CrawlSpec(frontier, net).outcome.Ok? <==>
      forall p :: 0 <= p < |frontier| ==> VisitAt(frontier, net, p).texts.Ok?
  {
    ThroughSucceedsIff(frontier, net, |frontier|);
  }

  lemma {:induction false} ThroughConcatenates(frontier: seq<string>, net: Network, pages: seq<seq<string>>, n: nat)
    requires n <= |frontier| == |pages|
    requires forall p :: 0 <= p < |frontier| ==> VisitAt(frontier, net, p).texts == Ok(pages[p])
    ensures Through(frontier, net, n).outcome == Ok(Flatten(pages[..n]))
    decreases n
  {
    if n > 0 {
      ThroughConcatenates(frontier, net, pages, n - 1);
      assert pages[..n][..n - 1] == pages[..n - 1];
    }
  }

  /** When every page yields its texts, the result is their concatenation in
      frontier order, duplicates kept. */
  lemma CrawlConcatenates(frontier: seq<string>, net: Network, pages: seq<seq<string>>)
    requires |frontier| == |pages|
    requires forall p :: 0 <= p < |frontier| ==> VisitAt(frontier, net, p).texts == Ok(pages[p])
    ensures CrawlSpec(frontier, net).outcome == Ok(Flatten(pages))
  {
    ThroughConcatenates(frontier, net, pages, |frontier|);
    assert pages[..|pages|] == pages;
  }

  lemma {:induction false} ThroughFailure(frontier: seq<string>, net: Network, n: nat)
    requires n <= |frontier|
    ensures var o := Through(frontier, net, n).outcome;
      o.Err? ==>
        var e := o.error;
        && e.position < n
        && e.url == frontier[e.position]
        && VisitAt(frontier, net, e.position).texts == Err(e.cause)
        && forall p :: 0 <= p < e.position ==> VisitAt(frontier, net, p).texts.Ok?
    decreases n
  {
    if n > 0 {
      ThroughFailure(frontier, net, n - 1);
      ThroughSucceedsIff(frontier, net, n - 1);
    }
  }

  /** A crawl that raises names the first frontier URL whose visit raised,
      and why; no partial list is returned. */
  lemma CrawlFailsAtFirst(frontier: seq<string>, net: Network)
    ensures var o := CrawlSpec(frontier, net).outcome;
      o.Err? ==>
        var e := o.error;
        && e.position < |frontier|
        && e.url == frontier[e.position]
        && VisitAt(frontier, net, e.position).texts == Err(e.cause)
        && forall p :: 0 <= p < e.position ==> VisitAt(frontier, net, p).texts.Ok?
  {
    ThroughFailure(frontier, net, |frontier|);
  }

  /** Conversely, the first visit that raises ends the crawl with its exception. */
  lemma FirstFailureEndsCrawl(frontier: seq<string>, net: Network, q: nat)
    requires q < |frontier|
    requires forall p :: 0 <= p < q ==> VisitAt(frontier, net, p).texts.Ok?
    requires VisitAt(frontier, net, q).texts.Err?
    ensures CrawlSpec(frontier, net).outcome
      == Err(CrawlError(q, frontier[q], VisitAt(frontier, net, q).texts.error))
  {
    ThroughSucceedsIff(frontier, net, q);
    FailureIsFinal(frontier, net, q + 1, |frontier|);
  }

  lemma {:induction false} ThroughRequests(frontier: seq<string>, net: Network, n: nat)
    requires n <= |frontier|
    ensures CallCount(Through(frontier, net, n).log) <= TRIES * n
    decreases n
  {
    if n > 0 {
      ThroughRequests(frontier, net, n - 1);
      var before := Through(frontier, net, n - 1);
      if before.outcome.Ok? {
        var run := RetryRun(net(n - 1)(frontier[n - 1]), TRIES, DELAY, BACKOFF);
        RetryBounds(net(n - 1)(frontier[n - 1]), TRIES, DELAY, BACKOFF);
        EventCountsAppend(before.log, run.events);
      }
    }
  }

  /** At most 40 requests per frontier URL. */
  lemma CrawlRequests(frontier: seq<string>, net: Network)
    ensures CallCount(CrawlSpec(frontier, net).log) <= TRIES * |frontier|
  {
    ThroughRequests(frontier, net, |frontier|);
  }

  /** Two frontier URLs that yield five texts each give ten, in frontier order. */
  lemma TwoPagesOfFive(frontier: seq<string>, net: Network, first: seq<string>, second: seq<string>)
    requires |frontier| == 2 && |first| == 5 && |second| == 5
    requires VisitAt(frontier, net, 0).texts == Ok(first)
    requires VisitAt(frontier, net, 1).texts == Ok(second)
    ensures CrawlSpec(frontier, net).outcome == Ok(first + second)
  {
    CrawlConcatenates(frontier, net, [first, second]);
    assert [first, second][..1] == [first];
    assert [first][..0] == [];
    assert Flatten([first]) == first;
  }

  /** The seed page served on the first attempt with three review entries
      gives exactly their three texts. */
  lemma SeedPageEndToEnd(id: string, hotelId: string, name: string, net: Network, classes: seq<string>)
    requires |classes| == 2
    requires net(0)(SeedUrl(id, hotelId, name))(0) == Return(Page(Some([
      Tag(Some(classes), Some("Great stay")),
      Tag(Some(classes), Some("Loud AC")),
      Tag(Some(classes), Some("Would return"))])))
    ensures CrawlSpec([SeedUrl(id, hotelId, name)], net).outcome == Ok(["Great stay", "Loud AC", "Would return"])
  {
    var url := SeedUrl(id, hotelId, name);
    var c0, c1, c2 := Tag(Some(classes), Some("Great stay")),
                      Tag(Some(classes), Some("Loud AC")),
                      Tag(Some(classes), Some("Would return"));
    SucceedsAt(net(0)(url), TRIES, DELAY, BACKOFF, 1);
    ScanSingle(c0);
    ScanSingle(c1);
    ScanSingle(c2);
    ScanAppend([c0], [c1]);
    assert [c0] + [c1] == [c0, c1];
    assert Scan([c0, c1]) == Ok(["Great stay"] + ["Loud AC"]);
    ScanAppend([c0, c1], [c2]);
    assert [c0, c1] + [c2] == [c0, c1, c2];
    var texts := ["Great stay", "Loud AC", "Would return"];
    assert ["Great stay"] + ["Loud AC"] + ["Would return"] == texts;
    assert Scan([c0, c1, c2]) == Ok(texts);
    CrawlConcatenates([url], net, [texts]);
    assert [texts][..0] == [];
    assert Flatten([texts]) == texts;
  }
}
