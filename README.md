# TripAdvisor hotel-review link crawl, modelled in Dafny

This project models the core of `tripadvisor-scrapper.py`, a script that
collects the review texts of one hotel on TripAdvisor. It has three parts:

- **The retry decorator** `retry(ExceptionToCheck, tries, delay, backoff, logger)`
  (`deco_retry` / `f_retry`). It calls the wrapped function. Each time the call
  raises an exception of the checked kind, it logs
  "<err>, Retrying in <delay> seconds...", sleeps `mdelay` seconds, decrements
  `mtries` and multiplies `mdelay` by `backoff`. Once `mtries` is down to 1 it
  makes one final, unguarded call.
- **`get_request_with_retry`**, which wraps a page fetch in that decorator
  with the fixed policy 40 tries, delay 5, backoff 2.
- **`parse_review_urls_of_hotel`**, which walks the list of pagination URLs in
  order. It fetches each page and finds the reviews container. From every
  direct child whose `class` attribute has exactly two values it appends the
  text of the child's first `q` element to `review_urls`.

It also models the seed URL
`BASE_URL + 'Hotel_Review-g' + id + '-d' + hotelid + '-Reviews-' + name + '.html'`
and the call that crawls from it.

Modules, one per component:

- `Backoff` (`retry.dfy`): the decorator. The wrapped function is an oracle
  `op: nat -> Outcome<T>`, where `op(i)` is what the i-th call does: `Return(v)`
  or `Raise(Exc(text, matches))`. `matches` says whether the exception is an
  instance of `ExceptionToCheck`. Calls, warnings and sleeps are recorded in
  one ordered event log. Nothing waits and nothing is printed. `RetryRun`
  is the loop as a function, and the method `Retry` is the `while` loop
  proved equal to it. All arithmetic is on unbounded integers, like Python's
  `int`.
- `Pages` (`pages.dfy`): the abstract page. It holds the optional reviews
  container as a sequence of children. A child is an element tag, with an
  optional list of class values and an optional first-`q` text, or a text
  node. `Scan` is the per-page filter,
  and the lemmas relate it to a reference list of review-entry positions.
- `Seed` (`seed.dfy`): the seed URL, and an inverse parser for numeric ids
  that is used only to state the round trip.
- `Scraper` (`scraper.dfy`): the fixed fetch policy and the crawl. The network
  is an oracle `net(p)(url)(i)`: the i-th attempt to fetch `url` while the
  crawl is at frontier position p.

What the code does on its edge cases:

- A page without the reviews container is an error. Iterating over `None`
  raises `TypeError`. It is not an empty result.
- A review entry without a `q` element is an error. `None.text` raises
  `AttributeError`.
- A text node among the container's children, such as the line break that
  `html.parser` keeps between two tags, is an error. A string has no
  `has_attr`, so line 75 raises `AttributeError`.
- Either error, or a fetch that fails on its 40th attempt, ends the whole
  crawl. No partial list is returned.
- Retrying is selective. Only exceptions matching `ExceptionToCheck` are
  retried. Any other exception propagates at once. For
  `get_request_with_retry` the checked kind is `Exception`, so only exceptions
  outside that hierarchy, such as `KeyboardInterrupt`, escape early.
- `time.sleep` raises `ValueError` on a negative delay. That exception is raised
  inside the `except` handler, so it escapes the decorator; the model records
  it as `SleepRejected`. The closed-form statements assume `delay >= 0` and
  `backoff >= 0`, which the 40/5/2 policy meets.
- The request headers are built but never sent: `get_request_with_retry`
  ignores its `header` argument. `base_url` is only printed.

The program's usage text gives the hotel id as `d302294`. With that argument
the seed URL contains `-dd302294`, because the code adds its own `-d`.
`Seed.PrefixedHotelIdNotNumeric` states that such a URL is not of the numeric
`-g<digits>-d<digits>-` form.

## Model

| member | source | states |
|---|---|---|
| `Backoff.Retry` | tripadvisor-scrapper.py:33-47 | The `while mtries > 1` loop produces exactly the run `RetryRun` defines: the same escaping result and the same ordered calls, warnings and sleeps. |
| `Backoff.StopFrom` | tripadvisor-scrapper.py:35-38 | The call that ends the loop is the first one not caught, or the last one permitted. Every earlier call was caught, and it lies within max(tries, 1) calls. |
| `Backoff.RetryBounds` | tripadvisor-scrapper.py:34-47 | Whatever the wrapped function does, there is at least one call and at most max(tries, 1). There is exactly one sleep fewer than calls, so at most max(tries-1, 0) sleeps. |
| `Backoff.SingleTry` | tripadvisor-scrapper.py:35-47 | With tries <= 1 the loop body never runs: one call, no warning, no sleep, and its result or exception is what the caller gets. |
| `Backoff.StopsAt` | tripadvisor-scrapper.py:34-47 | Suppose calls 0..j-1 are caught and call j is not caught or is the last one permitted. Then there are exactly j+1 calls, the sleeps are delay*backoff^i for i < j, and the run ends as call j ends. |
| `Backoff.AllAttemptsFail` | tripadvisor-scrapper.py:34-47 | With tries = n >= 1 and every earlier call caught, the function is called exactly n times with n-1 sleeps, and the n-th call's exception propagates. |
| `Backoff.SucceedsAt` | tripadvisor-scrapper.py:35-37 | If the first success is on attempt k <= max(tries, 1), there are exactly k calls and k-1 sleeps, and the value is returned unchanged. |
| `Backoff.NonMatchingStops` | tripadvisor-scrapper.py:36-38 | An exception that does not match `ExceptionToCheck` propagates at once, with no sleep after it and no further call. |
| `Backoff.FailTwiceThenSucceed` | tripadvisor-scrapper.py:34-47 | With 4 tries, two caught failures and then a success give 3 calls, sleeps [delay, delay*backoff], and the returned value. |
| `Backoff.DelaysAreGeometric` | tripadvisor-scrapper.py:39-46 | For every wrapped function, the sleeps in order are delay*backoff^0, delay*backoff^1, ..., one fewer than the calls. |
| `Backoff.RetryAnnounced` | tripadvisor-scrapper.py:39-44 | Each sleep comes right after a warning naming its delay. Each warning comes right after a call and is followed by that sleep, unless the sleep was rejected and ended the run. |
| `Backoff.RetrySleepRejected` | tripadvisor-scrapper.py:44 | A sleep is rejected only for a negative delay, right after the warning naming it. With delay >= 0 and backoff >= 0 it never happens. |
| `Backoff.TotalDelay` | tripadvisor-scrapper.py:44-46 | The total sleep over n delays satisfies (backoff-1) * total = delay * (backoff^n - 1). With backoff 1 the total is delay * n. |
| `Scraper.GetRequestWithRetry` | tripadvisor-scrapper.py:52-54 | One fetch under tries 40, delay 5, backoff 2. It makes 1 to 40 requests, the sleeps are 5, 10, 20, ... in order, and a sleep is never rejected. |
| `Scraper.PolicyExhausted` | tripadvisor-scrapper.py:52-54 | A fetch whose 40 attempts all fail makes exactly 40 requests and sleeps 5*(2^39-1) seconds in total. Then the last exception escapes. |
| `Scraper.AppendReviewTexts` | tripadvisor-scrapper.py:73-78 | The inner loop appends the texts `Scan` yields to the list so far. At a text node, or a review entry without a `q`, it stops with the error naming that child. |
| `Scraper.AppendPage` | tripadvisor-scrapper.py:70-78 | One fetched page appends the texts `Extract` yields to the list so far, or stops with `Extract`'s error. |
| `Scraper.ParseReviewUrlsOfHotel` | tripadvisor-scrapper.py:58-80 | The nested loops produce exactly `CrawlSpec`: the result, or the first exception, together with the full fetch log. An empty frontier yields an empty list. |
| `Scraper.FailureIsFinal` | tripadvisor-scrapper.py:62-64 | Once a visit raises, no later frontier URL changes the outcome or the log. |
| `Scraper.ScrapeHotel` | tripadvisor-scrapper.py:103-109 | The program crawls the one-element frontier made of the seed URL. |
| `Scraper.CrawlSucceedsIff` | tripadvisor-scrapper.py:62-80 | The crawl returns a list exactly when every frontier URL was fetched and extracted without an exception. |
| `Scraper.CrawlConcatenates` | tripadvisor-scrapper.py:60-80 | When every page yields its texts, the result is their concatenation in frontier order, with duplicates kept. |
| `Scraper.CrawlFailsAtFirst` | tripadvisor-scrapper.py:62-78 | A failed crawl ends at the first frontier position whose visit raised, with that visit's cause. Every earlier visit succeeded, and no partial list is returned. The position and URL are the model's record of where the exception arose; the Python exception itself carries neither. |
| `Scraper.FirstFailureEndsCrawl` | tripadvisor-scrapper.py:62-78 | Conversely, the first visit that raises decides the crawl's exception. |
| `Scraper.CrawlRequests` | tripadvisor-scrapper.py:52-64 | A crawl makes at most 40 requests per frontier URL. |
| `Scraper.TwoPagesOfFive` | tripadvisor-scrapper.py:62-80 | Two frontier URLs with five texts each give the ten texts, first page first. |
| `Scraper.SeedPageEndToEnd` | tripadvisor-scrapper.py:104-109 | The seed page is served on the first attempt with three review entries. The result is exactly ["Great stay", "Loud AC", "Would return"]. |
| `Pages.Extract` | tripadvisor-scrapper.py:70-73 | A page without the reviews container gives the error `NoReviewsTab`, and that error comes from nothing else. |
| `Pages.ExtractSucceedsIff` | tripadvisor-scrapper.py:70-78 | A page yields texts exactly when the container exists and none of its children is a text node or a quoteless review entry. The texts are then those of its review entries, in document order. |
| `Pages.ReviewIndices` | tripadvisor-scrapper.py:73-76 | The positions of the children with exactly two class values: all of them, ascending, and nothing else. |
| `Pages.ScanSucceedsIff` | tripadvisor-scrapper.py:73-78 | A container yields texts exactly when none of its children is a text node and none of its review entries lacks a `q` element. |
| `Pages.ScanTexts` | tripadvisor-scrapper.py:73-78 | On success the texts are the first-`q` texts of exactly the review entries, one each, in document order. |
| `Pages.ScanFailsAtFirst` | tripadvisor-scrapper.py:73-78 | On failure the error names the first child that breaks the loop, in both directions: a text node (`NotATag`) or a review entry without a `q` (`NoQuote`). No other error comes from the children. |
| `Pages.ScanFailureIsFinal` | tripadvisor-scrapper.py:73-78 | Once a prefix of the children fails, the whole container fails the same way. |
| `Pages.ScanAppend` | tripadvisor-scrapper.py:73-78 | Extraction distributes over splitting the children: the texts of a + b are those of a followed by those of b. |
| `Pages.TwoOfThree` | tripadvisor-scrapper.py:73-78 | Three tags, two with two class values and one without a class: exactly the two texts, in document order. |
| `Pages.TextBetweenEntries` | tripadvisor-scrapper.py:73-75 | A text node between two good review entries ends the extraction with the error for that node's position. |
| `Seed.HotelDefaultUrl` | tripadvisor-scrapper.py:104 | `HOTEL_DEFAULT_URL` starts with `Hotel_Review-g`, ends with `.html`, and is 30 characters longer than its three arguments together. |
| `Seed.SeedUrl` | tripadvisor-scrapper.py:103-104 | The seed URL starts with `BASE_URL` followed by `Hotel_Review-g`, and is `BASE_URL` plus 30 characters longer than the arguments. `SeedRoundTrip` and `ParseSeedSound` pin down its parts. |
| `Seed.SeedRoundTrip` | tripadvisor-scrapper.py:103-104 | Numeric city and hotel ids and any name can be read back unchanged from the seed URL. |
| `Seed.ParseSeedSound` | tripadvisor-scrapper.py:103-104 | Every URL the inverse parser accepts is the seed URL of the arguments it returns. |
| `Seed.SeedUrlInjective` | tripadvisor-scrapper.py:103-104 | Distinct numeric arguments give distinct seed URLs. |
| `Seed.PrefixedHotelIdNotNumeric` | tripadvisor-scrapper.py:104 | A hotel id that already starts with `d`, as in the usage text, gives a URL outside the numeric form. |

## Left out

- Network I/O: `requests.get` is the oracle `net`. Fetched content is taken to be already parsed.
- HTML parsing: BeautifulSoup's `find` and `has_attr` are replaced by the abstract `Page`/`Child`. Comments and other string nodes are all modelled as the one `Text` child, and a child's content beyond its class values and first `q` text is not modelled.
- Real waiting: `time.sleep` becomes a `Sleep` event. `time.sleep`'s `OverflowError` on huge delays is not modelled.
- Scraper.PolicyExhausted: states 40 requests and 5*(2^39-1) seconds of sleep on unbounded integers. CPython 3 holds a sleep length as 64-bit nanoseconds, about 9.22e9 seconds at most. So the 32nd sleep, 5*2^31 seconds, raises `OverflowError` inside the `except` handler, and that error escapes. Under that interpreter a fetch makes at most 32 requests and never reaches its 40th attempt. `Scraper.GetRequestWithRetry`'s bound of 40 requests and `Scraper.CrawlRequests` are stated on the same unbounded model. Python 2's float-based `time.sleep` does not have this limit.
- Warning text: the exact wording "<err>, Retrying in <delay> seconds..." is kept as a structured `Warn(reason, delay)` event. The choice between `logger.warning` and `print` is not modelled.
- Program glue: the CLI (argparse, usage text), log-file setup, the `print` debug output, the `--pickle` option, and writing `str(reviews)` to `./data/<name>`.
- The request headers: the headers value is carried as a parameter but has no effect, as in the source.
- Concurrency: the crawl is strictly sequential.
