# Breadth-first crawl loop of `web_crawler_bot`, modelled in Dafny

`web_crawler_bot(url, depth=2)` crawls from a seed URL breadth first. It keeps
a FIFO queue of `(url, depth)` pairs, seeded with `(url, 1)`, and a set of
visited URLs. It pops items until the queue is empty, and it stops outright
(`break`) at the first popped item deeper than `depth`. An already visited URL
is skipped. Otherwise the URL is printed ("Crawling ..."), marked visited and
fetched. A failed fetch (`HTTPError` or any other `RequestException`) abandons
only that item. For a fetched page, every anchor whose `href` is present and
starts with `"http"` is joined against the page URL. It is pushed at
`depth + 1` when the joined URL is not visited and the robots.txt gate allows
the current page.

The model is a pure state machine:

- `types.dfy` (`CrawlTypes`): `Item`, the fetch outcome `Fetch`, the
  environment `Env`, the loop `Status` and `State`. `Env` holds the fetch and
  anchor-extraction oracle, the robots gate, `urljoin` and the depth limit.
- `links.dfy` (`Links`): the anchor filter, `Discovered` (the links pushed for
  one page), and the followed anchors of a page with their targets.
- `crawler.dfy` (`Crawler`): `Init`, `Step` (one pass of the loop) and the
  loop invariant with its preservation lemmas.
- `reach.dfy` (`CrawlReach`): the horizon, meaning the URLs within n followed
  links of the seed. Printed and queued depths are read as link distances. Each
  pass visits a new URL of the horizon, or shortens the queue, or stops.
- `run.dfy` (`CrawlRun`): `Run`, the loop to its end, and the reference loop
  that skips too-deep items instead of breaking. The loop ends for every
  environment, even when the link graph is infinite. Its measure is
  lexicographic: first the number of unvisited URLs within `depth - 1` links
  of the seed, a finite set, then the queue length, then whether the loop is
  still running.
- `coverage.dfy` (`CrawlCoverage`): no followed link is lost. The crawl prints
  exactly the URLs within `depth - 1` followed links of the seed.
- `crawl.dfy` (`CrawlLoop`): the imperative `Crawl` and what its result
  satisfies.
- `example.dfy` (`CrawlExample`): a four-page site run end to end, and an
  unbounded site on which the crawl still stops.

Each entry of the model's log is the printed URL together with the depth it
was popped at. The depth is not printed by the source. It is kept so that
breadth-first order can be stated.

The gate is applied to the current page's URL, as the code does at line 49,
not to the candidate link.

## Model

| member | source | states |
|---|---|---|
| `Links.Discovered` | web_crawler_bot.py:45-51 | Every pushed item comes from an anchor of the page that is present and starts with "http". Its joined URL is not visited, the gate allowed the current page, and it sits at depth + 1. Conversely every such anchor is pushed. A closed gate pushes nothing. |
| `Links.DiscoveredAppend` | web_crawler_bot.py:45-51 | Links are pushed in document order: scanning a page in two parts pushes the first part's links first. |
| `Crawler.Init` | web_crawler_bot.py:8-19 | The loop starts with only the seed queued, at depth 1, with nothing visited and nothing printed. That state already satisfies the loop invariant and the depth guarantee, for every depth limit. |
| `Crawler.Step` | web_crawler_bot.py:21-51 | The visited set only grows, and the log is append-only, at most one entry per pass. A new log entry is the item just popped: its depth is within the limit, its URL was not visited before, and it is now the only URL added to the visited set. Conversely, a popped item within the limit and not yet visited is always printed, and the loop goes on. The items behind the popped one stay at the front of the queue, in order (FIFO). |
| `Crawler.StepPushes` | web_crawler_bot.py:30-51 | What a printing pass appends to the queue: the page is marked visited before its links are filtered. Every appended item is a followed link of the popped page, one level deeper, and outside the visited set that now holds the page. Conversely every followed link of the page outside that set is appended, one level deeper. |
| `Crawler.StepSkipping` | web_crawler_bot.py:24-28 | Reference loop for comparison: a too-deep item is dropped like a visited one. Nothing is printed or visited, the queue shrinks by one, and the loop keeps running. |
| `Crawler.FetchFailureIsolated` | web_crawler_bot.py:33-41 | A failed fetch pushes nothing, but the item stays printed and visited, and the loop keeps running. |
| `Crawler.BreakOnFirstTooDeep` | web_crawler_bot.py:24-25 | The first popped item deeper than the limit ends the loop without being printed or visited, and every item still queued is at least as deep. |
| `Crawler.StepKeepsInv` | web_crawler_bot.py:19-51 | Each pass keeps the invariant. The visited set equals the set of printed URLs and no URL is printed twice. Queued depths are at least 1, non-decreasing and span one level. Printed depths are non-decreasing (BFS order), never above the queue front and never above the limit. |
| `CrawlReach.StepKeepsReached` | web_crawler_bot.py:47-51 | An item pushed from page `h` is one followed link beyond `h`. So every printed or queued item at depth d lies within d - 1 followed links of the seed. |
| `CrawlReach.StepProgress` | web_crawler_bot.py:21-51 | Each pass keeps every item within its depth of the seed. It either visits a new URL within `depth - 1` links of the seed, or shortens the queue, or stops the loop. |
| `CrawlRun.Run` | web_crawler_bot.py:21-51 | The loop ends in a stopped state for every environment, from any state whose items lie within their depth of the seed. Its log extends the starting log and its visited set contains the starting one. |
| `CrawlRun.RunSkipping` | web_crawler_bot.py:21-51 | The reference loop also ends. From a running state it always ends `Exhausted`, with an empty queue. |
| `CrawlRun.RunKeepsInv` | web_crawler_bot.py:19-51 | The final state keeps the invariant: no duplicates, visited equals printed, BFS order, depths within the limit, and only too-deep items left after a `break`. |
| `CrawlRun.BreakIsSkipping` | web_crawler_bot.py:24-25 | Because queued depths never decrease, `break` prints and visits exactly what skipping every too-deep item would. |
| `CrawlRun.CrawlDepthBound` | web_crawler_bot.py:19-51 | Every URL a crawl prints lies within `depth - 1` followed links of the seed. |
| `CrawlCoverage.StepKeepsLinksCovered` | web_crawler_bot.py:24-51 | Each pass keeps every followed link of a printed page accounted for, one level below the page. It is either printed or queued at that depth or shallower, or the `break` cut it off beyond the limit. |
| `CrawlCoverage.FinalCoversLinks` | web_crawler_bot.py:21-51 | In any stopped state whose printed pages' followed links are all accounted for (`LinksCovered`, which `Init` has and every pass keeps), each followed link of a page printed below the limit is printed, at most one level deeper. When the queue ran dry, this holds for every printed page. |
| `CrawlCoverage.RunCoversLinks` | web_crawler_bot.py:21-51 | From any reached state satisfying `Inv`, `WithinLimit` and `LinksCovered`, such as `Init`: however the loop ends, the followed links of pages printed below the limit are printed, at most one level deeper, and those of every printed page when the queue ran dry. |
| `CrawlCoverage.CrawlPrintsHorizon` | web_crawler_bot.py:19-51 | A crawl prints exactly the URLs within `depth - 1` followed links of the seed, and nothing when the limit is below 1. |
| `CrawlLoop.Crawl` | web_crawler_bot.py:19-51 | The imperative loop computes `Run` from the initial state. Its result prints no URL twice and only depths from 1 to the limit, in non-decreasing order. Its visited set equals the printed URLs, which are exactly the URLs within `depth - 1` followed links of the seed. After a `break` only too-deep items remain. The followed links of pages printed below the limit are all visited. |
| `CrawlExample.SeedLinks` | web_crawler_bot.py:45-51 | Scanning a page whose anchors are A, one without `href`, the relative link "/c", and B pushes exactly A and B at depth 2: the missing and relative hrefs fail the `startswith("http")` test. |
| `CrawlExample.BreadthFirstOrder` | web_crawler_bot.py:19-51 | On a site where the seed links to A then B (with an anchor without `href` and a relative link in between, neither followed), A links to C, and B's fetch fails, the crawl prints seed, A, B, C in that order. |
| `CrawlExample.UnboundedSiteStops` | web_crawler_bot.py:21-51 | On a site where every page links to a new, longer URL, the crawl with depth 2 prints the seed and its link, then stops at the `break`. |

## Left out

- HTTP fetching (`requests.get`, `raise_for_status`, lines 34-35): network I/O, replaced by the `Env.fetch` oracle. Its two error outcomes stand for `HTTPError` and `RequestException`. The oracle always answers. `requests.get` at line 34 is called without a timeout, so the Python loop can block forever on one page; the termination of `Run` holds only for fetches that return.
- HTML parsing (`BeautifulSoup(...).find_all("a")`, `link.get("href")`, lines 43-46): a foreign library, replaced by the anchor sequence of `Fetch.Page`, where an absent `href` is `None`.
- `is_allowed_by_robots_txt` and `RobotFileParser` (lines 9, 12-17): network I/O and a foreign parser, replaced by the predicate `Env.allowed`, applied to the current page URL as at line 49. Line 49 passes a plain string where line 13 reads `.scheme` and `.netloc`, which would raise `AttributeError` in Python. The model does not reproduce that crash.
- `urljoin` (line 48): reference resolution as in section 5.2 of RFC 3986, left as the function `Env.join`. Line 48 runs outside the `try` of lines 33-41. For an admissible href such as `http://[x`, Python's `urljoin` raises `ValueError` ("Invalid IPv6 URL"), and that exception ends the whole crawl. `Env.join` is total, so the model has no such outcome.
- The default `depth=2` of line 7: `Env.maxDepth` is always given. The default call is the case `maxDepth == 2`.
- The prints of error messages (lines 37 and 40): only the "Crawling" line of line 30 is logged.
- The interactive entry point (`input()` and `__main__`, lines 53-55).
