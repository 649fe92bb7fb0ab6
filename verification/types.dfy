/** Data model of the breadth-first crawler in web_crawler_bot.py.

The crawler keeps three pieces of state for one run: a FIFO queue of
(url, depth) pairs, the set of URLs already visited, and the sequence of
"Crawling <url>" lines it prints. Everything it asks of the outside world
(fetching a page, extracting its anchors, robots.txt, urljoin) is a field of
`Env`, so the crawl itself is a pure function of that environment.
 */
module CrawlTypes {

  datatype Option<+T> = None | Some(value: T)

  /** A queue entry: a URL and the depth it was discovered at (the seed has depth 1). */
  datatype Item = Item(url: string, depth: nat)

  /** The outcome of `requests.get(url)` followed by `raise_for_status()` and
      anchor extraction. */
  datatype Fetch =
    | HttpError                          // raise_for_status raised HTTPError
    | RequestError                       // any other RequestException
    | Page(hrefs: seq<Option<string>>)   // `link.get("href")` of every <a>, in document order

  /** The collaborators of one crawl run and its depth limit.
      - `fetch`: the page oracle;
      - `allowed`: the robots.txt gate, asked about a page URL;
      - `join`: `urljoin(base, reference)`;
      - `maxDepth`: the `depth` argument of the crawler. */
  datatype Env = Env(
    fetch: string -> Fetch,
    allowed: string -> bool,
    join: (string, string) -> string,
    maxDepth: int)

  /** Whether the `while` loop is still going, and if not, why it stopped. */
  datatype Status =
    | Running
    | Exhausted       // the queue became empty
    | DepthExceeded   // the `break`: a popped item was deeper than the limit

  /** The loop's state. `log` holds one entry per "Crawling" line, each with
      the depth its URL was popped at. */
  datatype State = State(queue: seq<Item>, visited: set<string>, log: seq<Item>, status: Status)

  /** The URLs occurring in a sequence of items. */
  function Urls(items: seq<Item>): set<string>
  {
    set k | 0 <= k < |items| :: items[k].url
  }

  /** Depths never decrease from front to back. */
  predicate NonDecreasing(items: seq<Item>)
  {
    forall i, j :: 0 <= i < j < |items| ==> items[i].depth <= items[j].depth
  }

  /** No URL occurs twice. */
  predicate DistinctUrls(items: seq<Item>)
  {
    forall i, j :: 0 <= i < j < |items| ==> items[i].url != items[j].url
  }

  lemma UrlsConcat(a: seq<Item>, b: seq<Item>)
    ensures Urls(a + b) == Urls(a) + Urls(b)
  {
    var ab := a + b;
    forall u | u in Urls(a) + Urls(b)
      ensures u in Urls(ab)
    {
      if u in Urls(a) {
        var k :| 0 <= k < |a| && a[k].url == u;
        assert ab[k] == a[k];
      } else {
        var k :| 0 <= k < |b| && b[k].url == u;
        assert ab[|a| + k] == b[k];
      }
    }
    forall u | u in Urls(ab)
      ensures u in Urls(a) + Urls(b)
    {
      var k :| 0 <= k < |ab| && ab[k].url == u;
      if k < |a| {
        assert ab[k] == a[k];
      } else {
        assert ab[k] == b[k - |a|];
      }
    }
  }

  lemma UrlsAppend(items: seq<Item>, x: Item)
    ensures Urls(items + [x]) == Urls(items) + {x.url}
  {
    UrlsConcat(items, [x]);
    assert Urls([x]) == {x.url} by {
      assert [x][0].url == x.url;
    }
  }
}
