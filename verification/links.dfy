/** The anchor loop of the crawler: which links of a fetched page are pushed
    onto the queue, and at which depth. */
module Links {
  import opened CrawlTypes

  /** The test `next_url and next_url.startswith("http")`: the href is present,
      non-empty (Python's truthiness test `next_url and`, which the prefix test
      already implies) and begins with "http". */
  predicate Admissible(href: Option<string>)
  {
    href.Some? && href.value != "" && "http" <= href.value
  }

  /** `href` of page `current` is pushed: it is admissible, its joined form is
      not yet visited, and the gate allows `current` (the page itself, not the link). */
  predicate Pushed(env: Env, current: string, visited: set<string>, href: Option<string>)
  {
    Admissible(href) && env.join(current, href.value) !in visited && env.allowed(current)
  }

  /** The items pushed while scanning the anchors `hrefs` of page `current`,
      popped at `depth`, with `visited` the visited set during the scan. */
  function Discovered(env: Env, current: string, depth: nat, visited: set<string>,
                      hrefs: seq<Option<string>>): (r: seq<Item>)
    ensures |r| <= |hrefs|
    ensures !env.allowed(current) ==> r == []
    ensures forall k :: 0 <= k < |r| ==>
      r[k].depth == depth + 1 && r[k].url !in visited && env.allowed(current)
    ensures forall k :: 0 <= k < |r| ==>
      exists i :: 0 <= i < |hrefs| && Pushed(env, current, visited, hrefs[i])
        && r[k].url == env.join(current, hrefs[i].value)
    ensures forall i :: 0 <= i < |hrefs| && Pushed(env, current, visited, hrefs[i]) ==>
      Item(env.join(current, hrefs[i].value), depth + 1) in r
  {
    if |hrefs| == 0 then []
    else
      var tail := Discovered(env, current, depth, visited, hrefs[1..]);
      assert forall i :: 1 <= i < |hrefs| ==> hrefs[i] == hrefs[1..][i - 1];
      if Pushed(env, current, visited, hrefs[0])
      then [Item(env.join(current, hrefs[0].value), depth + 1)] + tail
      else tail
  }

  /** Scanning a page in two parts pushes the first part's links first:
      the queue receives links in document order. */
  lemma {:induction false} DiscoveredAppend(env: Env, current: string, depth: nat,
                                            visited: set<string>, a: seq<Option<string>>,
                                            b: seq<Option<string>>)
    ensures Discovered(env, current, depth, visited, a + b)
         == Discovered(env, current, depth, visited, a) + Discovered(env, current, depth, visited, b)
    decreases |a|
  {
    if |a| == 0 {
      assert a + b == b;
    } else {
      assert (a + b)[1..] == a[1..] + b;
      assert (a + b)[0] == a[0];
      DiscoveredAppend(env, current, depth, visited, a[1..], b);
    }
  }

  /** The anchors a successful fetch of `u` yields; none when the fetch
      raised (lines 33-41), so nothing is pushed for it. */
  function Anchors(env: Env, u: string): seq<Option<string>>
  {
    match env.fetch(u)
    case Page(hrefs) => hrefs
    case _ => []
  }

  /** Anchor `i` of page `v` is followed: it is admissible and the gate is
      open for `v`. */
  predicate Follows(env: Env, v: string, i: int)
  {
    0 <= i < |Anchors(env, v)| && Admissible(Anchors(env, v)[i]) && env.allowed(v)
  }

  /** The URL a followed anchor leads to: `urljoin(v, href)`. */
  function Target(env: Env, v: string, i: int): string
    requires Follows(env, v, i)
  {
    env.join(v, Anchors(env, v)[i].value)
  }

  /** The items pushed while visiting `h`, with `visited` already holding `h`. */
  function Pushes(env: Env, h: Item, visited: set<string>): seq<Item>
  {
    Discovered(env, h.url, h.depth, visited, Anchors(env, h.url))
  }

  /** Every item pushed while visiting `h` is a followed anchor of `h` that
      leads outside `visited`, one level deeper than `h`. */
  lemma PushesFollowed(env: Env, h: Item, visited: set<string>)
    ensures var d := Pushes(env, h, visited);
      forall k :: 0 <= k < |d| ==>
        d[k].depth == h.depth + 1 && d[k].url !in visited
        && exists i :: Follows(env, h.url, i) && Target(env, h.url, i) == d[k].url
  {
    var a := Anchors(env, h.url);
    var d := Pushes(env, h, visited);
    forall k | 0 <= k < |d|
      ensures exists i :: Follows(env, h.url, i) && Target(env, h.url, i) == d[k].url
    {
      var i :| 0 <= i < |a| && Pushed(env, h.url, visited, a[i]) && d[k].url == env.join(h.url, a[i].value);
      assert Follows(env, h.url, i);
    }
  }

  /** Conversely, every followed anchor of `h` leading outside `visited` is
      pushed, one level deeper than `h`. */
  lemma FollowedPushed(env: Env, h: Item, visited: set<string>)
    ensures forall i :: Follows(env, h.url, i) && Target(env, h.url, i) !in visited ==>
      Item(Target(env, h.url, i), h.depth + 1) in Pushes(env, h, visited)
  {
    var a := Anchors(env, h.url);
    forall i | Follows(env, h.url, i) && Target(env, h.url, i) !in visited
      ensures Item(Target(env, h.url, i), h.depth + 1) in Pushes(env, h, visited)
    {
      assert Pushed(env, h.url, visited, a[i]);
    }
  }
}
