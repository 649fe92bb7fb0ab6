/** The crawler as an imperative loop over the model's state. */
module CrawlLoop {
  import opened CrawlTypes
  import opened Links
  import opened Crawler
  import opened CrawlReach
  import opened CrawlRun
  import opened CrawlCoverage

  /** The final state of a whole crawl from `seed`: nothing is printed twice,
      only depths 1 to the limit are printed, in non-decreasing order, the
      visited set is exactly the printed URLs, and after a `break` only
      too-deep items remain. */
  lemma CrawlOutcome(env: Env, seed: string, r: State)
    requires r == Crawled(env, seed)
    ensures DistinctUrls(r.log) && r.visited == Urls(r.log) && NonDecreasing(r.log)
    ensures forall k :: 0 <= k < |r.log| ==> 1 <= r.log[k].depth <= env.maxDepth
    ensures r.status == DepthExceeded ==>
      forall k :: 0 <= k < |r.queue| ==> r.queue[k].depth > env.maxDepth
  {
    InitReached(env, seed);
    RunKeepsInv(env, seed, Init(seed));
  }

  /** After a whole crawl from `seed`, the followed links of every page
      printed below the limit are visited, and so are those of every printed
      page when the queue ran dry. */
  lemma CrawlCoversLinks(env: Env, seed: string, r: State)
    requires r == Crawled(env, seed)
    ensures forall k, i ::
      (0 <= k < |r.log| && Follows(env, r.log[k].url, i)
       && (r.status == Exhausted || r.log[k].depth < env.maxDepth)) ==>
      Target(env, r.log[k].url, i) in r.visited
  {
    InitReached(env, seed);
    var s := Init(seed);
    assert Stopped(env, r) && r.visited == Urls(r.log) by {
      RunKeepsInv(env, seed, s);
    }
    assert LinksCovered(env, r) by {
      assert LinksCovered(env, s);
      RunKeepsLinksCovered(env, seed, s);
    }
    forall k, i | 0 <= k < |r.log| && Follows(env, r.log[k].url, i)
        && (r.status == Exhausted || r.log[k].depth < env.maxDepth)
      ensures Target(env, r.log[k].url, i) in r.visited
    {
      FinalLinksPrinted(env, r, k, i);
    }
  }

  /** The crawler as written: seed the queue at depth 1 and loop until the
      queue is empty or the `break`. The result is the run of `Step` from the
      initial state. Nothing is printed twice, only depths 1 to the limit are
      printed, in non-decreasing order, and the visited set is exactly the
      printed URLs. The followed links of every page printed below the limit
      are printed too, and the printed URLs are exactly the URLs within
      `maxDepth - 1` followed links of the seed. */
  method Crawl(env: Env, seed: string) returns (final: State)
    ensures final == Crawled(env, seed)
    ensures final.status != Running
    ensures DistinctUrls(final.log) && final.visited == Urls(final.log)
    ensures NonDecreasing(final.log)
    ensures forall k :: 0 <= k < |final.log| ==> 1 <= final.log[k].depth <= env.maxDepth
    ensures final.status == DepthExceeded ==>
      forall k :: 0 <= k < |final.queue| ==> final.queue[k].depth > env.maxDepth
    ensures forall k, i ::
      (0 <= k < |final.log| && Follows(env, final.log[k].url, i)
       && (final.status == Exhausted || final.log[k].depth < env.maxDepth)) ==>
      Target(env, final.log[k].url, i) in final.visited
    ensures final.visited == if env.maxDepth >= 1 then Horizon(env, seed, env.maxDepth - 1) else {}
  {
    InitReached(env, seed);
    var s := Init(seed);
    while s.status == Running
      invariant Reached(env, seed, s)
      invariant Run(env, seed, s) == Run(env, seed, Init(seed))
      decreases Unvisited(env, seed, s), |s.queue|, if s.status == Running then 1 else 0
    {
      StepProgress(env, seed, s);
      assert Run(env, seed, s) == Run(env, seed, Step(env, s));
      s := Step(env, s);
    }
    assert Run(env, seed, s) == s;
    final := s;
    CrawlOutcome(env, seed, final);
    CrawlCoversLinks(env, seed, final);
    CrawlPrintsHorizon(env, seed, final);
  }
}
