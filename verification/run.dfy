/** The whole `while` loop: its termination for every environment, the
    properties of the final state, and the `break` compared with skipping. */
module CrawlRun {
  import opened CrawlTypes
  import opened Links
  import opened Crawler
  import opened CrawlReach

  /** The loop run to its end. `seed` is the crawl's seed, needed only for the
      termination argument: every item lies within its depth of the seed, so
      every pass visits a new URL of the finite horizon, or shortens the
      queue, or stops. The link graph itself may be infinite. */
  function Run(env: Env, ghost seed: string, s: State): (r: State)
    requires Reached(env, seed, s)
    ensures r.status != Running
    ensures s.log <= r.log && s.visited <= r.visited
    ensures s.status != Running ==> r == s
    decreases Unvisited(env, seed, s), |s.queue|, if s.status == Running then 1 else 0
  {
    if s.status != Running then s
    else
      StepProgress(env, seed, s);
      Run(env, seed, Step(env, s))
  }

  /** A whole crawl from `seed`: the loop run to its end from the initial state. */
  function Crawled(env: Env, seed: string): State
  {
    InitReached(env, seed);
    Run(env, seed, Init(seed))
  }

  /** The reference loop that skips too-deep items, run to its end. */
  function RunSkipping(env: Env, ghost seed: string, s: State): (r: State)
    requires Reached(env, seed, s)
    ensures r.status != Running
    ensures s.log <= r.log && s.visited <= r.visited
    ensures s.status == Running ==> r.status == Exhausted && |r.queue| == 0
    decreases Unvisited(env, seed, s), |s.queue|, if s.status == Running then 1 else 0
  {
    if s.status != Running then s
    else
      StepSkippingProgress(env, seed, s);
      RunSkipping(env, seed, StepSkipping(env, s))
  }

  /** The final state keeps the loop invariant: no URL printed twice, the
      visited set equal to the printed URLs, printed depths non-decreasing and
      within the limit, and after a `break` only too-deep items left queued. */
  lemma {:induction false} RunKeepsInv(env: Env, seed: string, s: State)
    requires Reached(env, seed, s) && Inv(s) && WithinLimit(env.maxDepth, s)
    ensures Inv(Run(env, seed, s)) && WithinLimit(env.maxDepth, Run(env, seed, s))
    decreases Unvisited(env, seed, s), |s.queue|, if s.status == Running then 1 else 0
  {
    if s.status == Running {
      StepProgress(env, seed, s);
      StepKeepsInv(env, s);
      RunKeepsInv(env, seed, Step(env, s));
    }
  }

  /** The final state keeps every printed or queued item within its depth of
      the seed. */
  lemma {:induction false} RunKeepsReached(env: Env, seed: string, s: State)
    requires Reached(env, seed, s)
    ensures Reached(env, seed, Run(env, seed, s))
    decreases Unvisited(env, seed, s), |s.queue|, if s.status == Running then 1 else 0
  {
    if s.status == Running {
      StepProgress(env, seed, s);
      RunKeepsReached(env, seed, Step(env, s));
    }
  }

  /** With nothing but too-deep items queued, the reference loop prints and
      visits nothing more. */
  lemma {:induction false} SkippingDrainsTooDeep(env: Env, seed: string, s: State)
    requires Reached(env, seed, s) && s.status == Running
    requires forall k :: 0 <= k < |s.queue| ==> s.queue[k].depth > env.maxDepth
    ensures RunSkipping(env, seed, s).log == s.log
    ensures RunSkipping(env, seed, s).visited == s.visited
    decreases |s.queue|
  {
    var r := StepSkipping(env, s);
    StepSkippingProgress(env, seed, s);
    if |s.queue| > 0 {
      forall k | 0 <= k < |r.queue|
        ensures r.queue[k].depth > env.maxDepth
      {
        assert r.queue[k] == s.queue[k + 1];
      }
      SkippingDrainsTooDeep(env, seed, r);
    }
  }

  /** Because queued depths never decrease, the `break` at a too-deep item
      loses nothing: stopping there prints and visits exactly what skipping
      every too-deep item and carrying on would. */
  lemma {:induction false} BreakIsSkipping(env: Env, seed: string, s: State)
    requires Reached(env, seed, s) && Inv(s) && WithinLimit(env.maxDepth, s)
    ensures Run(env, seed, s).log == RunSkipping(env, seed, s).log
    ensures Run(env, seed, s).visited == RunSkipping(env, seed, s).visited
    decreases Unvisited(env, seed, s), |s.queue|, if s.status == Running then 1 else 0
  {
    if s.status == Running {
      StepProgress(env, seed, s);
      StepSkippingProgress(env, seed, s);
      if |s.queue| > 0 && s.queue[0].depth > env.maxDepth {
        BreakOnFirstTooDeep(env, s);
        SkippingDrainsTooDeep(env, seed, StepSkipping(env, s));
      } else {
        StepKeepsInv(env, s);
        BreakIsSkipping(env, seed, Step(env, s));
      }
    }
  }

  /** An item reached at a depth within the limit lies in the horizon. */
  lemma ItemInHorizon(env: Env, seed: string, x: Item)
    requires ItemReached(env, seed, x) && x.depth <= env.maxDepth
    ensures env.maxDepth >= 1 && x.url in Horizon(env, seed, env.maxDepth - 1)
  {
    HorizonMonotonic(env, seed, x.depth - 1, env.maxDepth - 1);
  }

  /** The depth bound of a whole crawl from `seed`: every printed URL lies
      within `maxDepth - 1` followed links of the seed. */
  lemma CrawlDepthBound(env: Env, seed: string, r: State)
    requires r == Crawled(env, seed)
    ensures forall k :: 0 <= k < |r.log| ==>
      env.maxDepth >= 1 && r.log[k].url in Horizon(env, seed, env.maxDepth - 1)
  {
    InitReached(env, seed);
    var s := Init(seed);
    assert forall k :: 0 <= k < |r.log| ==> r.log[k].depth <= env.maxDepth by {
      RunKeepsInv(env, seed, s);
    }
    assert forall k :: 0 <= k < |r.log| ==> ItemReached(env, seed, r.log[k]) by {
      RunKeepsReached(env, seed, s);
    }
    forall k | 0 <= k < |r.log|
      ensures env.maxDepth >= 1 && r.log[k].url in Horizon(env, seed, env.maxDepth - 1)
    {
      ItemInHorizon(env, seed, r.log[k]);
    }
  }
}
