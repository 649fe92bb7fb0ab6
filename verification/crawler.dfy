/** One iteration of the crawler's `while` loop as a pure transition on `State`. */
module Crawler {
  import opened CrawlTypes
  import opened Links

  /** The state before the loop: the seed alone in the queue, at depth 1. */
  function Init(seed: string): (s: State)
    ensures Inv(s)
    ensures forall maxDepth: int :: WithinLimit(maxDepth, s)
    ensures s.queue == [Item(seed, 1)] && Urls(s.queue) == {seed}
    ensures s.visited == {} && s.log == [] && s.status == Running
  {
    var s := State([Item(seed, 1)], {}, [], Running);
    assert Urls(s.queue) == {seed} by {
      assert s.queue[0].url == seed;
    }
    s
  }

  /** Lines 30-51 for a popped item `h` that passed the depth and visited
      checks: print it, mark it visited, fetch it, and push its admissible links. */
  function Visit(env: Env, s: State, h: Item, rest: seq<Item>): State
  {
    var visited := s.visited + {h.url};
    State(rest + Pushes(env, h, visited), visited, s.log + [h], Running)
  }

  /** One pass of the `while` loop (lines 21-51). A stopped state is left as it is. */
  function Step(env: Env, s: State): (r: State)
    ensures s.visited <= r.visited && s.log <= r.log && |r.log| <= |s.log| + 1
    ensures |r.log| == |s.log| + 1 ==>
      && s.status == Running && |s.queue| > 0
      && r.log[|s.log|] == s.queue[0]
      && s.queue[0].depth <= env.maxDepth
      && s.queue[0].url !in s.visited
      && r.visited == s.visited + {s.queue[0].url}
    ensures |r.log| == |s.log| ==> r.visited == s.visited
    ensures s.status == Running && |s.queue| > 0
            && s.queue[0].depth <= env.maxDepth && s.queue[0].url !in s.visited ==>
      |r.log| == |s.log| + 1 && r.status == Running
    ensures s.status == Running && |s.queue| > 0 ==> s.queue[1..] <= r.queue
  {
    if s.status != Running then s
    else if |s.queue| == 0 then s.(status := Exhausted)
    else
      var h := s.queue[0];
      var rest := s.queue[1..];
      if h.depth > env.maxDepth then s.(queue := rest, status := DepthExceeded)
      else if h.url in s.visited then s.(queue := rest)
      else Visit(env, s, h, rest)
  }

  /** A reference loop in which a too-deep item is dropped like a visited one
      (`continue`) instead of ending the loop (`break`). */
  function StepSkipping(env: Env, s: State): (r: State)
    ensures s.status == Running && |s.queue| > 0 && s.queue[0].depth > env.maxDepth ==>
      r.status == Running && r.log == s.log && r.visited == s.visited && |r.queue| == |s.queue| - 1
  {
    if s.status == Running && |s.queue| > 0 && s.queue[0].depth > env.maxDepth
    then s.(queue := s.queue[1..])
    else Step(env, s)
  }

  /** The invariant the loop keeps, whatever the environment:
      - the visited set is exactly the set of printed URLs, and none is printed twice;
      - the queue's depths are at least 1, non-decreasing, and span at most one level;
      - printed depths are non-decreasing and none exceeds the queue's front (BFS order);
      - an exhausted run has an empty queue. */
  predicate Inv(s: State)
  {
    && s.visited == Urls(s.log)
    && DistinctUrls(s.log)
    && NonDecreasing(s.queue)
    && (forall k :: 0 <= k < |s.queue| ==> 1 <= s.queue[k].depth <= s.queue[0].depth + 1)
    && NonDecreasing(s.log)
    && (forall k :: 0 <= k < |s.log| ==> 1 <= s.log[k].depth)
    && (|s.log| > 0 && |s.queue| > 0 ==> s.log[|s.log| - 1].depth <= s.queue[0].depth)
    && (s.status == Exhausted ==> |s.queue| == 0)
  }

  /** What the depth limit guarantees: nothing deeper than the limit was
      printed, and a run that hit the `break` left only too-deep items behind. */
  predicate WithinLimit(maxDepth: int, s: State)
  {
    && (forall k :: 0 <= k < |s.log| ==> s.log[k].depth <= maxDepth)
    && (s.status == DepthExceeded ==> forall k :: 0 <= k < |s.queue| ==> s.queue[k].depth > maxDepth)
  }

  /** The queue after a visit is still ordered: `rest` lies within one level
      of the popped depth and the new links are pushed one level deeper. */
  lemma QueueAfterVisit(q: seq<Item>, d: seq<Item>)
    requires |q| > 0 && NonDecreasing(q)
    requires forall k :: 0 <= k < |q| ==> 1 <= q[k].depth <= q[0].depth + 1
    requires forall k :: 0 <= k < |d| ==> d[k].depth == q[0].depth + 1
    ensures NonDecreasing(q[1..] + d)
    ensures var n := q[1..] + d;
      (forall k :: 0 <= k < |n| ==> 1 <= n[k].depth <= n[0].depth + 1)
      && (|n| > 0 ==> q[0].depth <= n[0].depth)
  {
  }

  /** The queue after visiting the front item: the rest of the queue, then
      the page's pushed links (none when the fetch failed). */
  lemma VisitQueue(env: Env, s: State)
    requires s.status == Running && |s.queue| > 0
    requires s.queue[0].depth <= env.maxDepth && s.queue[0].url !in s.visited
    ensures Step(env, s).queue == s.queue[1..] + Pushes(env, s.queue[0], s.visited + {s.queue[0].url})
    ensures Step(env, s).log == s.log + [s.queue[0]]
    ensures Step(env, s).visited == s.visited + {s.queue[0].url}
    ensures Step(env, s).status == Running
  {
  }

  /** Appending the newly printed item keeps the log's invariant. */
  lemma LogAfterVisit(log: seq<Item>, h: Item)
    requires DistinctUrls(log) && NonDecreasing(log)
    requires forall k :: 0 <= k < |log| ==> 1 <= log[k].depth
    requires |log| > 0 ==> log[|log| - 1].depth <= h.depth
    requires h.url !in Urls(log) && 1 <= h.depth
    ensures DistinctUrls(log + [h]) && NonDecreasing(log + [h])
    ensures forall k :: 0 <= k < |log + [h]| ==> 1 <= (log + [h])[k].depth
  {
  }

  /** Visiting the front item keeps the invariant and the depth guarantee. */
  lemma VisitKeepsInv(env: Env, s: State)
    requires Inv(s) && WithinLimit(env.maxDepth, s)
    requires s.status == Running && |s.queue| > 0
    requires s.queue[0].depth <= env.maxDepth && s.queue[0].url !in s.visited
    ensures Inv(Step(env, s)) && WithinLimit(env.maxDepth, Step(env, s))
  {
    var h := s.queue[0];
    var d := Pushes(env, h, s.visited + {h.url});
    VisitQueue(env, s);
    assert forall k :: 0 <= k < |d| ==> d[k].depth == h.depth + 1;
    QueueAfterVisit(s.queue, d);
    UrlsAppend(s.log, h);
    LogAfterVisit(s.log, h);
  }

  /** Dropping the front item (already visited, or too deep for the reference
      loop) keeps the invariant. */
  lemma DropKeepsInv(s: State)
    requires Inv(s) && s.status == Running && |s.queue| > 0
    ensures Inv(s.(queue := s.queue[1..]))
  {
  }

  /** Every loop pass keeps the invariant and the depth guarantee. */
  lemma StepKeepsInv(env: Env, s: State)
    requires Inv(s) && WithinLimit(env.maxDepth, s)
    ensures Inv(Step(env, s)) && WithinLimit(env.maxDepth, Step(env, s))
  {
    if s.status == Running && |s.queue| > 0 {
      var h := s.queue[0];
      if h.depth > env.maxDepth {
        BreakOnFirstTooDeep(env, s);
        DropKeepsInv(s);
      } else if h.url in s.visited {
        DropKeepsInv(s);
      } else {
        VisitKeepsInv(env, s);
      }
    }
  }

  /** What a printing pass pushes (lines 45-51). The page is marked visited
      before its links are filtered, so every item appended behind the rest of
      the queue is a followed link of the popped page that is outside the new
      visited set, one level deeper. Conversely every followed link of the page
      outside that set is appended, one level deeper. */
  lemma StepPushes(env: Env, s: State)
    ensures var r := Step(env, s);
      |r.log| == |s.log| + 1 ==>
        && (forall k :: |s.queue| - 1 <= k < |r.queue| ==>
              && r.queue[k].url !in r.visited
              && r.queue[k].depth == s.queue[0].depth + 1
              && exists i :: Follows(env, s.queue[0].url, i) && Target(env, s.queue[0].url, i) == r.queue[k].url)
        && (forall i :: Follows(env, s.queue[0].url, i) && Target(env, s.queue[0].url, i) !in r.visited ==>
              Item(Target(env, s.queue[0].url, i), s.queue[0].depth + 1) in r.queue[|s.queue| - 1..])
  {
    var r := Step(env, s);
    if |r.log| == |s.log| + 1 {
      var h := s.queue[0];
      var seen := s.visited + {h.url};
      var d := Pushes(env, h, seen);
      VisitQueue(env, s);
      assert r.queue[|s.queue| - 1..] == d;
      PushesFollowed(env, h, seen);
      FollowedPushed(env, h, seen);
      forall k | |s.queue| - 1 <= k < |r.queue|
        ensures r.queue[k] == d[k - (|s.queue| - 1)]
      {
      }
    }
  }

  /** The `break`: the first popped item deeper than the limit ends the loop
      without printing it, and every item still queued is at least as deep. */
  lemma BreakOnFirstTooDeep(env: Env, s: State)
    requires Inv(s) && s.status == Running && |s.queue| > 0
    requires s.queue[0].depth > env.maxDepth
    ensures var r := Step(env, s);
      && r.status == DepthExceeded && r.log == s.log && r.visited == s.visited
      && r.queue == s.queue[1..]
      && forall k :: 0 <= k < |r.queue| ==> r.queue[k].depth > env.maxDepth
  {
  }

  /** Lines 33-41: a failed fetch prints and marks the item, pushes nothing,
      and the loop goes on. */
  lemma FetchFailureIsolated(env: Env, s: State)
    requires s.status == Running && |s.queue| > 0
    requires s.queue[0].depth <= env.maxDepth && s.queue[0].url !in s.visited
    requires !env.fetch(s.queue[0].url).Page?
    ensures var r := Step(env, s);
      && r.status == Running
      && r.queue == s.queue[1..]
      && s.queue[0].url in r.visited
      && r.log == s.log + [s.queue[0]]
  {
  }
}
