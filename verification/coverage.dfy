/** What the crawl does not miss. Every followed link of a printed page stays
    accounted for: printed, still queued, or cut off by the `break`. When the
    loop ends, every followed link of a page printed below the limit has been
    printed, and the crawl prints exactly the URLs within `maxDepth - 1`
    followed links of the seed. */
module CrawlCoverage {
  import opened CrawlTypes
  import opened Links
  import opened Crawler
  import opened CrawlReach
  import opened CrawlRun

  /** Some entry of `items` is `u`, at a depth of at most `d`. */
  predicate Listed(items: seq<Item>, u: string, d: int)
  {
    exists j :: 0 <= j < |items| && items[j].url == u && items[j].depth <= d
  }

  /** `u`, found at depth `d`, is accounted for: printed or queued at depth at
      most `d`, or the loop broke off with `d` beyond the limit. */
  predicate Covered(env: Env, s: State, u: string, d: int)
  {
    || Listed(s.log, u, d)
    || Listed(s.queue, u, d)
    || (s.status == DepthExceeded && d > env.maxDepth)
  }

  /** Every followed link of a printed page is accounted for one level below
      the page. */
  ghost predicate LinksCovered(env: Env, s: State)
  {
    forall k, i :: 0 <= k < |s.log| && Follows(env, s.log[k].url, i) ==>
      Covered(env, s, Target(env, s.log[k].url, i), s.log[k].depth + 1)
  }

  lemma ListedConcat(a: seq<Item>, b: seq<Item>, u: string, d: int)
    requires Listed(a, u, d) || Listed(b, u, d)
    ensures Listed(a + b, u, d)
  {
    if Listed(a, u, d) {
      var j :| 0 <= j < |a| && a[j].url == u && a[j].depth <= d;
      assert (a + b)[j] == a[j];
    } else {
      var j :| 0 <= j < |b| && b[j].url == u && b[j].depth <= d;
      assert (a + b)[|a| + j] == b[j];
    }
  }

  /** An entry of a queue is its front or an entry of the rest. */
  lemma ListedFront(q: seq<Item>, u: string, d: int)
    requires Listed(q, u, d)
    ensures (q[0].url == u && q[0].depth <= d) || Listed(q[1..], u, d)
  {
    var j :| 0 <= j < |q| && q[j].url == u && q[j].depth <= d;
    if j > 0 {
      assert q[1..][j - 1] == q[j];
    }
  }

  /** Under the invariant, a visited URL was printed no deeper than the front
      of the queue. */
  lemma VisitedListed(s: State, u: string, d: int)
    requires Inv(s) && |s.queue| > 0 && u in s.visited && s.queue[0].depth <= d
    ensures Listed(s.log, u, d)
  {
    var m :| 0 <= m < |s.log| && s.log[m].url == u;
    assert s.log[m].depth <= s.log[|s.log| - 1].depth;
  }

  /** The queue running dry keeps what the log accounts for. */
  lemma ExhaustCovered(env: Env, s: State, u: string, d: int)
    requires s.status == Running && |s.queue| == 0 && Covered(env, s, u, d)
    ensures Covered(env, Step(env, s), u, d)
  {
  }

  /** The `break` turns a queued entry into a cut-off one: it is at least as
      deep as the too-deep front. */
  lemma BreakCovered(env: Env, s: State, u: string, d: int)
    requires Inv(s) && s.status == Running && |s.queue| > 0 && s.queue[0].depth > env.maxDepth
    requires Covered(env, s, u, d)
    ensures Covered(env, Step(env, s), u, d)
  {
    if Listed(s.queue, u, d) {
      var j :| 0 <= j < |s.queue| && s.queue[j].url == u && s.queue[j].depth <= d;
      assert s.queue[0].depth <= s.queue[j].depth;
    }
  }

  /** Skipping an already visited front: it was printed no deeper. */
  lemma DropCovered(env: Env, s: State, u: string, d: int)
    requires Inv(s) && s.status == Running && |s.queue| > 0
    requires s.queue[0].depth <= env.maxDepth && s.queue[0].url in s.visited
    requires Covered(env, s, u, d)
    ensures Covered(env, Step(env, s), u, d)
  {
    if Listed(s.queue, u, d) {
      ListedFront(s.queue, u, d);
      if s.queue[0].url == u && s.queue[0].depth <= d {
        VisitedListed(s, u, d);
      }
    }
  }

  /** Visiting the front: it moves from the queue to the log at its depth. */
  lemma VisitCovered(env: Env, s: State, u: string, d: int)
    requires s.status == Running && |s.queue| > 0
    requires s.queue[0].depth <= env.maxDepth && s.queue[0].url !in s.visited
    requires Covered(env, s, u, d)
    ensures Covered(env, Step(env, s), u, d)
  {
    var h := s.queue[0];
    var r := Step(env, s);
    VisitQueue(env, s);
    if Listed(s.log, u, d) {
      ListedConcat(s.log, [h], u, d);
    } else {
      ListedFront(s.queue, u, d);
      if h.url == u && h.depth <= d {
        assert r.log[|s.log|] == h;
      } else {
        ListedConcat(s.queue[1..], Pushes(env, h, s.visited + {h.url}), u, d);
      }
    }
  }

  /** The links of the page just printed: each is printed already, no deeper
      than the page, or is pushed one level deeper. */
  lemma VisitLinksCovered(env: Env, s: State, i: int)
    requires Inv(s) && s.status == Running && |s.queue| > 0
    requires s.queue[0].depth <= env.maxDepth && s.queue[0].url !in s.visited
    requires Follows(env, s.queue[0].url, i)
    ensures Covered(env, Step(env, s), Target(env, s.queue[0].url, i), s.queue[0].depth + 1)
  {
    var h := s.queue[0];
    var t := Target(env, h.url, i);
    var seen := s.visited + {h.url};
    var r := Step(env, s);
    VisitQueue(env, s);
    if t == h.url {
      assert r.log[|s.log|] == h;
    } else if t in s.visited {
      VisitedListed(s, t, h.depth + 1);
      ListedConcat(s.log, [h], t, h.depth + 1);
    } else {
      FollowedPushed(env, h, seen);
      var j :| 0 <= j < |Pushes(env, h, seen)| && Pushes(env, h, seen)[j] == Item(t, h.depth + 1);
      ListedConcat(s.queue[1..], Pushes(env, h, seen), t, h.depth + 1);
    }
  }

  /** Everything accounted for before a pass stays accounted for after it. */
  lemma StepKeepsCovered(env: Env, s: State, u: string, d: int)
    requires Inv(s) && Covered(env, s, u, d)
    ensures Covered(env, Step(env, s), u, d)
  {
    if s.status == Running {
      if |s.queue| == 0 {
        ExhaustCovered(env, s, u, d);
      } else if s.queue[0].depth > env.maxDepth {
        BreakCovered(env, s, u, d);
      } else if s.queue[0].url in s.visited {
        DropCovered(env, s, u, d);
      } else {
        VisitCovered(env, s, u, d);
      }
    }
  }

  /** Every loop pass keeps every followed link of a printed page accounted
      for, including across the `break`. */
  lemma StepKeepsLinksCovered(env: Env, s: State)
    requires Inv(s) && LinksCovered(env, s)
    ensures LinksCovered(env, Step(env, s))
  {
    var r := Step(env, s);
    forall k, i | 0 <= k < |r.log| && Follows(env, r.log[k].url, i)
      ensures Covered(env, r, Target(env, r.log[k].url, i), r.log[k].depth + 1)
    {
      if k < |s.log| {
        assert r.log[k] == s.log[k];
        StepKeepsCovered(env, s, Target(env, s.log[k].url, i), s.log[k].depth + 1);
      } else {
        VisitLinksCovered(env, s, i);
      }
    }
  }

  lemma {:induction false} RunKeepsLinksCovered(env: Env, seed: string, s: State)
    requires Reached(env, seed, s) && Inv(s) && WithinLimit(env.maxDepth, s) && LinksCovered(env, s)
    ensures LinksCovered(env, Run(env, seed, s))
    decreases Unvisited(env, seed, s), |s.queue|, if s.status == Running then 1 else 0
  {
    if s.status == Running {
      StepProgress(env, seed, s);
      StepKeepsInv(env, s);
      StepKeepsLinksCovered(env, s);
      RunKeepsLinksCovered(env, seed, Step(env, s));
    }
  }

  /** What a stopped loop leaves behind: nothing when the queue ran dry, only
      too-deep items after the `break`. */
  predicate Stopped(env: Env, s: State)
  {
    && s.status != Running
    && (s.status == Exhausted ==> |s.queue| == 0)
    && (s.status == DepthExceeded ==> forall k :: 0 <= k < |s.queue| ==> s.queue[k].depth > env.maxDepth)
  }

  /** In a stopped state whose printed pages' followed links are all accounted
      for (`LinksCovered`, which `Init` has and every pass keeps), the followed
      links of a page are printed, one level deeper at most, whenever the queue
      ran dry or the page lies below the limit. Only links of pages at the limit
      itself can be cut off by the `break`. */
  lemma FinalLinksPrinted(env: Env, s: State, k: int, i: int)
    requires Stopped(env, s) && LinksCovered(env, s)
    requires 0 <= k < |s.log| && Follows(env, s.log[k].url, i)
    requires s.status == Exhausted || s.log[k].depth < env.maxDepth
    ensures Listed(s.log, Target(env, s.log[k].url, i), s.log[k].depth + 1)
  {
    var t := Target(env, s.log[k].url, i);
    var d := s.log[k].depth + 1;
    assert !Listed(s.queue, t, d) by {
      if s.status == DepthExceeded {
        assert forall j :: 0 <= j < |s.queue| ==> s.queue[j].depth > d;
      }
    }
  }

  /** The same for every printed page of a stopped, covered state at once. */
  lemma FinalCoversLinks(env: Env, s: State)
    requires Stopped(env, s) && LinksCovered(env, s)
    ensures forall k, i ::
      (0 <= k < |s.log| && Follows(env, s.log[k].url, i)
       && (s.status == Exhausted || s.log[k].depth < env.maxDepth)) ==>
      Listed(s.log, Target(env, s.log[k].url, i), s.log[k].depth + 1)
  {
    forall k, i | 0 <= k < |s.log| && Follows(env, s.log[k].url, i)
        && (s.status == Exhausted || s.log[k].depth < env.maxDepth)
      ensures Listed(s.log, Target(env, s.log[k].url, i), s.log[k].depth + 1)
    {
      FinalLinksPrinted(env, s, k, i);
    }
  }

  /** From any reached state that keeps the invariant, the depth guarantee and
      `LinksCovered`, such as `Init`: whichever way the loop ends, each followed
      link of a page printed below the limit is printed too, and after the
      queue runs dry, each followed link of every printed page is. */
  lemma RunCoversLinks(env: Env, seed: string, s: State, r: State)
    requires Reached(env, seed, s) && Inv(s) && WithinLimit(env.maxDepth, s) && LinksCovered(env, s)
    requires r == Run(env, seed, s)
    ensures forall k, i ::
      (0 <= k < |r.log| && Follows(env, r.log[k].url, i)
       && (r.status == Exhausted || r.log[k].depth < env.maxDepth)) ==>
      Listed(r.log, Target(env, r.log[k].url, i), r.log[k].depth + 1)
  {
    assert Stopped(env, r) by {
      RunKeepsInv(env, seed, s);
    }
    assert LinksCovered(env, r) by {
      RunKeepsLinksCovered(env, seed, s);
    }
    FinalCoversLinks(env, r);
  }

  /** The crawl prints the seed first, at depth 1, whenever the limit admits it. */
  lemma CrawlPrintsSeedFirst(env: Env, seed: string, r: State)
    requires env.maxDepth >= 1
    requires r == Crawled(env, seed)
    ensures |r.log| > 0 && r.log[0] == Item(seed, 1)
  {
    InitReached(env, seed);
    var s := Init(seed);
    StepProgress(env, seed, s);
    assert Run(env, seed, s) == Run(env, seed, Step(env, s));
    assert Step(env, s).log == [Item(seed, 1)];
  }

  /** By induction over the horizon's layers: every URL within `n` followed
      links of the seed, for `n` below the limit, is printed at depth at most
      `n + 1`. */
  lemma {:induction false} HorizonPrinted(env: Env, seed: string, r: State, n: nat)
    requires Stopped(env, r) && LinksCovered(env, r)
    requires |r.log| > 0 && r.log[0] == Item(seed, 1)
    requires n < env.maxDepth
    ensures forall u :: u in Horizon(env, seed, n) ==> Listed(r.log, u, n + 1)
    decreases n
  {
    if n == 0 {
      assert Listed(r.log, seed, 1);
    } else {
      HorizonPrinted(env, seed, r, n - 1);
      forall u | u in Horizon(env, seed, n)
        ensures Listed(r.log, u, n + 1)
      {
        HorizonCases(env, seed, n, u);
        if u in Horizon(env, seed, n - 1) {
          var j :| 0 <= j < |r.log| && r.log[j].url == u && r.log[j].depth <= n;
        } else {
          var v, i :| v in Horizon(env, seed, n - 1) && Follows(env, v, i) && Target(env, v, i) == u;
          var j :| 0 <= j < |r.log| && r.log[j].url == v && r.log[j].depth <= n;
          FinalLinksPrinted(env, r, j, i);
          var m :| 0 <= m < |r.log| && r.log[m].url == u && r.log[m].depth <= r.log[j].depth + 1;
        }
      }
    }
  }

  /** The facts about a finished crawl that the horizon induction uses. */
  lemma CrawlStopped(env: Env, seed: string, r: State)
    requires env.maxDepth >= 1
    requires r == Crawled(env, seed)
    ensures Stopped(env, r) && LinksCovered(env, r)
    ensures |r.log| > 0 && r.log[0] == Item(seed, 1)
  {
    InitReached(env, seed);
    var s := Init(seed);
    assert Stopped(env, r) by {
      RunKeepsInv(env, seed, s);
    }
    assert LinksCovered(env, r) by {
      assert LinksCovered(env, s);
      RunKeepsLinksCovered(env, seed, s);
    }
    CrawlPrintsSeedFirst(env, seed, r);
  }

  lemma ListedUrl(items: seq<Item>, u: string, d: int)
    requires Listed(items, u, d)
    ensures u in Urls(items)
  {
    var j :| 0 <= j < |items| && items[j].url == u && items[j].depth <= d;
  }

  /** In a stopped state that printed the seed first, every URL within
      `maxDepth - 1` followed links of the seed is printed. */
  lemma HorizonCovered(env: Env, seed: string, r: State)
    requires env.maxDepth >= 1 && Stopped(env, r) && LinksCovered(env, r)
    requires |r.log| > 0 && r.log[0] == Item(seed, 1)
    ensures Horizon(env, seed, env.maxDepth - 1) <= Urls(r.log)
  {
    var n := env.maxDepth - 1;
    HorizonPrinted(env, seed, r, n);
    forall u | u in Horizon(env, seed, n)
      ensures u in Urls(r.log)
    {
      ListedUrl(r.log, u, n + 1);
    }
  }

  /** The crawl prints exactly the URLs within `maxDepth - 1` followed links
      of the seed, and nothing when the limit is below 1. */
  lemma CrawlPrintsHorizon(env: Env, seed: string, r: State)
    requires r == Crawled(env, seed)
    ensures Urls(r.log) == if env.maxDepth >= 1 then Horizon(env, seed, env.maxDepth - 1) else {}
  {
    CrawlDepthBound(env, seed, r);
    if env.maxDepth >= 1 {
      CrawlStopped(env, seed, r);
      HorizonCovered(env, seed, r);
    } else {
      assert |r.log| == 0;
    }
  }
}
