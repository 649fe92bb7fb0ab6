/** The depth limit read as a link distance. A URL printed or queued at depth d
    lies within d - 1 followed links of the seed. The URLs within a bounded
    number of links form a finite set, the crawl's horizon, and that set is
    what bounds the loop: every pass visits a new URL of the horizon, or
    shortens the queue, or stops. */
module CrawlReach {
  import opened CrawlTypes
  import opened Links
  import opened Crawler

  /** The URLs within `n` followed links of `seed`, built layer by layer: the
      seed, then the targets of the followed anchors of every URL of the
      previous layer. */
  ghost function Horizon(env: Env, seed: string, n: nat): set<string>
    decreases n
  {
    if n == 0 then {seed}
    else
      var h := Horizon(env, seed, n - 1);
      h + set v, i | v in h && 0 <= i < |Anchors(env, v)| && Follows(env, v, i) :: Target(env, v, i)
  }

  /** One more link from a URL of the horizon lands in the next horizon. */
  lemma HorizonLink(env: Env, seed: string, n: nat, v: string, i: int)
    requires n > 0 && v in Horizon(env, seed, n - 1) && Follows(env, v, i)
    ensures Target(env, v, i) in Horizon(env, seed, n)
  {
  }

  /** A URL in a later horizon layer is in the previous layer, or is one
      followed link beyond a URL of it. */
  lemma HorizonCases(env: Env, seed: string, n: nat, u: string)
    requires n > 0 && u in Horizon(env, seed, n)
    ensures u in Horizon(env, seed, n - 1)
         || exists v, i :: v in Horizon(env, seed, n - 1) && Follows(env, v, i) && Target(env, v, i) == u
  {
  }

  lemma {:induction false} HorizonMonotonic(env: Env, seed: string, n: nat, m: nat)
    requires n <= m
    ensures Horizon(env, seed, n) <= Horizon(env, seed, m)
    decreases m - n
  {
    if n < m {
      HorizonMonotonic(env, seed, n, m - 1);
    }
  }

  /** `x` lies within `depth - 1` followed links of the seed. */
  ghost predicate ItemReached(env: Env, seed: string, x: Item)
  {
    x.depth >= 1 && x.url in Horizon(env, seed, x.depth - 1)
  }

  /** Every item printed or queued is reached at its depth. */
  ghost predicate Reached(env: Env, seed: string, s: State)
  {
    && (forall k :: 0 <= k < |s.log| ==> ItemReached(env, seed, s.log[k]))
    && (forall k :: 0 <= k < |s.queue| ==> ItemReached(env, seed, s.queue[k]))
  }

  lemma InitReached(env: Env, seed: string)
    ensures Reached(env, seed, Init(seed))
  {
    assert ItemReached(env, seed, Init(seed).queue[0]);
  }

  /** An item one followed link beyond `h`, one level deeper, is reached. */
  lemma LinkReached(env: Env, seed: string, h: Item, i: int, x: Item)
    requires ItemReached(env, seed, h) && Follows(env, h.url, i)
    requires x.url == Target(env, h.url, i) && x.depth == h.depth + 1
    ensures ItemReached(env, seed, x)
  {
    HorizonLink(env, seed, h.depth, h.url, i);
  }

  /** A link pushed from page `h` is one followed link beyond `h`. */
  lemma PushesReached(env: Env, seed: string, h: Item, seen: set<string>)
    requires ItemReached(env, seed, h)
    ensures var d := Pushes(env, h, seen);
      forall k :: 0 <= k < |d| ==> ItemReached(env, seed, d[k])
  {
    var d := Pushes(env, h, seen);
    PushesFollowed(env, h, seen);
    forall k | 0 <= k < |d|
      ensures ItemReached(env, seed, d[k])
    {
      var i :| Follows(env, h.url, i) && Target(env, h.url, i) == d[k].url;
      LinkReached(env, seed, h, i, d[k]);
    }
  }

  /** The queue after a visit: the remaining items, then the pushed links. */
  lemma ConcatReached(env: Env, seed: string, a: seq<Item>, b: seq<Item>)
    requires forall k :: 0 <= k < |a| ==> ItemReached(env, seed, a[k])
    requires forall k :: 0 <= k < |b| ==> ItemReached(env, seed, b[k])
    ensures forall k :: 0 <= k < |a + b| ==> ItemReached(env, seed, (a + b)[k])
  {
    forall k | 0 <= k < |a + b|
      ensures ItemReached(env, seed, (a + b)[k])
    {
      if k < |a| {
        assert (a + b)[k] == a[k];
      } else {
        assert (a + b)[k] == b[k - |a|];
      }
    }
  }

  /** Every loop pass keeps depths honest: every printed or queued item at
      depth d lies within d - 1 followed links of the seed. */
  lemma StepKeepsReached(env: Env, seed: string, s: State)
    requires Reached(env, seed, s)
    ensures Reached(env, seed, Step(env, s))
  {
    if s.status == Running && |s.queue| > 0 {
      var h := s.queue[0];
      var rest := s.queue[1..];
      assert forall k :: 0 <= k < |rest| ==> rest[k] == s.queue[k + 1];
      if h.depth <= env.maxDepth && h.url !in s.visited {
        var seen := s.visited + {h.url};
        VisitQueue(env, s);
        PushesReached(env, seed, h, seen);
        ConcatReached(env, seed, rest, Pushes(env, h, seen));
        ConcatReached(env, seed, s.log, [h]);
      }
    }
  }

  /** The reference loop's extra drop keeps the same property. */
  lemma StepSkippingKeepsReached(env: Env, seed: string, s: State)
    requires Reached(env, seed, s)
    ensures Reached(env, seed, StepSkipping(env, s))
  {
    if s.status == Running && |s.queue| > 0 && s.queue[0].depth > env.maxDepth {
      assert forall k :: 0 <= k < |s.queue| - 1 ==> s.queue[1..][k] == s.queue[k + 1];
    } else {
      StepKeepsReached(env, seed, s);
    }
  }

  /** The deepest link distance the crawl prints: `maxDepth - 1`, and 0 when
      the limit admits nothing (the seed alone is then the horizon). */
  function Lim(env: Env): nat
  {
    if env.maxDepth >= 1 then env.maxDepth - 1 else 0
  }

  /** The URLs of the crawl's horizon not yet visited: the first component of
      the loop's termination measure. */
  ghost function Unvisited(env: Env, seed: string, s: State): nat
  {
    |Horizon(env, seed, Lim(env)) - s.visited|
  }

  /** A URL within the limit that is still unvisited counts towards
      `Unvisited`; visiting it lowers the count. */
  lemma VisitShrinks(env: Env, seed: string, s: State, h: Item)
    requires ItemReached(env, seed, h) && h.depth <= env.maxDepth && h.url !in s.visited
    ensures Unvisited(env, seed, s.(visited := s.visited + {h.url})) < Unvisited(env, seed, s)
  {
    var H := Horizon(env, seed, Lim(env));
    HorizonMonotonic(env, seed, h.depth - 1, Lim(env));
    assert h.url in H - s.visited;
    assert H - (s.visited + {h.url}) == (H - s.visited) - {h.url};
  }

  /** A pass of the running loop keeps every item reached, and it visits a
      new URL of the horizon, or shortens the queue, or stops the loop. */
  lemma StepProgress(env: Env, seed: string, s: State)
    requires Reached(env, seed, s) && s.status == Running
    ensures var r := Step(env, s);
      && Reached(env, seed, r)
      && (Unvisited(env, seed, r) < Unvisited(env, seed, s)
          || (r.visited == s.visited && |r.queue| < |s.queue|)
          || (r.visited == s.visited && r.queue == s.queue && r.status != Running))
  {
    StepKeepsReached(env, seed, s);
    if |s.queue| > 0 && s.queue[0].depth <= env.maxDepth && s.queue[0].url !in s.visited {
      VisitShrinks(env, seed, s, s.queue[0]);
    }
  }

  /** The reference loop makes the same progress. */
  lemma StepSkippingProgress(env: Env, seed: string, s: State)
    requires Reached(env, seed, s) && s.status == Running
    ensures var r := StepSkipping(env, s);
      && Reached(env, seed, r)
      && (Unvisited(env, seed, r) < Unvisited(env, seed, s)
          || (r.visited == s.visited && |r.queue| < |s.queue|)
          || (r.visited == s.visited && r.queue == s.queue && r.status != Running))
  {
    StepSkippingKeepsReached(env, seed, s);
    if |s.queue| > 0 && s.queue[0].depth <= env.maxDepth && s.queue[0].url !in s.visited {
      VisitShrinks(env, seed, s, s.queue[0]);
    }
  }
}
