/** A four-page site run through the model: the seed links to A and then B,
    with an anchor without `href` and a relative one in between that are not
    followed; A links to C, and fetching B fails with an HTTP error. */
module CrawlExample {
  import opened CrawlTypes
  import opened Links
  import opened Crawler
  import opened CrawlReach
  import opened CrawlRun

  const Seed := "http://s"
  const A := "http://a"
  const B := "http://b"
  const C := "http://c"

  function Fetcher(u: string): Fetch
  {
    if u == Seed then Page([Some(A), None, Some("/c"), Some(B)])
    else if u == A then Page([Some(C)])
    else if u == B then HttpError
    else Page([])
  }

  function SiteEnv(): Env
  {
    Env(Fetcher, _ => true, (base, reference) => reference, 3)
  }

  lemma Distinct()
    ensures A != Seed && B != Seed && C != Seed && A != B && A != C && B != C
  {
  }

  /** Scanning the seed page pushes A and B; the anchor without `href` and
      the relative link "/c" fail the `startswith("http")` test. */
  lemma SeedLinks()
    ensures Discovered(SiteEnv(), Seed, 1, {Seed}, [Some(A), None, Some("/c"), Some(B)])
         == [Item(A, 2), Item(B, 2)]
  {
    Distinct();
    var env := SiteEnv();
    var hrefs := [Some(A), None, Some("/c"), Some(B)];
    assert !Admissible(Some("/c"));
    assert Discovered(env, Seed, 1, {Seed}, hrefs[3..]) == [Item(B, 2)] by {
      assert hrefs[3..] == [Some(B)];
    }
    assert Discovered(env, Seed, 1, {Seed}, hrefs[2..]) == [Item(B, 2)] by {
      assert hrefs[2..][0] == Some("/c") && hrefs[2..][1..] == hrefs[3..];
    }
    assert Discovered(env, Seed, 1, {Seed}, hrefs[1..]) == [Item(B, 2)] by {
      assert hrefs[1..][0] == None && hrefs[1..][1..] == hrefs[2..];
    }
  }

  /** The seed is printed and its links A and B are queued at depth 2; the
      anchor without `href` and the relative link "/c" are not. */
  lemma VisitSeed()
    ensures Step(SiteEnv(), Init(Seed))
         == State([Item(A, 2), Item(B, 2)], {Seed}, [Item(Seed, 1)], Running)
  {
    var env := SiteEnv();
    var s := Init(Seed);
    SeedLinks();
    VisitQueue(env, s);
    assert Anchors(env, Seed) == [Some(A), None, Some("/c"), Some(B)];
    assert s.visited + {Seed} == {Seed};
    assert Pushes(env, Item(Seed, 1), {Seed}) == [Item(A, 2), Item(B, 2)];
    assert s.queue[1..] == [];
  }

  /** A is printed and its link C is queued behind B, at depth 3. */
  lemma VisitA()
    ensures Step(SiteEnv(), State([Item(A, 2), Item(B, 2)], {Seed}, [Item(Seed, 1)], Running))
         == State([Item(B, 2), Item(C, 3)], {Seed, A}, [Item(Seed, 1), Item(A, 2)], Running)
  {
  }

  /** B is printed, its fetch fails, and nothing is queued. */
  lemma VisitB()
    ensures Step(SiteEnv(), State([Item(B, 2), Item(C, 3)], {Seed, A}, [Item(Seed, 1), Item(A, 2)], Running))
         == State([Item(C, 3)], {Seed, A, B}, [Item(Seed, 1), Item(A, 2), Item(B, 2)], Running)
  {
  }

  /** C is printed and has no links; the queue is now empty. */
  lemma VisitC()
    ensures Step(SiteEnv(), State([Item(C, 3)], {Seed, A, B}, [Item(Seed, 1), Item(A, 2), Item(B, 2)], Running))
         == State([], {Seed, A, B, C}, [Item(Seed, 1), Item(A, 2), Item(B, 2), Item(C, 3)], Running)
  {
  }

  /** The crawl visits the seed, A, B, C in that order (breadth first, not
      seed, A, C, B), and B's failure does not stop C from being crawled. */
  lemma BreadthFirstOrder()
    ensures Crawled(SiteEnv(), Seed).log == [Item(Seed, 1), Item(A, 2), Item(B, 2), Item(C, 3)]
  {
    var env := SiteEnv();
    var s0 := Init(Seed);
    InitReached(env, Seed);
    VisitSeed();
    VisitA();
    VisitB();
    VisitC();
    var s4 := State([], {Seed, A, B, C}, [Item(Seed, 1), Item(A, 2), Item(B, 2), Item(C, 3)], Running);
    var s1 := Step(env, s0);
    var s2 := Step(env, s1);
    var s3 := Step(env, s2);
    assert Step(env, s3) == s4;
    StepProgress(env, Seed, s0);
    StepProgress(env, Seed, s1);
    StepProgress(env, Seed, s2);
    StepProgress(env, Seed, s3);
    StepProgress(env, Seed, s4);
    assert Run(env, Seed, s0) == Run(env, Seed, s1) == Run(env, Seed, s2) == Run(env, Seed, s3)
        == Run(env, Seed, s4) == Run(env, Seed, Step(env, s4));
  }

  /** An unbounded site: every page links to a new, longer URL, so the link
      graph is infinite. */
  function ChainEnv(): Env
  {
    Env(u => Page([Some("http" + u)]), _ => true, (base, reference) => reference, 2)
  }

  const U1 := "http" + Seed
  const U2 := "http" + U1

  lemma ChainDistinct()
    ensures U1 != Seed && U2 != Seed && U2 != U1
    ensures Admissible(Some(U1)) && Admissible(Some(U2))
  {
    assert |Seed| < |U1| < |U2|;
    assert U1[..4] == "http" && U2[..4] == "http";
  }

  /** The seed is printed and its link U1 is queued at depth 2. */
  lemma ChainVisitSeed()
    ensures Step(ChainEnv(), Init(Seed)) == State([Item(U1, 2)], {Seed}, [Item(Seed, 1)], Running)
  {
    ChainDistinct();
    assert Anchors(ChainEnv(), Seed) == [Some(U1)];
  }

  /** U1 is printed and its link U2 is queued at depth 3. */
  lemma ChainVisitU1()
    ensures Step(ChainEnv(), State([Item(U1, 2)], {Seed}, [Item(Seed, 1)], Running))
         == State([Item(U2, 3)], {Seed, U1}, [Item(Seed, 1), Item(U1, 2)], Running)
  {
    ChainDistinct();
    assert Anchors(ChainEnv(), U1) == [Some(U2)];
  }

  /** On the unbounded site the crawl still ends: it prints the seed and its
      one link, then breaks at the first item of depth 3. */
  lemma UnboundedSiteStops()
    ensures var r := Crawled(ChainEnv(), Seed);
      r.log == [Item(Seed, 1), Item(U1, 2)] && r.status == DepthExceeded
  {
    var env := ChainEnv();
    var s0 := Init(Seed);
    InitReached(env, Seed);
    ChainVisitSeed();
    ChainVisitU1();
    var s1 := Step(env, s0);
    var s2 := Step(env, s1);
    var s3 := State([], {Seed, U1}, [Item(Seed, 1), Item(U1, 2)], DepthExceeded);
    assert Step(env, s2) == s3;
    StepProgress(env, Seed, s0);
    StepProgress(env, Seed, s1);
    StepProgress(env, Seed, s2);
    assert Run(env, Seed, s0) == Run(env, Seed, s1) == Run(env, Seed, s2) == Run(env, Seed, s3);
  }
}
