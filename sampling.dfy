/**
 The sampling estimator (`sample_pagerank` in Pagerank/pagerank.py): a
 random walk of n steps driven by the transition model, whose visit counts
 divided by n are the ranks. The random source is a parameter.
 */
module Sampling {
  import opened Sums
  import opened Corpus
  import opened RandomSurfer

  /**
   The random source of the walk, as indices into `pages`: `start` is
   `random.choice(pages)`, and `next(k, weights)` is what
   `random.choices(pages, weights)` draws at step k.
   */
  datatype Chooser = Chooser(start: nat, next: (nat, seq<real>) -> nat)

  /** Every draw of `ch` names one of n pages (with no pages, random.choice fails before any draw). */
  ghost predicate Picks(ch: Chooser, n: nat)
  {
    n == 0 || (ch.start < n && forall k, w :: ch.next(k, w) < n)
  }

  /** The conditions under which the walk is defined: it draws from a non-empty list of pages of the corpus. */
  ghost predicate Walkable(corpus: Links, pages: seq<Page>, ch: Chooser)
  {
    && (forall p :: p in pages ==> p in corpus)
    && LinksKnown(corpus)
    && |pages| > 0
    && Picks(ch, |pages|)
  }

  function Walk(corpus: Links, pages: seq<Page>, d: real, ch: Chooser, k: nat): (p: Page)
    requires Walkable(corpus, pages, ch)
    ensures p in corpus
    decreases k, 0
  {
    if k == 0 then pages[ch.start] else Draw(corpus, pages, d, ch, k - 1)
  }

  function Draw(corpus: Links, pages: seq<Page>, d: real, ch: Chooser, k: nat): (p: Page)
    requires Walkable(corpus, pages, ch)
    ensures p in corpus
    decreases k, 1
  {
    pages[ch.next(k, Weights(pages, Transition(corpus, Walk(corpus, pages, d, ch, k), d)))]
  }

  /** Step k + 1 of the walk is the page drawn with the transition weights of step k. */
  lemma WalkStep(corpus: Links, pages: seq<Page>, d: real, ch: Chooser, k: nat)
    requires Walkable(corpus, pages, ch)
    ensures Walk(corpus, pages, d, ch, k + 1)
         == Draw(corpus, pages, d, ch, k)
  {
  }

  /** The pages the surfer stands on at steps 0 to k - 1, in order. */
  function Trail(corpus: Links, pages: seq<Page>, d: real, ch: Chooser, k: nat): (trail: seq<Page>)
    requires Walkable(corpus, pages, ch)
    ensures |trail| == k
  {
    if k == 0 then [] else Trail(corpus, pages, d, ch, k - 1) + [Walk(corpus, pages, d, ch, k - 1)]
  }

  /** Entry i of the trail is step i of the walk. */
  lemma {:induction false} TrailWalks(corpus: Links, pages: seq<Page>, d: real, ch: Chooser, k: nat, i: nat)
    requires Walkable(corpus, pages, ch) && i < k
    ensures Trail(corpus, pages, d, ch, k)[i] == Walk(corpus, pages, d, ch, i)
    decreases k
  {
    if i < k - 1 {
      TrailWalks(corpus, pages, d, ch, k - 1, i);
    }
  }

  /** The walk never leaves the corpus. */
  lemma TrailInCorpus(corpus: Links, pages: seq<Page>, d: real, ch: Chooser, k: nat)
    requires Walkable(corpus, pages, ch)
    ensures forall p :: p in Trail(corpus, pages, d, ch, k) ==> p in corpus
  {
    var trail := Trail(corpus, pages, d, ch, k);
    forall p | p in trail
      ensures p in corpus
    {
      var i :| 0 <= i < k && trail[i] == p;
      TrailWalks(corpus, pages, d, ch, k, i);
    }
  }

  /** The trail of k + 1 steps extends the trail of k steps by step k. */
  lemma TrailStep(corpus: Links, pages: seq<Page>, d: real, ch: Chooser, k: nat)
    requires Walkable(corpus, pages, ch)
    ensures Trail(corpus, pages, d, ch, k + 1) == Trail(corpus, pages, d, ch, k) + [Walk(corpus, pages, d, ch, k)]
  {
  }

  /** How many times p occurs in a trail. */
  function Count(trail: seq<Page>, p: Page): (c: nat)
    ensures c <= |trail|
  {
    if |trail| == 0 then 0
    else Count(trail[..|trail| - 1], p) + (if trail[|trail| - 1] == p then 1 else 0)
  }

  /** Appending x to a trail adds one to the count of x and nothing to the others. */
  lemma CountSnoc(trail: seq<Page>, x: Page, p: Page)
    ensures Count(trail + [x], p) == Count(trail, p) + (if x == p then 1 else 0)
  {
    assert (trail + [x])[..|trail|] == trail;
  }

  /** A page that occurs in a trail is counted at least once. */
  lemma {:induction false} CountPresent(trail: seq<Page>, p: Page)
    requires p in trail
    ensures 1 <= Count(trail, p)
    decreases |trail|
  {
    var init, last := trail[..|trail| - 1], trail[|trail| - 1];
    if last != p {
      assert trail == init + [last];
      CountPresent(init, p);
    }
  }

  /**
   `page_counts` after walking a trail: every page of the corpus starts at
   0 and each step adds one to the page it stands on.
   */
  function Counts(corpus: Links, trail: seq<Page>): (counts: map<Page, int>)
    ensures counts.Keys == corpus.Keys
  {
    if |trail| == 0 then map p | p in corpus :: 0
    else
      var before, here := Counts(corpus, trail[..|trail| - 1]), trail[|trail| - 1];
      if here in corpus then before[here := before[here] + 1] else before
  }

  /** Walking one more page adds one to its count. */
  lemma CountsSnoc(corpus: Links, trail: seq<Page>, x: Page)
    requires x in corpus
    ensures Counts(corpus, trail + [x]) == Counts(corpus, trail)[x := Counts(corpus, trail)[x] + 1]
  {
    var t := trail + [x];
    assert t[..|t| - 1] == trail;
    var before := Counts(corpus, trail);
    assert Counts(corpus, t) == before[x := before[x] + 1];
  }

  /** The bookkeeping of `page_counts` counts, for each page, how often the trail stands on it. */
  lemma {:induction false} CountsCount(corpus: Links, trail: seq<Page>, p: Page)
    requires p in corpus
    ensures Counts(corpus, trail)[p] == Count(trail, p)
    decreases |trail|
  {
    if |trail| > 0 {
      CountsCount(corpus, trail[..|trail| - 1], p);
    }
  }

  /** The visit counts of a trail, as a rank vector over the corpus. */
  function Tally(corpus: Links, trail: seq<Page>): (counts: map<Page, real>)
    ensures counts.Keys == corpus.Keys
  {
    map p | p in corpus :: Count(trail, p) as real
  }

  /** Every step counts exactly one page, so the counts of a trail over all pages total its length. */
  lemma {:induction false} TallyTotal(corpus: Links, pages: seq<Page>, trail: seq<Page>)
    requires Enumerates(pages, corpus)
    requires forall p :: p in trail ==> p in corpus
    ensures Mass(Tally(corpus, trail), pages) == |trail| as real
    decreases |trail|
  {
    if |trail| == 0 {
      SumConst(pages, Value(Tally(corpus, trail)), 0.0);
    } else {
      var init, last := trail[..|trail| - 1], trail[|trail| - 1];
      assert trail == init + [last];
      assert forall p :: p in init ==> p in trail;
      TallyTotal(corpus, pages, init);
      assert last in pages;
      SumBump(pages, Value(Tally(corpus, init)), Value(Tally(corpus, trail)), last, 1.0);
    }
  }

  /** The estimate after n steps: each page's share of the visits. */
  ghost predicate Proportions(corpus: Links, pages: seq<Page>, d: real, ch: Chooser, n: nat, rank: map<Page, real>)
    requires Walkable(corpus, pages, ch)
  {
    && 0 < n
    && rank.Keys == corpus.Keys
    && forall p :: p in rank ==> rank[p] == Count(Trail(corpus, pages, d, ch, n), p) as real / n as real
  }

  /** The visit shares form a probability distribution over the corpus. */
  lemma ProportionsSumToOne(corpus: Links, pages: seq<Page>, d: real, ch: Chooser, n: nat, rank: map<Page, real>)
    requires Enumerates(pages, corpus)
    requires Walkable(corpus, pages, ch) && Proportions(corpus, pages, d, ch, n, rank)
    ensures Mass(rank, pages) == 1.0
  {
    var trail := Trail(corpus, pages, d, ch, n);
    var counts := Tally(corpus, trail);
    assert Mass(counts, pages) == n as real by {
      TrailInCorpus(corpus, pages, d, ch, n);
      TallyTotal(corpus, pages, trail);
    }
    NormalizedMass(pages, counts, rank, n);
  }

  /** Every visit share lies between 0 and 1, and the start page has at least 1 / n. */
  lemma ProportionsBounded(corpus: Links, pages: seq<Page>, d: real, ch: Chooser, n: nat, rank: map<Page, real>)
    requires Walkable(corpus, pages, ch) && Proportions(corpus, pages, d, ch, n, rank)
    ensures forall p :: p in rank ==> 0.0 <= rank[p] <= 1.0
    ensures pages[ch.start] in rank && 1.0 / n as real <= rank[pages[ch.start]]
  {
    var trail := Trail(corpus, pages, d, ch, n);
    forall p | p in rank
      ensures 0.0 <= rank[p] <= 1.0
    {
      ShareBounds(Count(trail, p), n);
    }
    TrailWalks(corpus, pages, d, ch, n, 0);
    CountPresent(trail, pages[ch.start]);
    ShareBounds(Count(trail, pages[ch.start]), n);
  }

  /** c visits out of n, as a fraction. */
  lemma ShareBounds(c: nat, n: nat)
    requires 0 < n && c <= n
    ensures 0.0 <= c as real / n as real <= 1.0
    ensures 1 <= c ==> 1.0 / n as real <= c as real / n as real
  {
  }

  /**
   The loop of `sample_pagerank`: walk n steps from the start page,
   counting the page the surfer stands on at each step and moving by the
   transition model.
   */
  method CountVisits(corpus: Links, pages: seq<Page>, d: real, n: nat, ch: Chooser) returns (pageCounts: map<Page, int>)
    requires Walkable(corpus, pages, ch)
    ensures pageCounts == Counts(corpus, Trail(corpus, pages, d, ch, n))
  {
    pageCounts := map p | p in corpus :: 0;
    var currentPage := pages[ch.start];
    ghost var trail: seq<Page> := [];
    for i := 0 to n
      invariant currentPage == Walk(corpus, pages, d, ch, i)
      invariant trail == Trail(corpus, pages, d, ch, i)
      invariant pageCounts == Counts(corpus, trail)
    {
      pageCounts := pageCounts[currentPage := pageCounts[currentPage] + 1];
      CountsSnoc(corpus, trail, currentPage);
      trail := trail + [currentPage];
      TrailStep(corpus, pages, d, ch, i);
      var nextPage := NextPage(corpus, pages, d, ch, i, currentPage);
      WalkStep(corpus, pages, d, ch, i);
      currentPage := nextPage;
    }
  }

  /** One move of the surfer: build the transition model of the current page and draw from its weights. */
  method NextPage(corpus: Links, pages: seq<Page>, d: real, ch: Chooser, i: nat, currentPage: Page) returns (nextPage: Page)
    requires Walkable(corpus, pages, ch) && currentPage == Walk(corpus, pages, d, ch, i)
    ensures nextPage == Draw(corpus, pages, d, ch, i)
    ensures nextPage in corpus
  {
    var model := TransitionModel(corpus, currentPage, d);
    nextPage := pages[ch.next(i, Weights(pages, model))];
  }

  /**
   `sample_pagerank`: count the page the surfer stands on at each of n
   steps and divide each count by n.
   */
  method SamplePageRank(corpus: Links, pages: seq<Page>, d: real, n: nat, ch: Chooser)
    returns (r: Result<map<Page, real>>)
    requires Enumerates(pages, corpus) && LinksKnown(corpus)
    requires Picks(ch, |pages|)
    ensures r == Err(EmptyCorpus) <==> |pages| == 0
    ensures r == Err(ZeroSamples) <==> 0 < |pages| && n == 0
    ensures r.Ok? <==> 0 < |pages| && 0 < n
    ensures r.Ok? ==> Walkable(corpus, pages, ch) && Proportions(corpus, pages, d, ch, n, r.value)
    ensures r.Ok? ==> Mass(r.value, pages) == 1.0
    ensures r.Ok? ==> forall p :: p in r.value ==> 0.0 <= r.value[p] <= 1.0
  {
    if |pages| == 0 {
      return Err(EmptyCorpus);
    }
    var pageCounts := CountVisits(corpus, pages, d, n, ch);
    if n == 0 {
      return Err(ZeroSamples);
    }
    var pagerank := map p | p in pageCounts :: pageCounts[p] as real / n as real;
    assert Proportions(corpus, pages, d, ch, n, pagerank) by {
      forall p | p in corpus
        ensures pageCounts[p] == Count(Trail(corpus, pages, d, ch, n), p)
      {
        CountsCount(corpus, Trail(corpus, pages, d, ch, n), p);
      }
    }
    ProportionsSumToOne(corpus, pages, d, ch, n, pagerank);
    ProportionsBounded(corpus, pages, d, ch, n, pagerank);
    return Ok(pagerank);
  }
}
