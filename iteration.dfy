/**
 The iterative estimator (`iterate_pagerank` in Pagerank/pagerank.py):
 start from the uniform vector and replace it, round after round, by
 (1 - d) / N plus d times what each page receives over its incoming links,
 until no entry changes by 0.001 or more. A page without links passes
 nothing on, so its rank leaks out of the total.
 */
module Iteration {
  import opened Sums
  import opened Corpus

  /** The loop stops once every entry changes by less than this. */
  const Threshold: real := 0.001

  function Abs(x: real): (a: real)
    ensures 0.0 <= a && (a == x || a == -x)
  {
    if x < 0.0 then -x else x
  }

  function Max(a: real, b: real): (m: real)
    ensures a <= m && b <= m && (m == a || m == b)
  {
    if a < b then b else a
  }

  /**
   What `link` passes on to `page`: an equal share of its rank for each of
   its links, and nothing when it does not link to `page`. The division
   only happens when `page` is one of the links, so the divisor is never 0.
   */
  function Share(corpus: Links, rank: map<Page, real>, page: Page, link: Page): (s: real)
    ensures link in corpus && page in corpus[link] ==> s * |corpus[link]| as real == At(rank, link)
    ensures !(link in corpus && page in corpus[link]) ==> s == 0.0
    ensures 0.0 <= At(rank, link) ==> 0.0 <= s
  {
    if link in corpus && page in corpus[link] then At(rank, link) / |corpus[link]| as real else 0.0
  }

  /** The flow matrix of a rank vector: entry (page, link) is what link passes on to page. */
  function Flow(corpus: Links, rank: map<Page, real>): (Page, Page) -> real
  {
    (page, link) => Share(corpus, rank, page, link)
  }

  /**
   `calculate_link_sum(page)`: what `page` receives from each of `links`,
   summed in dictionary order.
   */
  function LinkSum(corpus: Links, links: seq<Page>, rank: map<Page, real>, page: Page): real
    decreases |links|
  {
    if |links| == 0 then 0.0
    else LinkSum(corpus, links[..|links| - 1], rank, page) + Share(corpus, rank, page, links[|links| - 1])
  }

  /** The link sum of a page is its row of the flow matrix, summed. */
  lemma {:induction false} LinkSumIsRow(corpus: Links, links: seq<Page>, rank: map<Page, real>, page: Page)
    ensures LinkSum(corpus, links, rank, page) == Sum(links, Row(Flow(corpus, rank), page))
    decreases |links|
  {
    if |links| > 0 {
      LinkSumIsRow(corpus, links[..|links| - 1], rank, page);
    }
  }

  /** With non-negative ranks, what a page receives is non-negative. */
  lemma {:induction false} LinkSumNonNegative(corpus: Links, links: seq<Page>, rank: map<Page, real>, page: Page)
    requires forall q :: q in rank ==> 0.0 <= rank[q]
    ensures 0.0 <= LinkSum(corpus, links, rank, page)
    decreases |links|
  {
    if |links| > 0 {
      var link := links[|links| - 1];
      LinkSumNonNegative(corpus, links[..|links| - 1], rank, page);
      if link in corpus && page in corpus[link] {
        ShareNonNegative(At(rank, link), |corpus[link]|);
      }
    }
  }

  lemma ShareNonNegative(v: real, k: nat)
    requires 0.0 <= v && 0 < k
    ensures 0.0 <= v / k as real
  {
  }

  /** The new rank of one page in a round. */
  function NewRank(corpus: Links, pages: seq<Page>, d: real, rank: map<Page, real>, page: Page): real
    requires |corpus| > 0
  {
    (1.0 - d) / |corpus| as real + d * LinkSum(corpus, pages, rank, page)
  }

  /** One round of the relaxation: `new_pagerank` computed from `pagerank`. */
  function Step(corpus: Links, pages: seq<Page>, d: real, rank: map<Page, real>): (next: map<Page, real>)
    requires |corpus| > 0
    ensures next.Keys == corpus.Keys
  {
    map p | p in corpus :: NewRank(corpus, pages, d, rank, p)
  }

  /** `for page in corpus: new_pagerank[page] = ...`: one round, filled in page by page. */
  method UpdateStep(corpus: Links, pages: seq<Page>, d: real, pagerank: map<Page, real>)
    returns (newPagerank: map<Page, real>)
    requires |corpus| > 0
    requires forall p :: p in pages <==> p in corpus
    ensures newPagerank == Step(corpus, pages, d, pagerank)
  {
    newPagerank := map[];
    for i := 0 to |pages|
      invariant forall p :: p in newPagerank <==> p in pages[..i]
      invariant forall p :: p in newPagerank ==> newPagerank[p] == NewRank(corpus, pages, d, pagerank, p)
    {
      var page := pages[i];
      assert pages[..i + 1] == pages[..i] + [page];
      newPagerank := newPagerank[page := (1.0 - d) / |corpus| as real + d * LinkSum(corpus, pages, pagerank, page)];
    }
    assert pages[..|pages|] == pages;
    assert newPagerank.Keys == Step(corpus, pages, d, pagerank).Keys;
  }

  /** Every new value is at least the random-jump share (1 - d) / N, provided d and the old ranks are non-negative. */
  lemma {:induction false} StepBounds(corpus: Links, pages: seq<Page>, d: real, rank: map<Page, real>)
    requires |corpus| > 0 && 0.0 <= d
    requires forall q :: q in rank ==> 0.0 <= rank[q]
    ensures forall p :: p in corpus ==> (1.0 - d) / |corpus| as real <= Step(corpus, pages, d, rank)[p]
  {
    forall p | p in corpus
      ensures (1.0 - d) / |corpus| as real <= Step(corpus, pages, d, rank)[p]
    {
      LinkSumNonNegative(corpus, pages, rank, p);
      Scaled(d, LinkSum(corpus, pages, rank, p));
    }
  }

  lemma {:induction false} Scaled(d: real, x: real)
    requires 0.0 <= d && 0.0 <= x
    ensures 0.0 <= d * x
  {
  }

  /** The rank a page keeps in circulation: all of it when it has links, none when it has none. */
  function Kept(corpus: Links, rank: map<Page, real>): Page -> real
  {
    q => if q in corpus && corpus[q] != {} then Value(rank)(q) else 0.0
  }

  /** The rank of the pages without links, which no page receives. */
  function Dangling(corpus: Links, rank: map<Page, real>): Page -> real
  {
    q => if q in corpus && corpus[q] == {} then Value(rank)(q) else 0.0
  }

  /** The total rank kept in circulation. */
  function KeptMass(corpus: Links, pages: seq<Page>, rank: map<Page, real>): real
  {
    Sum(pages, Kept(corpus, rank))
  }

  /** The total rank of the pages without links. */
  function DanglingMass(corpus: Links, pages: seq<Page>, rank: map<Page, real>): real
  {
    Sum(pages, Dangling(corpus, rank))
  }

  /** What a page passes on, summed over all receivers, is the rank it keeps in circulation. */
  lemma {:induction false} OutFlow(corpus: Links, pages: seq<Page>, rank: map<Page, real>, q: Page)
    requires Enumerates(pages, corpus) && LinksKnown(corpus) && q in corpus
    ensures Sum(pages, Col(Flow(corpus, rank), q)) == Kept(corpus, rank)(q)
  {
    var given := Col(Flow(corpus, rank), q);
    var links := corpus[q];
    if links == {} {
      SumConst(pages, given, 0.0);
    } else {
      assert links <= Elems(pages) by {
        EnumerationSize(pages, corpus);
      }
      SumEvenShares(pages, links, Value(rank)(q), given);
    }
  }

  /** Summed over all pages, what the pages receive is the rank kept in circulation. */
  lemma {:induction false} Received(corpus: Links, pages: seq<Page>, rank: map<Page, real>)
    requires Enumerates(pages, corpus) && LinksKnown(corpus)
    ensures Sum(pages, RowSums(Flow(corpus, rank), pages)) == KeptMass(corpus, pages, rank)
  {
    var F := Flow(corpus, rank);
    SumSwap(pages, pages, F);
    forall q | q in pages
      ensures ColSums(F, pages)(q) == Kept(corpus, rank)(q)
    {
      OutFlow(corpus, pages, rank, q);
    }
    SumCongruent(pages, ColSums(F, pages), Kept(corpus, rank));
  }

  /** The followed-link part of each page's new rank. */
  function Inflow(corpus: Links, pages: seq<Page>, d: real, rank: map<Page, real>): Page -> real
  {
    p => d * LinkSum(corpus, pages, rank, p)
  }

  /** The followed links of a round carry d times the rank kept in circulation. */
  lemma {:induction false} InflowMass(corpus: Links, pages: seq<Page>, d: real, rank: map<Page, real>)
    requires Enumerates(pages, corpus) && LinksKnown(corpus)
    ensures Sum(pages, Inflow(corpus, pages, d, rank)) == d * KeptMass(corpus, pages, rank)
  {
    InflowRows(corpus, pages, d, rank);
    Received(corpus, pages, rank);
  }

  /** The followed links of a round carry d times the row sums of the flow matrix. */
  lemma InflowRows(corpus: Links, pages: seq<Page>, d: real, rank: map<Page, real>)
    ensures Sum(pages, Inflow(corpus, pages, d, rank)) == d * Sum(pages, RowSums(Flow(corpus, rank), pages))
  {
    var received := RowSums(Flow(corpus, rank), pages);
    forall p | p in pages
      ensures Inflow(corpus, pages, d, rank)(p) == d * received(p)
    {
      LinkSumIsRow(corpus, pages, rank, p);
    }
    SumScale(pages, received, Inflow(corpus, pages, d, rank), d);
  }

  /** The kept and the dangling rank make up the whole vector. */
  lemma {:induction false} KeptAndDangling(corpus: Links, pages: seq<Page>, rank: map<Page, real>)
    requires forall p :: p in pages ==> p in corpus
    ensures Mass(rank, pages) == KeptMass(corpus, pages, rank) + DanglingMass(corpus, pages, rank)
  {
    SumAdd(pages, Kept(corpus, rank), Dangling(corpus, rank), Value(rank));
  }

  /**
   The total after a round: the jumps bring 1 - d and the links carry d
   times the rank kept in circulation, so the rank of the pages without
   links (KeptAndDangling) is lost from the total.
   */
  lemma {:induction false} StepMass(corpus: Links, pages: seq<Page>, d: real, rank: map<Page, real>)
    requires Enumerates(pages, corpus) && LinksKnown(corpus) && |corpus| > 0
    ensures Mass(Step(corpus, pages, d, rank), pages) == (1.0 - d) + d * KeptMass(corpus, pages, rank)
  {
    StepParts(corpus, pages, d, rank);
    JumpTotal(corpus, pages, d);
    InflowMass(corpus, pages, d, rank);
  }

  /** The total after a round is the total of the jumps plus the total of the followed links. */
  lemma StepParts(corpus: Links, pages: seq<Page>, d: real, rank: map<Page, real>)
    requires |corpus| > 0 && forall p :: p in pages ==> p in corpus
    ensures Mass(Step(corpus, pages, d, rank), pages)
         == Sum(pages, Jump(corpus, d)) + Sum(pages, Inflow(corpus, pages, d, rank))
  {
    forall p | p in pages
      ensures Value(Step(corpus, pages, d, rank))(p) == Jump(corpus, d)(p) + Inflow(corpus, pages, d, rank)(p)
    {
      StepSplits(corpus, pages, d, rank, p);
    }
    SumAdd(pages, Jump(corpus, d), Inflow(corpus, pages, d, rank), Value(Step(corpus, pages, d, rank)));
  }

  /** Each new rank is its jump share plus its followed-link part. */
  lemma StepSplits(corpus: Links, pages: seq<Page>, d: real, rank: map<Page, real>, p: Page)
    requires |corpus| > 0 && p in corpus
    ensures Value(Step(corpus, pages, d, rank))(p) == Jump(corpus, d)(p) + Inflow(corpus, pages, d, rank)(p)
  {
    var next := Step(corpus, pages, d, rank);
    var jump, inflow := (1.0 - d) / |corpus| as real, d * LinkSum(corpus, pages, rank, p);
    assert p in next;
    assert Value(next)(p) == jump + inflow;
    assert Jump(corpus, d)(p) == jump;
    assert Inflow(corpus, pages, d, rank)(p) == inflow;
    Parts(Value(next)(p), Jump(corpus, d)(p), Inflow(corpus, pages, d, rank)(p), jump, inflow);
  }

  /** The arithmetic of StepSplits. */
  lemma Parts(total: real, a: real, b: real, x: real, y: real)
    requires total == x + y && a == x && b == y
    ensures total == a + b
  {
  }

  /** When no page lacks links, every page keeps all of its rank in circulation. */
  lemma {:induction false} KeptAll(corpus: Links, pages: seq<Page>, rank: map<Page, real>)
    requires Enumerates(pages, corpus) && NoDangling(corpus)
    ensures KeptMass(corpus, pages, rank) == Mass(rank, pages)
  {
    forall q | q in pages
      ensures Kept(corpus, rank)(q) == Value(rank)(q)
    {
      assert HasLinks(corpus, q);
    }
    SumCongruent(pages, Kept(corpus, rank), Value(rank));
  }

  /** With non-negative ranks, the rank kept in circulation is at most the total. */
  lemma {:induction false} KeptAtMost(corpus: Links, pages: seq<Page>, rank: map<Page, real>)
    requires forall p :: p in pages ==> p in corpus
    requires forall p :: p in rank ==> 0.0 <= rank[p]
    ensures 0.0 <= KeptMass(corpus, pages, rank) <= Mass(rank, pages)
  {
    KeptAndDangling(corpus, pages, rank);
    forall q | q in pages
      ensures 0.0 <= Dangling(corpus, rank)(q) && 0.0 <= Kept(corpus, rank)(q)
    {
    }
    SumNonNegative(pages, Dangling(corpus, rank));
    SumNonNegative(pages, Kept(corpus, rank));
  }

  /** When every page has a link, a round keeps a total of 1. */
  lemma {:induction false} StepConservesMass(corpus: Links, pages: seq<Page>, d: real, rank: map<Page, real>)
    requires Enumerates(pages, corpus) && LinksKnown(corpus) && NoDangling(corpus) && |corpus| > 0
    requires Mass(rank, pages) == 1.0
    ensures Mass(Step(corpus, pages, d, rank), pages) == 1.0
  {
    KeptAll(corpus, pages, rank);
    StepMass(corpus, pages, d, rank);
    Conserved(d, KeptMass(corpus, pages, rank), Mass(Step(corpus, pages, d, rank), pages));
  }

  /** The arithmetic of StepConservesMass. */
  lemma Conserved(d: real, kept: real, total: real)
    requires total == (1.0 - d) + d * kept && kept == 1.0
    ensures total == 1.0
  {
  }

  /**
   The converse: when some rank sits on pages without links and d > 0, a
   round of a vector totalling 1 gives a vector totalling less than 1.
   */
  lemma {:induction false} StepLeaks(corpus: Links, pages: seq<Page>, d: real, rank: map<Page, real>)
    requires Enumerates(pages, corpus) && LinksKnown(corpus) && |corpus| > 0 && 0.0 < d
    requires Mass(rank, pages) == 1.0 && 0.0 < DanglingMass(corpus, pages, rank)
    ensures Mass(Step(corpus, pages, d, rank), pages) < 1.0
  {
    KeptAndDangling(corpus, pages, rank);
    StepMass(corpus, pages, d, rank);
    Lost(d, KeptMass(corpus, pages, rank), DanglingMass(corpus, pages, rank));
  }

  /** The arithmetic of StepLeaks. */
  lemma Lost(d: real, kept: real, dangling: real)
    requires 0.0 < d && 0.0 < dangling && kept + dangling == 1.0
    ensures (1.0 - d) + d * kept < 1.0
  {
    assert d * kept < d * 1.0;
  }

  /** `pagerank` before the first round: 1 / N for every page. */
  function Uniform(corpus: Links): (rank: map<Page, real>)
    requires |corpus| > 0
    ensures rank.Keys == corpus.Keys
  {
    map p | p in corpus :: 1.0 / |corpus| as real
  }

  lemma {:induction false} UniformMass(corpus: Links, pages: seq<Page>)
    requires Enumerates(pages, corpus) && |corpus| > 0
    ensures Mass(Uniform(corpus), pages) == 1.0
  {
    assert |pages| == |corpus| by {
      EnumerationSize(pages, corpus);
    }
    SumConst(pages, Value(Uniform(corpus)), 1.0 / |corpus| as real);
    Cancels(|corpus|, 1.0);
  }

  /** `pagerank` after k rounds. */
  function Relaxed(corpus: Links, pages: seq<Page>, d: real, k: nat): (rank: map<Page, real>)
    requires |corpus| > 0
    ensures rank.Keys == corpus.Keys
  {
    if k == 0 then Uniform(corpus) else Step(corpus, pages, d, Relaxed(corpus, pages, d, k - 1))
  }

  /** When every page has a link, the vector of every round totals 1. */
  lemma {:induction false} RelaxedMass(corpus: Links, pages: seq<Page>, d: real, k: nat)
    requires Enumerates(pages, corpus) && LinksKnown(corpus) && NoDangling(corpus) && |corpus| > 0
    ensures Mass(Relaxed(corpus, pages, d, k), pages) == 1.0
  {
    if k == 0 {
      UniformMass(corpus, pages);
    } else {
      RelaxedMass(corpus, pages, d, k - 1);
      StepConservesMass(corpus, pages, d, Relaxed(corpus, pages, d, k - 1));
    }
  }

  /** Every entry is at least the random-jump share, and the total is at most 1. */
  ghost predicate Bounded(corpus: Links, pages: seq<Page>, d: real, rank: map<Page, real>)
    requires |corpus| > 0
  {
    && (forall p :: p in rank ==> (1.0 - d) / |corpus| as real <= rank[p])
    && Mass(rank, pages) <= 1.0
  }

  lemma {:induction false} UniformBounded(corpus: Links, pages: seq<Page>, d: real)
    requires Enumerates(pages, corpus) && |corpus| > 0 && 0.0 <= d
    ensures Bounded(corpus, pages, d, Uniform(corpus))
  {
    UniformMass(corpus, pages);
  }

  /** Without the guarantee that every page has a link, a round still keeps the entries bounded below and the total at most 1. */
  lemma {:induction false} StepBounded(corpus: Links, pages: seq<Page>, d: real, rank: map<Page, real>)
    requires Enumerates(pages, corpus) && LinksKnown(corpus) && |corpus| > 0 && 0.0 <= d <= 1.0
    requires Bounded(corpus, pages, d, rank)
    ensures Bounded(corpus, pages, d, Step(corpus, pages, d, rank))
  {
    JumpNonNegative(d, |corpus|);
    StepBounds(corpus, pages, d, rank);
    KeptAtMost(corpus, pages, rank);
    StepMass(corpus, pages, d, rank);
    Leak(d, KeptMass(corpus, pages, rank));
  }

  /** The random-jump share of a page is not negative. */
  lemma JumpNonNegative(d: real, n: nat)
    requires 0.0 <= d <= 1.0 && 0 < n
    ensures 0.0 <= (1.0 - d) / n as real
  {
  }

  /** The arithmetic of StepBounded's total. */
  lemma {:induction false} Leak(d: real, kept: real)
    requires 0.0 <= d <= 1.0 && kept <= 1.0
    ensures (1.0 - d) + d * kept <= 1.0
  {
    assert d * kept <= d * 1.0;
  }

  lemma {:induction false} RelaxedBounded(corpus: Links, pages: seq<Page>, d: real, k: nat)
    requires Enumerates(pages, corpus) && LinksKnown(corpus) && |corpus| > 0 && 0.0 <= d <= 1.0
    ensures Bounded(corpus, pages, d, Relaxed(corpus, pages, d, k))
  {
    if k == 0 {
      UniformBounded(corpus, pages, d);
    } else {
      RelaxedBounded(corpus, pages, d, k - 1);
      StepBounded(corpus, pages, d, Relaxed(corpus, pages, d, k - 1));
    }
  }

  /** The entries of a bounded vector lie between the random-jump share and 1. */
  lemma {:induction false} BoundedEntries(corpus: Links, pages: seq<Page>, d: real, rank: map<Page, real>)
    requires Enumerates(pages, corpus) && |corpus| > 0 && 0.0 <= d <= 1.0
    requires rank.Keys == corpus.Keys && Bounded(corpus, pages, d, rank)
    ensures forall p :: p in rank ==> (1.0 - d) / |corpus| as real <= rank[p] <= 1.0
  {
    forall p | p in rank
      ensures rank[p] <= 1.0
    {
      assert 0.0 <= (1.0 - d) / |corpus| as real;
      assert p in pages;
      SumBoundsTerm(pages, Value(rank), p);
    }
  }

  /** `max(abs(new_pagerank[page] - pagerank[page]) for page in corpus)`. */
  function MaxChange(pages: seq<Page>, rank: map<Page, real>, next: map<Page, real>): (m: real)
    requires |pages| > 0
    requires forall p :: p in pages ==> p in rank && p in next
    ensures forall p :: p in pages ==> Abs(next[p] - rank[p]) <= m
    ensures exists p :: p in pages && Abs(next[p] - rank[p]) == m
    decreases |pages|
  {
    var last := pages[|pages| - 1];
    var change := Abs(next[last] - rank[last]);
    if |pages| == 1 then change
    else
      var init := pages[..|pages| - 1];
      assert pages == init + [last];
      Max(MaxChange(init, rank, next), change)
  }

  /** One more round would change no entry of `rank` by the threshold or more. */
  ghost predicate Converged(corpus: Links, pages: seq<Page>, d: real, rank: map<Page, real>)
    requires |corpus| > 0 && rank.Keys == corpus.Keys
  {
    var next := Step(corpus, pages, d, rank);
    forall p :: p in corpus ==> Abs(next[p] - rank[p]) < Threshold
  }

  /** What the vector returned after k rounds satisfies, given the conditions the corpus meets. */
  lemma {:induction false} Settled(corpus: Links, pages: seq<Page>, d: real, k: nat)
    requires Enumerates(pages, corpus) && |corpus| > 0
    ensures var rank := Relaxed(corpus, pages, d, k);
      && (0.0 <= d <= 1.0 && LinksKnown(corpus) ==>
            forall p :: p in rank ==> (1.0 - d) / |corpus| as real <= rank[p] <= 1.0)
      && (LinksKnown(corpus) && NoDangling(corpus) ==> Mass(rank, pages) == 1.0)
  {
    if 0.0 <= d <= 1.0 && LinksKnown(corpus) {
      RelaxedBounded(corpus, pages, d, k);
      BoundedEntries(corpus, pages, d, Relaxed(corpus, pages, d, k));
    }
    if LinksKnown(corpus) && NoDangling(corpus) {
      RelaxedMass(corpus, pages, d, k);
    }
  }

  /** None of the first k vectors passes the convergence test. */
  ghost predicate Unsettled(corpus: Links, pages: seq<Page>, d: real, k: nat)
    requires |corpus| > 0
  {
    forall j: nat :: j < k ==> !Converged(corpus, pages, d, Relaxed(corpus, pages, d, j))
  }

  /** The test `max_change < 0.001` decides whether `rank` has converged. */
  lemma ConvergenceTest(corpus: Links, pages: seq<Page>, d: real, rank: map<Page, real>, maxChange: real)
    requires Enumerates(pages, corpus) && |corpus| > 0 && rank.Keys == corpus.Keys
    requires maxChange == MaxChange(pages, rank, Step(corpus, pages, d, rank))
    ensures maxChange < Threshold <==> Converged(corpus, pages, d, rank)
  {
    var next := Step(corpus, pages, d, rank);
    if maxChange >= Threshold {
      var p :| p in pages && Abs(next[p] - rank[p]) == maxChange;
      assert p in corpus;
    }
  }

  /** A vector that fails the test extends the run of unsettled rounds by one. */
  lemma UnsettledStep(corpus: Links, pages: seq<Page>, d: real, k: nat)
    requires |corpus| > 0
    requires Unsettled(corpus, pages, d, k) && !Converged(corpus, pages, d, Relaxed(corpus, pages, d, k))
    ensures Unsettled(corpus, pages, d, k + 1)
  {
  }

  /** The vector after k rounds is the first to pass the convergence test. */
  ghost predicate FirstSettled(corpus: Links, pages: seq<Page>, d: real, k: nat)
    requires |corpus| > 0
  {
    Converged(corpus, pages, d, Relaxed(corpus, pages, d, k)) && Unsettled(corpus, pages, d, k)
  }

  /**
   `iterate_pagerank`, with the `while True` loop cut off after `fuel`
   rounds. It returns `pagerank` of the first round whose step changes no
   entry by the threshold or more, not the `new_pagerank` of that round.
   */
  method IteratePageRank(corpus: Links, pages: seq<Page>, d: real, fuel: nat) returns (r: Result<map<Page, real>>)
    requires Enumerates(pages, corpus)
    ensures r == Err(EmptyCorpus) <==> |corpus| == 0
    ensures r == Err(FuelExhausted) <==> 0 < |corpus| && Unsettled(corpus, pages, d, fuel)
    ensures r.Ok? <==> 0 < |corpus| && !Unsettled(corpus, pages, d, fuel)
    ensures r.Ok? ==> 0 < |corpus| && exists k: nat :: k < fuel && r.value == Relaxed(corpus, pages, d, k) && FirstSettled(corpus, pages, d, k)
    ensures r.Ok? ==> r.value.Keys == corpus.Keys
    ensures r.Ok? && 0.0 <= d <= 1.0 && LinksKnown(corpus) ==>
      forall p :: p in r.value ==> (1.0 - d) / |corpus| as real <= r.value[p] <= 1.0
    ensures r.Ok? && LinksKnown(corpus) && NoDangling(corpus) ==> Mass(r.value, pages) == 1.0
  {
    var totalPages := |corpus|;
    if totalPages == 0 {
      return Err(EmptyCorpus);
    }
    assert |pages| == totalPages by {
      EnumerationSize(pages, corpus);
    }
    var initialRank := 1.0 / totalPages as real;
    var pagerank := map page | page in corpus :: initialRank;
    assert pagerank == Relaxed(corpus, pages, d, 0);
    var rounds := 0;
    while rounds < fuel
      invariant rounds <= fuel
      invariant pagerank == Relaxed(corpus, pages, d, rounds)
      invariant Unsettled(corpus, pages, d, rounds)
      decreases fuel - rounds
    {
      var newPagerank := UpdateStep(corpus, pages, d, pagerank);
      var maxChange := MaxChange(pages, pagerank, newPagerank);
      ConvergenceTest(corpus, pages, d, pagerank, maxChange);
      if maxChange < Threshold {
        r := Ok(pagerank);
        Settled(corpus, pages, d, rounds);
        return;
      }
      UnsettledStep(corpus, pages, d, rounds);
      pagerank := newPagerank;
      rounds := rounds + 1;
    }
    return Err(FuelExhausted);
  }
}
