/**
 The link graph ("corpus") of the PageRank program: each page, named by
 its file name, maps to the set of pages it links to. `Crawl` is the
 set filtering that `crawl` in Pagerank/pagerank.py applies to the links
 it extracted; rank vectors and the failures the program raises are
 declared here too, because both estimators share them.
 */
module Corpus {
  import opened Sums

  /** A page is named by its file name. */
  type Page = string

  /** Each page of the corpus and the set of pages it links to. */
  type Links = map<Page, set<Page>>

  /** Why an estimator produces no rank vector (where the Python code raises). */
  datatype Failure =
    | EmptyCorpus     // random.choice of no pages, or 1 / len(corpus) with no pages
    | ZeroSamples     // count / n with n == 0
    | FuelExhausted   // the convergence loop ran out of its round bound

  datatype Result<T> = Ok(value: T) | Err(error: Failure)

  /** Every outbound link names a page of the corpus. */
  predicate LinksKnown(corpus: Links)
  {
    forall p :: p in corpus ==> corpus[p] <= corpus.Keys
  }

  /** No page links to itself. */
  predicate NoSelfLinks(corpus: Links)
  {
    forall p :: p in corpus ==> p !in corpus[p]
  }

  /** The shape `crawl` guarantees. */
  predicate WellFormed(corpus: Links)
  {
    LinksKnown(corpus) && NoSelfLinks(corpus)
  }

  /** Every page has at least one outbound link. */
  predicate NoDangling(corpus: Links)
  {
    forall p {:trigger HasLinks(corpus, p)} :: p in corpus ==> HasLinks(corpus, p)
  }

  predicate HasLinks(corpus: Links, p: Page)
    requires p in corpus
  {
    corpus[p] != {}
  }

  /** `pages` lists each page of the corpus exactly once: the dictionary's iteration order. */
  predicate Enumerates(pages: seq<Page>, corpus: Links)
  {
    && Distinct(pages)
    && (forall p :: p in pages ==> p in corpus)
    && (forall p :: p in corpus ==> p in pages)
  }

  lemma EnumerationSize(pages: seq<Page>, corpus: Links)
    requires Enumerates(pages, corpus)
    ensures Elems(pages) == corpus.Keys
    ensures |pages| == |corpus|
  {
    assert Elems(pages) == corpus.Keys;
    DistinctCard(pages);
  }

  /** The entry of a rank vector for p; pages it does not hold read as 0. */
  function At(rank: map<Page, real>, p: Page): real
  {
    if p in rank then rank[p] else 0.0
  }

  /** A rank vector read as a function. */
  function Value(rank: map<Page, real>): Page -> real
  {
    p => At(rank, p)
  }

  /** The total of a rank vector over `pages`. */
  function Mass(rank: map<Page, real>, pages: seq<Page>): real
  {
    Sum(pages, Value(rank))
  }

  /**
   The random-jump share of a page: with probability 1 - d the surfer
   jumps to any of the N pages, in `transition_model` and in every round
   of `iterate_pagerank` alike.
   */
  function Jump(corpus: Links, d: real): Page -> real
    requires |corpus| > 0
  {
    _ => (1.0 - d) / |corpus| as real
  }

  /** The random-jump shares of the N pages add up to 1 - d. */
  lemma {:induction false} JumpTotal(corpus: Links, pages: seq<Page>, d: real)
    requires Enumerates(pages, corpus) && |corpus| > 0
    ensures Sum(pages, Jump(corpus, d)) == 1.0 - d
  {
    assert |pages| == |corpus| by {
      EnumerationSize(pages, corpus);
    }
    SumConst(pages, Jump(corpus, d), (1.0 - d) / |corpus| as real);
    Cancels(|corpus|, 1.0 - d);
  }

  /** Dividing every entry of a vector of total n by n gives a vector of total 1. */
  lemma NormalizedMass(pages: seq<Page>, counts: map<Page, real>, rank: map<Page, real>, n: nat)
    requires 0 < n && Mass(counts, pages) == n as real
    requires forall p :: p in pages ==> p in counts && p in rank && rank[p] == counts[p] / n as real
    ensures Mass(rank, pages) == 1.0
  {
    var c := 1.0 / n as real;
    forall p | p in pages
      ensures Value(rank)(p) == c * Value(counts)(p)
    {
      Fraction(counts[p], n);
    }
    SumScale(pages, Value(counts), Value(rank), c);
    assert c * n as real == 1.0;
  }

  /** Dividing by n is scaling by 1 / n. */
  lemma Fraction(v: real, n: nat)
    requires 0 < n
    ensures v / n as real == (1.0 / n as real) * v
  {
  }

  /**
   The corpus `crawl` returns for the links extracted from each file:
   a page keeps exactly the links that name another page of the corpus.
   */
  function KnownLinks(extracted: Links, p: Page): set<Page>
    requires p in extracted
  {
    set q | q in extracted[p] && q != p && q in extracted
  }

  function Filtered(extracted: Links): (corpus: Links)
    ensures corpus.Keys == extracted.Keys
    ensures WellFormed(corpus)
    ensures forall p :: p in corpus ==> corpus[p] <= extracted[p]
    ensures forall p, q :: p in extracted && q in extracted[p] && q != p && q in extracted ==> q in corpus[p]
  {
    map p | p in extracted :: KnownLinks(extracted, p)
  }

  /** Filtering a corpus that already has the shape `crawl` guarantees changes nothing. */
  lemma FilteredKeepsWellFormed(corpus: Links)
    requires WellFormed(corpus)
    ensures Filtered(corpus) == corpus
  {
    forall p | p in corpus
      ensures Filtered(corpus)[p] == corpus[p]
    {
      assert p !in corpus[p];
    }
  }

  /** Filtering twice is filtering once. */
  lemma FilteredIdempotent(extracted: Links)
    ensures Filtered(Filtered(extracted)) == Filtered(extracted)
  {
    FilteredKeepsWellFormed(Filtered(extracted));
  }

  /**
   The set filtering of `crawl`: each file's extracted links minus the
   file itself, then, page by page in place, only the links that name a
   page of the corpus.
   */
  method Crawl(extracted: Links) returns (pages: Links)
    ensures pages == Filtered(extracted)
  {
    pages := map f | f in extracted :: extracted[f] - {f};
    var todo := pages.Keys;
    while todo != {}
      invariant pages.Keys == extracted.Keys
      invariant todo <= pages.Keys
      invariant forall f :: f in todo ==> pages[f] == extracted[f] - {f}
      invariant forall f :: f in pages && f !in todo ==> pages[f] == KnownLinks(extracted, f)
      decreases |todo|
    {
      var f :| f in todo;
      var kept := set link | link in pages[f] && link in pages;
      assert kept == KnownLinks(extracted, f);
      pages := pages[f := kept];
      todo := todo - {f};
    }
  }
}
