/**
 The random-surfer transition model (`transition_model` in
 Pagerank/pagerank.py): from `page`, with probability d follow one of its
 links chosen uniformly, otherwise jump to any page of the corpus chosen
 uniformly; a page without links counts as linking to every page.
 */
module RandomSurfer {
  import opened Sums
  import opened Corpus

  /** The pages a surfer on `page` follows a link to: its own links, or every page when it has none. */
  function Targets(corpus: Links, page: Page): (targets: set<Page>)
    requires page in corpus
    ensures targets != {}
    ensures corpus[page] <= targets
  {
    if corpus[page] == {} then corpus.Keys else corpus[page]
  }

  /**
   The distribution `transition_model` returns: every page gets (1 - d) / N,
   and every target of `page` gets d / |targets| more.
   */
  function Transition(corpus: Links, page: Page, d: real): (model: map<Page, real>)
    requires page in corpus && corpus[page] <= corpus.Keys
    ensures model.Keys == corpus.Keys
  {
    var targets := Targets(corpus, page);
    assert page in corpus.Keys;
    map q | q in corpus :: (1.0 - d) / |corpus| as real + (if q in targets then d / |targets| as real else 0.0)
  }

  /**
   Every transition probability is at least the random-jump share (1 - d) / N
   and at most 1; from a page without links every page gets exactly 1 / N.
   */
  lemma TransitionBounds(corpus: Links, page: Page, d: real)
    requires page in corpus && corpus[page] <= corpus.Keys
    ensures var model := Transition(corpus, page, d);
      && (0.0 <= d ==> forall q :: q in model ==> (1.0 - d) / |corpus| as real <= model[q])
      && (0.0 <= d <= 1.0 ==> forall q :: q in model ==> model[q] <= 1.0)
      && (corpus[page] == {} ==> forall q :: q in model ==> model[q] == 1.0 / |corpus| as real)
  {
    var targets := Targets(corpus, page);
    var n, t := |corpus| as real, |targets| as real;
    assert 1.0 <= n by {
      assert page in corpus.Keys;
    }
    assert corpus[page] == {} ==> t == n by {
      assert |corpus.Keys| == |corpus|;
    }
    TransitionArithmetic(n, t, d);
  }

  /**
   The distribution is over exactly the pages of the corpus. When `page`
   has links, each page it links to gets (1 - d) / N + d / |links| and
   every other page gets exactly (1 - d) / N.
   */
  lemma TransitionEntries(corpus: Links, page: Page, d: real)
    requires page in corpus && corpus[page] <= corpus.Keys
    ensures Transition(corpus, page, d).Keys == corpus.Keys
    ensures corpus[page] != {} ==> forall q :: q in corpus ==>
      && (q in corpus[page] ==> Transition(corpus, page, d)[q] == (1.0 - d) / |corpus| as real + d / |corpus[page]| as real)
      && (q !in corpus[page] ==> Transition(corpus, page, d)[q] == (1.0 - d) / |corpus| as real)
  {
  }

  /** The bounds of one transition probability, apart from any quantified context. */
  lemma TransitionArithmetic(n: real, t: real, d: real)
    requires 1.0 <= n && 1.0 <= t
    ensures 0.0 <= d ==> (1.0 - d) / n <= (1.0 - d) / n + d / t
    ensures 0.0 <= d <= 1.0 ==> (1.0 - d) / n + d / t <= 1.0 && 0.0 <= (1.0 - d) / n
    ensures t == n ==> (1.0 - d) / n + d / t == 1.0 / n
  {
    if 0.0 <= d <= 1.0 {
      assert (1.0 - d) / n <= 1.0 - d;
      assert d / t <= d;
    }
  }

  /** What each target of `page` receives from the followed link. */
  function LinkShare(corpus: Links, page: Page, d: real): Page -> real
    requires page in corpus
  {
    var targets := Targets(corpus, page);
    q => if q in targets then d / |targets| as real else 0.0
  }

  lemma TransitionSplits(corpus: Links, pages: seq<Page>, page: Page, d: real)
    requires Enumerates(pages, corpus)
    requires page in corpus && corpus[page] <= corpus.Keys
    ensures Mass(Transition(corpus, page, d), pages)
         == Sum(pages, Jump(corpus, d)) + Sum(pages, LinkShare(corpus, page, d))
  {
    SumAdd(pages, Jump(corpus, d), LinkShare(corpus, page, d), Value(Transition(corpus, page, d)));
  }

  /** The followed-link shares of the targets add up to d. */
  lemma LinkTotal(corpus: Links, pages: seq<Page>, page: Page, d: real)
    requires Enumerates(pages, corpus)
    requires page in corpus && corpus[page] <= corpus.Keys
    ensures Sum(pages, LinkShare(corpus, page, d)) == d
  {
    assert Targets(corpus, page) <= Elems(pages) by {
      EnumerationSize(pages, corpus);
    }
    SumEvenShares(pages, Targets(corpus, page), d, LinkShare(corpus, page, d));
  }

  /** For any damping factor, the transition probabilities of a non-empty corpus sum to exactly 1. */
  lemma TransitionSumsToOne(corpus: Links, pages: seq<Page>, page: Page, d: real)
    requires Enumerates(pages, corpus)
    requires page in corpus && corpus[page] <= corpus.Keys
    ensures Mass(Transition(corpus, page, d), pages) == 1.0
  {
    assert |corpus| != 0 by {
      assert page in corpus.Keys;
    }
    assert |pages| == |corpus| by {
      EnumerationSize(pages, corpus);
    }
    TransitionSplits(corpus, pages, page, d);
    JumpTotal(corpus, pages, d);
    LinkTotal(corpus, pages, page, d);
  }

  /**
   `transition_model` as written: start every page at (1 - d) / N, then add
   d / |targets| to each target in turn.
   */
  method TransitionModel(corpus: Links, page: Page, d: real) returns (model: map<Page, real>)
    requires page in corpus && corpus[page] <= corpus.Keys
    ensures model == Transition(corpus, page, d)
  {
    var totalPages := |corpus|;
    var linkedPages := corpus[page];
    if linkedPages == {} {
      linkedPages := corpus.Keys;
    }
    assert page in corpus.Keys;
    var probability := (1.0 - d) / totalPages as real;
    var dampingProbability := d / |linkedPages| as real;
    model := map q | q in corpus :: probability;
    var rest := linkedPages;
    while rest != {}
      invariant rest <= linkedPages
      invariant model.Keys == corpus.Keys
      invariant forall q :: q in model ==>
        model[q] == probability + (if q in linkedPages && q !in rest then dampingProbability else 0.0)
      decreases |rest|
    {
      var linkedPage :| linkedPage in rest;
      model := model[linkedPage := model[linkedPage] + dampingProbability];
      rest := rest - {linkedPage};
    }
    assert linkedPages == Targets(corpus, page);
    forall q | q in corpus
      ensures model[q] == Transition(corpus, page, d)[q]
    {
    }
  }

  /** `list(model.values())`: the weights of a distribution in the order of `pages`. */
  function Weights(pages: seq<Page>, model: map<Page, real>): (weights: seq<real>)
    requires forall p :: p in pages ==> p in model
    ensures |weights| == |pages|
  {
    seq(|pages|, i requires 0 <= i < |pages| => model[pages[i]])
  }
}
