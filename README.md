# PageRank, modelled in Dafny

This project models the PageRank program in `Pagerank/pagerank.py`. The
program reads a directory of HTML pages into a **corpus**: a map from each
page (a file name) to the set of pages it links to. It then estimates each
page's rank in two ways:

- **Sampling** (`sample_pagerank`). A random surfer takes n steps. At each
  step the surfer follows the **transition model** (`transition_model`):
  with probability d it follows one of the current page's links, chosen
  uniformly, and otherwise it jumps to any page, chosen uniformly. A page
  without links counts as linking to every page. Each page's rank is its
  share of the visits.
- **Iteration** (`iterate_pagerank`). The estimator starts every page at
  1 / N. Each round gives every page (1 - d) / N plus d times the rank it
  receives over its incoming links (`calculate_link_sum`). The loop stops
  when no entry would change by 0.001 or more.

The modules follow the program's parts:

| file | module | models |
|---|---|---|
| `sums.dfy` | `Sums` | finite sums over a list of pages. It covers the exchange of a double sum and even shares over a set. |
| `corpus.dfy` | `Corpus` | the corpus, rank vectors and the failures. It also holds the link filtering of `crawl` (`Crawl`, `Filtered`). |
| `surfer.dfy` | `RandomSurfer` | `transition_model` (`Transition`, `TransitionModel`) |
| `sampling.dfy` | `Sampling` | `sample_pagerank` (`Walk`, `Trail`, `Counts`, `CountVisits`, `SamplePageRank`) |
| `iteration.dfy` | `Iteration` | `iterate_pagerank` and `calculate_link_sum` (`LinkSum`, `Step`, `UpdateStep`, `Relaxed`, `IteratePageRank`) |

Ranks are exact reals. A Python dictionary's iteration order is modelled
by a sequence `pages` that lists each page of the corpus once
(`Corpus.Enumerates`). `sample_pagerank` uses it for `list(corpus.keys())`
and for the order of the weights. `iterate_pagerank` uses it for the order
of the loop and of the sum.

Where the Python code raises an exception, the model returns
`Err(EmptyCorpus)` or `Err(ZeroSamples)`:

- `random.choice` of an empty list raises, and so does `1 / len(corpus)`
  for an empty corpus. Both give `Err(EmptyCorpus)`.
- Dividing the counts by n = 0 raises. This gives `Err(ZeroSamples)`.

The `while True` loop of `iterate_pagerank` is bounded by a `fuel`
parameter. When the bound runs out the model returns `Err(FuelExhausted)`,
and the contract states exactly when that happens.

Randomness is a parameter, `Sampling.Chooser`:
- `start` is the index that `random.choice(pages)` returns;
- `next(k, weights)` is the index that `random.choices(pages, weights)`
  returns at step k.

Every contract of the sampling estimator holds for every chooser whose
draws are indices into `pages` (`Sampling.Picks`).

**Where the code and its docstring disagree.** The docstring of
`iterate_pagerank` (lines 119-121) says that the values "should sum to 1".
The code does not guarantee this. In `calculate_link_sum` (line 131), a
page without links passes its rank to no page. So once a round with
d > 0 runs while pages without links hold rank, the total is below 1.
The result can still total 1, for example when the uniform start
already passes the test, because the loop returns `pagerank` and not
`new_pagerank`. The model follows the code:
- `Iteration.StepMass` gives the exact total after a round: 1 - d, plus d
  times the rank held by pages with links.
- `Iteration.StepLeaks` shows that the total falls below 1 whenever d > 0
  and some rank sits on a page without links.
- `Iteration.StepConservesMass`, `Iteration.RelaxedMass` and
  `Iteration.IteratePageRank` prove a total of 1 when every page has a
  link and every link names a page of the corpus.
- For 0 <= d <= 1 and links that all name pages of the corpus, the total stays at most 1 in every case (`Iteration.StepBounded`).

The transition model does send a page without links to every page.
`RandomSurfer.TransitionSumsToOne` proves that its probabilities always
sum to 1.

## Model

| member | source | states |
|---|---|---|
| Corpus.Filtered | Pagerank/pagerank.py:39-46 | The filtered corpus has the same pages as the extracted links. No page links to itself, every link names a page of the corpus, and no link is added. Every extracted link to another page of the corpus is kept. |
| Corpus.Crawl | Pagerank/pagerank.py:39-46 | The in-place loop first removes each page's self-link, then keeps the links that name a page of the corpus. The result equals `Filtered`. |
| Corpus.FilteredKeepsWellFormed | Pagerank/pagerank.py:42-46 | Filtering a corpus that already has no self-links and no unknown links returns it unchanged. |
| Corpus.FilteredIdempotent | Pagerank/pagerank.py:42-46 | Filtering twice gives the same corpus as filtering once. |
| Corpus.EnumerationSize | Pagerank/pagerank.py:85-86 | A list of each page once has exactly the corpus's pages, and its length is the number of pages. |
| Corpus.NormalizedMass | Pagerank/pagerank.py:109 | Dividing every entry of a vector that totals n > 0 by n gives a vector that totals 1. |
| RandomSurfer.Targets | Pagerank/pagerank.py:61-63 | The pages a surfer can follow a link to are never empty, and they include all of the page's own links. |
| RandomSurfer.Transition | Pagerank/pagerank.py:60-73 | The distribution covers exactly the corpus's pages. `TransitionEntries` gives its exact entries, `TransitionBounds` its bounds and `TransitionSumsToOne` its total of 1. |
| RandomSurfer.TransitionEntries | Pagerank/pagerank.py:60-73 | The distribution covers exactly the corpus's pages. For a page with links, each linked page gets (1-d)/N + d/\|links\| and every other page gets exactly (1-d)/N. |
| RandomSurfer.TransitionBounds | Pagerank/pagerank.py:62-71 | For d >= 0, every probability is at least (1-d)/N. For d in [0,1], every probability is at most 1. From a page without links, every page gets exactly 1/N. |
| Corpus.JumpTotal | Pagerank/pagerank.py:65-68 | The random-jump shares of all N pages add up to 1 - d. `transition_model` and each round of `iterate_pagerank` (line 138) use the same share. |
| RandomSurfer.LinkTotal | Pagerank/pagerank.py:66-71 | The followed-link shares add up to d. |
| RandomSurfer.TransitionSumsToOne | Pagerank/pagerank.py:51-73 | For every damping factor, the transition probabilities of a page sum to exactly 1. |
| RandomSurfer.TransitionModel | Pagerank/pagerank.py:51-73 | The method sets every page to (1-d)/N, then adds d/\|targets\| to each target in turn. Its result equals the distribution `Transition`. |
| RandomSurfer.Weights | Pagerank/pagerank.py:103 | `list(model.values())` has one weight per page. The weights are in the order of `pages`, which is the insertion order of `model` at line 68 (see the paragraph on iteration order). |
| Sampling.Walk | Pagerank/pagerank.py:93-106 | Every page the surfer stands on belongs to the corpus. |
| Sampling.Draw | Pagerank/pagerank.py:100-103 | The page that `random.choices` draws from the current page's transition weights belongs to the corpus. |
| Sampling.Trail | Pagerank/pagerank.py:95-106 | The pages stood on in the first k iterations, one per iteration. `TrailWalks` says entry i is step i of the walk. |
| Sampling.TrailWalks | Pagerank/pagerank.py:95-106 | Entry i of the trail of k steps is the page the surfer stands on at step i. |
| Sampling.TrailInCorpus | Pagerank/pagerank.py:95-106 | Every page of the trail belongs to the corpus. |
| Sampling.CountPresent | Pagerank/pagerank.py:97 | A visited page has a count of at least 1. |
| Sampling.Counts | Pagerank/pagerank.py:90-97 | `page_counts` after a trail has exactly the corpus's pages as keys. `CountsCount` says each entry is the number of visits. |
| Sampling.CountsCount | Pagerank/pagerank.py:90-97 | `page_counts[p]` equals the number of times the trail stands on p. |
| Sampling.TallyTotal | Pagerank/pagerank.py:95-97 | The counts over all pages add up to the number of completed steps. |
| Sampling.ProportionsSumToOne | Pagerank/pagerank.py:109 | The visit shares sum to 1. |
| Sampling.ProportionsBounded | Pagerank/pagerank.py:109 | Every visit share lies in [0,1]. The starting page's share is at least 1/n. |
| Sampling.CountVisits | Pagerank/pagerank.py:90-106 | The loop's `page_counts` equal the counts of the surfer's trail of n steps. |
| Sampling.NextPage | Pagerank/pagerank.py:100-103 | The next page is the draw from the current page's transition weights, in the order of the pages. It belongs to the corpus. |
| Sampling.SamplePageRank | Pagerank/pagerank.py:76-111 | It fails with EmptyCorpus exactly when there are no pages, and with ZeroSamples exactly when n = 0 (and there are pages). It succeeds exactly when there are pages and n > 0; then each rank is a page's share of the n visits. The ranks sum to 1 and lie in [0,1]. |
| Iteration.LinkSumIsRow | Pagerank/pagerank.py:130-131 | `calculate_link_sum(page)` is the sum of page's row of the flow matrix. |
| Iteration.Share | Pagerank/pagerank.py:131 | What `link` passes to `page` is one equal share of its rank per outbound link (share × out-degree = rank), and 0 when `link` does not link to `page`. It is non-negative for a non-negative rank. The division happens only for a page with a link, so its divisor is never 0; Dafny checks this when it verifies the definition. |
| Iteration.LinkSum | Pagerank/pagerank.py:130-131 | `calculate_link_sum(page)`, summed in dictionary order. It has no contract of its own. `LinkSumNonNegative` proves it non-negative for non-negative ranks, `LinkSumIsRow` ties it to the flow matrix, and `Received` gives its total over all pages. |
| Iteration.LinkSumNonNegative | Pagerank/pagerank.py:130-131 | With non-negative ranks, the link sum is non-negative. |
| Iteration.NewRank | Pagerank/pagerank.py:138 | The new rank of one page. It has no contract of its own. `StepBounds` proves it is at least (1-d)/N for d >= 0 and non-negative ranks, and `StepSplits`, `StepParts` and `StepMass` give its parts and the total over all pages. |
| Iteration.Step | Pagerank/pagerank.py:135-138 | A round gives a new rank to exactly the corpus's pages. |
| Iteration.UpdateStep | Pagerank/pagerank.py:135-138 | The page-by-page loop builds exactly the round `Step`. |
| Iteration.StepBounds | Pagerank/pagerank.py:138 | For d >= 0 and non-negative ranks, every new rank is at least (1-d)/N. |
| Iteration.OutFlow | Pagerank/pagerank.py:131 | When every link names a page of the corpus, what a page passes on, summed over all receivers, is all of its rank if it has links, and nothing otherwise. |
| Iteration.Received | Pagerank/pagerank.py:131 | When every link names a page of the corpus, the link sums over all pages equal the rank held by pages with links. |
| Iteration.InflowMass | Pagerank/pagerank.py:131-138 | When every link names a page of the corpus, the link terms of a round add up to d times the rank held by pages with links. |
| Iteration.InflowRows | Pagerank/pagerank.py:131-138 | The link terms of a round add up to d times the summed rows of the flow matrix. |
| Iteration.KeptAndDangling | Pagerank/pagerank.py:131 | A vector's total splits into the rank of pages with links plus the rank of pages without links. |
| Iteration.StepParts | Pagerank/pagerank.py:138 | A round's total is the total of its jump terms plus the total of its link terms. |
| Iteration.StepMass | Pagerank/pagerank.py:131-138 | When every link names a page of the corpus, the total after a round is exactly (1-d) + d × (rank held by pages with links). |
| Iteration.KeptAll | Pagerank/pagerank.py:131 | When every page has a link, the rank held by pages with links is the whole total. |
| Iteration.KeptAtMost | Pagerank/pagerank.py:131 | With non-negative ranks, the rank held by pages with links is between 0 and the total. |
| Iteration.StepConservesMass | Pagerank/pagerank.py:119-138 | When every page has a link and every link names a page of the corpus, a round keeps a total of 1 at 1. |
| Iteration.StepLeaks | Pagerank/pagerank.py:119-138 | When d > 0, every link names a page of the corpus and pages without links hold some rank, a round takes a total of 1 below 1. |
| Iteration.Uniform | Pagerank/pagerank.py:123-127 | The initial vector has exactly the corpus's pages. |
| Iteration.UniformMass | Pagerank/pagerank.py:123-127 | The initial vector of 1/N per page totals 1. |
| Iteration.Relaxed | Pagerank/pagerank.py:127-147 | The vector after k rounds has exactly the corpus's pages. |
| Iteration.RelaxedMass | Pagerank/pagerank.py:119-147 | When every page has a link and every link names a page of the corpus, the vector after any number of rounds totals 1. |
| Iteration.UniformBounded | Pagerank/pagerank.py:123-127 | For d >= 0, the initial vector has entries of at least (1-d)/N and a total of at most 1. |
| Iteration.StepBounded | Pagerank/pagerank.py:131-138 | For d in [0,1] and links that all name pages of the corpus, a round keeps entries of at least (1-d)/N and a total of at most 1, even with pages that have no links. |
| Iteration.RelaxedBounded | Pagerank/pagerank.py:127-147 | For d in [0,1] and links that all name pages of the corpus, the vector after any number of rounds has entries of at least (1-d)/N and a total of at most 1. |
| Iteration.BoundedEntries | Pagerank/pagerank.py:119-121 | In such a vector, every entry lies between (1-d)/N and 1. |
| Iteration.MaxChange | Pagerank/pagerank.py:141 | `max_change` bounds the change of every page, and some page changes by exactly that amount. |
| Iteration.ConvergenceTest | Pagerank/pagerank.py:141-145 | `max_change < 0.001` holds exactly when one more round would change every entry by less than 0.001. |
| Iteration.Settled | Pagerank/pagerank.py:119-149 | For d in [0,1] and a corpus whose links all name pages of the corpus, the vector after k rounds has entries between (1-d)/N and 1. When, in addition, every page has a link, it sums to 1. |
| Iteration.IteratePageRank | Pagerank/pagerank.py:114-149 | It fails with EmptyCorpus exactly when the corpus is empty. It fails with FuelExhausted exactly when none of the first `fuel` vectors passes the test. It succeeds exactly in the remaining case, and returns `pagerank`, not `new_pagerank`, of the first round whose step changes every entry by less than 0.001, with the corpus's pages as keys. For d in [0,1] and a corpus whose links all name pages of the corpus, entries lie between (1-d)/N and 1. When every page has a link and every link names a page of the corpus, the entries sum to 1. |

## Left out

- The reading of HTML files in `crawl` (lines 33-38) is left out: directory listing, file I/O and the regular expression that extracts links. `Corpus.Crawl` takes the extracted links of each file as its input.
- `main` (lines 10-21) is left out: the command-line check, the printing of ranks and their sorting. It does only I/O.
- The probabilities of `random.choice` and `random.choices` are not modelled. The model takes the drawn indices from a `Chooser` and proves its properties for every chooser. It says nothing about how likely a result is, or how close the sampled ranks come to the iterated ones.
- Floating-point rounding is not modelled. Ranks are exact reals, so sums that equal 1 here may be off by rounding in the program.
- Iteration.IteratePageRank: the unbounded `while True` loop is cut off after `fuel` rounds. Whether the program terminates for every corpus and damping factor is not modelled.
- Sampling.SamplePageRank: n is a natural number. A negative n, for which the program returns all zeros, is not modelled.
- RandomSurfer.TransitionModel: it requires that the page is in the corpus and that its links are pages of the corpus. The program would raise KeyError otherwise. The corpus that `crawl` returns always meets this.
- A uniform spread of the rank of pages without links in the iterative estimator is not modelled, because the code does not do it. The model keeps the leak of the code, and `Iteration.StepMass` and `Iteration.StepLeaks` state it.
- `Knights/puzzle.py` and `tic tac toe/tictactoe.py` are separate programs and are not part of this model.
