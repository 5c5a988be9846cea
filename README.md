# PageRank in Dafny

A Dafny model of `pagerank.py`, a small PageRank engine that does three things:

- it reads a directory of HTML pages into a link graph (`crawl`);
- it estimates each page's rank by letting a damped random surfer walk the graph (`sample_pagerank`, with `transition_model` giving the surfer's next-page distribution);
- it estimates the ranks a second way, by repeating the PageRank update until every change is small (`iterate_pagerank`).

The program's loops are modelled as Dafny methods with loops. Each method is proved against a pure specification function, and lemmas then prove what those functions promise:

- the cleaned graph has the right shape;
- each transition distribution adds up to one;
- every ranking of the iteration is a probability distribution;
- the sampler's estimate adds up to (n - 1)/n rather than to one.

Modules, one per file:

- `Sums` (`sums.dfy`): a sum over a finite set, and the facts about sums the other modules need. These are linearity, scaling, indicator sums and exchanging the order of a double sum.
- `Links` (`links.dfy`): the link graph, and the clean-up step of `crawl`.
- `Surfer` (`surfer.dfy`): `transition_model` and its closed form `Distribution`.
- `Sampling` (`sampling.dfy`): `sample_pagerank`. The random start page and the random draws are passed in as parameters.
- `Iteration` (`iteration.dfy`): `iterate_pagerank`, whose updates are specified by the functions `Step` and `Iterate`.

Floating-point numbers are modelled as Dafny `real`, so every division and sum is exact.

## Model

| member | source | states |
|---|---|---|
| Links.Cleaned | pagerank.py:39-46 | the cleaned graph has the pages of the input as keys, and in it no page links to itself and every link names a page of the corpus |
| Links.Crawl | pagerank.py:30-48 | the two loops of `crawl` (drop the page's own name, then drop links that leave the corpus) compute exactly `Cleaned` of the extracted links |
| Links.CleanedKeepsGraph | pagerank.py:42-46 | cleaning a graph that already has no self-links and no links out of the corpus leaves it unchanged |
| Links.CleanedIdempotent | pagerank.py:39-46 | cleaning twice gives the same graph as cleaning once |
| Surfer.FillAll | pagerank.py:62-67 | the `for key in corpus` loops give every page of the corpus the same value and add no other key |
| Surfer.TransitionModel | pagerank.py:51-74 | `transition_model` returns 1/N for every page when the current page has no links; otherwise it returns (1 - d)/N for every page plus d/\|links\| for each linked page |
| Surfer.DistributionTotal | pagerank.py:51-74 | whatever the damping factor, the transition distribution adds up to one |
| Surfer.LinkedTotal | pagerank.py:66-72 | for a page with links, the distribution adds up to one |
| Surfer.DistributionBounds | pagerank.py:51-74 | with 0 <= d <= 1, every probability of the transition distribution lies in [0, 1] |
| Sampling.SamplePageRank | pagerank.py:79-106 | the sampler's result maps every page to its visit count over the n - 1 recorded passes, divided by n |
| Sampling.Walk | pagerank.py:88-102 | after the `for _ in range(1, n)` loop every page's value is its number of visits, where pass j visits the start page (j = 0) or draw j - 1 |
| Sampling.Pass | pagerank.py:95-102 | one pass adds one to the current page's count and changes no other count; the next page is the injected draw, which has positive weight in the current page's transition model |
| Sampling.DivideAll | pagerank.py:104-105 | the final loop divides every value by n and keeps the keys |
| Sampling.TallyCounts | pagerank.py:94-95 | counting from zero, the counts after j passes are the multiplicities of the first j visited pages |
| Sampling.CountsTotal | pagerank.py:94-95 | the visit counts over the pages of the corpus add up to the number of visits |
| Sampling.EstimateTotal | pagerank.py:104-105 | dividing the counts by n gives values that add up to the number of visits divided by n |
| Sampling.SampleTotal | pagerank.py:94-106 | the sampler's estimate adds up to (n - 1)/n, which is below one for every n >= 1; for n = 1 every value is 0 |
| Sampling.SampleBounds | pagerank.py:94-106 | every sampled value lies in [0, 1]; for n < 0 the loop does not run and every value is 0 |
| Sampling.CorrectedSampleTotal | pagerank.py:94-106 | counting the start page and all n - 1 draws (n visits) and dividing by n gives an estimate that adds up to one |
| Iteration.UniformRanks | pagerank.py:118-121 | the start ranking gives each of the N pages 1/N |
| Iteration.UniformTotal | pagerank.py:118-121 | on a non-empty corpus the start ranking adds up to one |
| Iteration.InflowTo | pagerank.py:127-132 | the `for i in corpus` loop sums what every page passes on to the key page: its rank divided by its link count if it links there, or divided by N if it has no links |
| Iteration.UpdatedRank | pagerank.py:127-133 | the new rank of a page is (1 - d)/N plus d times that summation |
| Iteration.ComputeStep | pagerank.py:125-133 | the `for key in currentRank` loop computes the whole update `Step` of the current ranking |
| Iteration.AllClose | pagerank.py:135-138 | the stopping test is true exactly when every page's rank changed by less than 0.0015 |
| Iteration.Round | pagerank.py:123-140 | one pass of `while run` turns ranking k of the iteration into ranking k + 1, and reports whether that update settled |
| Iteration.IteratePageRank | pagerank.py:109-142 | the result is the ranking after `rounds` updates of the uniform start; when the loop stops by the test, the last update is the first that settled; otherwise no update settled within the bound |
| Iteration.NoneSettledMeans | pagerank.py:123-140 | the recursive "no earlier update settled" used by IteratePageRank means that no update j with 1 <= j <= r settled |
| Iteration.RowTotal | pagerank.py:128-132 | summed over all pages, what one page passes on is exactly its rank, for pages with links and for pages without |
| Iteration.InflowTotal | pagerank.py:128-132 | the summations of all pages add up to the total of the current ranking: the update loses and creates no rank |
| Iteration.StepTotal | pagerank.py:126-133 | an update maps a ranking with total t to one with total (1 - d) + d * t |
| Iteration.StepNonNegative | pagerank.py:126-133 | with 0 <= d <= 1, an update of a non-negative ranking is non-negative |
| Iteration.IterateIsDistribution | pagerank.py:118-140 | with 0 <= d <= 1, every ranking the iteration produces adds up to one and has every value in [0, 1] |

## Left out

- Reading the directory, opening files and the `href` regular expression of `crawl` (pagerank.py:33-38) are I/O and text matching. The model starts from the set of links extracted from each page.
- `main`, the command line and the printing of results are left out, because they are I/O.
- The constants `DAMPING` and `SAMPLES` are left out. The damping factor and the sample count are parameters.
- The module-level `corpus` at pagerank.py:8 is left out. Every function takes the corpus as a parameter and no code reads the global.
- Randomness is left out. `random.choice` at line 88 becomes the start page parameter, and `random.choices` at line 102 becomes a sequence of draws.
  - The only thing required of a draw is that its weight in the current page's transition model is positive. A weighted choice never returns an item of weight 0.
  - The model proves nothing about how often each page is drawn.
- The `page` and `weight` lists built at lines 97-101 only feed `random.choices`, so they are not modelled.
- Floating point is modelled as exact `real` arithmetic. Rounding, and a threshold test affected by rounding, are not captured.
- Sampling.SamplePageRank: requires n != 0. With n = 0 the source divides by zero at line 105.
- Sampling.SamplePageRank: requires the start page and every draw to be pages of the corpus. An empty corpus makes `random.choice` fail at line 88.
- Iteration.IteratePageRank: the source's `while run` has no bound, and its termination depends on convergence. The model is therefore bounded by a `maxRounds` parameter and reports whether the threshold test stopped it. Convergence of the iteration is not proved.
- Iteration.IteratePageRank: the stopping threshold is the code's 0.0015 (pagerank.py:137); the model follows the code.
- The model does not prove that the iterative update equals one step of the random surfer, that is, the average of `Distribution` over the pages weighted by their rank. Only the consequences for totals and bounds are proved.

## Findings

| source | as written | input that shows it | evidently intended | confidence | as-written member | corrected member |
|---|---|---|---|---|---|---|
| pagerank.py:94-105 | the loop `for _ in range(1, n)` records only n - 1 visits, but line 105 divides every count by n, so the estimate adds up to (n - 1)/n | n = 1: the loop never runs and every page gets 0, so the values add up to 0 and not to 1 | count n visits (the start page and the n - 1 drawn pages) so that the estimate adds up to 1 | not executed | Sampling.SampleTotal | Sampling.CorrectedSampleTotal |
