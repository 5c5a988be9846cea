/**
 The sampling estimator `sample_pagerank`: walk the corpus with the
 transition model, count the pages visited and divide the counts by n.
 The random start page and the random draws are passed in.
 */
module Sampling {
  import opened Sums
  import opened Links
  import opened Surfer

  /** How many times `for _ in range(1, n)` runs. */
  function Passes(n: int): nat
  {
    if n > 1 then n - 1 else 0
  }

  /** The page the walk stands on before draw j: the start page, then the draws in order. */
  function PageAt(start: string, draws: seq<string>, j: nat): string
    requires j <= |draws|
  {
    if j == 0 then start else draws[j - 1]
  }

  /** The injected start page and draws are pages of the corpus. */
  predicate InCorpus(corpus: Graph, start: string, draws: seq<string>)
  {
    start in corpus && forall j :: 0 <= j < |draws| ==> draws[j] in corpus
  }

  /**
   Draw j has positive probability in the transition model of the page
   before it, as a weighted random choice never picks a page of weight 0.
   */
  predicate DrawPossible(corpus: Graph, d: real, start: string, draws: seq<string>, j: nat)
    requires LinksInCorpus(corpus)
    requires InCorpus(corpus, start, draws)
    requires j < |draws|
  {
    Distribution(corpus, PageAt(start, draws, j), d)[draws[j]] > 0.0
  }

  /** The draws form a walk the surfer can take. */
  predicate IsWalk(corpus: Graph, d: real, start: string, draws: seq<string>)
    requires LinksInCorpus(corpus)
    requires InCorpus(corpus, start, draws)
  {
    forall j :: 0 <= j < |draws| ==> DrawPossible(corpus, d, start, draws, j)
  }

  /** The pages the first j passes of the sampling loop count: the page current at each pass. */
  function Visits(start: string, draws: seq<string>, j: nat): (visits: seq<string>)
    requires j <= |draws|
    ensures |visits| == j
  {
    if j == 0 then [] else Visits(start, draws, j - 1) + [PageAt(start, draws, j - 1)]
  }

  /** The pages all passes of the sampling loop count. */
  function Recorded(start: string, draws: seq<string>): seq<string>
  {
    Visits(start, draws, |draws|)
  }

  /** Pass i counts the page the walk stands on before draw i. */
  lemma {:induction false} VisitsAt(start: string, draws: seq<string>, j: nat, i: nat)
    requires i < j <= |draws|
    ensures Visits(start, draws, j)[i] == PageAt(start, draws, i)
  {
    if i < j - 1 {
      VisitsAt(start, draws, j - 1, i);
    }
  }

  /** Every counted page is a page of the corpus. */
  lemma RecordedInCorpus(corpus: Graph, start: string, draws: seq<string>, visits: seq<string>)
    requires InCorpus(corpus, start, draws)
    requires visits == Recorded(start, draws) || visits == CorrectedVisits(start, draws)
    ensures forall j :: 0 <= j < |visits| ==> visits[j] in corpus
  {
    forall j | 0 <= j < |visits|
      ensures visits[j] in corpus
    {
      if visits == Recorded(start, draws) {
        VisitsAt(start, draws, |draws|, j);
      } else {
        assert visits[j] == ([start] + draws)[j];
      }
    }
  }

  /** Each page's visit count divided by n. */
  function Estimate(corpus: Graph, n: int, visits: seq<string>): (ranks: map<string, real>)
    requires n != 0
    ensures ranks.Keys == corpus.Keys
  {
    map k | k in corpus :: multiset(visits)[k] as real / n as real
  }

  /** The visit counts as a function on pages. */
  function Counts(visits: seq<string>): string -> real
  {
    k => multiset(visits)[k] as real
  }

  /**
   `sample_pagerank`: count the current page and draw the next one, n - 1
   times, then divide every count by n.
   */
  method SamplePageRank(corpus: Graph, d: real, n: int, start: string, draws: seq<string>)
    returns (output: map<string, real>)
    requires LinksInCorpus(corpus)
    requires n != 0
    requires |draws| == Passes(n)
    requires InCorpus(corpus, start, draws) && IsWalk(corpus, d, start, draws)
    ensures output == Estimate(corpus, n, Recorded(start, draws))
  {
    var counts := Walk(corpus, d, n, start, draws);
    output := DivideAll(counts, n);
    SameMaps(output, Estimate(corpus, n, Recorded(start, draws)));
  }

  /**
   The `for _ in range(1, n)` loop of `sample_pagerank`: add one to the
   current page's count, build its transition model and move to the next
   draw. The result holds every page's visit count.
   */
  method Walk(corpus: Graph, d: real, n: int, start: string, draws: seq<string>)
    returns (output: map<string, real>)
    requires LinksInCorpus(corpus)
    requires |draws| == Passes(n)
    requires InCorpus(corpus, start, draws) && IsWalk(corpus, d, start, draws)
    ensures output.Keys == corpus.Keys
    ensures output == VisitCounts(corpus, Recorded(start, draws))
  {
    var firstSample := start;
    var nextSample := firstSample;
    output := FillAll(corpus, 0.0);

    ghost var zeros := output;
    var i := 1;
    while i < n
      invariant 1 <= i <= if n > 1 then n else 1
      invariant nextSample == PageAt(start, draws, i - 1)
      invariant output == Tally(zeros, start, draws, i - 1)
    {
      output, nextSample := Pass(corpus, d, start, draws, i - 1, output, nextSample);
      assert output == Tally(zeros, start, draws, i);
      i := i + 1;
    }
    TallyRecorded(corpus, zeros, start, draws, i, output);
  }

  /**
   One pass of the loop: add one to the current page's count, build its
   transition model and take draw j as the next page.
   */
  method Pass(corpus: Graph, d: real, start: string, draws: seq<string>, j: nat,
              counts: map<string, real>, page: string)
    returns (counted: map<string, real>, next: string)
    requires LinksInCorpus(corpus)
    requires InCorpus(corpus, start, draws) && IsWalk(corpus, d, start, draws)
    requires j < |draws| && page == PageAt(start, draws, j) && page in counts
    ensures counted == counts[page := counts[page] + 1.0]
    ensures next == draws[j]
  {
    counted := counts[page := counts[page] + 1.0];
    var dist := TransitionModel(corpus, page, d);
    // random.choices over the keys of dist, weighted by its values
    next := draws[j];
    assert DrawPossible(corpus, d, start, draws, j);
    assert next in dist && dist[next] > 0.0;
  }

  /** The counts after j passes of the loop, starting from the given counts. */
  function Tally(counts: map<string, real>, start: string, draws: seq<string>, j: nat): (r: map<string, real>)
    requires j <= |draws|
    ensures r.Keys == counts.Keys
  {
    if j == 0 then counts
    else
      var before := Tally(counts, start, draws, j - 1);
      var page := PageAt(start, draws, j - 1);
      if page in before then before[page := before[page] + 1.0] else before
  }

  /** Starting from zero, the counts after all passes are the visits of all passes. */
  lemma TallyRecorded(corpus: Graph, zeros: map<string, real>, start: string, draws: seq<string>, i: int,
                      counts: map<string, real>)
    requires zeros.Keys == corpus.Keys && forall k :: k in zeros ==> zeros[k] == 0.0
    requires InCorpus(corpus, start, draws)
    requires i - 1 == |draws| && counts == Tally(zeros, start, draws, i - 1)
    ensures counts == VisitCounts(corpus, Recorded(start, draws))
  {
    TallyCounts(corpus, zeros, start, draws, |draws|);
  }

  /** Starting from zero, the counts after j passes are the visits of the first j passes. */
  lemma {:induction false} TallyCounts(corpus: Graph, zeros: map<string, real>, start: string, draws: seq<string>, j: nat)
    requires zeros.Keys == corpus.Keys && forall k :: k in zeros ==> zeros[k] == 0.0
    requires InCorpus(corpus, start, draws)
    requires j <= |draws|
    ensures Tally(zeros, start, draws, j) == VisitCounts(corpus, Visits(start, draws, j))
  {
    if j > 0 {
      var before := Tally(zeros, start, draws, j - 1);
      var page := PageAt(start, draws, j - 1);
      assert page in before;
      assert Tally(zeros, start, draws, j) == before[page := before[page] + 1.0];
      assert Visits(start, draws, j) == Visits(start, draws, j - 1) + [page];
      TallyCounts(corpus, zeros, start, draws, j - 1);
      OneMoreVisit(corpus, Visits(start, draws, j - 1), page, before);
    }
  }

  /** Every page's number of visits, as a real. */
  function VisitCounts(corpus: Graph, visits: seq<string>): (counts: map<string, real>)
    ensures counts.Keys == corpus.Keys
  {
    map k | k in corpus :: Counts(visits)(k)
  }

  /** One more visit to a page adds one to that page's count and to no other. */
  lemma OneMoreVisit(corpus: Graph, visits: seq<string>, page: string, counts: map<string, real>)
    requires page in corpus && counts == VisitCounts(corpus, visits)
    ensures counts[page := counts[page] + 1.0] == VisitCounts(corpus, visits + [page])
  {
    assert multiset(visits + [page]) == multiset(visits) + multiset{page};
  }

  /** The final `for key in output` loop of `sample_pagerank`: divide every value by n. */
  method DivideAll(counts: map<string, real>, n: int) returns (output: map<string, real>)
    requires n != 0
    ensures output.Keys == counts.Keys
    ensures forall k :: k in output ==> output[k] == counts[k] / n as real
  {
    output := counts;
    var keys := output.Keys;
    while keys != {}
      invariant keys <= output.Keys == counts.Keys
      invariant forall k :: k in output ==>
                  output[k] == if k in keys then counts[k] else counts[k] / n as real
      decreases keys
    {
      var key :| key in keys;
      output := output[key := output[key] / n as real];
      keys := keys - {key};
    }
  }

  /** The counts of visits to pages of a set add up to the number of visits. */
  lemma {:induction false} CountsTotal(keys: set<string>, visits: seq<string>)
    requires forall j :: 0 <= j < |visits| ==> visits[j] in keys
    ensures Sum(keys, Counts(visits)) == |visits| as real
    decreases |visits|
  {
    if visits == [] {
      SumIndicator(keys, {}, Counts(visits), 0.0);
    } else {
      var last := visits[|visits| - 1];
      var init := visits[..|visits| - 1];
      assert visits == init + [last];
      CountsTotal(keys, init);
      CountsTotalStep(keys, init, last);
    }
  }

  /** One more visit to a page of the set adds one to the total of the counts. */
  lemma CountsTotalStep(keys: set<string>, visits: seq<string>, page: string)
    requires page in keys
    ensures Sum(keys, Counts(visits + [page])) == Sum(keys, Counts(visits)) + 1.0
  {
    var hit := (k: string) => if k in {page} then 1.0 else 0.0;
    forall k | k in keys
      ensures Counts(visits + [page])(k) == Counts(visits)(k) + hit(k)
    {
      assert multiset(visits + [page]) == multiset(visits) + multiset{page};
    }
    SumLinear(keys, Counts(visits + [page]), Counts(visits), hit);
    assert Sum(keys, hit) == 1.0 by {
      SumIndicator(keys, {page}, hit, 1.0);
      assert |{page}| == 1;
    }
  }

  /** A page is visited at most as often as there are visits. */
  lemma {:induction false} CountBound(visits: seq<string>, k: string)
    ensures multiset(visits)[k] <= |visits|
    decreases |visits|
  {
    if visits != [] {
      var init := visits[..|visits| - 1];
      assert visits == init + [visits[|visits| - 1]];
      CountBound(init, k);
    }
  }

  /** The estimate adds up to the visit counts divided by n. */
  lemma EstimateScaled(corpus: Graph, n: int, visits: seq<string>)
    requires n != 0
    ensures Total(Estimate(corpus, n, visits)) == Sum(corpus.Keys, Counts(visits)) / n as real
  {
    var est := Estimate(corpus, n, visits);
    SumDivide(corpus.Keys, ValueOf(est), Counts(visits), n as real);
  }

  /** The estimate adds up to the number of visits divided by n. */
  lemma EstimateTotal(corpus: Graph, n: int, visits: seq<string>)
    requires n != 0
    requires forall j :: 0 <= j < |visits| ==> visits[j] in corpus
    ensures Total(Estimate(corpus, n, visits)) == |visits| as real / n as real
  {
    CountsTotal(corpus.Keys, visits);
    EstimateScaled(corpus, n, visits);
  }

  /**
   The sampler counts n - 1 visits and divides by n, so its estimate adds
   up to (n - 1)/n, short of one for every n >= 1; for n = 1 every value is 0.
   */
  lemma SampleTotal(corpus: Graph, n: int, start: string, draws: seq<string>)
    requires n >= 1
    requires |draws| == Passes(n)
    requires InCorpus(corpus, start, draws)
    ensures Total(Estimate(corpus, n, Recorded(start, draws))) == (n - 1) as real / n as real < 1.0
    ensures n == 1 ==> forall k :: k in corpus ==> Estimate(corpus, n, Recorded(start, draws))[k] == 0.0
  {
    var visits := Recorded(start, draws);
    RecordedInCorpus(corpus, start, draws, visits);
    EstimateTotal(corpus, n, visits);
    assert |visits| as real == (n - 1) as real;
    Fraction(n);
    if n == 1 {
      assert visits == [];
    }
  }

  /** Solver hint: (n - 1)/n is short of one; Dafny proves it without a body. */
  lemma Fraction(n: int)
    requires n >= 1
    ensures (n - 1) as real / n as real < 1.0
  {
  }

  /** Every sampled value lies in [0, 1]; a negative n gives all zeros. */
  lemma SampleBounds(corpus: Graph, n: int, start: string, draws: seq<string>)
    requires n != 0
    requires |draws| == Passes(n)
    ensures forall k :: k in corpus ==>
              0.0 <= Estimate(corpus, n, Recorded(start, draws))[k] <= 1.0
    ensures n < 0 ==> forall k :: k in corpus ==> Estimate(corpus, n, Recorded(start, draws))[k] == 0.0
  {
    var visits := Recorded(start, draws);
    forall k | k in corpus
      ensures 0.0 <= Estimate(corpus, n, visits)[k] <= 1.0
    {
      CountBound(visits, k);
      ShareBound(multiset(visits)[k], n);
    }
  }

  /** A count of at most n visits, divided by n, lies in [0, 1]. */
  lemma ShareBound(c: nat, n: int)
    requires n != 0 && (n > 0 ==> c <= n) && (n < 0 ==> c == 0)
    ensures 0.0 <= c as real / n as real <= 1.0
  {
    if n > 0 {
      assert c as real <= n as real;
    }
  }

  /**
   What the sampler is meant to count: the start page and then each of the
   n - 1 drawn pages, n visits in all.
   */
  function CorrectedVisits(start: string, draws: seq<string>): seq<string>
  {
    [start] + draws
  }

  /** Counting n visits and dividing by n gives an estimate that adds up to one. */
  lemma CorrectedSampleTotal(corpus: Graph, n: int, start: string, draws: seq<string>)
    requires n >= 1
    requires |draws| == n - 1
    requires InCorpus(corpus, start, draws)
    ensures Total(Estimate(corpus, n, CorrectedVisits(start, draws))) == 1.0
  {
    var visits := CorrectedVisits(start, draws);
    RecordedInCorpus(corpus, start, draws, visits);
    EstimateTotal(corpus, n, visits);
    assert |visits| == n;
    DivSelf(n as real);
  }
}
