/**
 The iterative estimator `iterate_pagerank`: start from the uniform
 ranking and apply the damped PageRank update until no page's rank moves
 by as much as the threshold.
 */
module Iteration {
  import opened Sums
  import opened Links
  import opened Surfer

  /** The stopping threshold of the code: every change must be below it. */
  const Threshold: real := 0.0015

  function Abs(x: real): real
  {
    if x < 0.0 then -x else x
  }

  /** The starting ranking: 1/N for each of the N pages. */
  function Uniform(corpus: Graph): (rank: map<string, real>)
    ensures rank.Keys == corpus.Keys
  {
    map k | k in corpus :: 1.0 / |corpus| as real
  }

  /**
   What page i passes on to page p in one update: its rank split evenly
   among its links, or among all N pages when it has none.
   */
  function Share(corpus: Graph, rank: map<string, real>, i: string, p: string): real
  {
    if i !in corpus || i !in rank then 0.0
    else if p in corpus[i] then rank[i] / |corpus[i]| as real
    else if corpus[i] == {} then rank[i] / |corpus| as real
    else 0.0
  }

  /** Share as a function of (i, p), to sum it by rows or by columns. */
  function Contribution(corpus: Graph, rank: map<string, real>): (string, string) -> real
  {
    (i: string, p: string) => Share(corpus, rank, i, p)
  }

  /** The rank flowing into page p from the pages of s: the `summation` of the update. */
  ghost function Inflow(corpus: Graph, rank: map<string, real>, s: set<string>, p: string): real
    decreases s
  {
    if s == {} then 0.0 else
      var i := Pick(s);
      Share(corpus, rank, i, p) + Inflow(corpus, rank, s - {i}, p)
  }

  /** Inflow is the sum of column p of Contribution. */
  lemma {:induction false} InflowIsSum(corpus: Graph, rank: map<string, real>, s: set<string>, p: string)
    ensures Inflow(corpus, rank, s, p) == Sum(s, Column(Contribution(corpus, rank), p))
    decreases s
  {
    if s != {} {
      InflowIsSum(corpus, rank, s - {Pick(s)}, p);
    }
  }

  /** One update: PR(p) = (1 - d)/N + d * (sum over i of what i passes on to p). */
  ghost function Step(corpus: Graph, d: real, rank: map<string, real>): (next: map<string, real>)
    ensures next.Keys == corpus.Keys
  {
    map p | p in corpus :: (1.0 - d) / |corpus| as real + d * Inflow(corpus, rank, corpus.Keys, p)
  }

  /** The ranking after k updates of the uniform one. */
  ghost function Iterate(corpus: Graph, d: real, k: nat): (rank: map<string, real>)
    ensures rank.Keys == corpus.Keys
  {
    if k == 0 then Uniform(corpus) else Step(corpus, d, Iterate(corpus, d, k - 1))
  }

  /** The update that produced ranking j changed every page by less than the threshold. */
  ghost predicate Settled(corpus: Graph, d: real, j: nat)
    requires j >= 1
  {
    Close(Iterate(corpus, d, j - 1), Iterate(corpus, d, j))
  }

  /** None of the first r updates settled. */
  ghost predicate NoneSettled(corpus: Graph, d: real, r: nat)
  {
    r == 0 || (!Settled(corpus, d, r) && NoneSettled(corpus, d, r - 1))
  }

  /** NoneSettled says that no update j with 1 <= j <= r settled. */
  lemma {:induction false} NoneSettledMeans(corpus: Graph, d: real, r: nat)
    ensures NoneSettled(corpus, d, r) <==> forall j :: 1 <= j <= r ==> !Settled(corpus, d, j)
  {
    if r > 0 {
      NoneSettledMeans(corpus, d, r - 1);
    }
  }

  /** Every page's rank changed by less than the threshold. */
  predicate Close(before: map<string, real>, after: map<string, real>)
  {
    forall k :: k in before ==> k in after && Abs(before[k] - after[k]) < Threshold
  }

  /** The inner `for i in corpus` loop: the summation for page key. */
  method InflowTo(corpus: Graph, currentRank: map<string, real>, key: string)
    returns (summation: real)
    requires currentRank.Keys == corpus.Keys
    ensures summation == Inflow(corpus, currentRank, corpus.Keys, key)
  {
    var n := |corpus| as real;
    summation := 0.0;
    var others := corpus.Keys;
    while others != {}
      invariant others <= corpus.Keys
      invariant summation == Inflow(corpus, currentRank, corpus.Keys - others, key)
      decreases others
    {
      var i :| i in others;
      if key in corpus[i] {
        summation := summation + currentRank[i] / |corpus[i]| as real;
      } else if |corpus[i]| == 0 {
        summation := summation + currentRank[i] / n;
      }
      InflowInsert(corpus, currentRank, corpus.Keys - others, i, key);
      assert corpus.Keys - others + {i} == corpus.Keys - (others - {i});
      others := others - {i};
    }
    assert corpus.Keys - others == corpus.Keys;
  }

  /** Taking one more page into the summation adds its share. */
  lemma InflowInsert(corpus: Graph, rank: map<string, real>, s: set<string>, i: string, p: string)
    requires i !in s
    ensures Inflow(corpus, rank, s + {i}, p) == Inflow(corpus, rank, s, p) + Share(corpus, rank, i, p)
  {
    InflowIsSum(corpus, rank, s + {i}, p);
    InflowIsSum(corpus, rank, s, p);
    SumInsert(s, Column(Contribution(corpus, rank), p), i);
  }

  /** The `for key in currentRank` loop: one update of every page's rank. */
  method ComputeStep(corpus: Graph, d: real, currentRank: map<string, real>)
    returns (newRank: map<string, real>)
    requires currentRank.Keys == corpus.Keys
    ensures newRank == Step(corpus, d, currentRank)
  {
    newRank := map[];
    var keys := currentRank.Keys;
    while keys != {}
      invariant keys <= currentRank.Keys
      invariant newRank.Keys == currentRank.Keys - keys
      invariant forall p :: p in newRank ==> newRank[p] == Step(corpus, d, currentRank)[p]
      decreases keys
    {
      var key :| key in keys;
      var rank := UpdatedRank(corpus, d, currentRank, key);
      newRank := newRank[key := rank];
      keys := keys - {key};
    }
    SameMaps(newRank, Step(corpus, d, currentRank));
  }

  /** The body of the `for key in currentRank` loop: the new rank of page key. */
  method UpdatedRank(corpus: Graph, d: real, currentRank: map<string, real>, key: string)
    returns (rank: real)
    requires currentRank.Keys == corpus.Keys && key in corpus
    ensures rank == Step(corpus, d, currentRank)[key]
  {
    var summation := InflowTo(corpus, currentRank, key);
    rank := (1.0 - d) / |corpus| as real + d * summation;
    StepAt(corpus, d, currentRank, key, summation);
  }

  /**
   Solver hint: unfolds Step at one page, so that UpdatedRank can name the
   step; Dafny proves it without a body.
   */
  lemma StepAt(corpus: Graph, d: real, rank: map<string, real>, p: string, summation: real)
    requires p in corpus
    requires summation == Inflow(corpus, rank, corpus.Keys, p)
    ensures Step(corpus, d, rank)[p] == (1.0 - d) / |corpus| as real + d * summation
  {
  }

  /**
   The stopping test: collect |currentRank[key] - newRank[key]| for every
   page into a list, then check that all of them are below the threshold.
   */
  method AllClose(currentRank: map<string, real>, newRank: map<string, real>) returns (done: bool)
    requires currentRank.Keys <= newRank.Keys
    ensures done == Close(currentRank, newRank)
  {
    var diff: seq<real> := [];
    ghost var seen: seq<string> := [];
    var keys := currentRank.Keys;
    while keys != {}
      invariant keys <= currentRank.Keys
      invariant |seen| == |diff|
      invariant forall k :: k in currentRank && k !in keys ==> k in seen
      invariant forall j :: 0 <= j < |seen| ==>
                  seen[j] in currentRank && diff[j] == Abs(currentRank[seen[j]] - newRank[seen[j]])
      decreases keys
    {
      var key :| key in keys;
      diff := diff + [Abs(currentRank[key] - newRank[key])];
      seen := seen + [key];
      keys := keys - {key};
    }

    done := true;
    var j := 0;
    while j < |diff|
      invariant 0 <= j <= |diff|
      invariant done == forall m :: 0 <= m < j ==> diff[m] < Threshold
    {
      done := done && diff[j] < Threshold;
      j := j + 1;
    }

    if !done {
      var m :| 0 <= m < |diff| && !(diff[m] < Threshold);
      assert seen[m] in currentRank;
    }
  }

  /** The `for key in corpus` loop that starts every page at 1/N. */
  method UniformRanks(corpus: Graph) returns (currentRank: map<string, real>)
    ensures currentRank == Uniform(corpus)
  {
    var n := |corpus| as real;
    currentRank := map[];
    var keys := corpus.Keys;
    while keys != {}
      invariant keys <= corpus.Keys
      invariant currentRank.Keys == corpus.Keys - keys
      invariant forall k :: k in currentRank ==> currentRank[k] == 1.0 / n
      decreases keys
    {
      var key :| key in keys;
      currentRank := currentRank[key := 1.0 / n];
      keys := keys - {key};
    }
    SameMaps(currentRank, Uniform(corpus));
  }

  /** One pass of the `while run` loop: the next ranking and whether the pass settled. */
  method Round(corpus: Graph, d: real, currentRank: map<string, real>, ghost k: nat)
    returns (newRank: map<string, real>, done: bool)
    requires currentRank == Iterate(corpus, d, k)
    ensures newRank == Iterate(corpus, d, k + 1)
    ensures done == Settled(corpus, d, k + 1)
  {
    newRank := ComputeStep(corpus, d, currentRank);
    done := AllClose(currentRank, newRank);
  }

  /**
   `iterate_pagerank`: start uniform, update until every change is below
   the threshold and return the last ranking. The loop is bounded by
   maxRounds; `converged` says whether the threshold test stopped it.
   */
  method IteratePageRank(corpus: Graph, d: real, maxRounds: nat)
    returns (currentRank: map<string, real>, rounds: nat, converged: bool)
    ensures rounds <= maxRounds && currentRank == Iterate(corpus, d, rounds)
    ensures converged ==> 1 <= rounds && Settled(corpus, d, rounds) && NoneSettled(corpus, d, rounds - 1)
    ensures !converged ==> rounds == maxRounds && NoneSettled(corpus, d, rounds)
  {
    currentRank := UniformRanks(corpus);

    var run := true;
    rounds := 0;
    converged := false;
    while run && rounds < maxRounds
      invariant rounds <= maxRounds && currentRank == Iterate(corpus, d, rounds)
      invariant run == !converged
      invariant converged ==> 1 <= rounds && Settled(corpus, d, rounds)
      invariant NoneSettled(corpus, d, if converged then rounds - 1 else rounds)
      decreases maxRounds - rounds, run
    {
      var newRank, done := Round(corpus, d, currentRank, rounds);
      if done {
        run := false;
        converged := true;
      }
      currentRank := newRank;
      rounds := rounds + 1;
    }
  }

  /** The uniform start adds up to one. */
  lemma UniformTotal(corpus: Graph)
    requires corpus != map[]
    ensures Total(Uniform(corpus)) == 1.0
  {
    var n := |corpus| as real;
    assert Total(Uniform(corpus)) == n * (1.0 / n) by {
      SumIndicator(corpus.Keys, corpus.Keys, ValueOf(Uniform(corpus)), 1.0 / n);
      SameProduct(|corpus.Keys| as real, n, 1.0 / n);
    }
    Cancel(n, 1.0);
  }

  /** What page i passes on, summed over all pages, is its whole rank. */
  lemma RowTotal(corpus: Graph, rank: map<string, real>, i: string)
    requires LinksInCorpus(corpus)
    requires i in corpus && i in rank
    ensures Sum(corpus.Keys, Row(Contribution(corpus, rank), i)) == rank[i]
  {
    if corpus[i] == {} {
      SinkRowTotal(corpus, rank, i);
    } else {
      LinkedRowTotal(corpus, rank, i);
    }
  }

  /** A page without links passes 1/N of its rank to every page. */
  lemma SinkRowTotal(corpus: Graph, rank: map<string, real>, i: string)
    requires i in corpus && i in rank && corpus[i] == {}
    ensures Sum(corpus.Keys, Row(Contribution(corpus, rank), i)) == rank[i]
  {
    var row := Row(Contribution(corpus, rank), i);
    assert |corpus.Keys| == |corpus|;
    forall p | p in corpus.Keys
      ensures row(p) == if p in corpus.Keys then rank[i] / |corpus.Keys| as real else 0.0
    {
    }
    SumSpread(corpus.Keys, corpus.Keys, row, rank[i]);
  }

  /** A page with m links passes 1/m of its rank to each of them. */
  lemma LinkedRowTotal(corpus: Graph, rank: map<string, real>, i: string)
    requires LinksInCorpus(corpus)
    requires i in corpus && i in rank && corpus[i] != {}
    ensures Sum(corpus.Keys, Row(Contribution(corpus, rank), i)) == rank[i]
  {
    var row := Row(Contribution(corpus, rank), i);
    forall p | p in corpus.Keys
      ensures row(p) == if p in corpus[i] then rank[i] / |corpus[i]| as real else 0.0
    {
    }
    SumSpread(corpus.Keys, corpus[i], row, rank[i]);
  }

  /** The inflows of all pages add up to the total rank: no rank is lost or made. */
  lemma InflowTotal(corpus: Graph, rank: map<string, real>)
    requires LinksInCorpus(corpus)
    requires rank.Keys == corpus.Keys
    ensures Sum(corpus.Keys, ColumnSums(corpus.Keys, Contribution(corpus, rank))) == Total(rank)
  {
    var c := Contribution(corpus, rank);
    SumSwap(corpus.Keys, corpus.Keys, c);
    forall i | i in corpus.Keys
      ensures RowSums(corpus.Keys, c)(i) == ValueOf(rank)(i)
    {
      RowTotal(corpus, rank, i);
    }
    SumCongruence(corpus.Keys, RowSums(corpus.Keys, c), ValueOf(rank));
  }

  /**
   The update keeps (1 - d) of the total and passes on d of it: the base
   shares add up to 1 - d and the inflows to the old total.
   */
  lemma StepTotal(corpus: Graph, d: real, rank: map<string, real>, total: real)
    requires LinksInCorpus(corpus)
    requires corpus != map[] && rank.Keys == corpus.Keys
    requires total == Total(rank)
    ensures Total(Step(corpus, d, rank)) == (1.0 - d) + d * total
  {
    StepValues(corpus, d, rank);
    InflowTotal(corpus, rank);
    AffineStepTotal(corpus, d, rank, ColumnSums(corpus.Keys, Contribution(corpus, rank)), total);
  }

  /** The total of an update whose inflows g add up to t. */
  lemma AffineStepTotal(corpus: Graph, d: real, rank: map<string, real>, g: string -> real, t: real)
    requires corpus != map[]
    requires IsAffine(corpus.Keys, ValueOf(Step(corpus, d, rank)), (1.0 - d) / |corpus| as real, d, g)
    requires Sum(corpus.Keys, g) == t
    ensures Total(Step(corpus, d, rank)) == (1.0 - d) + d * t
  {
    SpreadMapTotal(Step(corpus, d, rank), corpus.Keys, 1.0 - d, d, g, |corpus| as real, t);
  }

  /** Each page's new rank is the base share plus d times the column sum of what flows in. */
  lemma StepValues(corpus: Graph, d: real, rank: map<string, real>)
    requires corpus != map[]
    ensures IsAffine(corpus.Keys, ValueOf(Step(corpus, d, rank)), (1.0 - d) / |corpus| as real, d,
                     ColumnSums(corpus.Keys, Contribution(corpus, rank)))
  {
    forall p | p in corpus.Keys
      ensures ValueOf(Step(corpus, d, rank))(p)
              == (1.0 - d) / |corpus| as real + d * ColumnSums(corpus.Keys, Contribution(corpus, rank))(p)
    {
      InflowIsSum(corpus, rank, corpus.Keys, p);
      StepAt(corpus, d, rank, p, ColumnSums(corpus.Keys, Contribution(corpus, rank))(p));
    }
  }

  /** With non-negative ranks every inflow is non-negative. */
  lemma {:induction false} InflowNonNegative(corpus: Graph, rank: map<string, real>, s: set<string>, p: string)
    requires forall i :: i in rank ==> 0.0 <= rank[i]
    ensures 0.0 <= Inflow(corpus, rank, s, p)
    decreases s
  {
    if s != {} {
      InflowNonNegative(corpus, rank, s - {Pick(s)}, p);
    }
  }

  /** With 0 <= d <= 1 the update keeps every rank non-negative. */
  lemma StepNonNegative(corpus: Graph, d: real, rank: map<string, real>)
    requires 0.0 <= d <= 1.0
    requires forall i :: i in rank ==> 0.0 <= rank[i]
    ensures forall p :: p in corpus ==> 0.0 <= Step(corpus, d, rank)[p]
  {
    forall p | p in corpus
      ensures 0.0 <= Step(corpus, d, rank)[p]
    {
      var inflow := Inflow(corpus, rank, corpus.Keys, p);
      InflowNonNegative(corpus, rank, corpus.Keys, p);
      StepAt(corpus, d, rank, p, inflow);
      assert 1.0 <= |corpus| as real;
      assert 0.0 <= (1.0 - d) / |corpus| as real;
      ProductNonNegative(d, inflow);
    }
  }

  /**
   With 0 <= d <= 1 every ranking of the iteration is a probability
   distribution over the corpus: non-negative values adding up to one,
   each therefore at most one.
   */
  lemma {:induction false} IterateIsDistribution(corpus: Graph, d: real, k: nat)
    requires LinksInCorpus(corpus) && corpus != map[]
    requires 0.0 <= d <= 1.0
    ensures Total(Iterate(corpus, d, k)) == 1.0
    ensures forall p :: p in corpus ==> 0.0 <= Iterate(corpus, d, k)[p] <= 1.0
  {
    if k == 0 {
      UniformTotal(corpus);
      assert forall p :: p in corpus ==> 0.0 <= Uniform(corpus)[p];
    } else {
      var before := Iterate(corpus, d, k - 1);
      IterateIsDistribution(corpus, d, k - 1);
      StepTotal(corpus, d, before, 1.0);
      StepNonNegative(corpus, d, before);
    }
    AtMostOne(Iterate(corpus, d, k));
  }

  /** Non-negative values adding up to one are each at most one. */
  lemma AtMostOne(rank: map<string, real>)
    requires Total(rank) == 1.0
    requires forall p :: p in rank ==> 0.0 <= rank[p]
    ensures forall p :: p in rank ==> rank[p] <= 1.0
  {
    forall p | p in rank
      ensures rank[p] <= 1.0
    {
      ValueAtMostTotal(rank, p);
    }
  }
}
