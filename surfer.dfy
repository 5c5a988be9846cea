/**
 The transition model of the damped random surfer: from the page it is on,
 the surfer follows one of the page's links with probability d and jumps
 to a page chosen uniformly with probability 1 - d; a page without links
 sends it to every page with equal probability.
 */
module Surfer {
  import opened Sums
  import opened Links

  /** The one-step distribution of the surfer standing on page, in closed form. */
  function Distribution(corpus: Graph, page: string, d: real): (dist: map<string, real>)
    requires page in corpus
    ensures dist.Keys == corpus.Keys
  {
    var n := |corpus| as real;
    var links := corpus[page];
    if links == {} then
      map k | k in corpus :: 1.0 / n
    else
      map k | k in corpus :: (1.0 - d) / n + (if k in links then d / |links| as real else 0.0)
  }

  /**
   The two `for key in corpus` loops of `transition_model`: give every page
   of the corpus the same value.
   */
  method FillAll(corpus: Graph, value: real) returns (output: map<string, real>)
    ensures output.Keys == corpus.Keys
    ensures forall k :: k in output ==> output[k] == value
  {
    output := map[];
    var keys := corpus.Keys;
    while keys != {}
      invariant keys <= corpus.Keys
      invariant output.Keys == corpus.Keys - keys
      invariant forall k :: k in output ==> output[k] == value
      decreases keys
    {
      var key :| key in keys;
      output := output[key := value];
      keys := keys - {key};
    }
  }

  /**
   `transition_model`: a sink gives every page 1/N; otherwise every page
   gets the base share (1 - d)/N and each linked page d/|links| on top.
   */
  method TransitionModel(corpus: Graph, page: string, d: real) returns (output: map<string, real>)
    requires page in corpus
    requires corpus[page] <= corpus.Keys
    ensures output == Distribution(corpus, page, d)
  {
    var n := |corpus| as real;
    assert page in corpus.Keys;
    if |corpus[page]| == 0 {
      output := FillAll(corpus, 1.0 / n);
      UniformIsDistribution(corpus, page, d, output);
      return;
    }

    output := FillAll(corpus, (1.0 - d) / n);
    var links := corpus[page];
    var prob := d / |links| as real;
    var todo := links;
    while todo != {}
      invariant todo <= links
      invariant output.Keys == corpus.Keys
      invariant forall k :: k in output ==>
                  output[k] == (1.0 - d) / n + (if k in links - todo then prob else 0.0)
      decreases todo
    {
      var pageLink :| pageLink in todo;
      output := output[pageLink := output[pageLink] + prob];
      todo := todo - {pageLink};
    }
    assert links - todo == links;
    SharesAreDistribution(corpus, page, d, output);
  }

  /** A sink's distribution is the uniform one. */
  lemma UniformIsDistribution(corpus: Graph, page: string, d: real, output: map<string, real>)
    requires page in corpus && corpus[page] == {}
    requires output.Keys == corpus.Keys
    requires forall k :: k in output ==> output[k] == 1.0 / |corpus| as real
    ensures output == Distribution(corpus, page, d)
  {
    SameMaps(output, Distribution(corpus, page, d));
  }

  /** Base share everywhere plus link share on the links is the distribution of a non-sink. */
  lemma SharesAreDistribution(corpus: Graph, page: string, d: real, output: map<string, real>)
    requires page in corpus && corpus[page] != {}
    requires output.Keys == corpus.Keys
    requires forall k :: k in output ==>
               output[k] == (1.0 - d) / |corpus| as real
                            + (if k in corpus[page] then d / |corpus[page]| as real else 0.0)
    ensures output == Distribution(corpus, page, d)
  {
    SameMaps(output, Distribution(corpus, page, d));
  }

  /**
   The distribution adds up to one, whatever the damping factor: the base
   shares add up to 1 - d and the link shares to d.
   */
  lemma DistributionTotal(corpus: Graph, page: string, d: real)
    requires page in corpus
    requires corpus[page] <= corpus.Keys
    ensures Total(Distribution(corpus, page, d)) == 1.0
  {
    var dist := Distribution(corpus, page, d);
    var n := |corpus| as real;
    if corpus[page] == {} {
      assert Total(dist) == n * (1.0 / n) by {
        SumIndicator(corpus.Keys, corpus.Keys, ValueOf(dist), 1.0 / n);
        SameProduct(|corpus.Keys| as real, n, 1.0 / n);
      }
      Cancel(n, 1.0);
    } else {
      LinkedTotal(corpus, page, d);
    }
  }

  /** The non-sink half of DistributionTotal. */
  lemma LinkedTotal(corpus: Graph, page: string, d: real)
    requires page in corpus
    requires corpus[page] != {} && corpus[page] <= corpus.Keys
    ensures Total(Distribution(corpus, page, d)) == 1.0
  {
    var links := corpus[page];
    var share := (k: string) => if k in links then d / |links| as real else 0.0;
    assert IsAffine(corpus.Keys, ValueOf(Distribution(corpus, page, d)), (1.0 - d) / |corpus| as real, 1.0, share);
    SumSpread(corpus.Keys, links, share, d);
    SpreadMapTotal(Distribution(corpus, page, d), corpus.Keys, 1.0 - d, 1.0, share, |corpus| as real, d);
  }

  /** With 0 <= d <= 1 every probability lies in [0, 1]. */
  lemma DistributionBounds(corpus: Graph, page: string, d: real)
    requires page in corpus
    requires 0.0 <= d <= 1.0
    ensures forall k :: k in corpus ==>
              0.0 <= Distribution(corpus, page, d)[k] <= 1.0
  {
    var n := |corpus| as real;
    assert 1.0 <= n;
    var links := corpus[page];
    if links != {} {
      var m := |links| as real;
      assert 1.0 <= m;
      assert (1.0 - d) / n <= 1.0 - d;
      assert d / m <= d;
    }
  }
}
