/**
 The link graph of a corpus of pages and the clean-up step of `crawl`
 that gives it its shape: no page links to itself and every link names a
 page of the corpus. Reading the directory and extracting the `href`
 targets are left to the caller, who passes the links found in each page.
 */
module Links {

  /** Each page name mapped to the names of the pages it links to. */
  type Graph = map<string, set<string>>

  /** Every link names a page of the corpus. */
  predicate LinksInCorpus(g: Graph)
  {
    forall p :: p in g ==> g[p] <= g.Keys
  }

  /** No page links to itself. */
  predicate NoSelfLinks(g: Graph)
  {
    forall p :: p in g ==> p !in g[p]
  }

  /** The shape the rest of the engine relies on. */
  predicate IsGraph(g: Graph)
  {
    LinksInCorpus(g) && NoSelfLinks(g)
  }

  /**
   The graph `crawl` returns for the links extracted from each page: a
   page's own name and names of files outside the corpus are dropped.
   */
  function Cleaned(extracted: map<string, set<string>>): (g: Graph)
    ensures g.Keys == extracted.Keys
    ensures IsGraph(g)
  {
    map f | f in extracted :: (extracted[f] - {f}) * extracted.Keys
  }

  /** Cleaning a graph that already has the shape changes nothing. */
  lemma CleanedKeepsGraph(g: Graph)
    requires IsGraph(g)
    ensures Cleaned(g) == g
  {
    forall f | f in g
      ensures Cleaned(g)[f] == g[f]
    {
      assert (g[f] - {f}) * g.Keys == g[f];
    }
  }

  /** Cleaning is idempotent. */
  lemma CleanedIdempotent(extracted: map<string, set<string>>)
    ensures Cleaned(Cleaned(extracted)) == Cleaned(extracted)
  {
    CleanedKeepsGraph(Cleaned(extracted));
  }

  /**
   The set logic of `crawl`: first each page's links lose the page itself,
   then, once every page is known, each link set keeps only the names of
   pages of the corpus.
   */
  method Crawl(extracted: map<string, set<string>>) returns (pages: Graph)
    ensures pages == Cleaned(extracted)
    ensures pages.Keys == extracted.Keys && IsGraph(pages)
  {
    pages := map[];
    var files := extracted.Keys;
    while files != {}
      invariant files <= extracted.Keys
      invariant pages.Keys == extracted.Keys - files
      invariant forall f :: f in pages ==> pages[f] == extracted[f] - {f}
      decreases files
    {
      var filename :| filename in files;
      pages := pages[filename := extracted[filename] - {filename}];
      files := files - {filename};
    }

    var remaining := pages.Keys;
    while remaining != {}
      invariant remaining <= pages.Keys == extracted.Keys
      invariant forall f :: f in remaining ==> pages[f] == extracted[f] - {f}
      invariant forall f :: f in pages && f !in remaining ==>
                  pages[f] == (extracted[f] - {f}) * extracted.Keys
      decreases remaining
    {
      var filename :| filename in remaining;
      pages := pages[filename := set link | link in pages[filename] && link in pages];
      remaining := remaining - {filename};
    }
  }
}
