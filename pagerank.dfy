/** PageRank over a corpus of pages: the link filter of `crawl`, the
    transition model, the iterative update with its stop test, and the tally
    that turns a sequence of sampled pages into ranks. Ranks are exact
    `real`s. */
module PageRank {
  import opened Outcomes
  import opened SetSum

  type Page = string

  /** Each page of the corpus and the set of pages it links to. */
  type Corpus = map<Page, set<Page>>

  /** A rank (or probability) per page. */
  type Ranks = map<Page, real>

  const DAMPING: real := 0.85
  const SAMPLES: nat := 10000

  /** The stop test's bound on the change of any one page's rank. */
  const TOLERANCE: real := 0.001

  function Abs(x: real): real { if x < 0.0 then -x else x }

  /** A rank lookup that reads a missing page as 0. */
  function Get(m: Ranks, p: Page): real {
    if p in m then m[p] else 0.0
  }

  // ---------------------------------------------------------------------
  // crawl: the link filter

  predicate IsHtml(name: string) {
    |name| >= 5 && name[|name| - 5..] == ".html"
  }

  /** What `crawl` establishes: no page links to itself, and every link
      names a page of the corpus. */
  predicate Filtered(corpus: Corpus) {
    forall p :: p in corpus ==> p !in corpus[p] && corpus[p] <= corpus.Keys
  }

  /** `crawl` after the directory has been read: `files` maps each file name
      to the set of link targets found in it. Only `.html` files become
      pages; a page's own name and links outside the corpus are dropped. */
  method Crawl(files: map<string, set<Page>>) returns (pages: Corpus)
    ensures pages.Keys == set f | f in files && IsHtml(f)
    ensures forall f :: f in pages ==> pages[f] == set l | l in files[f] && l != f && l in pages
    ensures Filtered(pages)
  {
    pages := map[];
    var todo := files.Keys;
    while todo != {}
      invariant todo <= files.Keys
      invariant pages.Keys == set f | f in files && f !in todo && IsHtml(f)
      invariant forall f :: f in pages ==> pages[f] == files[f] - {f}
      decreases todo
    {
      var f :| f in todo;
      todo := todo - {f};
      if !IsHtml(f) {
        continue;
      }
      pages := pages[f := files[f] - {f}];
    }
    // only links to other pages of the corpus
    var keys := pages.Keys;
    var rest := keys;
    while rest != {}
      invariant rest <= keys == pages.Keys
      invariant forall f :: f in pages && f !in rest ==> pages[f] == set l | l in files[f] && l != f && l in keys
      invariant forall f :: f in rest ==> pages[f] == files[f] - {f}
      decreases rest
    {
      var f :| f in rest;
      rest := rest - {f};
      pages := pages[f := set l | l in pages[f] && l in pages];
    }
  }

  // ---------------------------------------------------------------------
  // transition_model

  /** The pages other than `page` that `page` links to; `n` in the source. */
  function LinkedOthers(corpus: Corpus, page: Page): set<Page>
    requires page in corpus
  {
    set h | h in corpus && h != page && h in corpus[page]
  }

  lemma CorpusNotEmpty(corpus: Corpus, page: Page)
    requires page in corpus
    ensures |corpus| > 0
  {
    assert page in corpus.Keys;
  }

  /** The distribution `transition_model` returns. */
  function Transition(corpus: Corpus, page: Page, d: real): Ranks
    requires page in corpus
  {
    CorpusNotEmpty(corpus, page);
    var n := |LinkedOthers(corpus, page)|;
    var base := (1.0 - d) / |corpus| as real;
    map h | h in corpus :: if h in corpus[page] && n != 0 then base + d / n as real else base
  }

  /** The first loop of `transition_model`: counting the pages other than
      `page` that `page` links to. The first page other than `page` looks
      `page` up, which fails when the corpus lacks it. */
  method CountLinked(corpus: Corpus, page: Page) returns (r: Outcome<nat>)
    ensures r.Raised? <==> page !in corpus && |corpus| != 0
    ensures r.Raised? ==> r.error == KeyError
    ensures page in corpus ==> r == Ok(|LinkedOthers(corpus, page)|)
    ensures |corpus| == 0 ==> r == Ok(0)
  {
    var n := 0;
    var todo := corpus.Keys;
    ghost var seen: set<Page> := {};
    ghost var linked: set<Page> := {};
    while todo != {}
      invariant todo + seen == corpus.Keys && todo !! seen
      invariant page !in corpus ==> seen == {}
      invariant page in corpus ==> forall h :: h in linked <==> h in seen && h != page && h in corpus[page]
      invariant linked <= seen && n == |linked|
      decreases todo
    {
      var h :| h in todo;
      todo := todo - {h};
      if h == page {
      } else if page !in corpus {
        assert |corpus.Keys| != 0;
        return Raised(KeyError);
      } else if h in corpus[page] {
        n := n + 1;
        linked := linked + {h};
      }
      seen := seen + {h};
    }
    if page in corpus {
      assert linked == LinkedOthers(corpus, page);
    } else {
      assert corpus.Keys == {};
    }
    return Ok(n);
  }

  /** `transition_model(corpus, page, d)`: dividing by the size of an empty
      corpus fails, and so does looking up a page the corpus lacks. */
  method TransitionModel(corpus: Corpus, page: Page, d: real) returns (r: Outcome<Ranks>)
    ensures |corpus| == 0 ==> r == Raised(ZeroDivisionError)
    ensures |corpus| != 0 && page !in corpus ==> r == Raised(KeyError)
    ensures page in corpus ==> r == Ok(Transition(corpus, page, d))
  {
    var count := CountLinked(corpus, page);
    if count.Raised? {
      return Raised(count.error);
    }
    if |corpus| == 0 {
      return Raised(ZeroDivisionError);
    }
    var n := count.value;
    var base := (1.0 - d) / |corpus| as real;
    var presence := if n != 0 then d / n as real else 0.0;  // only read when n != 0
    ghost var t := Transition(corpus, page, d);
    assert forall h :: h in t <==> h in corpus;
    assert forall h :: h in corpus ==> t[h] == if h in corpus[page] && n != 0 then base + presence else base;
    var dist: Ranks := map[];
    var todo := corpus.Keys;
    while todo != {}
      invariant todo <= corpus.Keys
      invariant dist.Keys == corpus.Keys - todo
      invariant forall h :: h in dist ==> dist[h] == t[h]
      decreases todo
    {
      var h :| h in todo;
      todo := todo - {h};
      if h in corpus[page] && n != 0 {
        dist := dist[h := base + presence];
      } else {
        dist := dist[h := base];
      }
    }
    assert dist == t;
    return Ok(dist);
  }

  /** Every page of the corpus gets a probability, and none less than the
      random-jump share (1-d)/N. */
  lemma TransitionBounds(corpus: Corpus, page: Page, d: real)
    requires page in corpus && 0.0 <= d
    ensures Transition(corpus, page, d).Keys == corpus.Keys
    ensures forall h :: h in corpus ==> (1.0 - d) / |corpus| as real <= Transition(corpus, page, d)[h]
  {
    CorpusNotEmpty(corpus, page);
    var n := |LinkedOthers(corpus, page)|;
    if n != 0 {
      assert 0.0 <= d / n as real;
    }
  }

  /** On a filtered corpus, each page `page` links to gets (1-d)/N + d/n, and
      every other page (1-d)/N. */
  lemma TransitionShares(corpus: Corpus, page: Page, d: real)
    requires Filtered(corpus) && page in corpus
    ensures LinkedOthers(corpus, page) == corpus[page]
    ensures forall h :: h in corpus[page] ==>
      Transition(corpus, page, d)[h] == (1.0 - d) / |corpus| as real + d / |corpus[page]| as real
    ensures forall h :: h in corpus && h !in corpus[page] ==>
      Transition(corpus, page, d)[h] == (1.0 - d) / |corpus| as real
  {
    assert LinkedOthers(corpus, page) == corpus[page];
  }

  /** Summing `base` over the corpus gives the random-jump mass 1-d. */
  lemma BaseMass(corpus: Corpus, m: Ranks, d: real)
    requires |corpus| > 0 && m.Keys == corpus.Keys
    requires forall h :: h in m ==> m[h] == (1.0 - d) / |corpus| as real
    ensures Sum(m) == 1.0 - d
  {
    SumConst(m, (1.0 - d) / |corpus| as real);
    assert |m| == |m.Keys| == |corpus.Keys| == |corpus|;
    TimesQuotient(|corpus| as real, 1.0 - d);
  }

  /** A page that links to other pages of a filtered corpus has a
      distribution that sums to 1. */
  lemma TransitionSumsToOne(corpus: Corpus, page: Page, d: real)
    requires Filtered(corpus) && page in corpus && corpus[page] != {}
    ensures Sum(Transition(corpus, page, d)) == 1.0
  {
    var t := Transition(corpus, page, d);
    TransitionShares(corpus, page, d);
    CorpusNotEmpty(corpus, page);
    var base := (1.0 - d) / |corpus| as real;
    var share := d / |corpus[page]| as real;
    var jump := map h | h in corpus :: base;
    var follow := map h | h in corpus :: if h in corpus[page] then share else 0.0;
    var links := map h | h in corpus[page] :: share;
    assert t.Keys == corpus.Keys;
    SumAdd(jump, follow, t);
    BaseMass(corpus, jump, d);
    SumSupport(follow, links);
    EvenShares(links, corpus[page], d);
  }

  /** `d` split evenly over the non-empty set `s` adds up to `d` again. */
  lemma EvenShares(m: Ranks, s: set<Page>, d: real)
    requires s != {} && m.Keys == s
    requires forall h :: h in m ==> m[h] == d / |s| as real
    ensures Sum(m) == d
  {
    SumConst(m, d / |s| as real);
    assert |m| == |m.Keys|;
    TimesQuotient(|s| as real, d);
  }

  /** A page without links to other pages spreads only the random-jump
      mass: each page gets (1-d)/N and the total is 1-d, not 1. */
  lemma TransitionDangling(corpus: Corpus, page: Page, d: real)
    requires page in corpus && LinkedOthers(corpus, page) == {}
    ensures forall h :: h in corpus ==> Transition(corpus, page, d)[h] == (1.0 - d) / |corpus| as real
    ensures Sum(Transition(corpus, page, d)) == 1.0 - d
  {
    CorpusNotEmpty(corpus, page);
    BaseMass(corpus, Transition(corpus, page, d), d);
  }

  /** With a damping factor other than 0, a page of a filtered corpus has a
      distribution summing to 1 exactly when it links somewhere. */
  lemma TransitionSumsToOneIff(corpus: Corpus, page: Page, d: real)
    requires Filtered(corpus) && page in corpus && d != 0.0
    ensures Sum(Transition(corpus, page, d)) == 1.0 <==> corpus[page] != {}
  {
    TransitionShares(corpus, page, d);
    if corpus[page] != {} {
      TransitionSumsToOne(corpus, page, d);
    } else {
      TransitionDangling(corpus, page, d);
    }
  }

  /** For a damping factor in [0, 1], every probability of the distribution
      lies between 0 and 1, as the docstring of `transition_model` asks of a
      probability distribution: the random-jump share (1-d)/N is at most
      1-d, and the link share d/n at most d. */
  lemma TransitionInUnit(corpus: Corpus, page: Page, d: real)
    requires page in corpus && 0.0 <= d <= 1.0
    ensures forall h :: h in corpus ==> 0.0 <= Transition(corpus, page, d)[h] <= 1.0
  {
    CorpusNotEmpty(corpus, page);
    var t := Transition(corpus, page, d);
    var n := |LinkedOthers(corpus, page)|;
    var base := (1.0 - d) / |corpus| as real;
    assert 0.0 <= base <= 1.0 - d by {
      assert Times(|corpus| as real, base) == 1.0 - d;
      assert 1.0 <= |corpus| as real;
    }
    if n != 0 {
      assert 0.0 <= d / n as real <= d by {
        assert Times(n as real, d / n as real) == d;
        assert 1.0 <= n as real;
      }
    }
    forall h | h in corpus ensures 0.0 <= t[h] <= 1.0 {
    }
  }

  // ---------------------------------------------------------------------
  // sample_pagerank

  /** Whether `order` lists the pages of `corpus`, each once: the model of a
      dictionary's iteration order. */
  ghost predicate IsKeyOrder(order: seq<Page>, corpus: Corpus) {
    (forall p :: p in corpus <==> p in order)
    && forall i, j :: 0 <= i < j < |order| ==> order[i] != order[j]
  }

  /** `weights_list(corpus, current_page)`: the transition probabilities in
      the corpus's order. The transition model is built with `DAMPING`, not
      with the damping factor `sample_pagerank` was given. */
  method WeightsList(corpus: Corpus, order: seq<Page>, current: Page, dampingFactor: real)
    returns (r: Outcome<seq<real>>)
    requires IsKeyOrder(order, corpus)
    ensures r.Ok? <==> current in corpus
    ensures |corpus| == 0 ==> r == Raised(ZeroDivisionError)
    ensures |corpus| != 0 && current !in corpus ==> r == Raised(KeyError)
    ensures r.Ok? ==> |r.value| == |order|
    ensures r.Ok? ==> forall i :: 0 <= i < |order| ==>
      r.value[i] == Transition(corpus, current, DAMPING)[order[i]]
  {
    var transition := TransitionModel(corpus, current, DAMPING);
    if transition.Raised? {
      return Raised(transition.error);
    }
    var weights: seq<real> := [];
    for i := 0 to |order|
      invariant |weights| == i
      invariant forall k :: 0 <= k < i ==> weights[k] == transition.value[order[k]]
    {
      weights := weights + [transition.value[order[i]]];
    }
    return Ok(weights);
  }

  /** The pages that were drawn at least once. */
  function Drawn(samples: seq<Page>): set<Page> {
    set p | p in samples
  }

  /** The ranks the final two loops of `sample_pagerank` compute from the
      drawn samples: each page drawn k times gets (k+1)/SAMPLES. */
  function TallyOf(samples: seq<Page>): Ranks {
    map p | p in samples :: (multiset(samples)[p] + 1) as real / SAMPLES as real
  }

  /** The counts after the first `i` samples: each page drawn k times so
      far holds k+1. */
  ghost predicate CountedUpTo(samples: seq<Page>, i: nat, counts: Ranks)
    requires i <= |samples|
  {
    counts.Keys == Drawn(samples[..i])
    && forall p :: p in counts ==> counts[p] == (multiset(samples[..i])[p] + 1) as real
  }

  lemma CountStep(samples: seq<Page>, i: nat, counts: Ranks)
    requires i < |samples| && CountedUpTo(samples, i, counts)
    ensures CountedUpTo(samples, i + 1,
      counts[samples[i] := (if samples[i] in counts then counts[samples[i]] else 1.0) + 1.0])
  {
    assert samples[..i + 1] == samples[..i] + [samples[i]];
  }

  /** Halfway through the division loop: pages still in `todo` hold their
      count, the others their count divided by `SAMPLES`. */
  ghost predicate DividedBut(counts: Ranks, todo: set<Page>, ranks: Ranks) {
    todo <= ranks.Keys == counts.Keys
    && forall p :: p in ranks ==> ranks[p] == if p in todo then counts[p] else counts[p] / SAMPLES as real
  }

  lemma TallyDone(samples: seq<Page>, counts: Ranks, ranks: Ranks)
    requires CountedUpTo(samples, |samples|, counts) && DividedBut(counts, {}, ranks)
    ensures ranks == TallyOf(samples)
  {
    assert samples[..|samples|] == samples;
  }

  /** Counting the samples, with each count starting at 2, then dividing by
      `SAMPLES` in place. */
  method Tally(samples: seq<Page>) returns (pageRanks: Ranks)
    ensures pageRanks == TallyOf(samples)
  {
    pageRanks := map[];
    for i := 0 to |samples|
      invariant CountedUpTo(samples, i, pageRanks)
    {
      CountStep(samples, i, pageRanks);
      var sample := samples[i];
      pageRanks := pageRanks[sample := (if sample in pageRanks then pageRanks[sample] else 1.0) + 1.0];
    }
    ghost var counts := pageRanks;
    var todo := pageRanks.Keys;
    while todo != {}
      invariant DividedBut(counts, todo, pageRanks)
      decreases todo
    {
      var page :| page in todo;
      todo := todo - {page};
      pageRanks := pageRanks[page := pageRanks[page] / SAMPLES as real];
    }
    TallyDone(samples, counts, pageRanks);
  }

  /** How often each drawn page was drawn. */
  function Multiplicities(samples: seq<Page>): map<Page, real> {
    map p | p in samples :: multiset(samples)[p] as real
  }

  /** The multiplicities add up to the number of samples. */
  lemma {:induction false} MultiplicitiesSum(samples: seq<Page>)
    ensures Sum(Multiplicities(samples)) == |samples| as real
  {
    if samples == [] {
      assert Multiplicities(samples) == map[];
    } else {
      var s := samples[..|samples| - 1];
      var x := samples[|samples| - 1];
      assert samples == s + [x];
      var before := Multiplicities(s);
      MultiplicitiesSum(s);
      MultiplicitiesSnoc(s, x);
      SumUpdate(before, x, Multiplicities(s + [x])[x]);
      if x in s {
        SumRemove(before, x);
      } else {
        assert before - {x} == before;
      }
    }
  }

  /** One more sample `x` counts once more for `x`. */
  lemma MultiplicitiesSnoc(s: seq<Page>, x: Page)
    ensures Multiplicities(s + [x])
         == Multiplicities(s)[x := (if x in s then Multiplicities(s)[x] else 0.0) + 1.0]
  {
    assert multiset(s + [x]) == multiset(s) + multiset{x};
  }

  /** The tally sums to (|samples| + distinct pages) / SAMPLES, so it is not
      a probability distribution: with SAMPLES samples its total exceeds 1. */
  lemma TallyTotal(samples: seq<Page>)
    ensures Sum(TallyOf(samples)) == (|samples| + |Drawn(samples)|) as real / SAMPLES as real
    ensures |samples| == SAMPLES ==> Sum(TallyOf(samples)) > 1.0
  {
    var t := TallyOf(samples);
    var m := Multiplicities(samples);
    var one := map p | p in samples :: 1.0;
    var both := map p | p in samples :: m[p] + 1.0;
    MultiplicitiesSum(samples);
    SumAdd(m, one, both);
    SumConst(one, 1.0);
    assert one.Keys == Drawn(samples);
    SumScale(both, t, 1.0 / SAMPLES as real);
    if |samples| == SAMPLES {
      assert samples[0] in Drawn(samples);
    }
  }

  /** The tally breaks the docstring's promise of ranks between 0 and 1: a
      run of `SAMPLES` draws that all land on one page ranks it
      (SAMPLES + 1)/SAMPLES. */
  lemma TallyAboveOne(samples: seq<Page>, p: Page)
    requires |samples| == SAMPLES && forall i :: 0 <= i < |samples| ==> samples[i] == p
    ensures p in TallyOf(samples) && TallyOf(samples)[p] == (SAMPLES + 1) as real / SAMPLES as real
    ensures TallyOf(samples)[p] > 1.0
  {
    assert samples[0] == p;
    assert multiset(samples)[p] == SAMPLES by {
      assert samples == seq(SAMPLES, _ => p);
      SameCount(samples, p);
    }
  }

  /** A sequence all of whose elements are `p` holds `p` as often as it is
      long. */
  lemma {:induction false} SameCount(s: seq<Page>, p: Page)
    requires forall i :: 0 <= i < |s| ==> s[i] == p
    ensures multiset(s)[p] == |s|
  {
    if s != [] {
      assert s == s[..|s| - 1] + [p];
      SameCount(s[..|s| - 1], p);
    }
  }

  // ---------------------------------------------------------------------
  // iterate_pagerank

  /** The share of `q`'s rank that flows to `p`: prev[q]/|corpus[q]| when
      `q` links to `p`. */
  function Contribution(corpus: Corpus, prev: Ranks, q: Page, p: Page): real {
    if q in corpus && p in corpus[q] then Get(prev, q) / |corpus[q]| as real else 0.0
  }

  /** What each page of `senders` passes on to `p`. */
  function Shares(corpus: Corpus, prev: Ranks, senders: set<Page>, p: Page): map<Page, real> {
    map q | q in senders :: Contribution(corpus, prev, q, p)
  }

  /** The rank flowing into `p` from the pages of `senders`: the sum of
      their `Shares`, added up one sender at a time (`InflowIsSum`). */
  ghost function InflowFrom(corpus: Corpus, prev: Ranks, senders: set<Page>, p: Page): real
    decreases senders
  {
    if senders == {} then 0.0
    else
      var q := Pick(senders);
      Contribution(corpus, prev, q, p) + InflowFrom(corpus, prev, senders - {q}, p)
  }

  /** Some page of `s`: the order in which `InflowFrom` visits the senders,
      the same for every receiving page. */
  ghost function Pick(s: set<Page>): (q: Page)
    requires s != {}
    ensures q in s
  {
    var q :| q in s; q
  }

  /** The rank flowing into `p` from all pages; `relatives_pr[p]` in the
      source. */
  ghost function Inflow(corpus: Corpus, prev: Ranks, p: Page): real {
    InflowFrom(corpus, prev, corpus.Keys, p)
  }

  /** `InflowFrom` is the sum of the shares of its senders. */
  lemma {:induction false} InflowIsSum(corpus: Corpus, prev: Ranks, senders: set<Page>, p: Page)
    ensures InflowFrom(corpus, prev, senders, p) == Sum(Shares(corpus, prev, senders, p))
    decreases senders
  {
    var m := Shares(corpus, prev, senders, p);
    if senders == {} {
      assert m == map[];
    } else {
      var q := Pick(senders);
      InflowIsSum(corpus, prev, senders - {q}, p);
      SumRemove(m, q);
      assert m - {q} == Shares(corpus, prev, senders - {q}, p);
    }
  }

  /** One pass of the update: newRanks[p] = (1-d)/N + d * Inflow(p). */
  ghost function Step(corpus: Corpus, prev: Ranks, d: real): Ranks
    requires |corpus| > 0
  {
    map p | p in corpus :: (1.0 - d) / |corpus| as real + Times(d, Inflow(corpus, prev, p))
  }

  /** The starting ranks 1/N. */
  function Uniform(corpus: Corpus): Ranks
    requires |corpus| > 0
  {
    map p | p in corpus :: 1.0 / |corpus| as real
  }

  /** The ranks after `k` passes. */
  ghost function Iterate(corpus: Corpus, d: real, k: nat): Ranks
    requires |corpus| > 0
  {
    if k == 0 then Uniform(corpus) else Step(corpus, Iterate(corpus, d, k - 1), d)
  }

  /** The stop test: no page's rank moved by more than `TOLERANCE`. */
  predicate Close(corpus: Corpus, prev: Ranks, newRanks: Ranks) {
    forall p :: p in corpus ==> Abs(Get(prev, p) - Get(newRanks, p)) <= TOLERANCE
  }

  /** Where the inner loop of the update stands once the pages in `seen`
      have been visited. */
  ghost predicate GatheredOver(corpus: Corpus, prev: Ranks, html: Page, start: Ranks, seen: set<Page>, gathered: Ranks) {
    if seen == {} then gathered == start
    else gathered == start[html := Get(start, html) + Sum(Shares(corpus, prev, seen, html))]
  }

  lemma GatherStep(corpus: Corpus, prev: Ranks, html: Page, start: Ranks, seen: set<Page>, gathered: Ranks,
                   page: Page, add: real, gathered': Ranks)
    requires GatheredOver(corpus, prev, html, start, seen, gathered) && page !in seen
    requires add == Contribution(corpus, prev, page, html)
    requires gathered' == gathered[html := Get(gathered, html) + add]
    ensures GatheredOver(corpus, prev, html, start, seen + {page}, gathered')
  {
    SharesAdd(corpus, prev, seen, page, html);
    if seen == {} {
      assert Shares(corpus, prev, seen, html) == map[];
    }
  }

  /** One more sender adds its contribution to the sum of the shares. */
  lemma SharesAdd(corpus: Corpus, prev: Ranks, seen: set<Page>, page: Page, p: Page)
    requires page !in seen
    ensures Sum(Shares(corpus, prev, seen + {page}, p))
         == Sum(Shares(corpus, prev, seen, p)) + Contribution(corpus, prev, page, p)
  {
    var share := Shares(corpus, prev, seen, p);
    assert Shares(corpus, prev, seen + {page}, p) == share[page := Contribution(corpus, prev, page, p)];
    assert share - {page} == share;
    SumUpdate(share, page, Contribution(corpus, prev, page, p));
  }

  /** The inner loop of the update: adds every page's contribution to
      `html` onto `relativesPr[html]`, read as 0 when absent. */
  method GatherInflow(corpus: Corpus, prev: Ranks, html: Page, relativesPr: Ranks) returns (gathered: Ranks)
    requires |corpus| > 0 && prev.Keys == corpus.Keys
    ensures gathered == relativesPr[html := Get(relativesPr, html) + Inflow(corpus, prev, html)]
  {
    gathered := relativesPr;
    var pages := corpus.Keys;
    ghost var seen: set<Page> := {};
    while pages != {}
      invariant pages + seen == corpus.Keys && pages !! seen
      invariant GatheredOver(corpus, prev, html, relativesPr, seen, gathered)
      decreases pages
    {
      var page :| page in pages;
      Visit(pages, seen, corpus.Keys, page);
      pages := pages - {page};
      // a page that does not link to `html` adds nothing
      var add := if html in corpus[page] then prev[page] / |corpus[page]| as real else 0.0;
      ghost var before := gathered;
      gathered := gathered[html := Get(gathered, html) + add];
      GatherStep(corpus, prev, html, relativesPr, seen, before, page, add, gathered);
      seen := seen + {page};
    }
    assert seen == corpus.Keys != {};
    InflowIsSum(corpus, prev, corpus.Keys, html);
  }

  /** Where the outer loop of the update stands once the pages in `done`
      have their new rank. */
  ghost predicate UpdatedOver(corpus: Corpus, prev: Ranks, d: real, basePr: real, done: set<Page>,
                              relativesPr: Ranks, newRanks: Ranks) {
    newRanks.Keys == done && relativesPr.Keys <= done
    && forall p :: p in newRanks ==> newRanks[p] == basePr + Times(d, Inflow(corpus, prev, p))
  }

  lemma UpdateVisit(corpus: Corpus, prev: Ranks, d: real, basePr: real, done: set<Page>,
                    relativesPr: Ranks, newRanks: Ranks, html: Page, relativesPr': Ranks, newRanks': Ranks)
    requires UpdatedOver(corpus, prev, d, basePr, done, relativesPr, newRanks) && html !in done
    requires relativesPr' == relativesPr[html := Get(relativesPr, html) + Inflow(corpus, prev, html)]
    requires newRanks' == newRanks[html := basePr + Times(d, relativesPr'[html])]
    ensures UpdatedOver(corpus, prev, d, basePr, done + {html}, relativesPr', newRanks')
  {
  }

  lemma UpdateDone(corpus: Corpus, prev: Ranks, d: real, basePr: real, relativesPr: Ranks, newRanks: Ranks)
    requires |corpus| > 0 && basePr == (1.0 - d) / |corpus| as real
    requires UpdatedOver(corpus, prev, d, basePr, corpus.Keys, relativesPr, newRanks)
    ensures newRanks == Step(corpus, prev, d)
  {
  }

  /** The body of the `while True` loop up to the stop test: for each page,
      gather its inflow and set its new rank. */
  method UpdateStep(corpus: Corpus, prev: Ranks, d: real, basePr: real) returns (newRanks: Ranks)
    requires |corpus| > 0 && prev.Keys == corpus.Keys
    requires basePr == (1.0 - d) / |corpus| as real
    ensures newRanks == Step(corpus, prev, d)
  {
    var relativesPr: Ranks := map[];
    newRanks := map[];
    var todo := corpus.Keys;
    ghost var done: set<Page> := {};
    while todo != {}
      invariant todo + done == corpus.Keys && todo !! done
      invariant UpdatedOver(corpus, prev, d, basePr, done, relativesPr, newRanks)
      decreases todo
    {
      var html :| html in todo;
      Visit(todo, done, corpus.Keys, html);
      todo := todo - {html};
      ghost var relativesBefore, ranksBefore := relativesPr, newRanks;
      relativesPr := GatherInflow(corpus, prev, html, relativesPr);
      newRanks := newRanks[html := basePr + Times(d, relativesPr[html])];
      UpdateVisit(corpus, prev, d, basePr, done, relativesBefore, ranksBefore, html, relativesPr, newRanks);
      done := done + {html};
    }
    UpdateDone(corpus, prev, d, basePr, relativesPr, newRanks);
  }

  /** The stop test as the source runs it: count the pages whose rank moved
      by at most `TOLERANCE`, stopping at the first that moved more. */
  method Converged(corpus: Corpus, prev: Ranks, newRanks: Ranks) returns (done: bool)
    requires corpus.Keys <= prev.Keys && corpus.Keys <= newRanks.Keys
    ensures done <==> Close(corpus, prev, newRanks)
  {
    var count := 0;
    var todo := corpus.Keys;
    ghost var moved: Option<Page> := None;  // the page that stopped the count
    while todo != {}
      invariant todo <= corpus.Keys && moved == None
      invariant count == |corpus.Keys - todo|
      invariant forall p :: p in corpus && p !in todo ==> Abs(prev[p] - newRanks[p]) <= TOLERANCE
      decreases todo
    {
      var html :| html in todo;
      if !(Abs(prev[html] - newRanks[html]) <= TOLERANCE) {
        moved := Some(html);
        break;
      }
      todo := todo - {html};
      count := count + 1;
    }
    assert |corpus.Keys| == |corpus|;
    if moved.Some? {
      assert moved.value in todo && !Close(corpus, prev, newRanks);
      CountedFewer(corpus.Keys, todo, moved.value);
    } else {
      assert corpus.Keys - todo == corpus.Keys;
    }
    done := count == |corpus|;
  }

  /** Stopping while some page is still to be counted leaves the count short. */
  lemma CountedFewer(keys: set<Page>, todo: set<Page>, p: Page)
    requires todo <= keys && p in todo
    ensures |keys - todo| < |keys|
  {
    assert (keys - todo) + todo == keys;
  }

  /** Where the starting loop stands once the pages in `done` have rank 1/n. */
  ghost predicate StartedOver(n: nat, done: set<Page>, prev: Ranks) {
    prev.Keys == done && forall p :: p in prev ==> n > 0 && prev[p] == 1.0 / n as real
  }

  lemma StartVisit(n: nat, done: set<Page>, prev: Ranks, key: Page)
    requires StartedOver(n, done, prev) && n > 0
    ensures StartedOver(n, done + {key}, prev[key := 1.0 / n as real])
  {
  }

  lemma StartDone(corpus: Corpus, prev: Ranks)
    requires StartedOver(|corpus|, corpus.Keys, prev)
    ensures |corpus| == 0 ==> prev == map[]
    ensures |corpus| != 0 ==> prev == Uniform(corpus)
  {
    if |corpus| == 0 {
      assert corpus.Keys == {};
    }
  }

  /** No pass before pass `i` met the stop test. */
  ghost predicate NoEarlierStop(corpus: Corpus, d: real, i: nat)
    requires |corpus| > 0
  {
    forall k: nat :: k < i ==> !Close(corpus, Iterate(corpus, d, k), Iterate(corpus, d, k + 1))
  }

  lemma NoEarlierStopStep(corpus: Corpus, d: real, i: nat)
    requires |corpus| > 0 && NoEarlierStop(corpus, d, i)
    requires !Close(corpus, Iterate(corpus, d, i), Iterate(corpus, d, i + 1))
    ensures NoEarlierStop(corpus, d, i + 1)
  {
  }

  /** Where the copying loop stands once the pages in `done` took their new
      rank. */
  ghost predicate CopiedOver(keys: set<Page>, done: set<Page>, prev: Ranks, newRanks: Ranks) {
    prev.Keys == keys == newRanks.Keys && done <= keys
    && forall p :: p in done ==> prev[p] == newRanks[p]
  }

  lemma CopyDone(keys: set<Page>, prev: Ranks, newRanks: Ranks)
    requires CopiedOver(keys, keys, prev, newRanks)
    ensures prev == newRanks
  {
  }

  /** The starting loop of `iterate_pagerank`: every page gets 1/N. */
  method StartRanks(corpus: Corpus) returns (prev: Ranks)
    ensures |corpus| == 0 ==> prev == map[]
    ensures |corpus| != 0 ==> prev == Uniform(corpus)
  {
    var n := |corpus|;
    prev := map[];
    var todo := corpus.Keys;
    ghost var done: set<Page> := {};
    while todo != {}
      invariant todo + done == corpus.Keys && todo !! done
      invariant StartedOver(n, done, prev)
      decreases todo
    {
      var key :| key in todo;
      Visit(todo, done, corpus.Keys, key);
      CorpusNotEmpty(corpus, key);
      StartVisit(n, done, prev, key);
      todo := todo - {key};
      prev := prev[key := 1.0 / n as real];
      done := done + {key};
    }
    StartDone(corpus, prev);
  }

  /** The loop that lets `prev` take the new values. */
  method CopyRanks(prev: Ranks, newRanks: Ranks) returns (copied: Ranks)
    requires prev.Keys == newRanks.Keys
    ensures copied == newRanks
  {
    copied := prev;
    var keys := newRanks.Keys;
    var todo := keys;
    ghost var done: set<Page> := {};
    while todo != {}
      invariant todo + done == keys && todo !! done
      invariant CopiedOver(keys, done, copied, newRanks)
      decreases todo
    {
      var html :| html in todo;
      Visit(todo, done, keys, html);
      todo := todo - {html};
      copied := copied[html := newRanks[html]];
      done := done + {html};
    }
    CopyDone(keys, copied, newRanks);
  }

  /** The loop is about to run pass `i + 1`: `prev` holds the ranks after
      `i` passes and none of those passes met the stop test. */
  ghost predicate RunningAt(corpus: Corpus, d: real, i: nat, prev: Ranks)
    requires |corpus| > 0
  {
    prev == Iterate(corpus, d, i) && NoEarlierStop(corpus, d, i)
  }

  /** The loop stopped after pass `k + 1` with `ranks`: that pass is the
      first whose ranks are close to the ones before it. */
  ghost predicate StopsAfter(corpus: Corpus, d: real, k: nat, ranks: Ranks)
    requires |corpus| > 0
  {
    ranks == Iterate(corpus, d, k + 1) && Close(corpus, Iterate(corpus, d, k), ranks) && NoEarlierStop(corpus, d, k)
  }

  /** One pass of the `while True` loop up to the stop test: pass `i + 1`
      from pass `i`, and whether the loop stops there. */
  method Pass(corpus: Corpus, d: real, basePr: real, ghost i: nat, prev: Ranks) returns (newRanks: Ranks, converged: bool)
    requires |corpus| > 0 && basePr == (1.0 - d) / |corpus| as real
    requires RunningAt(corpus, d, i, prev)
    ensures newRanks.Keys == prev.Keys
    ensures converged ==> StopsAfter(corpus, d, i, newRanks)
    ensures !converged ==> RunningAt(corpus, d, i + 1, newRanks)
  {
    IterateKeys(corpus, d, i);
    newRanks := UpdateStep(corpus, prev, d, basePr);
    IterateNext(corpus, d, i);
    IterateKeys(corpus, d, i + 1);
    converged := Converged(corpus, prev, newRanks);
    if !converged {
      NoEarlierStopStep(corpus, d, i);
    }
  }

  /** What a loop cut off after a number of passes yields: what the source
      returns or raises, or `OutOfFuel` when the bound ran out while the
      source would still be looping. */
  datatype Bounded<T> = Finished(outcome: Outcome<T>) | OutOfFuel

  /** `iterate_pagerank`, with the `while True` loop cut off after `fuel`
      passes. */
  method IteratePageRank(corpus: Corpus, d: real, fuel: nat) returns (r: Bounded<Ranks>, ghost rounds: nat)
    ensures |corpus| == 0 <==> r == Finished(Raised(ZeroDivisionError))
    ensures r.Finished? && r.outcome.Ok? ==> rounds < fuel && StopsAfter(corpus, d, rounds, r.outcome.value)
    ensures r.Finished? ==> r.outcome.Ok? || r.outcome == Raised(ZeroDivisionError)
    ensures r.OutOfFuel? ==> |corpus| != 0 && NoEarlierStop(corpus, d, fuel)
  {
    var n := |corpus|;
    var prev := StartRanks(corpus);
    if n == 0 {
      return Finished(Raised(ZeroDivisionError)), 0;
    }
    var basePr := (1.0 - d) / n as real;
    IterateStart(corpus, d);
    var i := 0;
    while i < fuel
      invariant i <= fuel
      invariant RunningAt(corpus, d, i, prev)
      decreases fuel - i
    {
      var newRanks, converged := Pass(corpus, d, basePr, i, prev);
      if converged {
        return Finished(Ok(newRanks)), i;
      }
      prev := CopyRanks(prev, newRanks);
      i := i + 1;
    }
    return OutOfFuel, i;
  }

  lemma IterateStart(corpus: Corpus, d: real)
    requires |corpus| > 0
    ensures Iterate(corpus, d, 0) == Uniform(corpus)
  {
  }

  lemma IterateNext(corpus: Corpus, d: real, i: nat)
    requires |corpus| > 0
    ensures Iterate(corpus, d, i + 1) == Step(corpus, Iterate(corpus, d, i), d)
  {
  }

  /** Every pass ranks exactly the pages of the corpus. */
  lemma {:induction false} IterateKeys(corpus: Corpus, d: real, k: nat)
    requires |corpus| > 0
    ensures Iterate(corpus, d, k).Keys == corpus.Keys
  {
  }

  // ---------------------------------------------------------------------
  // conservation of rank

  /** The rank of each page that links nowhere, else nothing. */
  function Dangling(corpus: Corpus, prev: Ranks): Ranks {
    map q | q in corpus :: if corpus[q] == {} then Get(prev, q) else 0.0
  }

  /** The rank of each page that links somewhere, else nothing. */
  function Passed(corpus: Corpus, prev: Ranks): Ranks {
    map q | q in corpus :: if corpus[q] != {} then Get(prev, q) else 0.0
  }

  /** What every page receives from the pages of `senders`. */
  ghost function InflowsFrom(corpus: Corpus, prev: Ranks, senders: set<Page>): Ranks {
    map p | p in corpus :: InflowFrom(corpus, prev, senders, p)
  }

  /** The inflow of every page. */
  ghost function Inflows(corpus: Corpus, prev: Ranks): Ranks {
    InflowsFrom(corpus, prev, corpus.Keys)
  }

  /** `Passed` restricted to the pages of `senders`. */
  function PassedBy(corpus: Corpus, prev: Ranks, senders: set<Page>): Ranks {
    map q | q in senders :: if q in corpus && corpus[q] != {} then Get(prev, q) else 0.0
  }

  /** Everything `q` sends: its whole rank when it links anywhere in a
      corpus whose links stay inside it, nothing when it links nowhere.
      `sent` holds what `q` passes on to each page. */
  lemma Outflow(corpus: Corpus, prev: Ranks, q: Page, sent: Ranks)
    requires q in corpus && corpus[q] <= corpus.Keys
    requires sent.Keys == corpus.Keys
    requires forall p :: p in sent ==> sent[p] == Contribution(corpus, prev, q, p)
    ensures Sum(sent) == if corpus[q] != {} then Get(prev, q) else 0.0
  {
    if corpus[q] == {} {
      SumSupport(sent, map[]);
    } else {
      var share := Get(prev, q) / |corpus[q]| as real;
      var links := map p | p in corpus[q] :: share;
      SumSupport(sent, links);
      EvenShares(links, corpus[q], Get(prev, q));
    }
  }

  /** What all pages receive from `senders` is what those of them with
      links send. */
  lemma {:induction false} InflowsFromSum(corpus: Corpus, prev: Ranks, senders: set<Page>)
    requires senders <= corpus.Keys
    requires forall q :: q in corpus ==> corpus[q] <= corpus.Keys
    ensures Sum(InflowsFrom(corpus, prev, senders)) == Sum(PassedBy(corpus, prev, senders))
    decreases senders
  {
    var all := InflowsFrom(corpus, prev, senders);
    if senders == {} {
      SumSupport(all, map[]);
      assert PassedBy(corpus, prev, senders) == map[];
    } else {
      var q := Pick(senders);
      var sent := map p | p in corpus :: Contribution(corpus, prev, q, p);
      var rest := InflowsFrom(corpus, prev, senders - {q});
      SumAdd(sent, rest, all);
      Outflow(corpus, prev, q, sent);
      InflowsFromSum(corpus, prev, senders - {q});
      PassedByRemove(corpus, prev, senders, q);
    }
  }

  /** Taking sender `q` out of `PassedBy` takes out what `q` passes on. */
  lemma PassedByRemove(corpus: Corpus, prev: Ranks, senders: set<Page>, q: Page)
    requires q in senders
    ensures Sum(PassedBy(corpus, prev, senders))
         == PassedBy(corpus, prev, senders)[q] + Sum(PassedBy(corpus, prev, senders - {q}))
  {
    SumRemove(PassedBy(corpus, prev, senders), q);
    assert PassedBy(corpus, prev, senders) - {q} == PassedBy(corpus, prev, senders - {q});
  }

  /** What all pages receive is what the pages with links send. */
  lemma TotalInflow(corpus: Corpus, prev: Ranks)
    requires forall q :: q in corpus ==> corpus[q] <= corpus.Keys
    ensures Sum(Inflows(corpus, prev)) == Sum(Passed(corpus, prev))
  {
    InflowsFromSum(corpus, prev, corpus.Keys);
    assert PassedBy(corpus, prev, corpus.Keys) == Passed(corpus, prev);
  }

  /** The rank of pages with links plus that of pages without is all of it. */
  lemma PassedAndDangling(corpus: Corpus, prev: Ranks)
    requires prev.Keys == corpus.Keys
    ensures Sum(Passed(corpus, prev)) + Sum(Dangling(corpus, prev)) == Sum(prev)
  {
    SumAdd(Passed(corpus, prev), Dangling(corpus, prev), prev);
  }

  /** The total after a pass is the jump mass plus d times the inflow. */
  lemma StepSplits(corpus: Corpus, prev: Ranks, d: real)
    requires |corpus| > 0
    ensures Sum(Step(corpus, prev, d)) == (1.0 - d) + Times(d, Sum(Inflows(corpus, prev)))
  {
    var next := Step(corpus, prev, d);
    var inflows := Inflows(corpus, prev);
    var jump := map p | p in corpus :: (1.0 - d) / |corpus| as real;
    var carried := map p | p in corpus :: Times(d, inflows[p]);
    SumAdd(jump, carried, next);
    BaseMass(corpus, jump, d);
    SumScale(inflows, carried, d);
  }

  /** One update pass keeps the random-jump mass 1-d and passes on d times
      the rank held by pages with links; what dangling pages held is lost
      (`PassedAndDangling` splits the old total into the two parts). */
  lemma StepMass(corpus: Corpus, prev: Ranks, d: real)
    requires |corpus| > 0
    requires forall q :: q in corpus ==> corpus[q] <= corpus.Keys
    ensures Sum(Step(corpus, prev, d)) == (1.0 - d) + Times(d, Sum(Passed(corpus, prev)))
  {
    StepSplits(corpus, prev, d);
    TotalInflow(corpus, prev);
  }

  /** With no dangling page, an update pass keeps total rank 1. */
  lemma StepPreservesMass(corpus: Corpus, prev: Ranks, d: real)
    requires |corpus| > 0
    requires forall q :: q in corpus ==> corpus[q] != {} && corpus[q] <= corpus.Keys
    requires Distribution(corpus.Keys, prev)
    ensures Distribution(corpus.Keys, Step(corpus, prev, d))
  {
    StepMass(corpus, prev, d);
    NothingDangles(corpus, prev);
    assert Times(d, 1.0) == d;
  }

  /** `StepPreservesMass` needs the links to stay inside the corpus: a page
      whose only link leads outside the corpus holds all the rank, so the
      update keeps only the random-jump share 1-d of it. */
  lemma OutsideLinkLosesRank()
    ensures var corpus: Corpus := map["a.html" := {"z.html"}];
      corpus["a.html"] != {} && Distribution(corpus.Keys, map["a.html" := 1.0])
      && Sum(Step(corpus, map["a.html" := 1.0], 0.5)) == 0.5
  {
    var corpus: Corpus := map["a.html" := {"z.html"}];
    var prev: Ranks := map["a.html" := 1.0];
    assert "a.html" != "z.html" by { assert "a.html"[0] != "z.html"[0]; }
    SumRemove(prev, "a.html");
    assert prev - {"a.html"} == map[];
    assert corpus.Keys == {"a.html"};
    assert Inflow(corpus, prev, "a.html") == 0.0 by {
      assert Pick(corpus.Keys) == "a.html";
      assert corpus.Keys - {"a.html"} == {};
    }
    assert |corpus| == 1;
    assert Times(0.5, Inflow(corpus, prev, "a.html")) == 0.0;
    var next := Step(corpus, prev, 0.5);
    assert next.Keys == {"a.html"};
    assert next["a.html"] == 0.5;
    SumRemove(next, "a.html");
    assert next - {"a.html"} == map[];
  }

  /** Without dangling pages every page passes its whole rank on. */
  lemma NothingDangles(corpus: Corpus, prev: Ranks)
    requires prev.Keys == corpus.Keys
    requires forall q :: q in corpus ==> corpus[q] != {}
    ensures Passed(corpus, prev) == prev
  {
  }

  /** The starting ranks sum to 1. */
  lemma UniformTotal(corpus: Corpus)
    requires |corpus| > 0
    ensures Uniform(corpus).Keys == corpus.Keys
    ensures Sum(Uniform(corpus)) == 1.0
  {
    var u := Uniform(corpus);
    SumConst(u, 1.0 / |corpus| as real);
    assert u.Keys == corpus.Keys;
    assert |u| == |u.Keys| == |corpus.Keys| == |corpus|;
    TimesQuotient(|corpus| as real, 1.0);
  }

  /** With no dangling page, every pass of the iteration sums to 1. */
  lemma {:induction false} IterateTotal(corpus: Corpus, d: real, k: nat)
    requires |corpus| > 0
    requires forall q :: q in corpus ==> corpus[q] != {} && corpus[q] <= corpus.Keys
    ensures Distribution(corpus.Keys, Iterate(corpus, d, k))
  {
    if k == 0 {
      StartDistribution(corpus, d, k);
    } else {
      IterateTotal(corpus, d, k - 1);
      NextDistribution(corpus, d, k);
    }
  }

  /** The base case of `IterateTotal`: the uniform start. */
  lemma StartDistribution(corpus: Corpus, d: real, k: nat)
    requires |corpus| > 0 && k == 0
    ensures Distribution(corpus.Keys, Iterate(corpus, d, k))
  {
    UniformTotal(corpus);
  }

  /** The inductive step of `IterateTotal`, one pass at a time. */
  lemma NextDistribution(corpus: Corpus, d: real, k: nat)
    requires |corpus| > 0 && k > 0
    requires forall q :: q in corpus ==> corpus[q] != {} && corpus[q] <= corpus.Keys
    requires Distribution(corpus.Keys, Iterate(corpus, d, k - 1))
    ensures Distribution(corpus.Keys, Iterate(corpus, d, k))
  {
    StepPreservesMass(corpus, Iterate(corpus, d, k - 1), d);
  }

  /** Ranks fit for a probability distribution over the corpus: one per
      page, each between 0 and 1, adding up to at most 1. */
  ghost predicate InUnit(corpus: Corpus, r: Ranks) {
    r.Keys == corpus.Keys && (forall p :: p in r ==> 0.0 <= r[p] <= 1.0) && Sum(r) <= 1.0
  }

  /** Non-negative ranks send a non-negative inflow. */
  lemma InflowNonNegative(corpus: Corpus, prev: Ranks, p: Page)
    requires forall q :: q in prev ==> 0.0 <= prev[q]
    ensures 0.0 <= Inflow(corpus, prev, p)
  {
    var m := Shares(corpus, prev, corpus.Keys, p);
    InflowIsSum(corpus, prev, corpus.Keys, p);
    forall q | q in m ensures 0.0 <= m[q] {
      if q in corpus && p in corpus[q] {
        assert |corpus[q]| > 0;
        assert 0.0 <= Get(prev, q) / |corpus[q]| as real;
      }
    }
    SumNonNegative(m);
  }

  /** An update pass keeps ranks fit for a probability distribution; with
      dangling pages the total may drop below 1. */
  lemma StepInUnit(corpus: Corpus, prev: Ranks, d: real)
    requires |corpus| > 0 && 0.0 <= d <= 1.0
    requires forall q :: q in corpus ==> corpus[q] <= corpus.Keys
    requires InUnit(corpus, prev)
    ensures InUnit(corpus, Step(corpus, prev, d))
  {
    var next := Step(corpus, prev, d);
    assert 0.0 <= (1.0 - d) / |corpus| as real;
    forall p | p in next ensures 0.0 <= next[p] {
      InflowNonNegative(corpus, prev, p);
      TimesBounds(d, Inflow(corpus, prev, p), Inflow(corpus, prev, p));
    }
    StepMass(corpus, prev, d);
    PassedAndDangling(corpus, prev);
    SumNonNegative(Dangling(corpus, prev));
    SumNonNegative(Passed(corpus, prev));
    TimesBounds(d, Sum(Passed(corpus, prev)), 1.0);
    assert Times(d, 1.0) == d;
    forall p | p in next ensures next[p] <= 1.0 {
      EntryAtMostSum(next, p);
    }
  }

  /** For a damping factor in [0, 1] and links inside the corpus, every
      pass ranks each page between 0 and 1, as the docstring of
      `iterate_pagerank` promises; dangling pages need not be excluded. */
  lemma {:induction false} IterateInUnit(corpus: Corpus, d: real, k: nat)
    requires |corpus| > 0 && 0.0 <= d <= 1.0
    requires forall q :: q in corpus ==> corpus[q] <= corpus.Keys
    ensures InUnit(corpus, Iterate(corpus, d, k))
  {
    if k == 0 {
      UniformTotal(corpus);
      var u := Uniform(corpus);
      assert forall p :: p in u ==> 0.0 <= u[p] <= 1.0;
    } else {
      IterateInUnit(corpus, d, k - 1);
      StepInUnit(corpus, Iterate(corpus, d, k - 1), d);
    }
  }
}
