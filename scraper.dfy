/**
 * The crawler object of webscraper.py and its main program. `WebScraper`
 * holds the collected documents and the set of visited URLs (a module-level
 * set at webscraper.py:105, shared by the one scraper a run creates), explores the
 * link graph breadth first to a depth limit, and scrapes the seeds together
 * with every URL found. `Run` is the main program: load the prior output,
 * mark its URLs visited, scrape, and re-admit the prior documents of the seeds.
 */
module Scraper {
  import opened Wrappers
  import opened Seqs
  import opened Web
  import opened Quality
  import opened Exploration
  import opened Corpus

  /** The URLs of `urls` that are not in `visited`, each once, in first-seen order. */
  function Unvisited(urls: seq<string>, visited: set<string>): (r: seq<string>)
    ensures NoDup(r)
    ensures Elems(r) == Elems(urls) - visited
  {
    if urls == [] then []
    else
      var init, last := urls[..|urls| - 1], urls[|urls| - 1];
      assert urls == init + [last];
      ElemsConcat(init, [last]);
      var r := Unvisited(init, visited);
      if last in visited || last in init then r
      else
        NoDupConcat(r, [last]);
        ElemsConcat(r, [last]);
        r + [last]
  }

  /** The pages claimed at one level, appended to the fetch log, keep it free of repeats and visited. */
  lemma LogClaimed(log: seq<string>, toVisit: seq<string>, visited: set<string>, urls: set<string>)
    requires NoDup(log) && Elems(log) <= visited
    requires NoDup(toVisit) && Elems(toVisit) == urls - visited
    ensures NoDup(log + toVisit) && Elems(log + toVisit) <= visited + urls
  {
    NoDupConcat(log, toVisit);
    ElemsConcat(log, toVisit);
  }

  /** The fetch log after a level and everything below it holds exactly the newly visited pages. */
  lemma LogCompose(log: seq<string>, toVisit: seq<string>, mid: seq<string>, final: seq<string>,
                   visited: set<string>, urls: set<string>, visitedAfter: set<string>)
    requires Elems(toVisit) == urls - visited && mid == log + toVisit
    requires visited + urls <= visitedAfter
    requires mid <= final && Elems(final) == Elems(mid) + (visitedAfter - (visited + urls))
    ensures log <= final && Elems(final) == Elems(log) + (visitedAfter - visited)
  {
    ElemsConcat(log, toVisit);
  }

  class WebScraper {
    const env: Env
    /** `self.urls.values()`: the seed URLs, possibly repeated. */
    const seedUrls: seq<string>
    const maxDepth: nat
    var documents: seq<Doc>
    /** `visited_urls`. */
    var visited: set<string>
    /** The pages exploration has fetched, in order. */
    ghost var explored: seq<string>

    /** No page is fetched twice during exploration, and every fetched page is marked visited. */
    ghost predicate Valid()
      reads this
    {
      NoDup(explored) && Elems(explored) <= visited
    }

    constructor (env: Env, seedUrls: seq<string>, maxDepth: nat)
      ensures this.env == env && this.seedUrls == seedUrls && this.maxDepth == maxDepth
      ensures documents == [] && visited == {} && explored == []
      ensures Valid()
    {
      this.env := env;
      this.seedUrls := seedUrls;
      this.maxDepth := maxDepth;
      documents := [];
      visited := {};
      explored := [];
    }

    /** `visited_urls.update(urls)`. */
    method MarkVisited(urls: set<string>)
      requires Valid()
      modifies this`visited
      ensures visited == old(visited) + urls
      ensures Valid()
    {
      visited := visited + urls;
    }

    /**
     * The locked loop of `explore`: mark each URL not yet visited as visited
     * and return those URLs, in order.
     */
    method Claim(urls: seq<string>) returns (toVisit: seq<string>)
      requires Valid()
      modifies this`visited
      ensures toVisit == Unvisited(urls, old(visited))
      ensures visited == old(visited) + Elems(urls)
      ensures Valid()
    {
      toVisit := [];
      for i := 0 to |urls|
        invariant toVisit == Unvisited(urls[..i], old(visited))
        invariant visited == old(visited) + Elems(urls[..i])
        invariant Valid()
      {
        var url := urls[i];
        assert urls[..i + 1] == urls[..i] + [url];
        ElemsConcat(urls[..i], [url]);
        if url !in visited {
          visited := visited + {url};
          toVisit := toVisit + [url];
        }
      }
      assert urls[..|urls|] == urls;
    }

    /** `_fetch_and_get_links(url)`: the same-domain links of the page at `url`. */
    method FetchAndGetLinks(url: string) returns (links: seq<string>)
      ensures NoDup(links)
      ensures Elems(links) == LinksOf(env, url)
    {
      var html := env.fetchHtml(url);
      links := Links.GetSubpageLinks(env, html, url, true);
    }

    /**
     * The thread pool of `explore`: fetch each claimed page once, logging it,
     * and gather all the links found.
     */
    method FetchAll(toVisit: seq<string>) returns (allLinks: seq<string>)
      modifies this`explored
      ensures Elems(allLinks) == LinksOfAll(Graph(env), Elems(toVisit))
      ensures explored == old(explored) + toVisit
    {
      allLinks := [];
      for i := 0 to |toVisit|
        invariant Elems(allLinks) == LinksOfAll(Graph(env), Elems(toVisit[..i]))
        invariant explored == old(explored) + toVisit[..i]
      {
        var found := FetchAndGetLinks(toVisit[i]);
        assert toVisit[..i + 1] == toVisit[..i] + [toVisit[i]];
        ElemsConcat(toVisit[..i], [toVisit[i]]);
        ElemsConcat(allLinks, found);
        LinksOfAllAdd(Graph(env), Elems(toVisit[..i]), toVisit[i]);
        explored := explored + [toVisit[i]];
        allLinks := allLinks + found;
      }
      assert toVisit[..|toVisit|] == toVisit;
    }

    /**
     * `explore(urls, depth)`: returns, without repetition, exactly the links
     * the set-level `Exploration.Explore` finds, leaves the visited set it
     * describes, and fetches each newly visited page exactly once.
     */
    method Explore(urls: seq<string>, depth: nat) returns (links: seq<string>)
      requires Valid()
      modifies this`visited, this`explored
      ensures Valid()
      ensures NoDup(links)
      ensures (Elems(links), visited) == Exploration.Explore(Graph(env), Elems(urls), old(visited), depth, maxDepth)
      ensures old(explored) <= explored
      ensures Elems(explored) == Elems(old(explored)) + (visited - old(visited))
      ensures depth >= maxDepth || Elems(urls) <= old(visited) ==>
                links == [] && visited == old(visited) && explored == old(explored)
      decreases if depth < maxDepth then maxDepth - depth else 0
    {
      if depth >= maxDepth {
        links := [];
        assert Elems(links) == {};
        return;
      }
      var toVisit := Claim(urls);
      if toVisit == [] {
        assert Elems(urls) <= old(visited) by {
          forall u | u in Elems(urls) ensures u in old(visited) {
            assert u !in Elems(toVisit);
          }
        }
        NothingClaimed(Graph(env), Elems(urls), old(visited), depth, maxDepth);
        assert visited == old(visited);
        links := [];
        assert Elems(links) == {};
        return;
      }
      ghost var log0, visited0, visited1 := old(explored), old(visited), visited;
      var allLinks := FetchAll(toVisit);
      assert toVisit[0] in Elems(toVisit);
      ExploreStep(Graph(env), Elems(urls), visited0, depth, maxDepth, toVisit[0]);
      assert !(Elems(urls) <= visited0);
      LogClaimed(log0, toVisit, visited0, Elems(urls));
      ghost var log1 := explored;
      var deeper := Explore(Distinct(allLinks), depth + 1);
      LogCompose(log0, toVisit, log1, explored, visited0, Elems(urls), visited);
      links := Distinct(allLinks + deeper);
      ElemsConcat(allLinks, deeper);
    }

    /**
     * `scrape()`: explore from the seeds, then scrape every seed and every URL
     * found, once each, keeping the documents that pass the filter.
     */
    method Scrape() returns (ghost discovered: set<string>, toScrape: seq<string>)
      requires Valid()
      modifies this`visited, this`explored, this`documents
      ensures Valid()
      ensures (discovered, visited) == Exploration.Explore(Graph(env), Elems(seedUrls), old(visited), 0, maxDepth)
      ensures NoDup(toScrape) && Elems(toScrape) == Elems(seedUrls) + discovered
      ensures documents == old(documents) + ScrapeAll(ScrapeFn(env), toScrape)
      ensures old(explored) <= explored
      ensures Elems(explored) == Elems(old(explored)) + (visited - old(visited))
    {
      var discoveredUrls := Explore(seedUrls, 0);
      discovered := Elems(discoveredUrls);
      var urlsToScrape := Distinct(seedUrls + discoveredUrls);
      ElemsConcat(seedUrls, discoveredUrls);
      toScrape := urlsToScrape;
      // The pool's results, collected in scheduling order and appended at the end.
      var scraped: seq<Doc> := [];
      ghost var visitedAfter, exploredAfter := visited, explored;
      for i := 0 to |urlsToScrape|
        invariant scraped == ScrapeAll(ScrapeFn(env), urlsToScrape[..i])
        invariant documents == old(documents) && visited == visitedAfter && explored == exploredAfter
      {
        var doc := ScrapeUrl(env, urlsToScrape[i]);
        ScrapeAllSnoc(ScrapeFn(env), urlsToScrape, i);
        if doc.Some? {
          scraped := scraped + [doc.value];
        }
      }
      assert urlsToScrape[..|urlsToScrape|] == urlsToScrape;
      documents := documents + scraped;
    }
  }

  /** The links of `urls + {u}` are those of `urls` and those of `u`. */
  lemma LinksOfAllAdd(graph: string -> set<string>, urls: set<string>, u: string)
    ensures LinksOfAll(graph, urls + {u}) == LinksOfAll(graph, urls) + graph(u)
  {
  }

  /**
   * The re-admission loop of the main program: the prior documents whose URL
   * is a target URL and that still pass the filter, in prior order. Every
   * prior document has a URL, as webscraper.py:340 indexes it without a check.
   */
  method ReadmitPrevious(previousDocs: seq<Doc>, targetUrls: set<string>) returns (readmitted: seq<Doc>)
    requires forall k :: 0 <= k < |previousDocs| ==> previousDocs[k].url.Some?
    ensures readmitted == Readmitted(previousDocs, targetUrls)
  {
    readmitted := [];
    for i := 0 to |previousDocs|
      invariant readmitted == Readmitted(previousDocs[..i], targetUrls)
    {
      var doc := previousDocs[i];
      assert previousDocs[..i + 1][..i] == previousDocs[..i];
      if doc.url.value in targetUrls && IsUsefulContent(doc) {
        readmitted := readmitted + [doc];
      }
    }
    assert previousDocs[..|previousDocs|] == previousDocs;
  }

  /**
   * The main program: load the prior output, mark its URLs visited, scrape
   * from the seeds, then re-admit every prior document of a seed URL that
   * still passes the filter. Returns the documents it saves; `toScrape` is
   * the order the pool is modelled to scrape in and `fetched` the pages
   * exploration fetched, in order: none of them is in the prior output and
   * none is fetched twice.
   */
  method Run(env: Env, seedUrls: seq<string>, maxDepth: nat, previousFiles: seq<Option<seq<Doc>>>)
    returns (output: seq<Doc>, toScrape: seq<string>, ghost fetched: seq<string>)
    ensures var previousDocs := DedupByUrl(Flatten(previousFiles));
            var previousUrls := UrlsOf(previousDocs);
            var explored := Exploration.Explore(Graph(env), Elems(seedUrls), previousUrls, 0, maxDepth);
            && NoDup(toScrape) && Elems(toScrape) == Elems(seedUrls) + explored.0
            && output == ScrapeAll(ScrapeFn(env), toScrape) + Readmitted(previousDocs, Elems(seedUrls))
            && NoDup(fetched) && Elems(fetched) == explored.1 - previousUrls
  {
    var previousUrls, previousDocs := LoadPrevious(previousFiles);
    var scraper := new WebScraper(env, seedUrls, maxDepth);
    scraper.MarkVisited(previousUrls);
    assert scraper.documents == [] && scraper.visited == previousUrls;
    ghost var discovered: set<string>;
    discovered, toScrape := scraper.Scrape();
    ghost var scraped := ScrapeAll(ScrapeFn(env), toScrape);
    assert scraper.documents == scraped;
    fetched := scraper.explored;
    var targetUrls := Elems(scraper.seedUrls);
    var readmitted := ReadmitPrevious(previousDocs, targetUrls);
    scraper.documents := scraper.documents + readmitted;
    output := scraper.documents;
    assert output == scraped + Readmitted(previousDocs, Elems(seedUrls));
  }

  /** Every document the main program saves passes the filter and has a URL. */
  lemma OutputUseful(env: Env, toScrape: seq<string>, prior: seq<Doc>, targets: set<string>)
    ensures forall d :: d in ScrapeAll(ScrapeFn(env), toScrape) + Readmitted(prior, targets) ==>
              IsUsefulContent(d) && d.url.Some?
  {
    ScrapeAllUseful(env, toScrape);
  }

  /**
   * Seeds are scraped even when the prior output holds them: a seed whose page
   * yields a document again and whose prior document is re-admitted appears
   * twice in the output, once in the scraped part and once in the re-admitted
   * part.
   */
  lemma SeedUrlMayRepeat(env: Env, toScrape: seq<string>, prior: seq<Doc>, targets: set<string>, u: string, d: Doc)
    requires u in toScrape && ScrapeUrl(env, u).Some?
    requires d in prior && d.url == Some(u) && Readmit(d, targets)
    ensures ScrapeUrl(env, u).value in ScrapeAll(ScrapeFn(env), toScrape) && ScrapeUrl(env, u).value.url == Some(u)
    ensures d in Readmitted(prior, targets) && d.url == Some(u)
  {
    ScrapeAllCollects(ScrapeFn(env), toScrape, u);
  }

  /**
   * Within the scraped part of the output no URL repeats: `toScrape` is
   * duplicate-free and `_scrape_url` files each document under its own URL.
   */
  lemma ScrapedPartDistinct(env: Env, toScrape: seq<string>)
    requires NoDup(toScrape)
    ensures UrlsDistinct(ScrapeAll(ScrapeFn(env), toScrape))
  {
    ScrapeFnTagsUrl(env);
    ScrapeAllDistinct(ScrapeFn(env), toScrape);
  }
}
