/**
 * The document lists of webscraper.py: what `_scrape_url` yields for one URL,
 * what the scrape phase collects, how prior output is loaded and deduplicated
 * by URL, and which prior documents are re-admitted.
 */
module Corpus {
  import opened Wrappers
  import opened Seqs
  import opened Text
  import opened Web
  import opened Quality
  import opened Cleanup

  /** The URLs the documents carry. */
  function UrlsOf(docs: seq<Doc>): (urls: set<string>)
    ensures forall u :: u in urls <==> exists d :: d in docs && d.url == Some(u)
  {
    if docs == [] then {}
    else
      var init, last := docs[..|docs| - 1], docs[|docs| - 1];
      assert docs == init + [last];
      UrlsOf(init) + (if last.url.Some? then {last.url.value} else {})
  }

  /** Every document has a URL, and no two share one. */
  predicate UrlsDistinct(docs: seq<Doc>)
  {
    (forall i :: 0 <= i < |docs| ==> docs[i].url.Some?)
    && forall i, j :: 0 <= i < j < |docs| ==> docs[i].url != docs[j].url
  }

  // ------------------------------------------------------------ scraping

  /**
   * `_scrape_url(url)`: fetch, extract, clean the text, and keep the document
   * only if it passes the filter. The title goes under "id".
   */
  function ScrapeUrl(env: Env, url: string): (doc: Option<Doc>)
    ensures doc.Some? ==> IsUsefulContent(doc.value) && doc.value.url == Some(url) && doc.value.title.None?
    ensures var html := env.fetchHtml(url);
            html != "" && env.extract(html).Some?
            && IsUsefulContent(ScrapedDoc(env.extract(html).value.title, url, CleanText(env.extract(html).value.text)))
            ==> doc.Some?
  {
    var html := env.fetchHtml(url);
    if html == "" then None
    else
      match env.extract(html)
      case None => None
      case Some(page) =>
        var doc := ScrapedDoc(page.title, url, CleanText(page.text));
        if IsUsefulContent(doc) then Some(doc) else None
  }

  /**
   * A scraped document comes from a non-empty page that could be extracted:
   * its "id" is the page title and its text is the page text cleaned, so
   * cleaning it again changes nothing.
   */
  lemma ScrapedFromPage(env: Env, url: string)
    requires ScrapeUrl(env, url).Some?
    ensures env.fetchHtml(url) != "" && env.extract(env.fetchHtml(url)).Some?
    ensures var page := env.extract(env.fetchHtml(url)).value;
            ScrapeUrl(env, url).value == ScrapedDoc(page.title, url, CleanText(page.text))
    ensures var text := ScrapeUrl(env, url).value.text.value;
            CleanText(text) == text
  {
    CleanIdempotent(env.extract(env.fetchHtml(url)).value.text);
  }

  /**
   * Every URL of the list whose page is non-empty, extracts, and whose cleaned
   * document passes the filter has that document collected.
   */
  lemma UsefulPageCollected(env: Env, urls: seq<string>, u: string)
    requires u in urls
    requires env.fetchHtml(u) != "" && env.extract(env.fetchHtml(u)).Some?
    requires var page := env.extract(env.fetchHtml(u)).value;
             IsUsefulContent(ScrapedDoc(page.title, u, CleanText(page.text)))
    ensures var page := env.extract(env.fetchHtml(u)).value;
            ScrapedDoc(page.title, u, CleanText(page.text)) in ScrapeAll(ScrapeFn(env), urls)
  {
    ScrapeAllCollects(ScrapeFn(env), urls, u);
  }

  /** `_scrape_url` as a function value. */
  function ScrapeFn(env: Env): (scrape: string -> Option<Doc>)
    ensures forall url :: scrape(url) == ScrapeUrl(env, url)
  {
    url => ScrapeUrl(env, url)
  }

  /**
   * The documents the scrape phase collects from `urls`, `scrape` being
   * `_scrape_url`: the results that are not None, in order.
   */
  function ScrapeAll(scrape: string -> Option<Doc>, urls: seq<string>): (docs: seq<Doc>)
    ensures |docs| <= |urls|
    ensures forall d :: d in docs ==> exists u :: u in urls && scrape(u) == Some(d)
  {
    if urls == [] then []
    else
      var init, last := urls[..|urls| - 1], urls[|urls| - 1];
      assert urls == init + [last];
      var docs := ScrapeAll(scrape, init);
      match scrape(last)
      case None => docs
      case Some(d) => docs + [d]
  }

  lemma ScrapeAllSnoc(scrape: string -> Option<Doc>, urls: seq<string>, i: nat)
    requires i < |urls|
    ensures ScrapeAll(scrape, urls[..i + 1]) ==
      ScrapeAll(scrape, urls[..i]) + (if scrape(urls[i]).Some? then [scrape(urls[i]).value] else [])
  {
    assert urls[..i + 1][..i] == urls[..i];
  }

  /** A URL that yields a document contributes it. */
  lemma {:induction false} ScrapeAllCollects(scrape: string -> Option<Doc>, urls: seq<string>, u: string)
    requires u in urls && scrape(u).Some?
    ensures scrape(u).value in ScrapeAll(scrape, urls)
  {
    var init, last := urls[..|urls| - 1], urls[|urls| - 1];
    assert urls == init + [last];
    if u != last {
      ScrapeAllCollects(scrape, init, u);
    }
  }

  /** Every document the scrape phase keeps passes the filter and carries one of the URLs. */
  lemma ScrapeAllUseful(env: Env, urls: seq<string>)
    ensures forall d :: d in ScrapeAll(ScrapeFn(env), urls) ==>
              IsUsefulContent(d) && d.url.Some? && d.url.value in urls
  {
    forall d | d in ScrapeAll(ScrapeFn(env), urls)
      ensures IsUsefulContent(d) && d.url.Some? && d.url.value in urls
    {
      var u :| u in urls && ScrapeFn(env)(u) == Some(d);
    }
  }

  /** `scrape` files every document under the URL it was scraped from. */
  ghost predicate TagsUrl(scrape: string -> Option<Doc>)
  {
    forall u :: scrape(u).Some? ==> scrape(u).value.url == Some(u)
  }

  lemma ScrapeFnTagsUrl(env: Env)
    ensures TagsUrl(ScrapeFn(env))
  {
  }

  /** Distinct URLs give documents with distinct URLs. */
  lemma {:induction false} ScrapeAllDistinct(scrape: string -> Option<Doc>, urls: seq<string>)
    requires TagsUrl(scrape) && NoDup(urls)
    ensures UrlsDistinct(ScrapeAll(scrape, urls))
  {
    if urls != [] {
      var init, last := urls[..|urls| - 1], urls[|urls| - 1];
      assert urls == init + [last];
      assert NoDup(init) && last !in init by {
        assert forall i :: 0 <= i < |init| ==> init[i] == urls[i];
      }
      ScrapeAllDistinct(scrape, init);
      var docs := ScrapeAll(scrape, init);
      if scrape(last).Some? {
        var d := scrape(last).value;
        forall i | 0 <= i < |docs| ensures docs[i].url != d.url {
          assert docs[i] in docs;
          var u :| u in init && scrape(u) == Some(docs[i]);
        }
        assert ScrapeAll(scrape, urls) == docs + [d];
      }
    }
  }

  // ------------------------------------------------------- prior output

  /** The documents of the prior files that could be read, file after file; a missing file is None. */
  function Flatten(files: seq<Option<seq<Doc>>>): seq<Doc>
  {
    if files == [] then []
    else Flatten(files[..|files| - 1]) + files[|files| - 1].GetOr([])
  }

  /** The documents that have a URL, each URL's first document only. */
  function DedupByUrl(docs: seq<Doc>): (r: seq<Doc>)
    ensures |r| <= |docs|
    ensures forall d :: d in r ==> d in docs && d.url.Some?
  {
    if docs == [] then []
    else
      var kept := DedupByUrl(docs[..|docs| - 1]);
      var last := docs[|docs| - 1];
      if last.url.Some? && last.url.value !in UrlsOf(kept) then kept + [last] else kept
  }

  /** Every loaded document has a URL, and no two share one. */
  lemma {:induction false} DedupDistinct(docs: seq<Doc>)
    ensures UrlsDistinct(DedupByUrl(docs))
  {
    if docs != [] {
      var init, last := docs[..|docs| - 1], docs[|docs| - 1];
      DedupDistinct(init);
      var kept := DedupByUrl(init);
      if last.url.Some? && last.url.value !in UrlsOf(kept) {
        var r := kept + [last];
        assert DedupByUrl(docs) == r;
        forall i, j | 0 <= i < j < |r| ensures r[i].url != r[j].url {
          assert r[i] == kept[i];
          if j < |kept| {
            assert r[j] == kept[j];
          } else {
            assert r[i] in kept;
          }
        }
      }
    }
  }

  /** Deduplication loses no URL. */
  lemma {:induction false} DedupSameUrls(docs: seq<Doc>)
    ensures UrlsOf(DedupByUrl(docs)) == UrlsOf(docs)
  {
    if docs != [] {
      var init, last := docs[..|docs| - 1], docs[|docs| - 1];
      assert docs == init + [last];
      DedupSameUrls(init);
      DedupSnoc(init, last);
      UrlsOfSnoc(init, last);
      UrlsOfSnoc(DedupByUrl(init), last);
    }
  }

  /** `docs[k]` is the first document of `docs` with its URL. */
  predicate FirstWithUrl(docs: seq<Doc>, k: int)
  {
    0 <= k < |docs| && docs[k].url.Some? && forall j :: 0 <= j < k ==> docs[j].url != docs[k].url
  }

  /** The first document with each URL is kept... */
  lemma {:induction false} DedupKeepsFirst(docs: seq<Doc>, k: int)
    requires FirstWithUrl(docs, k)
    ensures docs[k] in DedupByUrl(docs)
  {
    var init, last := docs[..|docs| - 1], docs[|docs| - 1];
    assert docs == init + [last];
    if k == |docs| - 1 {
      forall d | d in init ensures d.url != last.url {
        var j :| 0 <= j < |init| && init[j] == d;
        assert docs[j] == d;
      }
      DedupSameUrls(init);
      assert last.url.value !in UrlsOf(DedupByUrl(init));
    } else {
      assert FirstWithUrl(init, k);
      DedupKeepsFirst(init, k);
    }
  }

  /** ...and nothing else is. */
  lemma {:induction false} DedupOnlyFirst(docs: seq<Doc>, d: Doc)
    requires d in DedupByUrl(docs)
    ensures exists k :: FirstWithUrl(docs, k) && docs[k] == d
  {
    var init, last := docs[..|docs| - 1], docs[|docs| - 1];
    assert docs == init + [last];
    var kept := DedupByUrl(init);
    if d in kept {
      DedupOnlyFirst(init, d);
      var k :| FirstWithUrl(init, k) && init[k] == d;
      assert FirstWithUrl(docs, k);
    } else {
      DedupSameUrls(init);
      assert d == last && d.url.Some? && d.url.value !in UrlsOf(init);
      forall j | 0 <= j < |docs| - 1 ensures docs[j].url != d.url {
        assert docs[j] in init;
      }
      assert FirstWithUrl(docs, |docs| - 1);
    }
  }

  /** One more document: it is kept exactly when its URL is new. */
  lemma DedupSnoc(docs: seq<Doc>, d: Doc)
    ensures DedupByUrl(docs + [d]) ==
      if d.url.Some? && d.url.value !in UrlsOf(DedupByUrl(docs)) then DedupByUrl(docs) + [d] else DedupByUrl(docs)
  {
    assert (docs + [d])[..|docs|] == docs;
  }

  lemma UrlsOfSnoc(docs: seq<Doc>, d: Doc)
    ensures UrlsOf(docs + [d]) == UrlsOf(docs) + (if d.url.Some? then {d.url.value} else {})
  {
    assert (docs + [d])[..|docs|] == docs;
  }

  lemma FlattenSnoc(files: seq<Option<seq<Doc>>>, f: nat)
    requires f < |files|
    ensures Flatten(files[..f + 1]) == Flatten(files[..f]) + files[f].GetOr([])
  {
    assert files[..f + 1][..f] == files[..f];
  }

  /** One document of the loading loop: keep it when it has a URL not loaded yet. */
  lemma LoadStep(seen: seq<Doc>, doc: Doc)
    ensures var kept := DedupByUrl(seen);
            var isNew := doc.url.Some? && doc.url.value !in UrlsOf(kept);
            && DedupByUrl(seen + [doc]) == (if isNew then kept + [doc] else kept)
            && UrlsOf(DedupByUrl(seen + [doc])) == UrlsOf(kept) + (if isNew then {doc.url.value} else {})
  {
    DedupSnoc(seen, doc);
    UrlsOfSnoc(DedupByUrl(seen), doc);
  }

  lemma AppendPrefix<T>(before: seq<T>, s: seq<T>, i: nat)
    requires i < |s|
    ensures before + s[..i + 1] == (before + s[..i]) + [s[i]]
  {
  }

  /** `load_previously_scraped_documents(filepaths)`, the files given by their parsed contents. */
  method LoadPrevious(files: seq<Option<seq<Doc>>>) returns (loadedUrls: set<string>, loadedDocs: seq<Doc>)
    ensures loadedDocs == DedupByUrl(Flatten(files))
    ensures loadedUrls == UrlsOf(loadedDocs)
  {
    loadedUrls, loadedDocs := {}, [];
    for f := 0 to |files|
      invariant loadedDocs == DedupByUrl(Flatten(files[..f]))
      invariant loadedUrls == UrlsOf(loadedDocs)
    {
      FlattenSnoc(files, f);
      if files[f].None? {
        assert Flatten(files[..f + 1]) == Flatten(files[..f]) + [];
        assert Flatten(files[..f]) + [] == Flatten(files[..f]);
        continue;
      }
      var documents := files[f].value;
      ghost var before := Flatten(files[..f]);
      assert before + documents[..0] == before;
      for i := 0 to |documents|
        invariant loadedDocs == DedupByUrl(before + documents[..i])
        invariant loadedUrls == UrlsOf(loadedDocs)
      {
        var doc := documents[i];
        AppendPrefix(before, documents, i);
        LoadStep(before + documents[..i], doc);
        if doc.url.Some? && doc.url.value !in loadedUrls {
          loadedUrls := loadedUrls + {doc.url.value};
          loadedDocs := loadedDocs + [doc];
        }
      }
      assert documents[..|documents|] == documents;
    }
    assert files[..|files|] == files;
  }

  // --------------------------------------------------------- readmission

  /** A prior document is re-admitted when its URL is a seed URL and it still passes the filter. */
  predicate Readmit(doc: Doc, targets: set<string>)
  {
    doc.url.Some? && doc.url.value in targets && IsUsefulContent(doc)
  }

  /** The prior documents re-admitted, in prior order. */
  function Readmitted(prior: seq<Doc>, targets: set<string>): (r: seq<Doc>)
    ensures |r| <= |prior|
    ensures forall d :: d in r <==> d in prior && Readmit(d, targets)
  {
    if prior == [] then []
    else
      var init, last := prior[..|prior| - 1], prior[|prior| - 1];
      assert prior == init + [last];
      Readmitted(init, targets) + (if Readmit(last, targets) then [last] else [])
  }
}
