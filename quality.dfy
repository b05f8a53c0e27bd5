/**
 * The content-quality filter `is_useful_content` of webscraper.py and the
 * constants it uses: a pure accept/reject decision on a document.
 */
module Quality {
  import opened Wrappers
  import opened Text

  /**
   * A document as the scraper's dictionaries hold it; any key may be absent.
   * The scraper writes the page title under "id", while the filter reads "title".
   */
  datatype Doc = Doc(id: Option<string>, url: Option<string>, title: Option<string>, text: Option<string>)

  /** The dictionary `_scrape_url` builds: `{"id": title, "url": url, "text": text}`. */
  function ScrapedDoc(title: string, url: string, text: string): Doc
  {
    Doc(Some(title), Some(url), None, Some(text))
  }

  const MinTextLength: nat := 100
  const MinWordCount: nat := 15
  /** MAX_BOILERPLATE_RATIO, 0.85, as the fraction MaxRatioNum / MaxRatioDen. */
  const MaxRatioNum: nat := 17
  const MaxRatioDen: nat := 20
  /** A non-blank line of at most this many words counts as boilerplate. */
  const BoilerplateWords: nat := 3

  const UselessTitleKeywords: seq<string> := [
    "404", "page not found", "access denied", "forbidden",
    "login", "sign in", "subscribe", "cookie", "captcha",
    "error", "maintenance", "coming soon", "under construction"
  ]

  const UselessBodyKeywords: seq<string> := [
    "enable javascript", "enable cookies", "browser not supported",
    "please verify you are a human", "access to this page has been denied",
    "this site requires javascript"
  ]

  /** `[l for l in lines if l.strip()]`. */
  function NonBlank(lines: seq<string>): (r: seq<string>)
    ensures |r| <= |lines|
    ensures forall l :: l in r <==> l in lines && Strip(l) != []
  {
    if lines == [] then []
    else (if Strip(lines[0]) != [] then [lines[0]] else []) + NonBlank(lines[1..])
  }

  /** `sum(1 for l in lines if len(l.split()) <= 3)`. */
  function CountBoilerplate(lines: seq<string>): (b: nat)
    ensures b <= |lines|
  {
    if lines == [] then 0
    else (if WordCount(lines[0]) <= BoilerplateWords then 1 else 0) + CountBoilerplate(lines[1..])
  }

  /** More than 85% of the non-blank lines of `text` are boilerplate. */
  predicate TooMuchBoilerplate(text: string)
  {
    var lines := NonBlank(SplitLines(text));
    |lines| > 0 && MaxRatioDen * CountBoilerplate(lines) > MaxRatioNum * |lines|
  }

  /** `(doc.get("title") or "")`. */
  function TitleOf(doc: Doc): string
  {
    doc.title.GetOr("")
  }

  predicate HasUselessTitle(doc: Doc)
  {
    exists k :: 0 <= k < |UselessTitleKeywords| && Contains(Lower(TitleOf(doc)), UselessTitleKeywords[k])
  }

  predicate HasUselessBody(text: string)
  {
    exists k :: 0 <= k < |UselessBodyKeywords| && Contains(Lower(text), UselessBodyKeywords[k])
  }

  /** `is_useful_content(doc)`: the checks in the order webscraper.py:174-205 makes them. */
  function IsUsefulContent(doc: Doc): (useful: bool)
    ensures doc.text.None? || doc.text == Some("") ==> !useful
    ensures HasUselessTitle(doc) ==> !useful
    ensures doc.text.Some? && HasUselessBody(doc.text.value) ==> !useful
    ensures useful ==> |doc.text.value| >= MinTextLength
                       && WordCount(doc.text.value) >= MinWordCount
                       && !TooMuchBoilerplate(doc.text.value)
  {
    if doc.text.None? || doc.text.value == "" then false
    else
      var text := doc.text.value;
      var title := Lower(TitleOf(doc));
      if ContainsAny(title, UselessTitleKeywords) then false
      else if ContainsAny(Lower(text), UselessBodyKeywords) then false
      else if |text| < MinTextLength then false
      else if WordCount(text) < MinWordCount then false
      else
        var lines := NonBlank(SplitLines(text));
        if |lines| > 0 then
          var boilerplate := CountBoilerplate(lines);
          !(MaxRatioDen * boilerplate > MaxRatioNum * |lines|)
        else true
  }

  /**
   * Past the emptiness and keyword checks, a document is accepted exactly when it
   * is long enough, has enough words and is not mostly boilerplate: the remaining
   * checks are independent necessary conditions, whatever their order.
   */
  lemma AcceptIff(doc: Doc)
    requires doc.text.Some? && doc.text.value != ""
    requires !HasUselessTitle(doc) && !HasUselessBody(doc.text.value)
    ensures IsUsefulContent(doc) <==>
              |doc.text.value| >= MinTextLength
              && WordCount(doc.text.value) >= MinWordCount
              && !TooMuchBoilerplate(doc.text.value)
  {
  }

  /** The decision reads only the "title" and "text" entries of the document. */
  lemma DecisionReadsTitleAndText(d1: Doc, d2: Doc)
    requires d1.title == d2.title && d1.text == d2.text
    ensures IsUsefulContent(d1) == IsUsefulContent(d2)
  {
  }

  /**
   * For a freshly scraped document the page title sits under "id", so it never
   * decides anything: a page titled "404 Not Found" is judged on its text alone.
   */
  lemma ScrapedTitleNeverChecked(title: string, url: string, text: string)
    ensures !HasUselessTitle(ScrapedDoc(title, url, text))
    ensures IsUsefulContent(ScrapedDoc(title, url, text)) == IsUsefulContent(ScrapedDoc("", url, text))
  {
    assert TitleOf(ScrapedDoc(title, url, text)) == "";
    forall k | 0 <= k < |UselessTitleKeywords|
      ensures !Contains(Lower(""), UselessTitleKeywords[k])
    {
      assert |UselessTitleKeywords[k]| > 0;
    }
  }

  lemma {:induction false} NonBlankEmpty(lines: seq<string>)
    requires NonBlank(lines) == []
    ensures SumWords(lines) == 0
  {
    if lines != [] {
      StripEmptyIffBlank(lines[0]);
      NoWordsIffBlank(lines[0]);
      NonBlankEmpty(lines[1..]);
    }
  }

  lemma {:induction false} AllShortCounted(lines: seq<string>)
    requires forall l :: l in lines ==> WordCount(l) <= BoilerplateWords
    ensures CountBoilerplate(lines) == |lines|
  {
    if lines != [] {
      AllShortCounted(lines[1..]);
    }
  }

  /**
   * A text whose every line has at most three words is rejected, however long:
   * either it has no non-blank line, and so no words, or all of its lines are
   * boilerplate, a ratio of 1 > 0.85.
   */
  lemma AllShortLinesRejected(doc: Doc)
    requires doc.text.Some?
    requires forall l :: l in SplitLines(doc.text.value) ==> WordCount(l) <= BoilerplateWords
    ensures !IsUsefulContent(doc)
  {
    var text := doc.text.value;
    var lines := NonBlank(SplitLines(text));
    AllShortCounted(lines);
    if lines == [] {
      NonBlankEmpty(SplitLines(text));
      WordsOfLines(text);
    }
  }

  /** So every accepted document has a line of more than three words. */
  lemma AcceptedHasContentLine(doc: Doc)
    requires IsUsefulContent(doc)
    ensures exists l :: l in SplitLines(doc.text.value) && WordCount(l) > BoilerplateWords
  {
    if forall l :: l in SplitLines(doc.text.value) ==> WordCount(l) <= BoilerplateWords {
      AllShortLinesRejected(doc);
    }
  }
}
