# Crawl-and-filter core of a web scraper, in Dafny

This project models the core of a small retrieval-augmented question-answering
repository. Its scraper (`webscraper.py`) builds a document corpus in five steps:

1. It loads the documents of a previous run, deduplicated by URL.
2. It marks their URLs as visited.
3. It explores the link graph from a map of seed URLs, breadth first, to a depth limit. A shared visited set makes sure no page is fetched twice during exploration.
4. It scrapes every seed and every link found, fetching each of those pages in a new request (webscraper.py:275) whether or not exploration fetched it, cleaning each page's text and keeping only the pages that pass a content-quality filter.
5. It re-admits the earlier documents of the seed URLs that still pass the filter.

The answer generator (`generate.py`) turns retrieved chunks into a numbered
context and places it, with the question, into a fixed prompt.

The modules, leaf first:

- `Wrappers`: `Option`. It stands for a missing dictionary key, a JSON null or a `None` return.
- `Text`: the Python string operations the code relies on, defined exactly:
  - `str.isspace` over the full Unicode whitespace set;
  - `lower`, ASCII letters only;
  - substring search;
  - `strip`;
  - `splitlines`, with its full set of line boundaries and `\r\n` counted as one;
  - `"\n".join`;
  - `len(s.split())`.
- `Seqs`: lists as sequences; `set(xs)` as `Elems`; `list(set(xs))` as `Distinct`.
- `Web`: the outside world, as total functions (fetching, anchor extraction, `urlparse`, HTML extraction).
- `Quality`: `is_useful_content` and its constants.
- `Cleanup`: the line normaliser inside `_scrape_url`.
- `Links`: `get_subpage_links`.
- `Exploration`: what `explore` computes, as a set-level function over a link graph.
- `Corpus`:
  - `_scrape_url`;
  - the scrape phase's collection;
  - `load_previously_scraped_documents`;
  - the re-admission rule.
- `Scraper`: the `WebScraper` class, with the visited set as a field, and the main program `Run`.
- `Prompt`: `build_prompt`.

## Model

| member | source | states |
|---|---|---|
| Quality.IsUsefulContent | webscraper.py:174-205 | A document with no or empty text, a title keyword or a body phrase is rejected. An accepted one is long enough, has enough words and is not mostly boilerplate. |
| Quality.AcceptIff | webscraper.py:190-205 | Past the emptiness and keyword checks, acceptance holds exactly when all three hold: at least 100 characters, at least 15 words, and boilerplate lines at most 85% of the non-blank lines. |
| Quality.DecisionReadsTitleAndText | webscraper.py:174-179 | The decision depends only on the "title" and "text" entries. |
| Quality.ScrapedTitleNeverChecked | webscraper.py:294 | For a freshly scraped document (title under "id", while the filter reads "title" at line 179), no title keyword ever matches. Its verdict equals that of the same document with an empty title. |
| Quality.ScrapedDoc | webscraper.py:294 | The dictionary `{"id": title, "url": url, "text": text}`: the title goes under "id" and there is no "title" key. |
| Quality.TitleOf | webscraper.py:179 | `(doc.get("title") or "")`: the "title" entry, "" when missing. |
| Quality.NonBlank | webscraper.py:198 | Keeps exactly the lines whose strip is non-empty. |
| Quality.CountBoilerplate | webscraper.py:200 | Counts the lines of at most three words: never more than the lines there are. `Quality.AllShortCounted` shows it counts all of them when every line is short. |
| Quality.TooMuchBoilerplate | webscraper.py:198-203 | Some non-blank line exists and more than 85% of the non-blank lines are boilerplate (exact integer form of the ratio). Used by `Quality.IsUsefulContent` and `Quality.AcceptIff`. |
| Quality.HasUselessTitle | webscraper.py:179-182 | Some title keyword occurs in the lowercase "title" entry ("" when missing). `Quality.ScrapedTitleNeverChecked` shows it never holds of a scraped document. |
| Quality.HasUselessBody | webscraper.py:186-187 | Some body phrase occurs in the lowercase text. |
| Quality.AllShortLinesRejected | webscraper.py:194-203 | A text whose every line has at most three words is rejected however long it is. |
| Quality.AcceptedHasContentLine | webscraper.py:198-205 | Every accepted document has a line of more than three words. |
| Text.Lower | webscraper.py:186 | `str.lower`: same length, each character lowered on its own (ASCII letters only). Also used at lines 179 and 236. |
| Text.SplitLines | webscraper.py:198 | `str.splitlines`: no returned line holds a line boundary. `Text.SplitJoin` shows it undoes `"\n".join`. Also used at line 291. |
| Text.JoinLines | webscraper.py:292 | `"\n".join`: the result starts with the first line. |
| Text.WordCount | webscraper.py:194-200 | `len(s.split())`: words are separated by whitespace, so a text of length L has at most (L+1)/2 of them. `Text.NoWordsIffBlank` shows it is zero exactly for blank text. |
| Text.ContainsAny | webscraper.py:182 | `any(kw in s for kw in kws)`: true exactly when some pattern of the list occurs in `s`. Also used at lines 187 and 236. |
| Text.Contains | webscraper.py:182 | Python's `pat in s` holds exactly when the pattern occurs at some index. |
| Text.Strip | webscraper.py:291 | The result has no whitespace at either end, and the argument is the result framed by whitespace. |
| Text.StripEmptyIffBlank | webscraper.py:198 | `l.strip()` is empty exactly when `l` is all whitespace. |
| Text.SplitJoin | webscraper.py:291-292 | Splitting the `"\n".join` of non-empty lines without breaks gives the lines back. |
| Text.WordsOfLines | webscraper.py:194-198 | The words of a text are the words of its `splitlines` lines. |
| Text.StripKeepsWords | webscraper.py:291 | `strip` keeps every word. |
| Cleanup.StripNonBlank | webscraper.py:291 | The stripped non-blank lines are all non-empty and stripped. |
| Cleanup.CleanText | webscraper.py:290-292 | The cleaned text splits back into exactly the stripped non-blank lines: no blank line and no line with surrounding whitespace. |
| Cleanup.CleanIdempotent | webscraper.py:290-292 | Cleaning a cleaned text changes nothing. |
| Cleanup.CleanKeepsWords | webscraper.py:290-292 | Cleaning keeps the word count. |
| Links.GetSubpageLinks | webscraper.py:214-240 | Empty html gives `[]`. Otherwise the result is duplicate-free and its set is exactly the URLs of the anchors that pass all three tests: http(s) scheme, same netloc when `same_domain`, no skip pattern in the lowercase URL. |
| Links.WebScheme | webscraper.py:227 | The scheme test: "http" or "https". |
| Links.Keep | webscraper.py:226-237 | The three tests a resolved link must pass: http(s) scheme, same netloc when `same_domain`, no skip pattern in the lowercase URL. |
| Links.KeptUrls | webscraper.py:214-240 | The set `get_subpage_links` returns: empty for empty html, otherwise `Links.KeptOf` of the page's anchors. |
| Links.KeptOf | webscraper.py:222-239 | A URL is kept exactly when some anchor with that URL passes the three tests. |
| Links.FragmentSkipped | webscraper.py:232-237 | Any URL containing `#` is dropped. |
| Links.ResearchPageSkipped | webscraper.py:232-237 | The patterns are plain substrings: every URL whose lowercase form contains "research" is dropped, by the pattern "search". |
| Exploration.LinksOf | webscraper.py:242-245 | The links `_fetch_and_get_links` returns for one URL, as a set: its fetched page's kept links, same-domain filtering on. `Exploration.Graph` makes it the link graph. |
| Seqs.Distinct | webscraper.py:240 | `list(set(xs))`: no element twice, and the same elements as `xs`. Also used at lines 271 and 309. |
| Exploration.Explore | webscraper.py:247-271 | The visited set only grows. Below the depth limit every frontier URL ends up visited. |
| Exploration.NothingClaimed | webscraper.py:258-259 | When every frontier URL is already visited, explore returns nothing and changes nothing. |
| Exploration.ExploreStep | webscraper.py:261-271 | Otherwise the result is the links of the newly claimed URLs together with what exploring them one level deeper returns. |
| Exploration.ExploreWithinHops | webscraper.py:247-271 | Every returned link lies at most `maxDepth - depth` link steps from the frontier. |
| Exploration.OneLevel | webscraper.py:247-271 | One level below the limit, explore returns exactly the links of the unvisited frontier URLs. |
| Exploration.ClaimedLinksReturned | webscraper.py:261-271 | Every link of a claimed page is returned, seeds included. |
| Exploration.ExploreMarksOnlyFound | webscraper.py:251-256 | Only URLs that were given or returned are marked visited. |
| Scraper.Unvisited | webscraper.py:251-256 | The claimed list is duplicate-free and holds exactly the input URLs not yet visited. |
| Scraper.WebScraper.constructor | webscraper.py:207-212 | The scraper starts with no documents (line 212). Its `visited` field starts empty: it stands for the module-level `visited_urls` of line 105, which `__init__` does not touch. |
| Scraper.WebScraper.MarkVisited | webscraper.py:331-332 | `visited_urls.update` adds the URLs and keeps the fetch log valid. |
| Scraper.WebScraper.Claim | webscraper.py:251-256 | It returns exactly the unvisited input URLs, each once, in input order. Afterwards every input URL is visited and nothing is removed. |
| Scraper.WebScraper.FetchAndGetLinks | webscraper.py:242-245 | The links of one page: duplicate-free, and the page's edges in the link graph. |
| Scraper.WebScraper.FetchAll | webscraper.py:261-268 | The links gathered are the union over the claimed pages. Each claimed page is fetched once. |
| Scraper.WebScraper.Explore | webscraper.py:247-271 | Returns a duplicate-free list whose set, with the new visited set, is `Exploration.Explore`. At or past the depth limit, or with nothing to claim, it returns `[]` without fetching or marking. Every newly visited page is fetched exactly once, and no page twice. |
| Scraper.WebScraper.Scrape | webscraper.py:305-316 | Explores from the seeds, then scrapes `seeds ∪ discovered`, each URL once. It appends exactly the non-None results. |
| Scraper.ReadmitPrevious | webscraper.py:337-342 | Re-admits exactly the prior documents whose URL is a seed and that pass the filter, in prior order. |
| Scraper.Run | webscraper.py:324-344 | Output = scraped documents of `seeds ∪ discovered`, then the re-admitted prior documents. Exploration fetches no prior URL and no page twice. |
| Scraper.OutputUseful | webscraper.py:295-299 | Every saved document passes the filter and has a URL: the scraped ones are filtered here, the re-admitted ones at line 340. |
| Scraper.SeedUrlMayRepeat | webscraper.py:337-341 | A seed that `_scrape_url` turns into a document again (every seed is scraped, line 309) and that has a re-admitted prior document appears twice in the output, once in each part. |
| Scraper.ScrapedPartDistinct | webscraper.py:309-316 | Within the scraped part of the output no two documents share a URL: a repeated URL can only come from re-admission. |
| Corpus.ScrapeUrl | webscraper.py:273-303 | A scraped document passes the filter, carries its URL and has no "title" entry. Conversely, a non-empty page that extracts and whose cleaned document passes the filter is returned. |
| Corpus.ScrapedFromPage | webscraper.py:276-294 | A scraped document comes from non-empty, extractable html. Its "id" is the page title and its text the cleaned page text, already clean. |
| Corpus.ScrapeAll | webscraper.py:311-316 | At most as many documents as URLs, each the result of scraping one of the URLs. One document per URL holds only for a duplicate-free URL list (`Corpus.ScrapeAllDistinct`). |
| Corpus.ScrapeAllCollects | webscraper.py:313-316 | Every URL that yields a document contributes it. |
| Corpus.UsefulPageCollected | webscraper.py:276-316 | Every listed URL whose page is non-empty, extracts and whose cleaned document passes the filter has that document in the collected list. |
| Corpus.ScrapeAllUseful | webscraper.py:311-316 | Every collected document passes the filter and carries one of the URLs. |
| Corpus.ScrapeAllDistinct | webscraper.py:309-316 | Distinct URLs give documents with distinct URLs. |
| Corpus.UrlsOf | webscraper.py:149 | A URL is in the set exactly when some document carries it. |
| Corpus.LoadPrevious | webscraper.py:137-154 | The loaded documents are the first document per URL across all files in file order. The loaded URL set is their URLs. |
| Corpus.Flatten | webscraper.py:140-150 | The documents of the readable files, file after file; a missing or unreadable file contributes none. `Corpus.FlattenSnoc` is its one-file step, used by `Corpus.LoadPrevious`. |
| Corpus.DedupByUrl | webscraper.py:147-150 | Never longer than its input; keeps only input documents that have a URL. |
| Corpus.DedupDistinct | webscraper.py:148-150 | Every loaded document has a URL, and no two share one. |
| Corpus.DedupSameUrls | webscraper.py:148-150 | Deduplication loses no URL. |
| Corpus.DedupKeepsFirst | webscraper.py:147-150 | The first document with each URL is kept. |
| Corpus.DedupOnlyFirst | webscraper.py:147-150 | Only first documents are kept. |
| Corpus.Readmit | webscraper.py:340 | A prior document is re-admitted when its URL is a seed URL and it passes `is_useful_content`. |
| Corpus.Readmitted | webscraper.py:339-341 | A prior document is re-admitted exactly when its URL is a seed and it passes the filter. |
| Prompt.TitleOf | generate.py:7 | Uses the title when present, otherwise "Unknown Source". |
| Prompt.NatToString | generate.py:10 | The source number is written in decimal, without a leading zero. |
| Prompt.ParseNatToString | generate.py:10 | The number in a header reads back as the number written. |
| Prompt.Header | generate.py:10 | `--- Source {i+1}: {title} ---` and a newline. `Prompt.ParseNatToString` shows the number reads back. |
| Prompt.Block | generate.py:10-11 | A result's header, its chunk and a blank line. `Prompt.BlockAt` places it in the context. |
| Prompt.Context | generate.py:5-11 | No results give an empty context. |
| Prompt.BuildPrompt | generate.py:4-37 | The prompt is the template around the in-order concatenation of the numbered blocks. |
| Prompt.ContextPrefix | generate.py:5-11 | The context of the first k results is a prefix of the whole context. |
| Prompt.BlockAt | generate.py:6-11 | Result k's block (header, chunk, blank line) sits right after the blocks before it. |
| Prompt.Template | generate.py:12-36 | The instructions, then the context after "Context:\n", the query after "Question:\n" and the closing "Answer:". Its shape is `Prompt.PromptShape`. |
| Prompt.PromptShape | generate.py:12-36 | The prompt starts with the instructions. It has the context after "Context:\n" and the query verbatim after "Question:\n", and it ends with "Answer:". |

## Behaviour worth knowing

- **Seeds in explore's result.** `explore` returns every link of every claimed page (webscraper.py:266-271). A page that links back to a seed therefore puts the seed in the result (`Exploration.ClaimedLinksReturned`).
- **The title check.** `_scrape_url` stores the page title under "id" (webscraper.py:294), while `is_useful_content` reads "title" (webscraper.py:179). The title check therefore never rejects a freshly scraped page (`Quality.ScrapedTitleNeverChecked`).
- **Prior URLs are fetched when scraped.** The prior URLs only seed `visited_urls` (webscraper.py:331-332), so exploration never fetches them (`Scraper.Run`: no fetched page is a prior URL). The scrape phase scrapes every seed and every returned link (webscraper.py:309-316), prior URLs included, each in a new request (webscraper.py:275).
- **Duplicate URLs in one output.** The re-admission loop (webscraper.py:337-341) appends prior documents of seed URLs after the scraped ones. A seed that scrapes again and whose prior document is re-admitted appears twice (`Scraper.SeedUrlMayRepeat`); the scraped part alone has no repeated URL (`Scraper.ScrapedPartDistinct`).

## Left out

- Headless-browser fetching (`fetch_html`, `get_playwright_context`): a fetch is the total function `Env.fetchHtml`, where an error or timeout is "".
- BeautifulSoup parsing, tag removal, the title and main-region selection, `urljoin` and `urlparse`: these are the functions `Env.anchors`, `Env.netloc` and `Env.extract`. `extract` returning None stands only for an exception raised inside `_scrape_url`'s `try` (webscraper.py:279-303).
- Exceptions that escape: `get_playwright_context()` and `context.new_page()` run before `fetch_html`'s `try` (webscraper.py:117-118), and `get_subpage_links` has no `try` around `BeautifulSoup`, `urljoin` and `urlparse` (webscraper.py:218-226; `urlparse` raises `ValueError` on a URL such as `http://[x/`). `future.result()` re-raises them (webscraper.py:266 and 314), which aborts `explore`, `scrape` and the main program before `save_documents`. The `Env` functions are total, so every modelled run completes.
- Scraper.WebScraper.constructor: `visited` is a field of the scraper, while the source keeps one module-level `visited_urls` (webscraper.py:105) shared by every `WebScraper`. The two coincide for the single scraper the main program creates; a second scraper in the same process would start with the first one's visits in the source and with none here.
- Thread pools, `visited_lock` and `time.sleep`: both pools are sequential loops, and `max_workers` is not modelled.
- Scraper.WebScraper.Scrape: the order of `list(set(...))` and the pools' completion order are not modelled; the scrape order is the first-occurrence order of `Distinct`. Its documents are collected and appended after the loop rather than one by one, which is the same final list.
- Scraper.WebScraper.Explore: the list order of `list(set(...))` is first-occurrence order, so only the set of returned links is the source's.
- JSON reading and writing, `os.path.exists` and `save_documents`: the files arrive already parsed, with None for a missing or unreadable file. The output is returned, not written.
- A JSON `null` "url" is treated as a missing key. A non-string "text" or "title" is not modelled.
- Logging and the `reused` counter of the main program.
- The `SCRAPE_URLS_7` seed table: the seeds are a parameter. Only the values of the seed map matter.
- Text.Lower: lowercases ASCII letters only; Python's `lower` also maps non-ASCII letters.
- Quality.IsUsefulContent: the float comparison `b / n > 0.85` is the exact `20 * b > 17 * n`.
- Prompt.Instructions: the instruction paragraph of the template is an unspecified constant. Its wording has no bearing on the structure.
- Prompt.TitleOf: a present but `None` title, which Python would print as "None", is not modelled.
- `generate_answer` and the rest of `generate.py`, `run_leaderboard.py`, `run_test_set.py` and the retriever: model calls and drivers, not part of this model.
