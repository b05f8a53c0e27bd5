/**
 * What the crawler asks of the outside world, as total functions: the headless
 * browser, BeautifulSoup and urllib.parse are not modelled, only their results.
 */
module Web {
  import opened Wrappers

  /**
   * One `<a href>` of a page, resolved with `urljoin` and split with `urlparse`.
   * `netloc` here and `Env.netloc` below are independent stand-ins for
   * `urlparse(...).netloc`: no contract relies on `link.netloc == env.netloc(link.url)`.
   */
  datatype Link = Link(scheme: string, netloc: string, url: string)

  /** What `_scrape_url` reads from parsed HTML: the stripped `<title>` ("" if none) and the text of the main region. */
  datatype Page = Page(title: string, text: string)

  datatype Env = Env(
    /** `fetch_html(url)`: the rendered HTML, "" after an HTTP error, a timeout or a browser error. */
    fetchHtml: string -> string,
    /** `soup.find_all("a", href=True)` on the HTML, each resolved against the base URL. */
    anchors: (string, string) -> seq<Link>,
    /** `urlparse(url).netloc`. */
    netloc: string -> string,
    /** Parsing, tag removal, title and `get_text` inside `_scrape_url`'s `try`; None when that raises. */
    extract: string -> Option<Page>)
}
