/** The link filter `get_subpage_links` of webscraper.py. */
module Links {
  import opened Text
  import opened Seqs
  import opened Web

  /** A link whose lower-cased URL contains any of these is skipped (plain substring tests). */
  const SkipPatterns: seq<string> := ["#", "login", "signup", "cart", "search", ".pdf", ".jpg", ".png", ".gif", ".zip"]

  predicate WebScheme(link: Link)
  {
    link.scheme == "http" || link.scheme == "https"
  }

  /** The three tests a resolved link must pass to be kept. */
  predicate Keep(link: Link, baseNetloc: string, sameDomain: bool)
  {
    WebScheme(link)
    && (sameDomain ==> link.netloc == baseNetloc)
    && !ContainsAny(Lower(link.url), SkipPatterns)
  }

  /** Any URL with a fragment is skipped: the pattern "#" matches wherever it occurs. */
  lemma FragmentSkipped(link: Link, baseNetloc: string, sameDomain: bool)
    requires '#' in link.url
    ensures !Keep(link, baseNetloc, sameDomain)
  {
    var s := Lower(link.url);
    var i :| 0 <= i < |link.url| && link.url[i] == '#';
    assert s[i..i + 1] == [s[i]] == SkipPatterns[0];
    assert OccursAt(s, SkipPatterns[0], i);
  }

  /** The patterns are plain substrings: "search" also drops every URL that mentions "research". */
  lemma ResearchPageSkipped(link: Link, baseNetloc: string, sameDomain: bool)
    requires Contains(Lower(link.url), "research")
    ensures !Keep(link, baseNetloc, sameDomain)
  {
    var s := Lower(link.url);
    var i: nat :| OccursAt(s, "research", i);
    assert s[i + 2..i + 8] == s[i..i + 8][2..] == SkipPatterns[4];
    assert OccursAt(s, SkipPatterns[4], i + 2);
  }

  /** The URLs of the anchors that pass `Keep`. */
  function KeptOf(anchors: seq<Link>, baseNetloc: string, sameDomain: bool): (urls: set<string>)
    ensures forall u :: u in urls <==> exists a :: a in anchors && Keep(a, baseNetloc, sameDomain) && a.url == u
  {
    if anchors == [] then {}
    else
      var init, last := anchors[..|anchors| - 1], anchors[|anchors| - 1];
      assert anchors == init + [last];
      KeptOf(init, baseNetloc, sameDomain) + (if Keep(last, baseNetloc, sameDomain) then {last.url} else {})
  }

  /** The set of URLs `get_subpage_links` returns for a page: none for empty HTML. */
  function KeptUrls(html: string, anchors: seq<Link>, baseNetloc: string, sameDomain: bool): set<string>
  {
    if html == "" then {} else KeptOf(anchors, baseNetloc, sameDomain)
  }

  /** `get_subpage_links(html, base_url, same_domain)`. */
  method GetSubpageLinks(env: Env, html: string, baseUrl: string, sameDomain: bool) returns (links: seq<string>)
    ensures html == "" ==> links == []
    ensures NoDup(links)
    ensures Elems(links) == KeptUrls(html, env.anchors(html, baseUrl), env.netloc(baseUrl), sameDomain)
    ensures forall u :: u in links ==>
              exists a :: a in env.anchors(html, baseUrl) && a.url == u && WebScheme(a)
                          && (sameDomain ==> a.netloc == env.netloc(baseUrl))
                          && forall k :: 0 <= k < |SkipPatterns| ==> !Contains(Lower(u), SkipPatterns[k])
  {
    if html == "" {
      return [];
    }
    var anchors := env.anchors(html, baseUrl);
    var baseDomain := env.netloc(baseUrl);
    var found: seq<string> := [];
    for i := 0 to |anchors|
      invariant Elems(found) == KeptOf(anchors[..i], baseDomain, sameDomain)
    {
      var a := anchors[i];
      assert anchors[..i + 1][..i] == anchors[..i];
      if a.scheme != "http" && a.scheme != "https" {
        continue;
      }
      if sameDomain && a.netloc != baseDomain {
        continue;
      }
      if ContainsAny(Lower(a.url), SkipPatterns) {
        continue;
      }
      found := found + [a.url];
    }
    assert anchors[..|anchors|] == anchors;
    links := Distinct(found);
    forall u | u in links
      ensures exists a :: a in anchors && a.url == u && WebScheme(a)
                          && (sameDomain ==> a.netloc == baseDomain)
                          && forall k :: 0 <= k < |SkipPatterns| ==> !Contains(Lower(u), SkipPatterns[k])
    {
      assert u in Elems(links);
      var a :| a in anchors && Keep(a, baseDomain, sameDomain) && a.url == u;
    }
  }
}
