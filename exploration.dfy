/**
 * What `explore` in webscraper.py computes, as sets: the links found at every
 * depth below the limit, and the visited set afterwards. The imperative
 * `WebScraper.Explore` is proved to compute exactly this, with `graph` the
 * links `_fetch_and_get_links` finds on each page.
 */
module Exploration {
  import opened Web
  import opened Links

  /** The links `_fetch_and_get_links(url)` returns, as a set (same-domain filtering on). */
  function LinksOf(env: Env, url: string): set<string>
  {
    var html := env.fetchHtml(url);
    KeptUrls(html, env.anchors(html, url), env.netloc(url), true)
  }

  /** The page-to-links relation of a web: all the exploration depends on. */
  function Graph(env: Env): (graph: string -> set<string>)
    ensures forall url :: graph(url) == LinksOf(env, url)
  {
    url => LinksOf(env, url)
  }

  /** The links found on the pages of all of `urls`. */
  ghost function LinksOfAll(graph: string -> set<string>, urls: set<string>): set<string>
  {
    set u, l | u in urls && l in graph(u) :: l
  }

  /**
   * `explore(frontier, depth)` started with `visited` as the visited set: the
   * links it returns and the visited set it leaves. Below the depth limit it
   * claims the frontier URLs not yet visited, stops if there are none, and
   * otherwise returns their links together with what exploring those links
   * one level deeper returns.
   */
  ghost function Explore(graph: string -> set<string>, frontier: set<string>, visited: set<string>, depth: nat, maxDepth: nat)
    : (res: (set<string>, set<string>))
    ensures visited <= res.1
    ensures depth < maxDepth ==> frontier <= res.1
    decreases if depth < maxDepth then maxDepth - depth else 0
  {
    if depth >= maxDepth then ({}, visited)
    else
      var claimed := frontier - visited;
      if claimed == {} then
        assert frontier <= visited by {
          forall x | x in frontier ensures x in visited { assert x !in claimed; }
        }
        ({}, visited)
      else
        var found := LinksOfAll(graph, claimed);
        var deeper := Explore(graph, found, visited + frontier, depth + 1, maxDepth);
        (found + deeper.0, deeper.1)
  }

  /** Below the limit, a frontier that is all visited claims nothing and changes nothing. */
  lemma NothingClaimed(graph: string -> set<string>, frontier: set<string>, visited: set<string>, depth: nat, maxDepth: nat)
    requires frontier <= visited
    ensures Explore(graph, frontier, visited, depth, maxDepth) == ({}, visited)
  {
    assert frontier - visited == {};
  }

  /** Below the limit, a frontier with an unvisited URL goes one level deeper. */
  lemma ExploreStep(graph: string -> set<string>, frontier: set<string>, visited: set<string>, depth: nat, maxDepth: nat, u: string)
    requires depth < maxDepth && u in frontier && u !in visited
    ensures var found := LinksOfAll(graph, frontier - visited);
            var deeper := Explore(graph, found, visited + frontier, depth + 1, maxDepth);
            Explore(graph, frontier, visited, depth, maxDepth) == (found + deeper.0, deeper.1)
  {
    assert u in frontier - visited;
  }

  /** The URLs reachable from `urls` in one to `hops` link steps. */
  ghost function WithinHops(graph: string -> set<string>, urls: set<string>, hops: nat): set<string>
    decreases hops
  {
    if hops == 0 then {}
    else
      var next := LinksOfAll(graph, urls);
      next + WithinHops(graph, next, hops - 1)
  }

  lemma LinksOfAllMonotone(graph: string -> set<string>, a: set<string>, b: set<string>)
    requires a <= b
    ensures LinksOfAll(graph, a) <= LinksOfAll(graph, b)
  {
  }

  lemma {:induction false} WithinHopsMonotone(graph: string -> set<string>, a: set<string>, b: set<string>, hops: nat)
    requires a <= b
    ensures WithinHops(graph, a, hops) <= WithinHops(graph, b, hops)
    decreases hops
  {
    if hops > 0 {
      var la, lb := LinksOfAll(graph, a), LinksOfAll(graph, b);
      LinksOfAllMonotone(graph, a, b);
      WithinHopsMonotone(graph, la, lb, hops - 1);
    }
  }

  /**
   * Depth bound: every link `explore` returns lies at most `maxDepth - depth`
   * link steps from the frontier; nothing from a deeper hop is present.
   */
  lemma {:induction false} ExploreWithinHops(graph: string -> set<string>, frontier: set<string>, visited: set<string>, depth: nat, maxDepth: nat)
    requires depth <= maxDepth
    ensures Explore(graph, frontier, visited, depth, maxDepth).0 <= WithinHops(graph, frontier, maxDepth - depth)
    decreases maxDepth - depth
  {
    if depth < maxDepth {
      var claimed := frontier - visited;
      if claimed != {} {
        var found := LinksOfAll(graph, claimed);
        var all := LinksOfAll(graph, frontier);
        LinksOfAllMonotone(graph, claimed, frontier);
        ExploreWithinHops(graph, found, visited + frontier, depth + 1, maxDepth);
        WithinHopsMonotone(graph, found, all, maxDepth - depth - 1);
      }
    }
  }

  /**
   * One level below the limit, `explore` returns exactly the links of the
   * frontier URLs not yet visited.
   */
  lemma OneLevel(graph: string -> set<string>, frontier: set<string>, visited: set<string>, depth: nat, maxDepth: nat)
    requires depth + 1 == maxDepth
    ensures Explore(graph, frontier, visited, depth, maxDepth).0 == LinksOfAll(graph, frontier - visited)
  {
    if frontier - visited == {} {
      assert LinksOfAll(graph, {}) == {};
    }
  }

  /**
   * Every link of a URL claimed below the limit is returned, even one leading
   * back to a seed: the seeds are not excluded from the result.
   */
  lemma ClaimedLinksReturned(graph: string -> set<string>, frontier: set<string>, visited: set<string>, depth: nat, maxDepth: nat, u: string)
    requires depth < maxDepth && u in frontier && u !in visited
    ensures graph(u) <= Explore(graph, frontier, visited, depth, maxDepth).0
  {
  }

  /**
   * `explore` marks as visited only URLs it was given or returns, on top of
   * those already visited.
   */
  lemma {:induction false} ExploreMarksOnlyFound(graph: string -> set<string>, frontier: set<string>, visited: set<string>, depth: nat, maxDepth: nat)
    ensures Explore(graph, frontier, visited, depth, maxDepth).1
            <= visited + frontier + Explore(graph, frontier, visited, depth, maxDepth).0
    decreases if depth < maxDepth then maxDepth - depth else 0
  {
    if depth < maxDepth {
      var claimed := frontier - visited;
      if claimed != {} {
        ExploreMarksOnlyFound(graph, LinksOfAll(graph, claimed), visited + frontier, depth + 1, maxDepth);
      }
    }
  }
}
