/**
 What the crawl's count of sampled paths is a count of. It grows with every link to a
 refused path, so it is the number of refused paths exactly when no scanned page links
 one of them again.
 */
module AuditSampling {
  import opened Ascii
  import opened Wrappers
  import opened LinkShape
  import opened AuditLinks

  lemma {:induction false} RefusedPaths(paths: seq<string>, met: set<string>)
    ensures PathSet(Refused(paths, met)) == PathSet(paths) - met
  {
    if paths != [] {
      var front, last := paths[..|paths| - 1], paths[|paths| - 1];
      RefusedPaths(front, met);
      assert paths == front + [last];
      PathSetGrows(front, last);
      PathSetGrows(Refused(front, met), last);
      RefusedAppend(front, last, met);
      assert Refused(front, met) + [] == Refused(front, met);
      if last in met {
        assert PathSet(front) + {last} - met == PathSet(front) - met;
      } else {
        assert PathSet(front) + {last} - met == PathSet(front) - met + {last};
      }
    }
  }

  lemma {:induction false} RefusedTimes(paths: seq<string>, met: set<string>, t: string)
    ensures multiset(Refused(paths, met))[t] == if t in met then 0 else multiset(paths)[t]
  {
    if paths != [] {
      RefusedTimes(paths[..|paths| - 1], met, t);
      assert paths == paths[..|paths| - 1] + [paths[|paths| - 1]];
    }
  }

  lemma {:induction false} TimesAgainstPaths(paths: seq<string>, k: string)
    ensures |OfShape(PathSet(paths), k)| <= TimesOfShape(paths, k)
    ensures |OfShape(PathSet(paths), k)| == TimesOfShape(paths, k)
       <==> forall t | ShapeOf(t) == k :: multiset(paths)[t] <= 1
  {
    if paths == [] {
      assert OfShape(PathSet(paths), k) == {};
    } else {
      var front, last := paths[..|paths| - 1], paths[|paths| - 1];
      TimesAgainstPaths(front, k);
      assert paths == front + [last];
      PathSetGrows(front, last);
      OneMorePath(PathSet(front), last, k);
      assert last in front <==> multiset(front)[last] > 0;
    }
  }

  lemma OneMorePath(paths: set<string>, p: string, k: string)
    ensures |OfShape(paths + {p}, k)| == |OfShape(paths, k)| + if ShapeOf(p) == k && p !in paths then 1 else 0
  {
    if p in paths {
      assert paths + {p} == paths;
    } else {
      OneMoreOfShape(paths, p, k);
    }
  }

  /** The distinct paths of a shape that pages linked and the crawl never took up. */
  function RefusedOfShape(site: Site, skip: string -> bool, visits: seq<string>, met: set<string>, k: string): set<string> {
    OfShape(PathSet(LinksRead(site, skip, visits)) - met, k)
  }

  /** For a crawl's result: a shape's count is never below the number of its refused paths, and is that
      number if and only if no scanned page, and no two of them, link one of those paths twice. */
  lemma SampledIsPathsWhenNoneIsLinkedTwice(site: Site, skip: string -> bool, visits: seq<string>, met: set<string>,
                                            sampled: map<string, nat>, k: string)
    requires SampledByLink(site, skip, visits, met, sampled)
    ensures |RefusedOfShape(site, skip, visits, met, k)| <= Tally(sampled, k)
    ensures |RefusedOfShape(site, skip, visits, met, k)| == Tally(sampled, k)
       <==> forall t | ShapeOf(t) == k && t !in met :: multiset(LinksRead(site, skip, visits))[t] <= 1
  {
    var links := LinksRead(site, skip, visits);
    RefusedPaths(links, met);
    forall t ensures multiset(Refused(links, met))[t] == if t in met then 0 else multiset(links)[t] {
      RefusedTimes(links, met, t);
    }
    TimesAgainstPaths(Refused(links, met), k);
  }

  // ---- a site on which they agree ----

  /** No page links a wanted path twice, and no two pages link one. */
  ghost predicate LinksOnce(site: Site, skip: string -> bool) {
    && (forall n, p, t | site(n, p).code == 200 :: multiset(WantedPaths(site(n, p).hrefs, skip))[t] <= 1)
    && (forall m, p, n, q | site(m, p).code == 200 && site(n, q).code == 200 && p != q ::
          PathSet(WantedPaths(site(m, p).hrefs, skip)) !! PathSet(WantedPaths(site(n, q).hrefs, skip)))
  }

  lemma {:induction false} ReadFromAPage(site: Site, skip: string -> bool, visits: seq<string>, t: string)
    requires t in LinksRead(site, skip, visits)
    ensures exists i | 0 <= i < |visits| ::
              site(i, visits[i]).code == 200 && t in WantedPaths(site(i, visits[i]).hrefs, skip)
  {
    var n := |visits| - 1;
    if t in LinksRead(site, skip, visits[..n]) {
      ReadFromAPage(site, skip, visits[..n], t);
      var i :| 0 <= i < n && site(i, visits[..n][i]).code == 200 && t in WantedPaths(site(i, visits[..n][i]).hrefs, skip);
      assert visits[..n][i] == visits[i];
    }
  }

  lemma {:induction false} EveryLinkReadOnce(site: Site, skip: string -> bool, visits: seq<string>, t: string)
    requires LinksOnce(site, skip) && Distinct(visits)
    ensures multiset(LinksRead(site, skip, visits))[t] <= 1
  {
    if visits != [] {
      var n := |visits| - 1;
      var earlier, page := LinksRead(site, skip, visits[..n]), site(n, visits[n]);
      EveryLinkReadOnce(site, skip, visits[..n], t);
      if page.code == 200 && t in earlier && t in WantedPaths(page.hrefs, skip) {
        ReadFromAPage(site, skip, visits[..n], t);
        var i :| 0 <= i < n && site(i, visits[..n][i]).code == 200 && t in WantedPaths(site(i, visits[..n][i]).hrefs, skip);
        NoSharedLink(site, skip, i, visits[i], n, visits[n], t);
      }
    }
  }

  lemma NoSharedLink(site: Site, skip: string -> bool, m: nat, p: string, n: nat, q: string, t: string)
    requires LinksOnce(site, skip) && site(m, p).code == 200 && site(n, q).code == 200 && p != q
    ensures !(t in WantedPaths(site(m, p).hrefs, skip) && t in WantedPaths(site(n, q).hrefs, skip))
  {
    assert t in WantedPaths(site(m, p).hrefs, skip) ==> t in PathSet(WantedPaths(site(m, p).hrefs, skip));
    assert t in WantedPaths(site(n, q).hrefs, skip) ==> t in PathSet(WantedPaths(site(n, q).hrefs, skip));
  }

  /** On a site that links every wanted path at most once, `sampled` counts paths, whatever is crawled. */
  lemma SampledIsPathsWhereLinksAreUnique(site: Site, skip: string -> bool, visits: seq<string>, met: set<string>,
                                          sampled: map<string, nat>, k: string)
    requires LinksOnce(site, skip) && Distinct(visits) && SampledByLink(site, skip, visits, met, sampled)
    ensures Tally(sampled, k) == |RefusedOfShape(site, skip, visits, met, k)|
  {
    SampledIsPathsWhenNoneIsLinkedTwice(site, skip, visits, met, sampled, k);
    forall t ensures multiset(LinksRead(site, skip, visits))[t] <= 1 {
      EveryLinkReadOnce(site, skip, visits, t);
    }
  }

  // ---- a site on which they differ ----

  const ITEMS := ["/p/1", "/p/2", "/p/3", "/p/4"]

  /** Every page lists the four items twice, say as picture and as title. */
  function ItemSite(): Site {
    (n: nat, path: string) => Page(200, false, [], ITEMS + ITEMS)
  }

  function NoSkips(): string -> bool {
    (path: string) => false
  }

  lemma ItemIsPath(d: char)
    requires '1' <= d <= '4'
    ensures var href := "/p/" + [d];
            Wanted(href, NoSkips()) && PathOf(href) == href && href != "/"
  {
    var href := "/p/" + [d];
    assert forall c <- href :: c !in {'?', '#'};
    UntilStops(href, "", {'?', '#'});
    assert href + "" == href;
    assert href[0] == '/' && href[1] == 'p';
    assert "/static/"[1] == 's' && "/uploads/"[1] == 'u' && "//"[1] == '/';
  }

  lemma ItemText(d: char)
    ensures "/p/" + [d] == "" + ("/" + ("p" + ("/" + [d])))
  {
  }

  lemma ItemSplits(d: char)
    requires '1' <= d <= '4'
    ensures Split("/p/" + [d]) == ["", "p", [d]]
  {
    ItemText(d);
    SplitFirst("", "p" + ("/" + [d]));
    SplitFirst("p", [d]);
    SplitWhole([d]);
  }

  lemma BlankedItem(d: char)
    requires AllDigits([d])
    ensures Join(Blanked(["", "p", [d]])) == "/p/:id"
  {
    assert 'p' in "p" && !AllDigits("p");
    assert Blanked(["", "p", [d]]) == ["", "p", ":id"];
    assert ["", "p", ":id"][1..] == ["p", ":id"] && ["p", ":id"][1..] == [":id"];
    assert Join(["p", ":id"]) == "p" + ("/" + ":id");
  }

  lemma ItemsAreWanted(i: nat)
    requires i < 4
    ensures Wanted(ITEMS[i], NoSkips()) && PathOf(ITEMS[i]) == ITEMS[i] && ShapeOf(ITEMS[i]) == "/p/:id" && ITEMS[i] != "/"
  {
    var d := ['1', '2', '3', '4'][i];
    assert ITEMS[i] == "/p/" + [d];
    ItemIsPath(d);
    ItemSplits(d);
    assert d in [d] && AllDigits([d]);
    BlankedItem(d);
  }

  lemma {:induction false} AllWanted(hrefs: seq<string>)
    requires forall h <- hrefs :: h in ITEMS
    ensures WantedPaths(hrefs, NoSkips()) == hrefs
  {
    if hrefs != [] {
      var front, last := hrefs[..|hrefs| - 1], hrefs[|hrefs| - 1];
      AllWanted(front);
      assert last in hrefs;
      var i :| 0 <= i < 4 && ITEMS[i] == last;
      ItemsAreWanted(i);
      assert hrefs == front + [last];
    }
  }

  lemma {:induction false} EveryPageLinksTwice(visits: seq<string>, t: string)
    requires t in ITEMS
    ensures multiset(LinksRead(ItemSite(), NoSkips(), visits))[t] >= 2 * |visits|
  {
    if visits != [] {
      var n := |visits| - 1;
      EveryPageLinksTwice(visits[..n], t);
      AllWanted(ITEMS + ITEMS);
      assert multiset(ITEMS)[t] >= 1;
    }
  }

  lemma ItemsDiffer(i: nat, j: nat)
    requires i < 4 && j < 4 && i != j
    ensures ITEMS[i] != ITEMS[j]
  {
    assert ITEMS[i][3] == ['1', '2', '3', '4'][i] && ITEMS[j][3] == ['1', '2', '3', '4'][j];
  }

  lemma {:induction false} FirstItems(n: nat)
    requires n <= 4
    ensures |PathSet(ITEMS[..n])| == n
  {
    if n > 0 {
      var front, last := ITEMS[..n - 1], ITEMS[n - 1];
      FirstItems(n - 1);
      assert ITEMS[..n] == front + [last];
      PathSetGrows(front, last);
      forall i | 0 <= i < |front| ensures front[i] != last {
        ItemsDiffer(i, n - 1);
      }
    }
  }

  /** Four items, three places. */
  lemma OneItemIsRefused(met: set<string>) returns (t: string)
    requires |OfShape(met - {"/"}, "/p/:id")| <= SHAPE_CAP
    ensures t in ITEMS && t !in met && ShapeOf(t) == "/p/:id"
  {
    var items := PathSet(ITEMS);
    FirstItems(4);
    assert ITEMS[..4] == ITEMS;
    forall p | p in items ensures ShapeOf(p) == "/p/:id" && p != "/" {
      var i :| 0 <= i < 4 && ITEMS[i] == p;
      ItemsAreWanted(i);
    }
    if items <= met {
      assert items <= OfShape(met - {"/"}, "/p/:id");
      SubsetCard(items, OfShape(met - {"/"}, "/p/:id"));
      assert false;
    }
    t :| t in items && t !in met;
  }

  /** Whatever such a crawl visited and met. */
  lemma ItemsAreCountedTwice(visits: seq<string>, met: set<string>, sampled: map<string, nat>)
    requires visits != [] && |OfShape(met - {"/"}, "/p/:id")| <= SHAPE_CAP
    requires SampledByLink(ItemSite(), NoSkips(), visits, met, sampled)
    ensures |RefusedOfShape(ItemSite(), NoSkips(), visits, met, "/p/:id")| < Tally(sampled, "/p/:id")
  {
    var t := OneItemIsRefused(met);
    SampledIsPathsWhenNoneIsLinkedTwice(ItemSite(), NoSkips(), visits, met, sampled, "/p/:id");
    EveryPageLinksTwice(visits, t);
  }

  /** Crawling that site, whatever is visited, counts more sampled items than there are. */
  method CrawlItems() returns (sampled: map<string, nat>, ghost visits: seq<string>, ghost met: set<string>)
    ensures SampledByLink(ItemSite(), NoSkips(), visits, met, sampled)
    ensures |RefusedOfShape(ItemSite(), NoSkips(), visits, met, "/p/:id")| < Tally(sampled, "/p/:id")
  {
    var pages, report, seen, left, cameFrom;
    pages, report, seen, left, sampled, cameFrom, visits := Crawl(ItemSite(), NoSkips());
    met := seen + PathSet(left);
    ItemsAreCountedTwice(visits, met, sampled);
  }
}
