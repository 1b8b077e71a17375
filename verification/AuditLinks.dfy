/**
 The link audit's crawl (scripts/audit_links.py): a queue of paths, a cap on the pages
 visited and a cap on the paths tried of each shape. The site may be endless and may
 answer differently at every request.
 */
module AuditLinks {
  import opened Ascii
  import opened Wrappers
  import opened LinkShape

  const MAX_PAGES := 1200
  const SHAPE_CAP := 3

  /** A response: its status, whether an HTML document stops short, the actions of POST forms with no
      token, and its href values decoded and stripped. */
  datatype Page = Page(code: int, cutShort: bool, tokenless: seq<string>, hrefs: seq<string>)

  /** The answer to the n-th request, counted from 0. */
  type Site = (nat, string) -> Page

  /** A link's path, without its query or fragment. */
  function PathOf(href: string): string {
    var path := href[..Until(href, {'?', '#'})];
    if path == "" then "/" else path
  }

  /** A link this crawl is for: internal, not an asset, and not one that acts. */
  predicate Wanted(href: string, skip: string -> bool) {
    && StartsWith(href, "/") && !StartsWith(href, "//")
    && !StartsWith(PathOf(href), "/static/") && !StartsWith(PathOf(href), "/uploads/")
    && !skip(PathOf(href))
  }

  /** What the crawl knows of paths it has met. `queued` has every path ever put in the queue. */
  datatype Frontier = Frontier(
    queue: seq<string>, queued: set<string>, cameFrom: map<string, string>,
    shapes: map<string, nat>, sampled: map<string, nat>)

  /** collections.Counter. */
  function Tally(counter: map<string, nat>, k: string): nat {
    if k in counter then counter[k] else 0
  }

  function Counted(counter: map<string, nat>, k: string): map<string, nat> {
    counter[k := Tally(counter, k) + 1]
  }

  /** One link of a page. */
  function Consider(f: Frontier, seen: set<string>, skip: string -> bool, page: string, href: string): Frontier {
    var target := PathOf(href);
    if !Wanted(href, skip) || target in seen || target in f.queued then f
    else
      var k := ShapeOf(target);
      if Tally(f.shapes, k) >= SHAPE_CAP then f.(sampled := Counted(f.sampled, k))
      else
        Frontier(f.queue + [target], f.queued + {target},
                 if target in f.cameFrom then f.cameFrom else f.cameFrom[target := page],
                 Counted(f.shapes, k), f.sampled)
  }

  function ConsiderAll(f: Frontier, seen: set<string>, skip: string -> bool, page: string, hrefs: seq<string>): Frontier {
    if hrefs == [] then f
    else Consider(ConsiderAll(f, seen, skip, page, hrefs[..|hrefs| - 1]), seen, skip, page, hrefs[|hrefs| - 1])
  }

  /** The loop over a page's links. */
  method ScanLinks(start: Frontier, seen: set<string>, skip: string -> bool, page: string, hrefs: seq<string>)
    returns (f: Frontier)
    ensures f == ConsiderAll(start, seen, skip, page, hrefs)
  {
    f := start;
    for i := 0 to |hrefs|
      invariant f == ConsiderAll(start, seen, skip, page, hrefs[..i])
    {
      assert hrefs[..i + 1][..i] == hrefs[..i];
      var href := hrefs[i];
      if !StartsWith(href, "/") || StartsWith(href, "//") {
        continue;
      }
      var target := PathOf(href);
      if StartsWith(target, "/static/") || StartsWith(target, "/uploads/") {
        continue;
      }
      if skip(target) || target in seen || target in f.queued {
        continue;
      }
      var k := Shape(target);
      if Tally(f.shapes, k) >= SHAPE_CAP {
        f := f.(sampled := Counted(f.sampled, k));
        continue;
      }
      f := f.(shapes := Counted(f.shapes, k), queued := f.queued + {target});
      if target !in f.cameFrom {
        f := f.(cameFrom := f.cameFrom[target := page]);
      }
      f := f.(queue := f.queue + [target]);
    }
    assert hrefs[..|hrefs|] == hrefs;
  }

  // ---- what every link considered keeps ----

  function OfShape(paths: set<string>, k: string): set<string> {
    set p | p in paths && ShapeOf(p) == k
  }

  /** Every path met is waiting or visited, has a page it was found on, and counts towards its shape. */
  ghost predicate Consistent(f: Frontier, seen: set<string>) {
    && "/" in f.queued && seen <= f.queued
    && (forall p :: p in f.queued <==> p in seen || p in f.queue)
    && f.cameFrom.Keys == f.queued - {"/"}
    && (forall p | p in f.cameFrom :: f.cameFrom[p] in seen)
    && (forall k :: Tally(f.shapes, k) == |OfShape(f.queued - {"/"}, k)| <= SHAPE_CAP)
  }

  /** A path is on record: queued at some time, or one of a shape that has had its share, and counted. */
  predicate OnRecord(f: Frontier, target: string) {
    || target in f.queued
    || (Tally(f.shapes, ShapeOf(target)) == SHAPE_CAP && Tally(f.sampled, ShapeOf(target)) > 0)
  }

  lemma OneMoreOfShape(paths: set<string>, p: string, k: string)
    requires p !in paths
    ensures |OfShape(paths + {p}, k)| == |OfShape(paths, k)| + if ShapeOf(p) == k then 1 else 0
  {
    if ShapeOf(p) == k {
      assert OfShape(paths + {p}, k) == OfShape(paths, k) + {p};
    } else {
      assert OfShape(paths + {p}, k) == OfShape(paths, k);
    }
  }

  lemma EnqueueKeepsShapes(f: Frontier, f': Frontier, target: string)
    requires forall k :: Tally(f.shapes, k) == |OfShape(f.queued - {"/"}, k)| <= SHAPE_CAP
    requires target !in f.queued && "/" in f.queued && Tally(f.shapes, ShapeOf(target)) < SHAPE_CAP
    requires f'.queued == f.queued + {target} && f'.shapes == Counted(f.shapes, ShapeOf(target))
    ensures forall k :: Tally(f'.shapes, k) == |OfShape(f'.queued - {"/"}, k)| <= SHAPE_CAP
  {
    assert f'.queued - {"/"} == (f.queued - {"/"}) + {target};
    forall k ensures Tally(f'.shapes, k) == |OfShape(f'.queued - {"/"}, k)| <= SHAPE_CAP {
      OneMoreOfShape(f.queued - {"/"}, target, k);
    }
  }

  lemma ConsiderKeeps(f: Frontier, seen: set<string>, skip: string -> bool, page: string, href: string)
    requires Consistent(f, seen) && page in seen
    ensures Consistent(Consider(f, seen, skip, page, href), seen)
    ensures Wanted(href, skip) ==> OnRecord(Consider(f, seen, skip, page, href), PathOf(href))
  {
    var target, f' := PathOf(href), Consider(f, seen, skip, page, href);
    if f'.queued != f.queued {
      EnqueueKeepsShapes(f, f', target);
    }
  }

  /** Nothing on record is ever struck off. */
  lemma ConsiderGrows(f: Frontier, seen: set<string>, skip: string -> bool, page: string, href: string, t: string)
    requires OnRecord(f, t)
    ensures OnRecord(Consider(f, seen, skip, page, href), t)
  {
  }

  lemma {:induction false} ConsiderAllGrows(f: Frontier, seen: set<string>, skip: string -> bool, page: string,
                                            hrefs: seq<string>, t: string)
    requires OnRecord(f, t)
    ensures OnRecord(ConsiderAll(f, seen, skip, page, hrefs), t)
  {
    if hrefs != [] {
      var front := hrefs[..|hrefs| - 1];
      ConsiderAllGrows(f, seen, skip, page, front, t);
      ConsiderGrows(ConsiderAll(f, seen, skip, page, front), seen, skip, page, hrefs[|hrefs| - 1], t);
    }
  }

  lemma {:induction false} ConsiderAllKeeps(f: Frontier, seen: set<string>, skip: string -> bool, page: string,
                                            hrefs: seq<string>)
    requires Consistent(f, seen) && page in seen
    ensures Consistent(ConsiderAll(f, seen, skip, page, hrefs), seen)
    ensures forall h <- hrefs | Wanted(h, skip) :: OnRecord(ConsiderAll(f, seen, skip, page, hrefs), PathOf(h))
  {
    if hrefs != [] {
      var front, last := hrefs[..|hrefs| - 1], hrefs[|hrefs| - 1];
      var g := ConsiderAll(f, seen, skip, page, front);
      ConsiderAllKeeps(f, seen, skip, page, front);
      ConsiderKeeps(g, seen, skip, page, last);
      forall h <- hrefs | Wanted(h, skip) ensures OnRecord(ConsiderAll(f, seen, skip, page, hrefs), PathOf(h)) {
        if h != last {
          assert h in front;
          ConsiderGrows(g, seen, skip, page, last, PathOf(h));
        }
      }
    }
  }

  // ---- what `sampled` counts ----

  /** The paths of a page's wanted links, as often as they are linked. */
  function WantedPaths(hrefs: seq<string>, skip: string -> bool): seq<string> {
    if hrefs == [] then []
    else
      var last := hrefs[|hrefs| - 1];
      WantedPaths(hrefs[..|hrefs| - 1], skip) + if Wanted(last, skip) then [PathOf(last)] else []
  }

  lemma {:induction false} WantedPathsAreLinked(hrefs: seq<string>, skip: string -> bool, p: string)
    ensures p in WantedPaths(hrefs, skip) <==> exists h <- hrefs :: Wanted(h, skip) && PathOf(h) == p
  {
    if hrefs != [] {
      var front, last := hrefs[..|hrefs| - 1], hrefs[|hrefs| - 1];
      assert hrefs == front + [last];
      WantedPathsAreLinked(front, skip, p);
    }
  }

  /** Which links those are: a path under the site's root with anything after a '?' or '#'. It is followed
      unless it names an asset or something that acts. */
  lemma WhichLinksAreWanted(path: string, rest: string, skip: string -> bool)
    requires forall c <- path :: c != '?' && c != '#'
    requires rest == "" || rest[0] == '?' || rest[0] == '#'
    ensures PathOf(path + rest) == (if path == "" then "/" else path)
    ensures Wanted(path + rest, skip) <==>
            && 0 < |path| && path[0] == '/' && (1 < |path| ==> path[1] != '/')
            && !StartsWith(path, "/static/") && !StartsWith(path, "/uploads/") && !skip(path)
  {
    UntilStops(path, rest, {'?', '#'});
    if path != "" {
      assert (path + rest)[0] == path[0];
      if 1 < |path| {
        assert (path + rest)[1] == path[1];
      }
    }
  }

  /** What may be asked for: nothing but a page under the root, no asset, and nothing that acts. */
  lemma WantedPathsAreSafe(hrefs: seq<string>, skip: string -> bool, p: string)
    requires p in WantedPaths(hrefs, skip)
    ensures !skip(p) && p != "" && p[0] == '/' && !StartsWith(p, "/static/") && !StartsWith(p, "/uploads/")
  {
    WantedPathsAreLinked(hrefs, skip, p);
    var h :| h in hrefs && Wanted(h, skip) && PathOf(h) == p;
    assert h[0] == '/';
  }

  /** Those that never got into the queue. */
  function Refused(paths: seq<string>, queued: set<string>): seq<string> {
    if paths == [] then []
    else
      var last := paths[|paths| - 1];
      Refused(paths[..|paths| - 1], queued) + if last in queued then [] else [last]
  }

  function TimesOfShape(paths: seq<string>, k: string): nat {
    if paths == [] then 0
    else TimesOfShape(paths[..|paths| - 1], k) + if ShapeOf(paths[|paths| - 1]) == k then 1 else 0
  }

  /** Since `base`, the paths have been linked, and every link to one that is not queued was counted. */
  ghost predicate CountsRefusals(f: Frontier, base: map<string, nat>, paths: seq<string>) {
    && (forall t <- paths :: OnRecord(f, t))
    && forall k :: Tally(f.sampled, k) == Tally(base, k) + TimesOfShape(Refused(paths, f.queued), k)
  }

  lemma RefusedAppend(paths: seq<string>, t: string, queued: set<string>)
    ensures Refused(paths + [t], queued) == Refused(paths, queued) + if t in queued then [] else [t]
  {
    assert (paths + [t])[..|paths|] == paths;
  }

  lemma TimesAppend(paths: seq<string>, t: string, k: string)
    ensures TimesOfShape(paths + [t], k) == TimesOfShape(paths, k) + if ShapeOf(t) == k then 1 else 0
  {
    assert (paths + [t])[..|paths|] == paths;
  }

  /** Queueing a path nobody linked so far refuses nothing in hindsight. */
  lemma {:induction false} RefusedIgnores(paths: seq<string>, t: string, queued: set<string>)
    requires t !in paths
    ensures Refused(paths, queued + {t}) == Refused(paths, queued)
  {
    if paths != [] {
      RefusedIgnores(paths[..|paths| - 1], t, queued);
    }
  }

  lemma RefusedIsCounted(f: Frontier, f': Frontier, base: map<string, nat>, paths: seq<string>, t: string)
    requires CountsRefusals(f, base, paths) && t !in f.queued && OnRecord(f', t)
    requires f'.queued == f.queued && f'.shapes == f.shapes && f'.sampled == Counted(f.sampled, ShapeOf(t))
    ensures CountsRefusals(f', base, paths + [t])
  {
    RefusedAppend(paths, t, f.queued);
    var refused := Refused(paths, f.queued);
    assert Refused(paths + [t], f'.queued) == refused + [t];
    forall k ensures Tally(f'.sampled, k) == Tally(base, k) + TimesOfShape(refused + [t], k) {
      TimesAppend(refused, t, k);
    }
  }

  lemma QueuedIsNotCounted(f: Frontier, f': Frontier, base: map<string, nat>, paths: seq<string>, t: string)
    requires CountsRefusals(f, base, paths) && Tally(f.shapes, ShapeOf(t)) < SHAPE_CAP && t !in f.queued
    requires f'.queued == f.queued + {t} && f'.sampled == f.sampled
    requires forall u | OnRecord(f, u) :: OnRecord(f', u)
    ensures CountsRefusals(f', base, paths + [t])
  {
    assert !OnRecord(f, t);
    RefusedIgnores(paths, t, f.queued);
    RefusedAppend(paths, t, f'.queued);
    assert Refused(paths + [t], f'.queued) == Refused(paths, f.queued);
  }

  lemma ConsiderCounts(f: Frontier, seen: set<string>, skip: string -> bool, page: string, href: string,
                       base: map<string, nat>, paths: seq<string>)
    requires Consistent(f, seen) && page in seen && CountsRefusals(f, base, paths)
    ensures CountsRefusals(Consider(f, seen, skip, page, href), base,
                           paths + if Wanted(href, skip) then [PathOf(href)] else [])
  {
    var t, f' := PathOf(href), Consider(f, seen, skip, page, href);
    ConsiderKeeps(f, seen, skip, page, href);
    if !Wanted(href, skip) {
      assert paths + [] == paths;
    } else if t in f.queued {
      RefusedAppend(paths, t, f.queued);
      assert Refused(paths, f.queued) + [] == Refused(paths, f.queued);
    } else if Tally(f.shapes, ShapeOf(t)) >= SHAPE_CAP {
      RefusedIsCounted(f, f', base, paths, t);
    } else {
      forall u | OnRecord(f, u) ensures OnRecord(f', u) {
        ConsiderGrows(f, seen, skip, page, href, u);
      }
      QueuedIsNotCounted(f, f', base, paths, t);
    }
  }

  lemma {:induction false} ConsiderAllCounts(f: Frontier, seen: set<string>, skip: string -> bool, page: string,
                                             hrefs: seq<string>, base: map<string, nat>, paths: seq<string>)
    requires Consistent(f, seen) && page in seen && CountsRefusals(f, base, paths)
    ensures CountsRefusals(ConsiderAll(f, seen, skip, page, hrefs), base, paths + WantedPaths(hrefs, skip))
  {
    if hrefs == [] {
      assert paths + [] == paths;
    } else {
      var front, last := hrefs[..|hrefs| - 1], hrefs[|hrefs| - 1];
      ConsiderAllKeeps(f, seen, skip, page, front);
      ConsiderAllCounts(f, seen, skip, page, front, base, paths);
      ConsiderCounts(ConsiderAll(f, seen, skip, page, front), seen, skip, page, last, base,
                     paths + WantedPaths(front, skip));
      Regroup(paths, WantedPaths(front, skip), if Wanted(last, skip) then [PathOf(last)] else []);
    }
  }

  /** Over one page, each shape's count grows by the links to its refused paths, each link counted. */
  lemma SampledGrowsByRefusals(f: Frontier, seen: set<string>, skip: string -> bool, page: string, hrefs: seq<string>,
                               k: string)
    requires Consistent(f, seen) && page in seen
    ensures var f' := ConsiderAll(f, seen, skip, page, hrefs);
            Tally(f'.sampled, k)
            == Tally(f.sampled, k) + TimesOfShape(Refused(WantedPaths(hrefs, skip), f'.queued), k)
  {
    ConsiderAllCounts(f, seen, skip, page, hrefs, f.sampled, []);
    assert [] + WantedPaths(hrefs, skip) == WantedPaths(hrefs, skip);
  }

  // ---- the order paths are met in ----

  /** Of the links read so far, the paths the crawl takes up: each at its first link, and of each shape no
      more than its share. */
  function Taken(links: seq<string>): seq<string> {
    if links == [] then []
    else
      var before, t := Taken(links[..|links| - 1]), links[|links| - 1];
      if t == "/" || t in before || TimesOfShape(before, ShapeOf(t)) >= SHAPE_CAP then before else before + [t]
  }

  lemma TakenAppend(links: seq<string>, t: string)
    ensures Taken(links + [t])
         == if t == "/" || t in Taken(links) || TimesOfShape(Taken(links), ShapeOf(t)) >= SHAPE_CAP then Taken(links)
            else Taken(links) + [t]
  {
    assert (links + [t])[..|links|] == links;
  }

  /** Only links are taken up, each once. */
  lemma {:induction false} TakenAreLinks(links: seq<string>)
    ensures Distinct(Taken(links)) && "/" !in Taken(links)
    ensures forall t <- Taken(links) :: t in links
  {
    if links != [] {
      TakenAreLinks(links[..|links| - 1]);
    }
  }

  /** What was taken up stays, in its place. */
  lemma {:induction false} TakenKeeps(links: seq<string>, n: nat)
    requires n <= |links|
    ensures |Taken(links[..n])| <= |Taken(links)| && Taken(links)[..|Taken(links[..n])|] == Taken(links[..n])
  {
    if n == |links| {
      assert links[..n] == links;
    } else {
      var front := links[..|links| - 1];
      TakenKeeps(front, n);
      assert front[..n] == links[..n];
      assert Taken(links)[..|Taken(front)|] == Taken(front);
      assert Taken(links)[..|Taken(links[..n])|] == Taken(front)[..|Taken(links[..n])|];
    }
  }

  lemma {:induction false} OnlyItsShare(links: seq<string>, k: string)
    ensures TimesOfShape(Taken(links), k) <= SHAPE_CAP
  {
    if links != [] {
      var before, t := Taken(links[..|links| - 1]), links[|links| - 1];
      OnlyItsShare(links[..|links| - 1], k);
      TimesAppend(before, t, k);
    }
  }

  lemma {:induction false} TimesAdd(a: seq<string>, b: seq<string>, k: string)
    ensures TimesOfShape(a + b, k) == TimesOfShape(a, k) + TimesOfShape(b, k)
  {
    if b == [] {
      assert a + b == a;
    } else {
      assert (a + b)[..|a + b| - 1] == a + b[..|b| - 1];
      TimesAdd(a, b[..|b| - 1], k);
    }
  }

  lemma TakenOneMore(links: seq<string>, n: nat)
    requires n < |links|
    ensures var before, t := Taken(links[..n]), links[n];
            Taken(links[..n + 1]) == if t == "/" || t in before || TimesOfShape(before, ShapeOf(t)) >= SHAPE_CAP then before
                                     else before + [t]
  {
    TakenAppend(links[..n], links[n]);
    assert links[..n] + [links[n]] == links[..n + 1];
  }

  lemma TakenInItsTurn(links: seq<string>, n: nat, before: seq<string>, t: string)
    requires n < |links| && Taken(links[..n + 1]) == before + [t]
    ensures |before| < |Taken(links)| && Taken(links)[..|before| + 1] == before + [t]
  {
    TakenKeeps(links, n + 1);
  }

  lemma NotTakenAnyMore(links: seq<string>, n: nat, before: seq<string>, t: string)
    requires n <= |links| && before == Taken(links[..n])
    requires t !in before && TimesOfShape(before, ShapeOf(t)) >= SHAPE_CAP
    ensures t !in Taken(links)
  {
    var taken := Taken(links);
    TakenKeeps(links, n);
    OnlyItsShare(links, ShapeOf(t));
    assert taken == before + taken[|before|..];
    FullShapeTakesNoMore(before, taken[|before|..], t);
  }

  /** The n-th link, where it is the first to its path: the path is taken up exactly when fewer than its
      shape's share were taken up before, and then it comes right after those. */
  lemma TakenAtFirstLink(links: seq<string>, n: nat)
    requires n < |links| && links[n] !in links[..n] && links[n] != "/"
    ensures var before := Taken(links[..n]);
            if TimesOfShape(before, ShapeOf(links[n])) < SHAPE_CAP
            then |before| < |Taken(links)| && Taken(links)[..|before| + 1] == before + [links[n]]
            else links[n] !in Taken(links)
  {
    var t, before := links[n], Taken(links[..n]);
    TakenAreLinks(links[..n]);
    assert t !in before;
    TakenOneMore(links, n);
    if TimesOfShape(before, ShapeOf(t)) < SHAPE_CAP {
      TakenInItsTurn(links, n, before, t);
    } else {
      NotTakenAnyMore(links, n, before, t);
    }
  }

  lemma FullShapeTakesNoMore(before: seq<string>, rest: seq<string>, t: string)
    requires t !in before && TimesOfShape(before, ShapeOf(t)) >= SHAPE_CAP >= TimesOfShape(before + rest, ShapeOf(t))
    ensures t !in before + rest
  {
    TimesAdd(before, rest, ShapeOf(t));
    if t in rest {
      AtLeastOneOfShape(rest, t);
      assert false;
    }
  }

  lemma {:induction false} AtLeastOneOfShape(paths: seq<string>, t: string)
    requires t in paths
    ensures TimesOfShape(paths, ShapeOf(t)) > 0
  {
    if t != paths[|paths| - 1] {
      AtLeastOneOfShape(paths[..|paths| - 1], t);
    }
  }

  /** The queue stands in the order the links were read, after the pages already taken from it. */
  ghost predicate InLine(f: Frontier, done: seq<string>, links: seq<string>) {
    && done + f.queue == ["/"] + Taken(links)
    && (forall p :: p in f.queued <==> p == "/" || p in Taken(links))
    && forall k :: Tally(f.shapes, k) == TimesOfShape(Taken(links), k)
  }

  lemma EnqueueStaysInLine(f: Frontier, f': Frontier, done: seq<string>, links: seq<string>, t: string)
    requires InLine(f, done, links)
    requires Taken(links + [t]) == Taken(links) + [t]
    requires f'.queue == f.queue + [t] && f'.queued == f.queued + {t} && f'.shapes == Counted(f.shapes, ShapeOf(t))
    ensures InLine(f', done, links + [t])
  {
    Regroup(done, f.queue, [t]);
    Regroup(["/"], Taken(links), [t]);
    forall k ensures Tally(f'.shapes, k) == TimesOfShape(Taken(links) + [t], k) {
      TimesAppend(Taken(links), t, k);
    }
  }

  lemma PassedOverInLine(f: Frontier, f': Frontier, done: seq<string>, links: seq<string>, t: string)
    requires InLine(f, done, links) && Taken(links + [t]) == Taken(links)
    requires f'.queue == f.queue && f'.queued == f.queued && f'.shapes == f.shapes
    ensures InLine(f', done, links + [t])
  {
  }

  lemma ConsiderStaysInLine(f: Frontier, seen: set<string>, skip: string -> bool, page: string, href: string,
                            done: seq<string>, links: seq<string>)
    requires InLine(f, done, links) && seen <= f.queued
    ensures InLine(Consider(f, seen, skip, page, href), done,
                   links + if Wanted(href, skip) then [PathOf(href)] else [])
  {
    var t, f' := PathOf(href), Consider(f, seen, skip, page, href);
    if !Wanted(href, skip) {
      assert links + [] == links;
    } else {
      TakenAppend(links, t);
      assert t in f.queued <==> t == "/" || t in Taken(links);
      if t in f.queued || Tally(f.shapes, ShapeOf(t)) >= SHAPE_CAP {
        PassedOverInLine(f, f', done, links, t);
      } else {
        EnqueueStaysInLine(f, f', done, links, t);
      }
    }
  }

  lemma {:induction false} ConsiderAllInLine(f: Frontier, seen: set<string>, skip: string -> bool, page: string,
                                             hrefs: seq<string>, done: seq<string>, links: seq<string>)
    requires InLine(f, done, links) && Consistent(f, seen) && page in seen
    ensures InLine(ConsiderAll(f, seen, skip, page, hrefs), done, links + WantedPaths(hrefs, skip))
  {
    if hrefs == [] {
      assert links + [] == links;
    } else {
      var front, last := hrefs[..|hrefs| - 1], hrefs[|hrefs| - 1];
      ConsiderAllInLine(f, seen, skip, page, front, done, links);
      ConsiderAllKeeps(f, seen, skip, page, front);
      ConsiderStaysInLine(ConsiderAll(f, seen, skip, page, front), seen, skip, page, last, done,
                          links + WantedPaths(front, skip));
      Regroup(links, WantedPaths(front, skip), if Wanted(last, skip) then [PathOf(last)] else []);
    }
  }

  /** A page is named as the source of those of its wanted paths that nothing linked before, and of no other. */
  lemma {:induction false} ConsiderAllNames(f: Frontier, seen: set<string>, skip: string -> bool, page: string,
                                            hrefs: seq<string>, links: seq<string>, p: string)
    requires Consistent(f, seen) && page in seen && forall t <- links :: OnRecord(f, t)
    requires p in ConsiderAll(f, seen, skip, page, hrefs).cameFrom
    ensures var f' := ConsiderAll(f, seen, skip, page, hrefs);
            || (p in f.cameFrom && f'.cameFrom[p] == f.cameFrom[p])
            || (f'.cameFrom[p] == page && p in WantedPaths(hrefs, skip) && p !in links)
  {
    if hrefs != [] {
      var front := hrefs[..|hrefs| - 1];
      var g := ConsiderAll(f, seen, skip, page, front);
      ConsiderAllKeeps(f, seen, skip, page, front);
      if p in g.cameFrom {
        ConsiderAllNames(f, seen, skip, page, front, links, p);
      } else if p in links {
        ConsiderAllGrows(f, seen, skip, page, front, p);
        assert false;
      }
    }
  }

  // ---- the crawl ----

  /** The wanted links of every page that was scanned, in the order they were read. */
  function LinksRead(site: Site, skip: string -> bool, visits: seq<string>): seq<string> {
    if visits == [] then []
    else
      var n := |visits| - 1;
      var page := site(n, visits[n]);
      LinksRead(site, skip, visits[..n]) + if page.code == 200 then WantedPaths(page.hrefs, skip) else []
  }

  predicate Failed(code: int) {
    code >= 500 || code == 0
  }

  /** The visits that ended in a fault, in order. */
  function ErrorRows(site: Site, visits: seq<string>): seq<(int, string)> {
    if visits == [] then []
    else
      var n := |visits| - 1;
      var code := site(n, visits[n]).code;
      ErrorRows(site, visits[..n]) + if Failed(code) then [(code, visits[n])] else []
  }

  function DeadRows(site: Site, visits: seq<string>): seq<string> {
    if visits == [] then []
    else
      var n := |visits| - 1;
      DeadRows(site, visits[..n]) + if site(n, visits[n]).code == 404 then [visits[n]] else []
  }

  function CutRows(site: Site, visits: seq<string>): seq<string> {
    if visits == [] then []
    else
      var n := |visits| - 1;
      var page := site(n, visits[n]);
      CutRows(site, visits[..n]) + if page.code == 200 && page.cutShort then [visits[n]] else []
  }

  function TokenlessRows(site: Site, visits: seq<string>): seq<(string, string)> {
    if visits == [] then []
    else
      var n := |visits| - 1;
      var page := site(n, visits[n]);
      TokenlessRows(site, visits[..n])
      + if page.code == 200 then seq(|page.tokenless|, i requires 0 <= i < |page.tokenless| => (visits[n], page.tokenless[i]))
        else []
  }

  datatype Report = Report(
    errors: seq<(int, string)>, dead: seq<string>, truncated: seq<string>, tokenless: seq<(string, string)>)

  function ReportOf(site: Site, visits: seq<string>): Report {
    Report(ErrorRows(site, visits), DeadRows(site, visits), CutRows(site, visits), TokenlessRows(site, visits))
  }

  /** What the report says of the pages that failed and of the dead ones, and of no others. */
  lemma {:induction false} FaultsAreReported(site: Site, visits: seq<string>, code: int, path: string)
    ensures (code, path) in ReportOf(site, visits).errors <==>
            (code >= 500 || code == 0) && exists n :: 0 <= n < |visits| && visits[n] == path && site(n, path).code == code
    ensures path in ReportOf(site, visits).dead <==>
            exists n :: 0 <= n < |visits| && visits[n] == path && site(n, path).code == 404
  {
    if visits != [] {
      var m := |visits| - 1;
      FaultsAreReported(site, visits[..m], code, path);
      assert forall n :: 0 <= n < |visits| && visits[n] == path
                         <==> (0 <= n < m && visits[..m][n] == path) || (n == m && visits[m] == path);
    }
  }

  lemma FormsListed(page: string, forms: seq<string>, path: string, action: string)
    ensures var rows := seq(|forms|, i requires 0 <= i < |forms| => (page, forms[i]));
            (path, action) in rows <==> page == path && action in forms
  {
    var rows := seq(|forms|, i requires 0 <= i < |forms| => (page, forms[i]));
    if page == path && action in forms {
      var i :| 0 <= i < |forms| && forms[i] == action;
      assert rows[i] == (path, action);
    }
  }

  lemma LastTokenless(site: Site, visits: seq<string>, path: string, action: string)
    requires visits != []
    ensures var m := |visits| - 1;
            (path, action) in TokenlessRows(site, visits) <==>
            || (path, action) in TokenlessRows(site, visits[..m])
            || (visits[m] == path && site(m, path).code == 200 && action in site(m, path).tokenless)
  {
    var m := |visits| - 1;
    FormsListed(visits[m], site(m, visits[m]).tokenless, path, action);
  }

  /** And of what is wrong on a page that was answered: a document cut short. */
  lemma {:induction false} CutsAreReported(site: Site, visits: seq<string>, path: string)
    ensures path in ReportOf(site, visits).truncated <==>
            exists n :: 0 <= n < |visits| && visits[n] == path && site(n, path).code == 200 && site(n, path).cutShort
  {
    if visits != [] {
      var m := |visits| - 1;
      CutsAreReported(site, visits[..m], path);
      assert forall n :: 0 <= n < |visits| && visits[n] == path
                         <==> (0 <= n < m && visits[..m][n] == path) || (n == m && visits[m] == path);
    }
  }

  /** Or a form without its token. */
  lemma {:induction false} FormsAreReported(site: Site, visits: seq<string>, path: string, action: string)
    ensures (path, action) in ReportOf(site, visits).tokenless <==>
            exists n :: 0 <= n < |visits| && visits[n] == path && site(n, path).code == 200
                        && action in site(n, path).tokenless
  {
    if visits != [] {
      var m := |visits| - 1;
      FormsAreReported(site, visits[..m], path, action);
      LastTokenless(site, visits, path, action);
      assert forall n :: 0 <= n < |visits| && visits[n] == path
                         <==> (0 <= n < m && visits[..m][n] == path) || (n == m && visits[m] == path);
    }
  }

  /** Every wanted link of every page scanned so far is on record. */
  ghost predicate Covered(site: Site, skip: string -> bool, visits: seq<string>, f: Frontier) {
    forall i, h | 0 <= i < |visits| && site(i, visits[i]).code == 200
                  && h in site(i, visits[i]).hrefs && Wanted(h, skip) :: OnRecord(f, PathOf(h))
  }

  lemma OneMoreVisit(site: Site, visits: seq<string>, path: string)
    ensures var page := site(|visits|, path);
            var r := ReportOf(site, visits);
            ReportOf(site, visits + [path]) == Report(
              r.errors + (if Failed(page.code) then [(page.code, path)] else []),
              r.dead + (if page.code == 404 then [path] else []),
              r.truncated + (if page.code == 200 && page.cutShort then [path] else []),
              r.tokenless + (if page.code == 200
                then seq(|page.tokenless|, i requires 0 <= i < |page.tokenless| => (path, page.tokenless[i])) else []))
  {
    assert (visits + [path])[..|visits|] == visits;
  }

  lemma OneMorePageRead(site: Site, skip: string -> bool, visits: seq<string>, path: string)
    ensures var page := site(|visits|, path);
            LinksRead(site, skip, visits + [path])
            == LinksRead(site, skip, visits) + if page.code == 200 then WantedPaths(page.hrefs, skip) else []
  {
    assert (visits + [path])[..|visits|] == visits;
  }

  /** A visit to a page whose links are not read, or have been read into f'. */
  lemma VisitKeepsCovered(site: Site, skip: string -> bool, visits: seq<string>, path: string, f: Frontier, f': Frontier)
    requires Covered(site, skip, visits, f)
    requires forall t | OnRecord(f, t) :: OnRecord(f', t)
    requires site(|visits|, path).code == 200 ==>
               forall h <- site(|visits|, path).hrefs | Wanted(h, skip) :: OnRecord(f', PathOf(h))
    ensures Covered(site, skip, visits + [path], f')
  {
    var more := visits + [path];
    forall i, h | 0 <= i < |more| && site(i, more[i]).code == 200 && h in site(i, more[i]).hrefs && Wanted(h, skip)
      ensures OnRecord(f', PathOf(h))
    {
      if i < |visits| {
        assert more[i] == visits[i];
      }
    }
  }

  /** The n-th page visited was scanned, and is the first of them to link the path. */
  ghost predicate FirstLinkedOn(site: Site, skip: string -> bool, visits: seq<string>, n: int, p: string) {
    && 0 <= n < |visits| && site(n, visits[n]).code == 200
    && p in WantedPaths(site(n, visits[n]).hrefs, skip) && p !in LinksRead(site, skip, visits[..n])
  }

  ghost predicate Named(site: Site, skip: string -> bool, visits: seq<string>, cameFrom: map<string, string>) {
    forall p | p in cameFrom :: exists n :: FirstLinkedOn(site, skip, visits, n, p) && visits[n] == cameFrom[p]
  }

  lemma StillNamed(site: Site, skip: string -> bool, visits: seq<string>, path: string, n: int, p: string)
    requires FirstLinkedOn(site, skip, visits, n, p)
    ensures FirstLinkedOn(site, skip, visits + [path], n, p) && (visits + [path])[n] == visits[n]
  {
    assert (visits + [path])[..n] == visits[..n];
  }

  lemma OnlySafePathsAreNamed(site: Site, skip: string -> bool, visits: seq<string>, cameFrom: map<string, string>)
    requires Named(site, skip, visits, cameFrom)
    ensures forall p | p in cameFrom ::
              !skip(p) && p != "" && p[0] == '/' && !StartsWith(p, "/static/") && !StartsWith(p, "/uploads/")
  {
    forall p | p in cameFrom
      ensures !skip(p) && p != "" && p[0] == '/' && !StartsWith(p, "/static/") && !StartsWith(p, "/uploads/")
    {
      var n :| FirstLinkedOn(site, skip, visits, n, p) && visits[n] == cameFrom[p];
      WantedPathsAreSafe(site(n, visits[n]).hrefs, skip, p);
    }
  }

  /** A page whose links are not read names nothing. */
  lemma NotReadNamesNothing(site: Site, skip: string -> bool, visits: seq<string>, path: string,
                            cameFrom: map<string, string>)
    requires Named(site, skip, visits, cameFrom)
    ensures Named(site, skip, visits + [path], cameFrom)
  {
    forall p | p in cameFrom
      ensures exists n :: FirstLinkedOn(site, skip, visits + [path], n, p) && (visits + [path])[n] == cameFrom[p]
    {
      var n :| FirstLinkedOn(site, skip, visits, n, p) && visits[n] == cameFrom[p];
      StillNamed(site, skip, visits, path, n, p);
    }
  }

  lemma ReadNamesOne(site: Site, skip: string -> bool, visits: seq<string>, path: string, hrefs: seq<string>,
                     cameFrom: map<string, string>, p: string, from: string)
    requires Named(site, skip, visits, cameFrom)
    requires site(|visits|, path).code == 200 && hrefs == site(|visits|, path).hrefs
    requires || (p in cameFrom && from == cameFrom[p])
             || (from == path && p in WantedPaths(hrefs, skip) && p !in LinksRead(site, skip, visits))
    ensures exists n :: FirstLinkedOn(site, skip, visits + [path], n, p) && (visits + [path])[n] == from
  {
    if p in cameFrom && from == cameFrom[p] {
      var n :| FirstLinkedOn(site, skip, visits, n, p) && visits[n] == from;
      StillNamed(site, skip, visits, path, n, p);
    } else {
      assert (visits + [path])[..|visits|] == visits;
      assert FirstLinkedOn(site, skip, visits + [path], |visits|, p);
    }
  }

  lemma ReadNames(site: Site, skip: string -> bool, visits: seq<string>, path: string, f: Frontier, seen: set<string>)
    requires Consistent(f, seen) && path in seen && site(|visits|, path).code == 200
    requires Named(site, skip, visits, f.cameFrom) && forall t <- LinksRead(site, skip, visits) :: OnRecord(f, t)
    ensures Named(site, skip, visits + [path], ConsiderAll(f, seen, skip, path, site(|visits|, path).hrefs).cameFrom)
  {
    var hrefs := site(|visits|, path).hrefs;
    var cameFrom := ConsiderAll(f, seen, skip, path, hrefs).cameFrom;
    forall p | p in cameFrom
      ensures exists n :: FirstLinkedOn(site, skip, visits + [path], n, p) && (visits + [path])[n] == cameFrom[p]
    {
      ConsiderAllNames(f, seen, skip, path, hrefs, LinksRead(site, skip, visits), p);
      ReadNamesOne(site, skip, visits, path, hrefs, f.cameFrom, p, cameFrom[p]);
    }
  }

  /** What the crawl keeps: `read` are the pages it has read, `begun` those it has taken from the queue. */
  ghost predicate Underway(site: Site, skip: string -> bool, read: seq<string>, begun: seq<string>, f: Frontier,
                           seen: set<string>) {
    && Consistent(f, seen) && Covered(site, skip, read, f)
    && CountsRefusals(f, map[], LinksRead(site, skip, read))
    && InLine(f, begun, LinksRead(site, skip, read)) && Named(site, skip, read, f.cameFrom)
  }

  lemma PopConsistent(f: Frontier, seen: set<string>)
    requires Consistent(f, seen) && f.queue != []
    ensures Consistent(f.(queue := f.queue[1..]), seen + {f.queue[0]})
  {
    assert f.queue == [f.queue[0]] + f.queue[1..];
  }

  lemma PopKeeps(site: Site, skip: string -> bool, visits: seq<string>, f: Frontier, seen: set<string>)
    requires Underway(site, skip, visits, visits, f, seen) && f.queue != []
    ensures Underway(site, skip, visits, visits + [f.queue[0]], f.(queue := f.queue[1..]), seen + {f.queue[0]})
  {
    PopConsistent(f, seen);
    PopCovers(site, skip, visits, f);
    PopCounts(f, map[], LinksRead(site, skip, visits));
    assert visits + f.queue == (visits + [f.queue[0]]) + f.queue[1..];
  }

  /** A page whose links are not read. */
  lemma PageNotRead(site: Site, skip: string -> bool, visits: seq<string>, path: string, f: Frontier)
    requires Covered(site, skip, visits, f) && CountsRefusals(f, map[], LinksRead(site, skip, visits))
    ensures site(|visits|, path).code != 200 ==>
              && Covered(site, skip, visits + [path], f) && CountsRefusals(f, map[], LinksRead(site, skip, visits + [path]))
              && LinksRead(site, skip, visits + [path]) == LinksRead(site, skip, visits)
  {
    if site(|visits|, path).code != 200 {
      VisitKeepsCovered(site, skip, visits, path, f, f);
      OneMorePageRead(site, skip, visits, path);
      assert LinksRead(site, skip, visits) + [] == LinksRead(site, skip, visits);
    }
  }

  /** A page whose links are. */
  lemma PageRead(site: Site, skip: string -> bool, visits: seq<string>, path: string, f: Frontier, seen: set<string>)
    requires Consistent(f, seen) && path in seen && site(|visits|, path).code == 200
    requires Covered(site, skip, visits, f) && CountsRefusals(f, map[], LinksRead(site, skip, visits))
    ensures var f' := ConsiderAll(f, seen, skip, path, site(|visits|, path).hrefs);
            && Consistent(f', seen) && Covered(site, skip, visits + [path], f')
            && CountsRefusals(f', map[], LinksRead(site, skip, visits + [path]))
  {
    var hrefs := site(|visits|, path).hrefs;
    var f' := ConsiderAll(f, seen, skip, path, hrefs);
    ConsiderAllKeeps(f, seen, skip, path, hrefs);
    ConsiderAllCounts(f, seen, skip, path, hrefs, map[], LinksRead(site, skip, visits));
    OneMorePageRead(site, skip, visits, path);
    forall t | OnRecord(f, t) ensures OnRecord(f', t) {
      ConsiderAllGrows(f, seen, skip, path, hrefs, t);
    }
    VisitKeepsCovered(site, skip, visits, path, f, f');
  }

  /** One page taken from the queue: what is visited, and what its links leave. */
  method Visit(site: Site, skip: string -> bool, path: string, f: Frontier, seen: set<string>, report: Report,
               ghost visits: seq<string>, pages: nat)
    returns (f': Frontier, report': Report)
    requires pages == |visits| && path in seen
    requires Underway(site, skip, visits, visits + [path], f, seen) && report == ReportOf(site, visits)
    ensures Underway(site, skip, visits + [path], visits + [path], f', seen) && report' == ReportOf(site, visits + [path])
  {
    var page := site(pages, path);
    f', report' := f, report;
    OneMoreVisit(site, visits, path);
    PageNotRead(site, skip, visits, path, f);
    NotReadNamesNothing(site, skip, visits, path, f.cameFrom);
    if Failed(page.code) {
      report' := report'.(errors := report'.errors + [(page.code, path)]);
      return;
    }
    if page.code == 404 {
      report' := report'.(dead := report'.dead + [path]);
      return;
    }
    if page.code != 200 {
      return;
    }
    if page.cutShort {
      report' := report'.(truncated := report'.truncated + [path]);
    }
    var forms := seq(|page.tokenless|, i requires 0 <= i < |page.tokenless| => (path, page.tokenless[i]));
    report' := report'.(tokenless := report'.tokenless + forms);
    f' := ScanLinks(f, seen, skip, path, page.hrefs);
    PageRead(site, skip, visits, path, f, seen);
    ReadNames(site, skip, visits, path, f, seen);
    OneMorePageRead(site, skip, visits, path);
    ConsiderAllInLine(f, seen, skip, path, page.hrefs, visits + [path], LinksRead(site, skip, visits));
  }

  function PathSet(paths: seq<string>): set<string> {
    set p <- paths
  }

  /** What the report owes a link: visited, left for want of pages, or one of a shape that has had its
      share, which `sampled` mentions. */
  ghost predicate Accounted(seen: set<string>, left: seq<string>, sampled: map<string, nat>, target: string) {
    || target in seen || target in left
    || (Tally(sampled, ShapeOf(target)) > 0 && |OfShape(seen + PathSet(left) - {"/"}, ShapeOf(target))| == SHAPE_CAP)
  }

  ghost predicate EveryLinkAccounted(site: Site, skip: string -> bool, visits: seq<string>,
                                     seen: set<string>, left: seq<string>, sampled: map<string, nat>) {
    forall i, h | 0 <= i < |visits| && site(i, visits[i]).code == 200
                  && h in site(i, visits[i]).hrefs && Wanted(h, skip) :: Accounted(seen, left, sampled, PathOf(h))
  }

  /** `sampled` says, of each shape, how many links were read to paths that were neither visited nor left. */
  ghost predicate SampledByLink(site: Site, skip: string -> bool, visits: seq<string>, met: set<string>,
                                sampled: map<string, nat>) {
    forall k :: Tally(sampled, k) == TimesOfShape(Refused(LinksRead(site, skip, visits), met), k)
  }

  /** No page twice, and no shape more than its share. */
  ghost predicate Visited(visits: seq<string>, seen: set<string>, pages: nat) {
    Distinct(visits) && seen == PathSet(visits) && pages == |visits| == |seen| <= MAX_PAGES
  }

  method Crawl(site: Site, skip: string -> bool)
    returns (pages: nat, report: Report, seen: set<string>, left: seq<string>, sampled: map<string, nat>,
             cameFrom: map<string, string>, ghost visits: seq<string>)
    ensures Visited(visits, seen, pages) && "/" in seen && report == ReportOf(site, visits)
    ensures forall k :: |OfShape(seen - {"/"}, k)| <= |OfShape(seen + PathSet(left) - {"/"}, k)| <= SHAPE_CAP
    ensures left != [] ==> pages == MAX_PAGES
    ensures Distinct(left) && PathSet(left) !! seen
    ensures EveryLinkAccounted(site, skip, visits, seen, left, sampled)
    ensures SampledByLink(site, skip, visits, seen + PathSet(left), sampled)
    ensures visits + left == ["/"] + Taken(LinksRead(site, skip, visits))
    ensures forall p | p in seen + PathSet(left) - {"/"} ::
              !skip(p) && p != "" && p[0] == '/' && !StartsWith(p, "/static/") && !StartsWith(p, "/uploads/")
    ensures cameFrom.Keys == seen + PathSet(left) - {"/"} && Named(site, skip, visits, cameFrom)
  {
    seen, pages, visits := {}, 0, [];
    report := Report([], [], [], []);
    var f := Frontier(["/"], {"/"}, map[], map[], map[]);
    StartConsistent();
    while f.queue != [] && |seen| < MAX_PAGES
      invariant Underway(site, skip, visits, visits, f, seen)
      invariant Visited(visits, seen, pages)
      invariant report == ReportOf(site, visits)
      invariant pages > 0 ==> "/" in seen
      invariant pages == 0 ==> f.queue == ["/"]
      decreases MAX_PAGES - |seen|, |f.queue|
    {
      var path := f.queue[0];
      PopKeeps(site, skip, visits, f, seen);
      f := f.(queue := f.queue[1..]);
      if path in seen {
        NeverTwice(visits, path, f.queue, LinksRead(site, skip, visits));
        assert false;
        continue;
      }
      VisitedOneMore(visits, seen, pages, path);
      seen := seen + {path};
      f, report := Visit(site, skip, path, f, seen, report, visits, pages);
      pages := pages + 1;
      visits := visits + [path];
    }
    NoneTwice(visits, f.queue, LinksRead(site, skip, visits));
    left := Remaining(f.queue, seen);
    sampled, cameFrom := f.sampled, f.cameFrom;
    Settled(site, skip, visits, f, seen, left);
    OnlySafePathsAreNamed(site, skip, visits, cameFrom);
  }

  /** The pages visited and the queue together hold nothing twice. */
  lemma NoneTwice(done: seq<string>, queue: seq<string>, links: seq<string>)
    requires done + queue == ["/"] + Taken(links)
    ensures Distinct(queue) && forall p <- queue :: p !in done
  {
    TakenAreLinks(links);
    assert Distinct(done + queue);
    forall i, j | 0 <= i < |queue| && 0 <= j < |done| ensures queue[i] != done[j] {
      assert (done + queue)[|done| + i] == queue[i] && (done + queue)[j] == done[j];
    }
    forall i, j | 0 <= i < j < |queue| ensures queue[i] != queue[j] {
      assert (done + queue)[|done| + i] == queue[i] && (done + queue)[|done| + j] == queue[j];
    }
  }

  lemma NeverTwice(done: seq<string>, path: string, rest: seq<string>, links: seq<string>)
    requires (done + [path]) + rest == ["/"] + Taken(links)
    ensures path !in PathSet(done)
  {
    assert done + ([path] + rest) == (done + [path]) + rest;
    NoneTwice(done, [path] + rest, links);
    assert ([path] + rest)[0] == path;
  }

  lemma PopCovers(site: Site, skip: string -> bool, visits: seq<string>, f: Frontier)
    requires Covered(site, skip, visits, f) && f.queue != []
    ensures Covered(site, skip, visits, f.(queue := f.queue[1..]))
  {
    var g := f.(queue := f.queue[1..]);
    forall i, h | 0 <= i < |visits| && site(i, visits[i]).code == 200 && h in site(i, visits[i]).hrefs && Wanted(h, skip)
      ensures OnRecord(g, PathOf(h))
    {
      assert OnRecord(f, PathOf(h));
    }
  }

  lemma PopCounts(f: Frontier, base: map<string, nat>, paths: seq<string>)
    requires CountsRefusals(f, base, paths) && f.queue != []
    ensures CountsRefusals(f.(queue := f.queue[1..]), base, paths)
  {
    forall t <- paths ensures OnRecord(f.(queue := f.queue[1..]), t) {
      assert OnRecord(f, t);
    }
  }

  lemma VisitedOneMore(visits: seq<string>, seen: set<string>, pages: nat, path: string)
    requires Visited(visits, seen, pages) && path !in seen && pages < MAX_PAGES
    ensures Visited(visits + [path], seen + {path}, pages + 1)
  {
    assert PathSet(visits + [path]) == PathSet(visits) + {path};
    assert forall p <- visits :: p in PathSet(visits);
  }

  lemma StartConsistent()
    ensures Consistent(Frontier(["/"], {"/"}, map[], map[], map[]), {})
  {
    assert {"/"} - {"/"} == {};
    forall k ensures OfShape({"/"} - {"/"}, k) == {} {
    }
  }

  /** dict.fromkeys over the queue, without what was visited. */
  method Remaining(queue: seq<string>, seen: set<string>) returns (left: seq<string>)
    ensures Distinct(left) && PathSet(left) == PathSet(queue) - seen
    ensures Distinct(queue) && (forall p <- queue :: p !in seen) ==> left == queue
  {
    left := [];
    for i := 0 to |queue|
      invariant Distinct(left) && PathSet(left) == PathSet(queue[..i]) - seen
      invariant Distinct(queue) && (forall p <- queue :: p !in seen) ==> left == queue[..i]
    {
      PathSetGrows(queue[..i], queue[i]);
      assert queue[..i + 1] == queue[..i] + [queue[i]];
      if queue[i] !in seen && queue[i] !in left {
        PathSetGrows(left, queue[i]);
        assert forall p <- left :: p != queue[i];
        left := left + [queue[i]];
      } else if queue[i] in left {
        assert queue[i] in PathSet(left);
      }
    }
    assert queue[..|queue|] == queue;
  }

  lemma PathSetGrows(paths: seq<string>, p: string)
    ensures PathSet(paths + [p]) == PathSet(paths) + {p}
  {
  }

  /** What is on record once the crawl is over. */
  lemma Settled(site: Site, skip: string -> bool, visits: seq<string>, f: Frontier, seen: set<string>, left: seq<string>)
    requires Consistent(f, seen) && Covered(site, skip, visits, f)
    requires PathSet(left) == PathSet(f.queue) - seen
    ensures f.queued == seen + PathSet(left)
    ensures forall k :: |OfShape(seen - {"/"}, k)| <= |OfShape(seen + PathSet(left) - {"/"}, k)| <= SHAPE_CAP
    ensures EveryLinkAccounted(site, skip, visits, seen, left, f.sampled)
    ensures f.queue == [] ==> left == []
  {
    assert forall p :: p in f.queue <==> p in PathSet(f.queue);
    assert forall p :: p in left <==> p in PathSet(left);
    assert f.queued == seen + PathSet(left);
    forall k ensures |OfShape(seen - {"/"}, k)| <= |OfShape(f.queued - {"/"}, k)| <= SHAPE_CAP {
      SubsetCard(OfShape(seen - {"/"}, k), OfShape(f.queued - {"/"}, k));
    }
    forall i, h | 0 <= i < |visits| && site(i, visits[i]).code == 200 && h in site(i, visits[i]).hrefs && Wanted(h, skip)
      ensures Accounted(seen, left, f.sampled, PathOf(h))
    {
      assert OnRecord(f, PathOf(h));
    }
    if left != [] {
      assert left[0] in PathSet(left);
    }
  }
}
