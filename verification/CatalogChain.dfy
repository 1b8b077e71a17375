/**
 Several metadata sources presented as one (internal/catalogchain/chain.go): ids packed
 with the source they came from, and lookups that take the first source that will do.
 */
module CatalogChain {
  import opened Wrappers
  import opened TitleScore

  const ID_STRIDE := 1_000_000_000_000
  const MIN_SIMILARITY := 0.6
  const MAX_INT64 := 0x7fff_ffff_ffff_ffff

  datatype Entry = Entry(title: string)

  /** What a source answers. None stands for an error or "not found"; `finder`, `resolver` and
      `searcher` are capabilities it may lack. */
  datatype Source = Source(
    domain: string,
    index: Option<map<string, int>>,
    normalize: string -> string,
    fetch: int -> Option<Entry>,
    finder: Option<string -> Option<int>>,
    resolver: Option<(string, string) -> Option<int>>,
    searcher: Option<string -> Option<Entry>>)

  datatype Chain = Chain(domain: string, sources: seq<Source>, minSim: real)

  // ---- ids ----

  function Encode(sourceIndex: nat, local: int): Option<int> {
    if local < 0 || local >= ID_STRIDE then None else Some(sourceIndex * ID_STRIDE + local)
  }

  function Decode(id: int, n: nat): Option<(nat, int)> {
    if id < 0 then None
    else
      var i := id / ID_STRIDE;
      if i >= n then None else Some((i, id % ID_STRIDE))
  }

  /** Packing loses nothing: what one source's ids become is read back as that source's, and by no
      other pair. */
  lemma IdsRoundTrip(i: nat, local: int, n: nat)
    requires i < n && Encode(i, local).Some?
    ensures Decode(Encode(i, local).value, n) == Some((i, local))
  {
    var id := i * ID_STRIDE + local;
    assert id / ID_STRIDE == i && id % ID_STRIDE == local;
  }

  lemma DecodedIdsRoundTrip(id: int, n: nat)
    ensures Decode(id, n).Some? ==>
              var (i, local) := Decode(id, n).value; i < n && Encode(i, local) == Some(id)
    ensures Decode(id, n).Some? <==> 0 <= id < n * ID_STRIDE
  {
  }

  lemma IdsAreDistinct(i: nat, a: int, j: nat, b: int)
    requires Encode(i, a).Some? && Encode(j, b).Some?
    ensures Encode(i, a) == Encode(j, b) <==> i == j && a == b
  {
    IdsRoundTrip(i, a, i + j + 1);
    IdsRoundTrip(j, b, i + j + 1);
  }

  /** No id overflows until the chain has over nine million sources. */
  lemma IdsFit(i: nat, local: int)
    requires Encode(i, local).Some? && i <= 9_223_371
    ensures 0 <= Encode(i, local).value <= MAX_INT64
  {
    assert i * ID_STRIDE <= 9_223_371 * ID_STRIDE;
  }

  // ---- building a chain ----

  /** The configured sources, in order. */
  function Configured(named: map<string, Source>, order: seq<string>): seq<Source> {
    if order == [] then []
    else
      var front, name := Configured(named, order[..|order| - 1]), order[|order| - 1];
      if name in named then front + [named[name]] else front
  }

  lemma {:induction false} ConfiguredAppend(named: map<string, Source>, a: seq<string>, b: seq<string>)
    ensures Configured(named, a + b) == Configured(named, a) + Configured(named, b)
  {
    if b == [] {
      assert a + b == a;
    } else {
      var front := b[..|b| - 1];
      assert (a + b)[..|a + b| - 1] == a + front;
      ConfiguredAppend(named, a, front);
    }
  }

  /** Each name in its place: the source it is configured as, or nothing. */
  lemma ConfiguredIs(named: map<string, Source>, before: seq<string>, name: string, after: seq<string>)
    ensures Configured(named, []) == []
    ensures Configured(named, before + [name] + after)
         == Configured(named, before) + (if name in named then [named[name]] else []) + Configured(named, after)
  {
    ConfiguredAppend(named, before + [name], after);
    ConfiguredAppend(named, before, [name]);
    assert [name][..0] == [] && Configured(named, [name]) == if name in named then [] + [named[name]] else [];
  }

  ghost predicate OneDomain(sources: seq<Source>) {
    forall s <- sources :: s.domain == sources[0].domain
  }

  /** Err names the source that serves another domain; Ok(None) is a chain with nothing in it. */
  method New(named: map<string, Source>, order: seq<string>) returns (r: Result<Option<Chain>, string>)
    ensures r.Ok? <==> OneDomain(Configured(named, order))
    ensures r.Ok? ==> (r.value.None? <==> Configured(named, order) == [])
    ensures r.Ok? && r.value.Some? ==>
              r.value.value == Chain(Configured(named, order)[0].domain, Configured(named, order), 0.0)
    ensures r.Err? ==> r.error in named && named[r.error] in Configured(named, order)
                       && named[r.error].domain != Configured(named, order)[0].domain
  {
    var sources: seq<Source> := [];
    var domain := "";
    for k := 0 to |order|
      invariant sources == Configured(named, order[..k]) && OneDomain(sources)
      invariant sources != [] ==> domain == sources[0].domain
    {
      assert order[..k + 1][..k] == order[..k];
      if order[k] !in named {
        continue;
      }
      var src := named[order[k]];
      if |sources| == 0 {
        domain := src.domain;
      } else if src.domain != domain {
        ConfiguredGrows(named, order, k + 1);
        assert src in Configured(named, order[..k + 1]);
        return Err(order[k]);
      }
      sources := sources + [src];
    }
    assert order[..|order|] == order;
    if |sources| == 0 {
      return Ok(None);
    }
    return Ok(Some(Chain(domain, sources, 0.0)));
  }

  lemma {:induction false} ConfiguredGrows(named: map<string, Source>, order: seq<string>, k: nat)
    requires k <= |order|
    ensures Configured(named, order[..k]) <= Configured(named, order)
    decreases |order| - k
  {
    if k == |order| {
      assert order[..k] == order;
    } else {
      assert order[..k + 1][..k] == order[..k];
      ConfiguredGrows(named, order, k + 1);
    }
  }

  // ---- the merged index ----

  predicate Offers(src: Source, title: string) {
    src.index.Some? && title in src.index.value && Encode(0, src.index.value[title]).Some?
  }

  /** The first source whose index can be read and holds the title under an id that fits. */
  function Earliest(sources: seq<Source>, title: string, n: nat): (r: Option<nat>)
    requires n <= |sources|
    ensures r.None? ==> forall j | 0 <= j < n :: !Offers(sources[j], title)
    ensures r.Some? ==> r.value < n && Offers(sources[r.value], title)
                        && forall j | 0 <= j < r.value :: !Offers(sources[j], title)
  {
    if n == 0 then None
    else
      var before := Earliest(sources, title, n - 1);
      if before.Some? then before else if Offers(sources[n - 1], title) then Some(n - 1) else None
  }

  function Lookup(index: map<string, int>, title: string): Option<int> {
    if title in index then Some(index[title]) else None
  }

  /** The id a title should have after the first n sources. */
  function Owned(sources: seq<Source>, title: string, n: nat): Option<int>
    requires n <= |sources|
  {
    var i := Earliest(sources, title, n);
    if i.None? then None else Encode(i.value, sources[i.value].index.value[title])
  }

  ghost predicate Merged(out: map<string, int>, sources: seq<Source>, n: nat)
    requires n <= |sources|
  {
    forall t :: Lookup(out, t) == Owned(sources, t, n)
  }

  /** The inner loop, over one source's index in whatever order the map gives. */
  method MergeOne(i: nat, idx: map<string, int>, out: map<string, int>) returns (merged: map<string, int>)
    ensures forall t :: Lookup(merged, t) == if t in out then Some(out[t]) else if t in idx then Encode(i, idx[t]) else None
  {
    merged := out;
    var todo := idx.Keys;
    while todo != {}
      invariant todo <= idx.Keys
      invariant forall t :: Lookup(merged, t) ==
                  if t in out then Some(out[t]) else if t in idx && t !in todo then Encode(i, idx[t]) else None
      decreases |todo|
    {
      ghost var any := SomeMember(todo);
      var title :| title in todo;
      ghost var before := merged;
      if title !in merged && Encode(i, idx[title]).Some? {
        merged := merged[title := Encode(i, idx[title]).value];
      }
      assert forall t :: t != title ==> Lookup(merged, t) == Lookup(before, t);
      assert Lookup(before, title) == if title in out then Some(out[title]) else None;
      todo := todo - {title};
    }
  }

  lemma OneMoreSource(sources: seq<Source>, n: nat, out: map<string, int>, merged: map<string, int>, t: string)
    requires n < |sources| && Lookup(out, t) == Owned(sources, t, n)
    requires var index := sources[n].index;
             Lookup(merged, t) == if t in out then Some(out[t])
                                  else if index.Some? && t in index.value then Encode(n, index.value[t]) else None
    ensures Lookup(merged, t) == Owned(sources, t, n + 1)
  {
  }

  lemma MergedOneMore(sources: seq<Source>, n: nat, out: map<string, int>, merged: map<string, int>)
    requires n < |sources| && Merged(out, sources, n)
    requires var index := sources[n].index;
             forall t :: Lookup(merged, t) ==
               if t in out then Some(out[t])
               else if index.Some? && t in index.value then Encode(n, index.value[t]) else None
    ensures Merged(merged, sources, n + 1)
  {
    forall t ensures Lookup(merged, t) == Owned(sources, t, n + 1) {
      OneMoreSource(sources, n, out, merged, t);
    }
  }

  method TitleIndex(c: Chain) returns (out: map<string, int>)
    ensures Merged(out, c.sources, |c.sources|)
  {
    out := map[];
    for i := 0 to |c.sources|
      invariant Merged(out, c.sources, i)
    {
      var before := out;
      if c.sources[i].index.Some? {
        out := MergeOne(i, c.sources[i].index.value, out);
      }
      MergedOneMore(c.sources, i, before, out);
    }
  }

  // ---- does the earlier source win? ----

  predicate Holds(src: Source, title: string) {
    src.index.Some? && title in src.index.value
  }

  /** The first source whose index can be read and holds the title, whatever the id. */
  ghost predicate FirstHolder(sources: seq<Source>, title: string, i: nat) {
    i < |sources| && Holds(sources[i], title) && forall j | 0 <= j < i :: !Holds(sources[j], title)
  }

  /** The merged index takes a title from the first source that holds it if and only if that source's id
      fits the stride. If it does not, the title goes to a later source or is lost. */
  lemma EarlierSourceWinsWhenItsIdFits(c: Chain, out: map<string, int>, title: string, i: nat)
    requires Merged(out, c.sources, |c.sources|) && FirstHolder(c.sources, title, i)
    ensures var local := c.sources[i].index.value[title];
            && ((title in out && exists l :: Decode(out[title], |c.sources|) == Some((i, l)))
                <==> 0 <= local < ID_STRIDE)
            && (0 <= local < ID_STRIDE ==> title in out && Decode(out[title], |c.sources|) == Some((i, local)))
            && (!(0 <= local < ID_STRIDE) && title in out ==>
                  Decode(out[title], |c.sources|).Some? && Decode(out[title], |c.sources|).value.0 > i)
  {
    var n := |c.sources|;
    assert Lookup(out, title) == Owned(c.sources, title, n);
    var owner := Earliest(c.sources, title, n);
    forall j | 0 <= j < i ensures !Offers(c.sources[j], title) {
      assert !Holds(c.sources[j], title);
    }
    if owner.Some? {
      IdsRoundTrip(owner.value, c.sources[owner.value].index.value[title], n);
    }
  }

  /** Two sources know the title, the first under an id that does not fit: the second one has it. */
  lemma LaterSourceCanWin(first: Source, second: Source, title: string, local: int, out: map<string, int>)
    requires first.index == Some(map[title := ID_STRIDE]) && second.index == Some(map[title := local])
    requires 0 <= local < ID_STRIDE && Merged(out, [first, second], 2)
    ensures FirstHolder([first, second], title, 0)
    ensures title in out && Decode(out[title], 2) == Some((1, local))
  {
    var sources := [first, second];
    assert Lookup(out, title) == Owned(sources, title, 2);
    assert Offers(sources[1], title) && !Offers(sources[0], title);
    IdsRoundTrip(1, local, 2);
  }

  // ---- lookups ----

  function Fetch(c: Chain, id: int): Option<Entry> {
    var at := Decode(id, |c.sources|);
    if at.None? then None else c.sources[at.value.0].fetch(at.value.1)
  }

  function AskOne(src: Source, raw: string): Option<int> {
    if src.finder.Some? then src.finder.value(raw)
    else if src.index.None? then None
    else
      var title := src.normalize(raw);
      if title in src.index.value then Some(src.index.value[title]) else None
  }

  function Threshold(c: Chain): real {
    if c.minSim > 0.0 then c.minSim else MIN_SIMILARITY
  }

  predicate Confirms(c: Chain, src: Source, local: int, raw: string) {
    var entry := src.fetch(local);
    entry.Some? && Similarity(entry.value.title, raw) >= Threshold(c)
  }

  /** A source answered, under an id that fits, and the entry is confirmed. */
  predicate Answers(c: Chain, src: Source, raw: string) {
    var local := AskOne(src, raw);
    local.Some? && Encode(0, local.value).Some? && Confirms(c, src, local.value, raw)
  }

  /** A source's own matcher speaks for it; one without a matcher is asked by its index, under its own
      normal form of the title. */
  predicate Gives(src: Source, raw: string, local: int) {
    if src.finder.Some? then src.finder.value(raw) == Some(local)
    else src.index.Some? && src.normalize(raw) in src.index.value && src.index.value[src.normalize(raw)] == local
  }

  /** Close enough: a bar of six tenths, unless the chain has been given its own. */
  predicate Close(c: Chain, title: string, raw: string) {
    Similarity(title, raw) >= if c.minSim > 0.0 then c.minSim else 0.6
  }

  /** What it takes to be found by title: an id below the stride, an entry that can be fetched, and a title
      close enough to the one asked for. */
  lemma WhatItTakesToAnswer(c: Chain, src: Source, raw: string)
    ensures Answers(c, src, raw) <==>
            exists local, entry ::
              && Gives(src, raw, local) && 0 <= local < 1_000_000_000_000
              && src.fetch(local) == Some(entry) && Close(c, entry.title, raw)
  {
    if Answers(c, src, raw) {
      var local := AskOne(src, raw).value;
      assert Gives(src, raw, local) && src.fetch(local) == Some(src.fetch(local).value);
    }
  }

  method FindByTitle(c: Chain, raw: string) returns (id: Option<int>)
    ensures id.None? <==> forall src <- c.sources :: !Answers(c, src, raw)
    ensures id.Some? ==> exists i: nat | i < |c.sources| ::
              && Answers(c, c.sources[i], raw) && (forall j | 0 <= j < i :: !Answers(c, c.sources[j], raw))
              && id == Encode(i, AskOne(c.sources[i], raw).value)
  {
    for i := 0 to |c.sources|
      invariant forall j | 0 <= j < i :: !Answers(c, c.sources[j], raw)
    {
      var src := c.sources[i];
      var local := AskOne(src, raw);
      if local.None? {
        continue;
      }
      var enc := Encode(i, local.value);
      if enc.None? {
        continue;
      }
      var entry := src.fetch(local.value);
      if entry.None? {
        continue;
      }
      var score := Similar(entry.value.title, raw);
      if score < Threshold(c) {
        continue;
      }
      assert Answers(c, src, raw);
      return enc;
    }
    return None;
  }

  predicate Resolves(src: Source, namespace: string, value: string) {
    && src.resolver.Some? && src.resolver.value(namespace, value).Some?
    && Encode(0, src.resolver.value(namespace, value).value).Some?
  }

  method ResolveExternalID(c: Chain, namespace: string, value: string) returns (id: Option<int>)
    ensures id.None? <==> forall src <- c.sources :: !Resolves(src, namespace, value)
    ensures id.Some? ==> exists i: nat | i < |c.sources| ::
              && Resolves(c.sources[i], namespace, value)
              && (forall j | 0 <= j < i :: !Resolves(c.sources[j], namespace, value))
              && id == Encode(i, c.sources[i].resolver.value(namespace, value).value)
  {
    for i := 0 to |c.sources|
      invariant forall j | 0 <= j < i :: !Resolves(c.sources[j], namespace, value)
    {
      var src := c.sources[i];
      if src.resolver.None? {
        continue;
      }
      var local := src.resolver.value(namespace, value);
      if local.None? {
        continue;
      }
      var enc := Encode(i, local.value);
      if enc.Some? {
        assert Resolves(src, namespace, value);
        return enc;
      }
    }
    return None;
  }

  /** What one source gives to Search: its own search if it has one, else its confirmed candidate. */
  function Found(c: Chain, src: Source, query: string): Option<Entry> {
    if src.searcher.Some? then src.searcher.value(query)
    else
      var local := AskOne(src, query);
      if local.Some? && Confirms(c, src, local.value, query) then src.fetch(local.value) else None
  }

  /** What it takes to be found by a search: a source that searches is taken at its word, and any other is
      asked as by title, its entry fetched and its title compared; the id need not fit the stride. */
  lemma WhatItTakesToBeFound(c: Chain, src: Source, query: string, entry: Entry)
    ensures Found(c, src, query) == Some(entry) <==>
            if src.searcher.Some? then src.searcher.value(query) == Some(entry)
            else Close(c, entry.title, query) && exists local :: Gives(src, query, local) && src.fetch(local) == Some(entry)
  {
    if src.searcher.None? && AskOne(src, query).Some? {
      assert Gives(src, query, AskOne(src, query).value);
    }
  }

  method Search(c: Chain, query: string) returns (entry: Option<Entry>)
    ensures entry.None? <==> forall src <- c.sources :: Found(c, src, query).None?
    ensures entry.Some? ==> exists i: nat | i < |c.sources| ::
              entry == Found(c, c.sources[i], query) && forall j | 0 <= j < i :: Found(c, c.sources[j], query).None?
  {
    for i := 0 to |c.sources|
      invariant forall j | 0 <= j < i :: Found(c, c.sources[j], query).None?
    {
      var src := c.sources[i];
      if src.searcher.Some? {
        var answer := src.searcher.value(query);
        if answer.Some? {
          assert answer == Found(c, src, query);
          return answer;
        }
        continue;
      }
      var local := AskOne(src, query);
      if local.Some? {
        var candidate := src.fetch(local.value);
        if candidate.Some? {
          var score := Similar(candidate.value.title, query);
          if score >= Threshold(c) {
            assert candidate == Found(c, src, query);
            return candidate;
          }
        }
      }
    }
    return None;
  }

  // ---- what the ids are for ----

  /** Every id the merged index hands out leads back to the entry its source holds under it. */
  lemma IndexedIdsFetch(c: Chain, out: map<string, int>, title: string)
    requires Merged(out, c.sources, |c.sources|) && title in out
    ensures var i := Earliest(c.sources, title, |c.sources|);
            && i.Some?
            && var local := c.sources[i.value].index.value[title];
            && Decode(out[title], |c.sources|) == Some((i.value, local))
            && Fetch(c, out[title]) == c.sources[i.value].fetch(local)
  {
    assert Lookup(out, title) == Owned(c.sources, title, |c.sources|);
    var i := Earliest(c.sources, title, |c.sources|).value;
    IdsRoundTrip(i, c.sources[i].index.value[title], |c.sources|);
  }

  /** Two titles share an id only if one source files both under one entry. */
  lemma IndexedIdsAreShared(c: Chain, out: map<string, int>, s: string, t: string)
    requires Merged(out, c.sources, |c.sources|) && s in out && t in out
    ensures out[s] == out[t] <==>
              var i, j := Earliest(c.sources, s, |c.sources|), Earliest(c.sources, t, |c.sources|);
              i.Some? && i == j && c.sources[i.value].index.value[s] == c.sources[i.value].index.value[t]
  {
    IndexedIdsFetch(c, out, s);
    IndexedIdsFetch(c, out, t);
  }

  /** A confirmed title's id fetches an entry that is close enough to it. */
  lemma FoundIdsFetch(c: Chain, raw: string, i: nat, id: int)
    requires i < |c.sources| && Answers(c, c.sources[i], raw)
    requires Encode(i, AskOne(c.sources[i], raw).value) == Some(id)
    ensures Fetch(c, id).Some? && Similarity(Fetch(c, id).value.title, raw) >= Threshold(c)
  {
    IdsRoundTrip(i, AskOne(c.sources[i], raw).value, |c.sources|);
  }

  /** Where no source has a search of its own and every id fits, searching is finding and fetching. */
  lemma SearchAgreesWithFind(c: Chain, raw: string, i: nat)
    requires i < |c.sources| && forall src <- c.sources :: src.searcher.None?
    requires forall src <- c.sources :: AskOne(src, raw).Some? ==> Encode(0, AskOne(src, raw).value).Some?
    ensures forall src <- c.sources :: Answers(c, src, raw) <==> Found(c, src, raw).Some?
    ensures Answers(c, c.sources[i], raw) ==>
              var id := Encode(i, AskOne(c.sources[i], raw).value);
              id.Some? && Fetch(c, id.value) == Found(c, c.sources[i], raw)
  {
    if Answers(c, c.sources[i], raw) {
      IdsRoundTrip(i, AskOne(c.sources[i], raw).value, |c.sources|);
    }
  }
}
