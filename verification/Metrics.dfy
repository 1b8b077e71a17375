/**
 The histogram of internal/metrics/metrics.go: observations counted into fixed
 buckets by label set, and written out as cumulative counts. Values and bounds are
 exact; how a bound is spelled is a parameter.
 */
module Metrics {
  import opened Wrappers
  import opened MetricLabels

  datatype Observation = Observation(labels: map<string, string>, value: real)

  /** `counts` has one entry per bucket, each holding only its own bucket's values. */
  datatype Series = Series(labels: map<string, string>, counts: seq<nat>, sum: real, count: nat)

  datatype Line =
    | Help(name: string, text: string)
    | Type(name: string)
    | Count(metric: string, labels: string, n: nat)
    | Total(metric: string, labels: string, sum: real)

  // ---- what the values seen so far come to ----

  function AtOrBelow(values: seq<real>, bound: real): nat {
    if values == [] then 0
    else AtOrBelow(values[..|values| - 1], bound) + if values[|values| - 1] <= bound then 1 else 0
  }

  function Sum(values: seq<real>): real {
    if values == [] then 0.0 else Sum(values[..|values| - 1]) + values[|values| - 1]
  }

  predicate Nondecreasing(bounds: seq<real>) {
    forall i, j | 0 <= i < j < |bounds| :: bounds[i] <= bounds[j]
  }

  /** The first bucket a value fits, or their number. */
  function FirstBucket(bounds: seq<real>, v: real): (i: nat)
    ensures i <= |bounds| && (forall j | 0 <= j < i :: bounds[j] < v) && (i < |bounds| ==> v <= bounds[i])
  {
    if bounds == [] || v <= bounds[0] then 0
    else
      var i := FirstBucket(bounds[1..], v);
      assert forall j | 0 < j < i + 1 :: bounds[j] == bounds[1..][j - 1];
      i + 1
  }

  function Bump(counts: seq<nat>, i: nat): seq<nat> {
    if i < |counts| then counts[i := counts[i] + 1] else counts
  }

  function Counts(values: seq<real>, bounds: seq<real>): (counts: seq<nat>)
    ensures |counts| == |bounds|
  {
    if values == [] then seq(|bounds|, (i: nat) => 0)
    else Bump(Counts(values[..|values| - 1], bounds), FirstBucket(bounds, values[|values| - 1]))
  }

  function Running(counts: seq<nat>, n: nat): nat
    requires n <= |counts|
  {
    if n == 0 then 0 else Running(counts, n - 1) + counts[n - 1]
  }

  lemma {:induction false} RunningBump(counts: seq<nat>, i: nat, n: nat)
    requires n <= |counts|
    ensures Running(Bump(counts, i), n) == Running(counts, n) + if i < n then 1 else 0
  {
    if n > 0 { RunningBump(counts, i, n - 1); }
  }

  lemma {:induction false} RunningZero(size: nat, n: nat)
    requires n <= size
    ensures Running(seq(size, (i: nat) => 0), n) == 0
  {
    if n > 0 { RunningZero(size, n - 1); }
  }

  /** With the bounds in order, adding the buckets up counts every value at or below the bound. */
  lemma {:induction false} RunningCountsAtOrBelow(values: seq<real>, bounds: seq<real>, i: nat)
    requires Nondecreasing(bounds) && i < |bounds|
    ensures Running(Counts(values, bounds), i + 1) == AtOrBelow(values, bounds[i])
  {
    if values == [] {
      RunningZero(|bounds|, i + 1);
    } else {
      var front, v := values[..|values| - 1], values[|values| - 1];
      RunningCountsAtOrBelow(front, bounds, i);
      RunningBump(Counts(front, bounds), FirstBucket(bounds, v), i + 1);
    }
  }

  lemma {:induction false} AtOrBelowGrows(values: seq<real>, a: real, b: real)
    requires a <= b
    ensures AtOrBelow(values, a) <= AtOrBelow(values, b) <= |values|
  {
    if values != [] { AtOrBelowGrows(values[..|values| - 1], a, b); }
  }

  // ---- the observations of one series ----

  /** Values observed under a label text, oldest first. */
  ghost function Values(seen: seq<Observation>, key: string): seq<real> {
    if seen == [] then []
    else
      var rest, o := Values(seen[..|seen| - 1], key), seen[|seen| - 1];
      if LabelText(o.labels) == key then rest + [o.value] else rest
  }

  ghost function FirstLabels(seen: seq<Observation>, key: string): map<string, string>
    requires Values(seen, key) != []
  {
    var front := seen[..|seen| - 1];
    if Values(front, key) != [] then FirstLabels(front, key) else seen[|seen| - 1].labels
  }

  ghost function SeriesFor(seen: seq<Observation>, key: string, bounds: seq<real>): Series
    requires Values(seen, key) != []
  {
    var values := Values(seen, key);
    Series(FirstLabels(seen, key), Counts(values, bounds), Sum(values), |values|)
  }

  lemma OneMoreObservation(seen: seq<Observation>, o: Observation, key: string)
    ensures Values(seen + [o], key)
         == Values(seen, key) + if LabelText(o.labels) == key then [o.value] else []
    ensures Values(seen, key) != [] ==> FirstLabels(seen + [o], key) == FirstLabels(seen, key)
    ensures Values(seen, key) == [] && LabelText(o.labels) == key ==> FirstLabels(seen + [o], key) == o.labels
  {
    assert (seen + [o])[..|seen + [o]| - 1] == seen;
  }

  /** The series a label set has, or the empty one it is about to get. */
  ghost function SeriesSoFar(seen: seq<Observation>, labels: map<string, string>, bounds: seq<real>): Series {
    var key := LabelText(labels);
    if Values(seen, key) == [] then Series(labels, Counts([], bounds), 0.0, 0) else SeriesFor(seen, key, bounds)
  }

  lemma OneMoreValue(values: seq<real>, v: real, bounds: seq<real>)
    ensures Counts(values + [v], bounds) == Bump(Counts(values, bounds), FirstBucket(bounds, v))
    ensures Sum(values + [v]) == Sum(values) + v
  {
    assert (values + [v])[..|values|] == values;
  }

  lemma SeriesAfter(seen: seq<Observation>, o: Observation, bounds: seq<real>)
    ensures var key := LabelText(o.labels);
            var s := SeriesSoFar(seen, o.labels, bounds);
            && Values(seen + [o], key) != []
            && SeriesFor(seen + [o], key, bounds)
               == Series(s.labels, Bump(s.counts, FirstBucket(bounds, o.value)), s.sum + o.value, s.count + 1)
  {
    var key := LabelText(o.labels);
    var values := Values(seen, key);
    OneMoreObservation(seen, o, key);
    OneMoreValue(values, o.value, bounds);
  }

  ghost function ValuesOfSet(seen: seq<Observation>, labels: map<string, string>): seq<real> {
    if seen == [] then []
    else
      var rest, o := ValuesOfSet(seen[..|seen| - 1], labels), seen[|seen| - 1];
      if o.labels == labels then rest + [o.value] else rest
  }

  /** A series is one label set's, never two: filing by text is filing by label set. */
  lemma {:induction false} SeriesAreLabelSets(seen: seq<Observation>, labels: map<string, string>)
    requires ValidNames(labels) && forall o <- seen :: ValidNames(o.labels)
    ensures Values(seen, LabelText(labels)) == ValuesOfSet(seen, labels)
    ensures Values(seen, LabelText(labels)) != [] ==> FirstLabels(seen, LabelText(labels)) == labels
  {
    if seen != [] {
      var front, o := seen[..|seen| - 1], seen[|seen| - 1];
      assert o in seen && forall x <- front :: x in seen;
      SeriesAreLabelSets(front, labels);
      LabelTextIsInjective(o.labels, labels);
    }
  }

  // ---- what is written ----

  datatype Family = Family(name: string, help: string, bounds: seq<real>, spell: real -> string)

  /** withLabel. */
  function WithLabel(base: map<string, string>, k: string, v: string): map<string, string> {
    base[k := v]
  }

  /** One series in cumulative form: for each bound the values at or below it, then all of them. */
  ghost function SeriesLines(f: Family, labels: map<string, string>, values: seq<real>): seq<Line> {
    BucketLines(f, labels, values, |f.bounds|)
    + [Count(f.name + "_bucket", LabelText(WithLabel(labels, "le", "+Inf")), |values|),
       Total(f.name + "_sum", LabelText(labels), Sum(values)),
       Count(f.name + "_count", LabelText(labels), |values|)]
  }

  ghost function BucketLines(f: Family, labels: map<string, string>, values: seq<real>, n: nat): (lines: seq<Line>)
    requires n <= |f.bounds|
    ensures |lines| == n
  {
    if n == 0 then []
    else
      var bound := f.bounds[n - 1];
      BucketLines(f, labels, values, n - 1)
      + [Count(f.name + "_bucket", LabelText(WithLabel(labels, "le", f.spell(bound))), AtOrBelow(values, bound))]
  }

  ghost function AllLines(f: Family, seen: seq<Observation>, keys: seq<string>): seq<Line>
    requires forall k <- keys :: Values(seen, k) != []
  {
    if keys == [] then []
    else
      var front, k := keys[..|keys| - 1], keys[|keys| - 1];
      AllLines(f, seen, front) + SeriesLines(f, FirstLabels(seen, k), Values(seen, k))
  }

  function Header(f: Family): seq<Line> {
    (if f.help != "" then [Help(f.name, f.help)] else []) + [Type(f.name)]
  }

  /** Everything a scrape shows, told from the observations. */
  ghost function Exposition(f: Family, seen: seq<Observation>, keys: set<string>): seq<Line>
    requires forall k | k in keys :: Values(seen, k) != []
  {
    if keys == {} then []
    else
      assert forall k <- SortedKeys(keys) :: k in Members(SortedKeys(keys));
      Header(f) + AllLines(f, seen, SortedKeys(keys))
  }

  lemma {:induction false} BucketLineAt(f: Family, labels: map<string, string>, values: seq<real>, n: nat, i: nat)
    requires i < n <= |f.bounds|
    ensures BucketLines(f, labels, values, n)[i]
         == Count(f.name + "_bucket", LabelText(WithLabel(labels, "le", f.spell(f.bounds[i]))),
                  AtOrBelow(values, f.bounds[i]))
  {
    if i < n - 1 { BucketLineAt(f, labels, values, n - 1, i); }
  }

  /** The lines of a series never go down, and "+Inf" is the count. */
  lemma BucketsNeverDecrease(f: Family, labels: map<string, string>, values: seq<real>, i: nat, j: nat)
    requires Nondecreasing(f.bounds) && i <= j < |f.bounds|
    ensures var lines := SeriesLines(f, labels, values);
            && |lines| == |f.bounds| + 3
            && lines[i].Count? && lines[j].Count? && lines[|f.bounds|].Count? && lines[|f.bounds| + 2].Count?
            && lines[i].n <= lines[j].n <= lines[|f.bounds|].n == lines[|f.bounds| + 2].n
  {
    BucketLineAt(f, labels, values, |f.bounds|, i);
    BucketLineAt(f, labels, values, |f.bounds|, j);
    AtOrBelowGrows(values, f.bounds[i], f.bounds[j]);
    AtOrBelowGrows(values, f.bounds[j], f.bounds[j]);
  }

  /** How often a label set was observed at or below a bound. */
  function TimesObserved(seen: seq<Observation>, labels: map<string, string>, bound: real): nat {
    if seen == [] then 0
    else
      var o := seen[|seen| - 1];
      TimesObserved(seen[..|seen| - 1], labels, bound) + if o.labels == labels && o.value <= bound then 1 else 0
  }

  lemma {:induction false} AtOrBelowCountsObservations(seen: seq<Observation>, labels: map<string, string>, bound: real)
    ensures AtOrBelow(ValuesOfSet(seen, labels), bound) == TimesObserved(seen, labels, bound)
  {
    if seen != [] {
      var front, o := seen[..|seen| - 1], seen[|seen| - 1];
      AtOrBelowCountsObservations(front, labels, bound);
      var more := ValuesOfSet(front, labels) + [o.value];
      assert more[..|more| - 1] == ValuesOfSet(front, labels);
    }
  }

  /** What a scrape says of a label set's bucket is how often it was observed at or below the bound. */
  lemma BucketsCountObservations(f: Family, seen: seq<Observation>, labels: map<string, string>, i: nat)
    requires i < |f.bounds| && ValidNames(labels) && forall o <- seen :: ValidNames(o.labels)
    ensures SeriesLines(f, labels, Values(seen, LabelText(labels)))[i]
         == Count(f.name + "_bucket", LabelText(WithLabel(labels, "le", f.spell(f.bounds[i]))),
                  TimesObserved(seen, labels, f.bounds[i]))
  {
    SeriesAreLabelSets(seen, labels);
    AtOrBelowCountsObservations(seen, labels, f.bounds[i]);
    BucketLineAt(f, labels, ValuesOfSet(seen, labels), |f.bounds|, i);
  }

  /** How often it was observed altogether, and what its values come to. */
  function TimesSeen(seen: seq<Observation>, labels: map<string, string>): nat {
    if seen == [] then 0
    else TimesSeen(seen[..|seen| - 1], labels) + if seen[|seen| - 1].labels == labels then 1 else 0
  }

  function TotalSeen(seen: seq<Observation>, labels: map<string, string>): real {
    if seen == [] then 0.0
    else
      var o := seen[|seen| - 1];
      TotalSeen(seen[..|seen| - 1], labels) + if o.labels == labels then o.value else 0.0
  }

  lemma {:induction false} ValuesAddUp(seen: seq<Observation>, labels: map<string, string>)
    ensures |ValuesOfSet(seen, labels)| == TimesSeen(seen, labels)
    ensures Sum(ValuesOfSet(seen, labels)) == TotalSeen(seen, labels)
  {
    if seen != [] {
      var front, o := seen[..|seen| - 1], seen[|seen| - 1];
      ValuesAddUp(front, labels);
      var more := ValuesOfSet(front, labels) + [o.value];
      assert more[..|more| - 1] == ValuesOfSet(front, labels);
    }
  }

  /** What a scrape owes an observed label set: each bucket says how often it was observed at or below the
      bound, "+Inf" and the count say how often altogether, the sum adds its values up. */
  ghost predicate Shows(lines: seq<Line>, f: Family, seen: seq<Observation>, labels: map<string, string>) {
    && (forall i | 0 <= i < |f.bounds| ::
          Count(f.name + "_bucket", LabelText(WithLabel(labels, "le", f.spell(f.bounds[i]))),
                TimesObserved(seen, labels, f.bounds[i])) in lines)
    && Count(f.name + "_bucket", LabelText(WithLabel(labels, "le", "+Inf")), TimesSeen(seen, labels)) in lines
    && Count(f.name + "_count", LabelText(labels), TimesSeen(seen, labels)) in lines
    && Total(f.name + "_sum", LabelText(labels), TotalSeen(seen, labels)) in lines
  }

  lemma SeriesShows(f: Family, seen: seq<Observation>, labels: map<string, string>)
    requires ValidNames(labels) && forall o <- seen :: ValidNames(o.labels)
    ensures Shows(SeriesLines(f, labels, Values(seen, LabelText(labels))), f, seen, labels)
  {
    SeriesAreLabelSets(seen, labels);
    ValuesAddUp(seen, labels);
    var lines := SeriesLines(f, labels, Values(seen, LabelText(labels)));
    forall i | 0 <= i < |f.bounds|
      ensures Count(f.name + "_bucket", LabelText(WithLabel(labels, "le", f.spell(f.bounds[i]))),
                    TimesObserved(seen, labels, f.bounds[i])) in lines
    {
      BucketsCountObservations(f, seen, labels, i);
      assert lines[i] in lines;
    }
    assert lines[|f.bounds|] in lines && lines[|f.bounds| + 1] in lines && lines[|f.bounds| + 2] in lines;
  }

  lemma ShowsMore(lines: seq<Line>, more: seq<Line>, f: Family, seen: seq<Observation>, labels: map<string, string>)
    requires Shows(lines, f, seen, labels) && forall l <- lines :: l in more
    ensures Shows(more, f, seen, labels)
  {
  }

  lemma {:induction false} AllLinesHas(f: Family, seen: seq<Observation>, keys: seq<string>, k: string)
    requires (forall x <- keys :: Values(seen, x) != []) && k in keys
    ensures forall l <- SeriesLines(f, FirstLabels(seen, k), Values(seen, k)) :: l in AllLines(f, seen, keys)
  {
    var front, last := keys[..|keys| - 1], keys[|keys| - 1];
    if k != last {
      assert k in front;
      AllLinesHas(f, seen, front, k);
    }
  }

  lemma {:induction false} ObservedHasValues(seen: seq<Observation>, o: Observation)
    requires o in seen
    ensures Values(seen, LabelText(o.labels)) != []
  {
    var front, last := seen[..|seen| - 1], seen[|seen| - 1];
    if o != last {
      assert o in front;
      ObservedHasValues(front, o);
    }
  }

  /** The whole scrape: every label set ever observed is shown, and shown right. */
  lemma ScrapeShowsEveryLabelSet(f: Family, seen: seq<Observation>, keys: set<string>, o: Observation)
    requires (forall k :: k in keys <==> Values(seen, k) != []) && o in seen
    requires forall x <- seen :: ValidNames(x.labels)
    ensures Shows(Exposition(f, seen, keys), f, seen, o.labels)
  {
    var key, sorted := LabelText(o.labels), SortedKeys(keys);
    ObservedHasValues(seen, o);
    SeriesAreLabelSets(seen, o.labels);
    SeriesShows(f, seen, o.labels);
    assert forall k <- sorted :: k in Members(sorted);
    assert key in Members(sorted);
    AllLinesHas(f, seen, sorted, key);
    ShowsMore(SeriesLines(f, o.labels, Values(seen, key)), Exposition(f, seen, keys), f, seen, o.labels);
  }

  predicate Sample(l: Line) {
    l.Count? || l.Total?
  }

  lemma {:induction false} BucketLinesAreSamples(f: Family, labels: map<string, string>, values: seq<real>, n: nat)
    requires n <= |f.bounds|
    ensures forall l <- BucketLines(f, labels, values, n) :: Sample(l)
  {
    if n > 0 { BucketLinesAreSamples(f, labels, values, n - 1); }
  }

  lemma SeriesAreSamples(f: Family, labels: map<string, string>, values: seq<real>)
    ensures |SeriesLines(f, labels, values)| == |f.bounds| + 3
    ensures forall l <- SeriesLines(f, labels, values) :: Sample(l)
  {
    BucketLinesAreSamples(f, labels, values, |f.bounds|);
  }

  lemma {:induction false} AllLinesAreSamples(f: Family, seen: seq<Observation>, keys: seq<string>)
    requires forall k <- keys :: Values(seen, k) != []
    ensures forall l <- AllLines(f, seen, keys) :: Sample(l)
  {
    if keys != [] {
      var front, k := keys[..|keys| - 1], keys[|keys| - 1];
      AllLinesAreSamples(f, seen, front);
      SeriesAreSamples(f, FirstLabels(seen, k), Values(seen, k));
    }
  }

  lemma {:induction false} AllLinesSize(f: Family, seen: seq<Observation>, keys: seq<string>)
    requires forall k <- keys :: Values(seen, k) != []
    ensures |AllLines(f, seen, keys)| == |keys| * (|f.bounds| + 3)
  {
    if keys != [] {
      var front, k := keys[..|keys| - 1], keys[|keys| - 1];
      AllLinesSize(f, seen, front);
      var more := SeriesLines(f, FirstLabels(seen, k), Values(seen, k));
      SeriesAreSamples(f, FirstLabels(seen, k), Values(seen, k));
      assert |AllLines(f, seen, keys)| == |AllLines(f, seen, front)| + |more|;
      OneMoreTime(|front|, |f.bounds| + 3);
    }
  }

  lemma OneMoreTime(m: nat, n: nat)
    ensures (m + 1) * n == m * n + n
  {
  }

  /** The form of a scrape: a help line if there is help to give, the type, then samples only, so neither
      header is ever repeated: a line for each bound of each series and three more. */
  ghost predicate WellFormed(lines: seq<Line>, f: Family, series: nat) {
    var header := if f.help == "" then 1 else 2;
    && |lines| == header + series * (|f.bounds| + 3)
    && (f.help != "" ==> lines[0] == Help(f.name, f.help))
    && lines[header - 1] == Type(f.name)
    && forall i | header <= i < |lines| :: Sample(lines[i])
  }

  lemma ScrapeIsWellFormed(f: Family, seen: seq<Observation>, keys: set<string>)
    requires (forall k | k in keys :: Values(seen, k) != []) && keys != {}
    ensures WellFormed(Exposition(f, seen, keys), f, |keys|)
  {
    var sorted := SortedKeys(keys);
    assert forall k <- sorted :: k in Members(sorted);
    AllLinesAreSamples(f, seen, sorted);
    AllLinesSize(f, seen, sorted);
    AscendingSize(sorted);
    var header := if f.help == "" then 1 else 2;
    var lines := Exposition(f, seen, keys);
    assert |Header(f)| == header;
    assert lines == Header(f) + AllLines(f, seen, sorted);
    forall i | header <= i < |lines| ensures Sample(lines[i]) {
      assert lines[i] in AllLines(f, seen, sorted);
    }
  }

  /** A label called "le" is lost in the bucket lines: two series that differ in nothing else write the
      same ones, and no others do. */
  lemma LeIsOverwritten(a: map<string, string>, b: map<string, string>, bound: string)
    requires ValidNames(a) && ValidNames(b)
    ensures LabelText(WithLabel(a, "le", bound)) == LabelText(WithLabel(b, "le", bound))
       <==> a - {"le"} == b - {"le"}
  {
    assert ValidName("le");
    LabelTextIsInjective(WithLabel(a, "le", bound), WithLabel(b, "le", bound));
    WithoutLabel(a, "le", bound);
    WithoutLabel(b, "le", bound);
  }

  lemma WithoutLabel(labels: map<string, string>, k: string, v: string)
    ensures WithLabel(labels, k, v) - {k} == labels - {k}
    ensures WithLabel(labels, k, v) == (labels - {k})[k := v]
  {
  }

  // ---- the loops ----

  function InsertBound(b: real, bounds: seq<real>): seq<real> {
    if bounds == [] || b <= bounds[0] then [b] + bounds else [bounds[0]] + InsertBound(b, bounds[1..])
  }

  lemma {:induction false} InsertBoundKeeps(b: real, bounds: seq<real>)
    ensures multiset(InsertBound(b, bounds)) == multiset(bounds) + multiset{b}
    ensures forall x <- InsertBound(b, bounds) :: x == b || x in bounds
  {
    if bounds != [] && bounds[0] < b {
      InsertBoundKeeps(b, bounds[1..]);
      assert bounds == [bounds[0]] + bounds[1..];
    }
  }

  lemma BelowAll(b: real, bounds: seq<real>)
    requires Nondecreasing(bounds) && forall x <- bounds :: b <= x
    ensures Nondecreasing([b] + bounds)
  {
    var all := [b] + bounds;
    forall i, j | 0 <= i < j < |all| ensures all[i] <= all[j] {
      assert all[j] == bounds[j - 1] && bounds[j - 1] in bounds;
      assert i > 0 ==> all[i] == bounds[i - 1];
    }
  }

  lemma {:induction false} InsertBoundSorts(b: real, bounds: seq<real>)
    requires Nondecreasing(bounds)
    ensures Nondecreasing(InsertBound(b, bounds))
  {
    if bounds == [] || b <= bounds[0] {
      forall x <- bounds ensures b <= x {
        assert bounds[0] <= x;
      }
      BelowAll(b, bounds);
    } else {
      InsertBoundSorts(b, bounds[1..]);
      InsertBoundKeeps(b, bounds[1..]);
      assert forall x <- bounds[1..] :: bounds[0] <= x;
      BelowAll(bounds[0], InsertBound(b, bounds[1..]));
    }
  }

  /** sort.Float64s on a copy. */
  method SortBounds(buckets: seq<real>) returns (bounds: seq<real>)
    ensures Nondecreasing(bounds) && multiset(bounds) == multiset(buckets)
  {
    bounds := [];
    for i := 0 to |buckets|
      invariant Nondecreasing(bounds) && multiset(bounds) == multiset(buckets[..i])
    {
      assert buckets[..i + 1] == buckets[..i] + [buckets[i]];
      InsertBoundSorts(buckets[i], bounds);
      InsertBoundKeeps(buckets[i], bounds);
      bounds := InsertBound(buckets[i], bounds);
    }
    assert buckets[..|buckets|] == buckets;
  }

  /** The counting loop of Observe. */
  method CountIn(counts: seq<nat>, bounds: seq<real>, v: real) returns (r: seq<nat>)
    requires |counts| == |bounds|
    ensures r == Bump(counts, FirstBucket(bounds, v))
  {
    r := counts;
    var i := 0;
    while i < |bounds|
      invariant 0 <= i <= |bounds| && r == counts
      invariant forall j | 0 <= j < i :: bounds[j] < v
    {
      if v <= bounds[i] {
        r := r[i := r[i] + 1];
        break;
      }
      i := i + 1;
    }
  }

  /** The bucket loop of Render: the running total is the count of values at or below each bound. */
  method RenderBuckets(f: Family, s: Series, ghost values: seq<real>) returns (lines: seq<Line>)
    requires Nondecreasing(f.bounds) && s.counts == Counts(values, f.bounds)
    ensures lines == BucketLines(f, s.labels, values, |f.bounds|)
  {
    var running := 0;
    lines := [];
    for i := 0 to |f.bounds|
      invariant running == Running(s.counts, i)
      invariant lines == BucketLines(f, s.labels, values, i)
    {
      running := running + s.counts[i];
      RunningCountsAtOrBelow(values, f.bounds, i);
      var l := LabelString(WithLabel(s.labels, "le", f.spell(f.bounds[i])));
      lines := lines + [Count(f.name + "_bucket", l, running)];
    }
  }

  // ---- the histogram ----

  /** Every series is its observations, counted. */
  ghost predicate Faithful(series: map<string, Series>, seen: seq<Observation>, bounds: seq<real>) {
    && (forall k :: k in series <==> Values(seen, k) != [])
    && (forall k | k in series :: series[k] == SeriesFor(seen, k, bounds))
  }

  lemma SomethingSeen(series: map<string, Series>, seen: seq<Observation>, bounds: seq<real>)
    requires Faithful(series, seen, bounds)
    ensures series.Keys == {} <==> seen == []
  {
    if seen != [] {
      ObservedHasValues(seen, seen[0]);
      assert LabelText(seen[0].labels) in series;
    } else if series.Keys != {} {
      var k := SomeMember(series.Keys);
      assert false;
    }
  }

  /** The other series are as they were. */
  lemma OtherSeriesAsBefore(seen: seq<Observation>, o: Observation, bounds: seq<real>, k: string)
    requires k != LabelText(o.labels)
    ensures Values(seen + [o], k) == Values(seen, k)
    ensures Values(seen, k) != [] ==> SeriesFor(seen + [o], k, bounds) == SeriesFor(seen, k, bounds)
  {
    OneMoreObservation(seen, o, k);
    assert Values(seen, k) + [] == Values(seen, k);
  }

  lemma ObserveKeepsFaithful(series: map<string, Series>, seen: seq<Observation>, bounds: seq<real>, o: Observation,
                             s: Series, key: string)
    requires Faithful(series, seen, bounds) && key == LabelText(o.labels)
    requires Values(seen + [o], key) != [] && s == SeriesFor(seen + [o], key, bounds)
    ensures Faithful(series[key := s], seen + [o], bounds)
  {
    var series', seen' := series[key := s], seen + [o];
    forall k ensures k in series' <==> Values(seen', k) != [] {
      if k != key { OtherSeriesAsBefore(seen, o, bounds, k); }
    }
    forall k | k in series' ensures series'[k] == SeriesFor(seen', k, bounds) {
      if k != key { OtherSeriesAsBefore(seen, o, bounds, k); }
    }
  }

  /** The update of one series, new or not. */
  method CountObservation(s: Series, bounds: seq<real>, v: real, ghost labels: map<string, string>,
                          ghost seen: seq<Observation>)
    returns (s': Series)
    requires s == SeriesSoFar(seen, labels, bounds)
    ensures Values(seen + [Observation(labels, v)], LabelText(labels)) != []
    ensures s' == SeriesFor(seen + [Observation(labels, v)], LabelText(labels), bounds)
  {
    var counts := CountIn(s.counts, bounds, v);
    s' := Series(s.labels, counts, s.sum + v, s.count + 1);
    SeriesAfter(seen, Observation(labels, v), bounds);
  }

  class Histogram {
    const family: Family
    var series: map<string, Series>
    ghost var seen: seq<Observation>

    ghost predicate Valid()
      reads this
    {
      Nondecreasing(family.bounds) && Faithful(series, seen, family.bounds)
    }

    constructor (name: string, help: string, buckets: seq<real>, spell: real -> string)
      ensures Valid() && seen == []
      ensures multiset(family.bounds) == multiset(buckets)
      ensures family == Family(name, help, family.bounds, spell)
    {
      var bounds := SortBounds(buckets);
      family := Family(name, help, bounds, spell);
      series := map[];
      seen := [];
    }

    method Observe(labels: map<string, string>, v: real)
      requires Valid()
      modifies this
      ensures Valid() && seen == old(seen) + [Observation(labels, v)]
    {
      var key := LabelString(labels);
      var s := if key in series then series[key] else Series(labels, seq(|family.bounds|, (i: nat) => 0), 0.0, 0);
      s := CountObservation(s, family.bounds, v, labels, seen);
      ObserveKeepsFaithful(series, seen, family.bounds, Observation(labels, v), s, key);
      series := series[key := s];
      seen := seen + [Observation(labels, v)];
    }

    /** One scrape. */
    method Render() returns (lines: seq<Line>)
      requires Valid()
      ensures lines == Exposition(family, seen, series.Keys)
      ensures (forall o <- seen :: ValidNames(o.labels)) ==> forall o <- seen :: Shows(lines, family, seen, o.labels)
      ensures if seen == [] then lines == [] else WellFormed(lines, family, |series|)
    {
      SomethingSeen(series, seen, family.bounds);
      if series.Keys != {} {
        ScrapeIsWellFormed(family, seen, series.Keys);
      }
      if forall o <- seen :: ValidNames(o.labels) {
        forall o <- seen ensures Shows(Exposition(family, seen, series.Keys), family, seen, o.labels) {
          ScrapeShowsEveryLabelSet(family, seen, series.Keys, o);
        }
      }
      var keys := CollectKeys(series);
      keys := SortStrings(keys);
      EmptyMembers(keys);
      if |keys| == 0 {
        return [];
      }
      assert forall k <- keys :: k in Members(keys);
      var blocks := RenderAll(keys);
      if family.help != "" {
        return [Help(family.name, family.help)] + [Type(family.name)] + blocks;
      }
      assert [] + [Type(family.name)] == [Type(family.name)];
      return [Type(family.name)] + blocks;
    }

    method RenderAll(keys: seq<string>) returns (lines: seq<Line>)
      requires Valid() && forall k <- keys :: k in series
      ensures forall k <- keys :: Values(seen, k) != []
      ensures lines == AllLines(family, seen, keys)
    {
      lines := [];
      for i := 0 to |keys|
        invariant forall k <- keys[..i] :: Values(seen, k) != []
        invariant lines == AllLines(family, seen, keys[..i])
      {
        assert keys[..i + 1][..i] == keys[..i];
        var block := RenderSeries(keys[i]);
        lines := lines + block;
      }
      assert keys[..|keys|] == keys;
    }

    method RenderSeries(key: string) returns (lines: seq<Line>)
      requires Valid() && key in series
      ensures Values(seen, key) != []
      ensures lines == SeriesLines(family, FirstLabels(seen, key), Values(seen, key))
    {
      var s := series[key];
      var buckets := RenderBuckets(family, s, Values(seen, key));
      var inf := LabelString(WithLabel(s.labels, "le", "+Inf"));
      var plain := LabelString(s.labels);
      lines := buckets + [Count(family.name + "_bucket", inf, s.count), Total(family.name + "_sum", plain, s.sum),
                          Count(family.name + "_count", plain, s.count)];
    }
  }
}
