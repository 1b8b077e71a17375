/** How close two titles are (internal/catalogchain/chain.go): shared words, against the shorter side. */
module TitleScore {
  import opened Ascii
  import opened Wrappers

  predicate Alnum(c: char) {
    'a' <= c <= 'z' || '0' <= c <= '9'
  }

  function WordLength(s: string): (n: nat)
    ensures n <= |s|
    ensures s != "" && Alnum(s[0]) ==> n > 0
  {
    if s == "" || !Alnum(s[0]) then 0 else 1 + WordLength(s[1..])
  }

  /** strings.FieldsFunc on everything that is not a letter or a digit. */
  function Words(s: string): seq<string>
    decreases |s|
  {
    if s == "" then []
    else if !Alnum(s[0]) then Words(s[1..])
    else [s[..WordLength(s)]] + Words(s[WordLength(s)..])
  }

  function Tokens(s: string): seq<string> {
    Words(Lower(s))
  }

  function Bag(ts: seq<string>): set<string> {
    set t <- ts
  }

  function Vocabulary(s: string): set<string> {
    Bag(Tokens(s))
  }

  /** Shared words over the words of the smaller side. */
  function Overlap(a: set<string>, b: set<string>): real {
    if a == {} || b == {} then 0.0
    else
      assert |a| > 0 && |b| > 0;
      |a * b| as real / Min(|a|, |b|) as real
  }

  function Similarity(a: string, b: string): real {
    Overlap(Vocabulary(a), Vocabulary(b))
  }

  // ---- the loops ----

  lemma BagAppend(ts: seq<string>, t: string)
    ensures Bag(ts + [t]) == Bag(ts) + {t}
  {
  }

  lemma {:induction false} DistinctCount(ts: seq<string>)
    requires Distinct(ts)
    ensures |Bag(ts)| == |ts|
  {
    if ts != [] {
      var front, t := ts[..|ts| - 1], ts[|ts| - 1];
      DistinctCount(front);
      assert ts == front + [t];
      BagAppend(front, t);
      assert forall x <- front :: x != t;
    }
  }

  method Uniq(ts: seq<string>) returns (out: seq<string>)
    ensures Distinct(out) && Bag(out) == Bag(ts) && |out| == |Bag(ts)|
  {
    var seen: set<string> := {};
    out := [];
    for i := 0 to |ts|
      invariant seen == Bag(out) == Bag(ts[..i]) && Distinct(out)
    {
      assert ts[..i + 1] == ts[..i] + [ts[i]];
      if ts[i] !in seen {
        BagAppend(out, ts[i]);
        assert forall x <- out :: x in Bag(out);
        seen := seen + {ts[i]};
        out := out + [ts[i]];
      }
    }
    assert ts[..|ts|] == ts;
    DistinctCount(out);
  }

  method WordSet(ts: seq<string>) returns (words: set<string>)
    ensures words == Bag(ts)
  {
    words := {};
    for i := 0 to |ts|
      invariant words == Bag(ts[..i])
    {
      assert ts[..i + 1] == ts[..i] + [ts[i]];
      words := words + {ts[i]};
    }
    assert ts[..|ts|] == ts;
  }

  lemma OneMoreSeen(seen: set<string>, t: string, words: set<string>)
    requires t !in seen
    ensures |(seen + {t}) * words| == |seen * words| + if t in words then 1 else 0
  {
    if t in words {
      assert (seen + {t}) * words == seen * words + {t};
    } else {
      assert (seen + {t}) * words == seen * words;
    }
  }

  /** The counting loop: words of one side found in the other, repeats not counted again. */
  method Hits(ta: seq<string>, tb: seq<string>) returns (hits: nat)
    ensures hits == |Bag(ta) * Bag(tb)|
  {
    var words := WordSet(tb);
    hits := 0;
    var seen: set<string> := {};
    for i := 0 to |ta|
      invariant seen == Bag(ta[..i])
      invariant hits == |seen * words|
    {
      assert ta[..i + 1] == ta[..i] + [ta[i]];
      if ta[i] in seen {
        continue;
      }
      OneMoreSeen(seen, ta[i], words);
      seen := seen + {ta[i]};
      if ta[i] in words {
        hits := hits + 1;
      }
    }
    assert ta[..|ta|] == ta;
  }

  lemma Quotient(a: real, b: real)
    requires b != 0.0
    ensures (a / b) * b == a
  {
  }

  method Similar(a: string, b: string) returns (score: real)
    ensures score == Similarity(a, b)
    ensures var u, v := Vocabulary(a), Vocabulary(b);
            if u == {} || v == {} then score == 0.0
            else score * (if |u| <= |v| then |u| else |v|) as real == |u * v| as real
  {
    var ta, tb := Tokens(a), Tokens(b);
    if |ta| == 0 || |tb| == 0 {
      return 0.0;
    }
    assert ta[0] in Bag(ta) && tb[0] in Bag(tb);
    var hits := Hits(ta, tb);
    var ua := Uniq(ta);
    var ub := Uniq(tb);
    var shorter := |ua|;
    if |ub| < shorter {
      shorter := |ub|;
    }
    Quotient(hits as real, shorter as real);
    return hits as real / shorter as real;
  }

  // ---- what the score means ----

  lemma OverlapBounds(a: set<string>, b: set<string>)
    ensures |a * b| <= |a| && |a * b| <= |b|
    ensures |a * b| == |a| <==> a <= b
    ensures |a * b| == |b| <==> b <= a
  {
    SubsetCard(a * b, a);
    SubsetCard(a * b, b);
    DisjointCards(a * b, a - b);
    DisjointCards(a * b, b - a);
    assert a * b + (a - b) == a && a * b + (b - a) == b;
    if a - b == {} { assert a <= b; }
    if b - a == {} { assert b <= a; }
  }

  lemma Ratio(n: nat, d: nat)
    requires 0 < d && n <= d
    ensures 0.0 <= n as real / d as real <= 1.0
    ensures n as real / d as real == 1.0 <==> n == d
    ensures n as real / d as real == 0.0 <==> n == 0
  {
  }

  lemma RatioGrows(m: nat, n: nat, d: nat)
    requires 0 < d && m <= n
    ensures m as real / d as real <= n as real / d as real
  {
  }

  /** Symmetric and between 0 and 1; 1 exactly when one side's words are all in the other, 0 exactly
      when they share none. */
  lemma SimilarityIsAScore(a: string, b: string)
    ensures Similarity(a, b) == Similarity(b, a)
    ensures 0.0 <= Similarity(a, b) <= 1.0
    ensures var u, v := Vocabulary(a), Vocabulary(b);
            && (Similarity(a, b) == 1.0 <==> u != {} && v != {} && (u <= v || v <= u))
            && (Similarity(a, b) == 0.0 <==> u * v == {})
  {
    var u, v := Vocabulary(a), Vocabulary(b);
    assert u * v == v * u;
    if u != {} && v != {} {
      OverlapBounds(u, v);
      Ratio(|u * v|, Min(|u|, |v|));
    }
  }

  lemma SameWordsSameBag(ts: seq<string>, us: seq<string>)
    requires multiset(ts) == multiset(us)
    ensures Bag(ts) == Bag(us)
  {
    forall t ensures t in ts <==> t in us {
      assert t in multiset(ts) <==> t in multiset(us);
    }
  }

  /** Order and repetition of words say nothing. */
  lemma OnlyWordsMatter(a: string, a': string, b: string)
    requires multiset(Tokens(a)) == multiset(Tokens(a')) || Vocabulary(a) == Vocabulary(a')
    ensures Similarity(a, b) == Similarity(a', b)
  {
    if multiset(Tokens(a)) == multiset(Tokens(a')) {
      SameWordsSameBag(Tokens(a), Tokens(a'));
    }
  }

  lemma OverlapGrows(a: set<string>, a': set<string>, b: set<string>)
    requires a <= a' && |b| <= |a|
    ensures Overlap(a, b) <= Overlap(a', b)
  {
    SubsetCard(a, a');
    SubsetCard(a * b, a' * b);
    if b != {} {
      RatioGrows(|a * b|, |a' * b|, |b|);
    }
  }

  lemma {:induction false} WordsPart(s: string, c: char, t: string)
    requires !Alnum(c)
    ensures Words(s + ([c] + t)) == Words(s) + Words(t)
    decreases |s|
  {
    var all := s + ([c] + t);
    if s == "" {
      assert all[0] == c && all[1..] == t;
    } else if !Alnum(s[0]) {
      assert all[1..] == s[1..] + ([c] + t);
      WordsPart(s[1..], c, t);
    } else {
      WordStops(s, c, t);
      var n := WordLength(s);
      assert all[..n] == s[..n] && all[n..] == s[n..] + ([c] + t);
      WordsPart(s[n..], c, t);
    }
  }

  lemma {:induction false} WordStops(s: string, c: char, t: string)
    requires !Alnum(c)
    ensures WordLength(s + ([c] + t)) == WordLength(s)
  {
    var all := s + ([c] + t);
    if s == "" {
      assert all[0] == c;
    } else {
      assert all[0] == s[0] && all[1..] == s[1..] + ([c] + t);
      WordStops(s[1..], c, t);
    }
  }

  lemma {:induction false} WordIsWhole(w: string)
    requires forall i | 0 <= i < |w| :: Alnum(w[i])
    ensures WordLength(w) == |w| && (w != "" ==> Words(w) == [w])
  {
    if w != "" {
      WordIsWhole(w[1..]);
      assert w[..|w|] == w && w[|w|..] == "";
      assert [w] + Words("") == [w];
    }
  }

  predicate AsciiAlnum(c: char) {
    'a' <= c <= 'z' || 'A' <= c <= 'Z' || '0' <= c <= '9'
  }

  lemma {:induction false} LowerIsAlnum(w: string)
    requires forall i | 0 <= i < |w| :: AsciiAlnum(w[i])
    ensures forall i | 0 <= i < |Lower(w)| :: Alnum(Lower(w)[i])
  {
    if w != "" {
      LowerIsAlnum(w[1..]);
      var rest := Lower(w[1..]);
      assert Lower(w) == [LowerChar(w[0])] + rest;
      forall i | 0 <= i < |w| ensures Alnum(Lower(w)[i]) {
        if i > 0 { assert Lower(w)[i] == rest[i - 1]; }
      }
    }
  }

  /** Anything that is no ASCII letter or digit parts the words of a title. */
  lemma OthersPartWords(s: string, c: char, t: string)
    requires !AsciiAlnum(c)
    ensures Tokens(s + ([c] + t)) == Tokens(s) + Tokens(t)
  {
    LowerAppend(s, [c] + t);
    assert ([c] + t)[1..] == t && LowerChar(c) == c;
    assert Lower([c] + t) == [c] + Lower(t);
    WordsPart(Lower(s), c, Lower(t));
  }

  /** And a run of letters and digits is one word, whatever its case. */
  lemma RunsAreWords(w: string)
    requires w != "" && forall i | 0 <= i < |w| :: AsciiAlnum(w[i])
    ensures Tokens(w) == [Lower(w)]
  {
    var word := Lower(w);
    LowerIsAlnum(w);
    WordIsWhole(word);
  }

  lemma {:induction false} LowerAppend(s: string, t: string)
    ensures Lower(s + t) == Lower(s) + Lower(t)
  {
    if s == "" {
      assert s + t == t;
    } else {
      assert (s + t)[0] == s[0] && (s + t)[1..] == s[1..] + t;
      LowerAppend(s[1..], t);
    }
  }

  lemma VocabularyOfPadded(release: string, tags: string)
    ensures Vocabulary(release + " " + tags) == Vocabulary(release) + Vocabulary(tags)
  {
    assert release + " " + tags == release + (" " + tags);
    LowerAppend(release, " " + tags);
    LowerAppend(" ", tags);
    assert Lower(" ") == [LowerChar(' ')] + Lower("") == [' '];
    WordsPart(Lower(release), ' ', Lower(tags));
  }

  /** Padding a release name with tags never costs it a match, once it has as many words as the title. */
  lemma PaddingNeverHurts(release: string, tags: string, title: string)
    requires |Vocabulary(title)| <= |Vocabulary(release)|
    ensures Similarity(release, title) <= Similarity(release + " " + tags, title)
    ensures Vocabulary(release + " " + tags) == Vocabulary(release) + Vocabulary(tags)
  {
    VocabularyOfPadded(release, tags);
    OverlapGrows(Vocabulary(release), Vocabulary(release + " " + tags), Vocabulary(title));
  }

  lemma Fractions(a: real, b: real, c: real, d: real)
    requires 0.0 < b && 0.0 < d
    ensures a / b <= c / d <==> a * d <= c * b
  {
    var x, y := a / b, c / d;
    assert x * b == a && y * d == c;
    assert a * d == x * (b * d) && c * b == y * (b * d);
    assert 0.0 < b * d;
    if x <= y {
      assert x * (b * d) <= y * (b * d);
    } else {
      assert x * (b * d) > y * (b * d);
    }
  }

  lemma OneMoreOf(hits: nat, words: nat)
    requires 0 < words && hits <= words
    ensures hits as real / words as real <= (hits + 1) as real / (words + 1) as real
    ensures hits as real / (words + 1) as real < hits as real / words as real <==> 0 < hits
  {
    var h, w := hits as real, words as real;
    Fractions(h, w, h + 1.0, w + 1.0);
    Fractions(h, w, h, w + 1.0);
    assert (h + 1.0) * w == h * w + w && h * (w + 1.0) == h * w + h;
  }

  /** One word more on the side with fewer words. */
  lemma OneWordOverlap(a: set<string>, w: string, b: set<string>)
    requires w !in a && a != {} && |a| < |b|
    ensures Overlap(a + {w}, b) < Overlap(a, b) <==> a * b != {} && w !in b
  {
    OneMoreSeen(a, w, b);
    OverlapBounds(a, b);
    OneMoreOf(|a * b|, |a|);
    assert b != {} && Min(|a|, |b|) == |a| && Min(|a| + 1, |b|) == |a| + 1;
    assert a * b == {} <==> |a * b| == 0;
  }

  /** Exactly when one more word costs: the release name has fewer words than the title, shares some of
      them, and the word is new to both. */
  lemma OneMoreWordCosts(release: string, word: string, title: string, w: string)
    requires Vocabulary(word) == {w}
    ensures Similarity(release + " " + word, title) < Similarity(release, title)
       <==> && |Vocabulary(release)| < |Vocabulary(title)| && Vocabulary(release) * Vocabulary(title) != {}
            && w !in Vocabulary(release) + Vocabulary(title)
  {
    var r, t := Vocabulary(release), Vocabulary(title);
    VocabularyOfPadded(release, word);
    if w in r {
      assert r + {w} == r;
    } else if |t| <= |r| {
      PaddingNeverHurts(release, word, title);
    } else if r == {} {
      SimilarityIsAScore(release + " " + word, title);
    } else {
      OneWordOverlap(r, w, t);
    }
  }

  lemma OneLetterWord(c: char)
    requires 'a' <= c <= 'z'
    ensures Vocabulary([c]) == {[c]}
  {
    assert [c][1..] == "" && Lower([c]) == [c];
    assert WordLength([c]) == 1 + WordLength("") == 1;
    assert [c][..1] == [c];
    assert Words([c]) == [[c]] + Words("");
  }

  /** Such a release name and title. */
  lemma PaddingTheShorterSideCanHurt()
    ensures Similarity("a" + " " + "b", "a" + " " + "c") < Similarity("a", "a" + " " + "c")
  {
    OneLetterWord('a');
    OneLetterWord('b');
    OneLetterWord('c');
    VocabularyOfPadded("a", "c");
    assert "a" in Vocabulary("a") * Vocabulary("a" + " " + "c");
    OneMoreOf(1, 1);
    assert "a"[0] != "b"[0] && "a"[0] != "c"[0] && "b"[0] != "c"[0];
    assert |{"a", "c"}| == 2;
    OneMoreWordCosts("a", "b", "a" + " " + "c", "b");
  }
}
