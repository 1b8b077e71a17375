/** The words of a sanitised tree: block tags part them, inline tags do not (internal/markdown/markdown.go). */
module ExcerptWords {
  import opened Ascii
  import opened Wrappers
  import opened Markup
  import opened Sanitize
  import opened Excerpt
  import opened ExcerptProps

  // ---- splitting into words ----

  lemma {:induction false} WordEndBefore(a: string, c: char, b: string)
    requires IsSpace(c)
    ensures WordEnd(a + [c] + b) == WordEnd(a)
  {
    if a == "" {
      assert (a + [c] + b)[0] == c;
    } else {
      assert (a + [c] + b)[1..] == a[1..] + [c] + b && (a + [c] + b)[0] == a[0];
      WordEndBefore(a[1..], c, b);
    }
  }

  /** A blank anywhere parts the words before it from those after it. */
  lemma {:induction false} FieldsPart(a: string, c: char, b: string)
    requires IsSpace(c)
    ensures Fields(a + [c] + b) == Fields(a) + Fields(b)
    decreases |a|
  {
    var s := a + [c] + b;
    if a == "" {
      assert s[0] == c && s[1..] == b;
    } else if IsSpace(a[0]) {
      assert s[0] == a[0] && s[1..] == a[1..] + [c] + b;
      FieldsPart(a[1..], c, b);
    } else {
      var n := WordEnd(a);
      WordEndBefore(a, c, b);
      FieldsPart(a[n..], c, b);
      assert s[0] == a[0] && s[..n] == a[..n] && s[n..] == a[n..] + [c] + b;
      assert Fields(s) == [a[..n]] + (Fields(a[n..]) + Fields(b));
    }
  }

  lemma {:induction false} WordEndOfWord(w: string)
    requires forall i | 0 <= i < |w| :: !IsSpace(w[i])
    ensures WordEnd(w) == |w|
  {
    if w != "" {
      WordEndOfWord(w[1..]);
    }
  }

  /** And text without a blank in it is one word. */
  lemma FieldsOfWord(w: string)
    requires Word(w)
    ensures Fields(w) == [w]
  {
    forall i | 0 <= i < |w| ensures !IsSpace(w[i]) {
      assert w[i] in w;
    }
    WordEndOfWord(w);
    assert w[..|w|] == w && w[|w|..] == "";
  }

  /** Joined by single blanks and split again, words are themselves. */
  lemma {:induction false} FieldsOfJoin(words: seq<string>)
    requires forall i | 0 <= i < |words| :: Word(words[i])
    ensures Fields(Join(words)) == words
  {
    if words != [] {
      FieldsOfWord(words[0]);
      if |words| == 1 {
        assert words == [words[0]];
      } else {
        FieldsOfJoin(words[1..]);
        FieldsPart(words[0], ' ', Join(words[1..]));
        assert words[0] + [' '] + Join(words[1..]) == words[0] + " " + Join(words[1..]);
      }
    }
  }

  // ---- which tags part words ----

  lemma {:induction false} SpacedAppend(a: seq<Node>, b: seq<Node>)
    ensures SpacedAll(a + b) == SpacedAll(a) + SpacedAll(b)
  {
    if a == [] {
      assert a + b == b && "" + SpacedAll(b) == SpacedAll(b);
    } else {
      assert (a + b)[0] == a[0] && (a + b)[1..] == a[1..] + b;
      SpacedAppend(a[1..], b);
      Regroup(Spaced(a[0]), SpacedAll(a[1..]), SpacedAll(b));
    }
  }

  lemma SpacedAround(before: seq<Node>, n: Node, after: seq<Node>)
    ensures SpacedAll(before + [n] + after) == SpacedAll(before) + Spaced(n) + SpacedAll(after)
  {
    SpacedAppend(before + [n], after);
    SpacedAppend(before, [n]);
    assert [n][1..] == [] && SpacedAll([n]) == Spaced(n) + "" == Spaced(n);
  }

  lemma Parted(a: string, k: string, b: string)
    ensures Fields(a + (" " + (k + " ")) + b) == Fields(a) + Fields(k) + Fields(b)
  {
    var s := a + (" " + (k + " ")) + b;
    assert s == a + [' '] + (k + [' '] + b);
    FieldsPart(a, ' ', k + [' '] + b);
    FieldsPart(k, ' ', b);
    Regroup(Fields(a), Fields(k), Fields(b));
  }

  /** A paragraph, list, table, quotation, heading or rule never welds its words to its neighbours'. */
  lemma BlocksPartWords(before: seq<Node>, tag: string, attrs: seq<Attr>, kids: seq<Node>, after: seq<Node>)
    requires tag in {"p", "ul", "ol", "li", "blockquote", "pre", "h2", "h3", "h4", "table", "thead", "tbody",
                     "tr", "th", "td"}
    ensures Fields(SpacedAll(before + [Element(tag, attrs, kids)] + after))
         == Fields(SpacedAll(before)) + Fields(SpacedAll(kids)) + Fields(SpacedAll(after))
  {
    var n := Element(tag, attrs, kids);
    SpacedAround(before, n, after);
    assert Spaced(n) == " " + (SpacedAll(kids) + " ");
    Parted(SpacedAll(before), SpacedAll(kids), SpacedAll(after));
  }

  /** Nor do words run on over a line break or a rule. */
  lemma BreaksPartWords(before: seq<Node>, tag: string, attrs: seq<Attr>, kids: seq<Node>, after: seq<Node>)
    requires tag in {"br", "hr"}
    ensures Fields(SpacedAll(before + [Element(tag, attrs, kids)] + after))
         == Fields(SpacedAll(before)) + Fields(SpacedAll(after))
  {
    SpacedAround(before, Element(tag, attrs, kids), after);
    assert Spaced(Element(tag, attrs, kids)) == [' '];
    FieldsPart(SpacedAll(before), ' ', SpacedAll(after));
  }

  /** Emphasis, code and links leave the text as it would be without them: no word is split from its own
      punctuation. An image says nothing. */
  lemma InlineTagsPartNothing(before: seq<Node>, tag: string, attrs: seq<Attr>, kids: seq<Node>, after: seq<Node>)
    requires tag in {"strong", "b", "em", "i", "u", "s", "del", "code", "a", "img"}
    ensures SpacedAll(before + [Element(tag, attrs, kids)] + after)
         == SpacedAll(before) + (if tag == "img" then "" else SpacedAll(kids)) + SpacedAll(after)
  {
    var n := Element(tag, attrs, kids);
    SpacedAround(before, n, after);
    assert Spaced(n) == if tag == "img" then "" else "" + (SpacedAll(kids) + "");
    assert "" + (SpacedAll(kids) + "") == SpacedAll(kids);
  }

  /** Every tag the sanitiser lets through is of one of these kinds. */
  lemma EveryTagIsBlockBreakOrInline(tag: string)
    ensures tag in ALLOWED_TAGS <==>
            tag in {"p", "ul", "ol", "li", "blockquote", "pre", "h2", "h3", "h4", "table", "thead", "tbody",
                    "tr", "th", "td"}
                   + {"br", "hr"} + {"strong", "b", "em", "i", "u", "s", "del", "code", "a", "img"}
  {
  }
}
