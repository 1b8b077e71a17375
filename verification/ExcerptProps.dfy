/** What an excerpt of sanitised prose says: the tree's own text, and nothing of its markup. */
module ExcerptProps {
  import opened Ascii
  import opened Wrappers
  import opened Markup
  import opened MarkupRoundTrip
  import opened Sanitize
  import opened SanitizeProps
  import opened Excerpt

  // ---- the structural reading of a tree ----

  /** The tree's text with one blank for each block tag, opening or closing, and none for inline tags. */
  function Spaced(n: Node): string
    decreases n, 1
  {
    match n
    case Text(data) => data
    case Other(kids) => SpacedAll(kids)
    case Element(tag, _, kids) =>
      if IsVoid(tag) then SpaceFor(tag) else SpaceFor(tag) + (SpacedAll(kids) + SpaceFor(tag))
  }

  function SpacedAll(ns: seq<Node>): string
    decreases ns, 0
  {
    if ns == [] then "" else Spaced(ns[0]) + SpacedAll(ns[1..])
  }

  /** The same before entities are decoded: what the loop leaves. */
  function Stripped(n: Node): string
    decreases n, 1
  {
    match n
    case Text(data) => Escape(data)
    case Other(kids) => StrippedAll(kids)
    case Element(tag, _, kids) =>
      if IsVoid(tag) then SpaceFor(tag) else SpaceFor(tag) + (StrippedAll(kids) + SpaceFor(tag))
  }

  function StrippedAll(ns: seq<Node>): string
    decreases ns, 0
  {
    if ns == [] then "" else Stripped(ns[0]) + StrippedAll(ns[1..])
  }

  // ---- decoding ----

  lemma UnescapeSpace(tag: string, rest: string)
    ensures Unescape(SpaceFor(tag) + rest) == SpaceFor(tag) + Unescape(rest)
  {
    if BlockTag(tag) {
      assert EscapeChar(' ') == " ";
      UnescapeChar(' ', rest);
    } else {
      assert "" + rest == rest;
    }
  }

  lemma {:induction false} UnescapeStripped(n: Node, rest: string)
    ensures Unescape(Stripped(n) + rest) == Spaced(n) + Unescape(rest)
    decreases n, 1
  {
    match n
    case Text(data) => UnescapeAppend(data, rest);
    case Other(kids) => UnescapeStrippedAll(kids, rest);
    case Element(tag, _, kids) =>
      if IsVoid(tag) {
        UnescapeSpace(tag, rest);
      } else {
        var sp := SpaceFor(tag);
        UnescapeSpace(tag, StrippedAll(kids) + (sp + rest));
        UnescapeStrippedAll(kids, sp + rest);
        UnescapeSpace(tag, rest);
        Surround(sp, StrippedAll(kids), rest);
        Surround(sp, SpacedAll(kids), Unescape(rest));
      }
  }

  lemma Surround(sp: string, inner: string, rest: string)
    ensures (sp + (inner + sp)) + rest == sp + (inner + (sp + rest))
  {
    Regroup(sp, inner + sp, rest);
    Regroup(inner, sp, rest);
  }

  lemma {:induction false} UnescapeStrippedAll(ns: seq<Node>, rest: string)
    ensures Unescape(StrippedAll(ns) + rest) == SpacedAll(ns) + Unescape(rest)
    decreases ns, 0
  {
    if ns == [] {
      assert "" + rest == rest;
    } else {
      UnescapeStripped(ns[0], StrippedAll(ns[1..]) + rest);
      UnescapeStrippedAll(ns[1..], rest);
      Regroup(Stripped(ns[0]), StrippedAll(ns[1..]), rest);
      Regroup(Spaced(ns[0]), SpacedAll(ns[1..]), Unescape(rest));
    }
  }

  // ---- tag names ----

  /** A lower-case name with nothing in it that a tag scanner would stop at. */
  predicate TagWord(s: string) {
    s != "" && Lower(s) == s && forall c <- s :: 'a' <= c <= 'z' || '0' <= c <= '9'
  }

  lemma AllowedTagsAreWords(tag: string)
    requires tag in ALLOWED_TAGS
    ensures TagWord(tag) && !IsCode(tag)
  {
    AllowedCharacters(tag);
    LowerIsIdentity(tag);
  }

  lemma AllowedCharacters(tag: string)
    requires tag in ALLOWED_TAGS
    ensures tag != "" && forall c <- tag :: 'a' <= c <= 'z' || '0' <= c <= '9'
  {
  }

  lemma {:induction false} LowerIsIdentity(s: string)
    requires forall c <- s :: 'a' <= c <= 'z' || '0' <= c <= '9'
    ensures Lower(s) == s
  {
    if s != "" {
      assert s[0] in s && forall c <- s[1..] :: c in s;
      LowerIsIdentity(s[1..]);
    }
  }

  lemma {:induction false} TrimRightKeepsWord(word: string, more: string)
    requires word != "" && !IsSpace(word[|word| - 1])
    ensures exists kept :: TrimRight(word + more) == word + kept && kept <= more
  {
    var s := word + more;
    if more == "" {
      assert s == word && s == word + "";
    } else if IsSpace(s[|s| - 1]) {
      var shorter := more[..|more| - 1];
      assert s[..|s| - 1] == word + shorter;
      TrimRightKeepsWord(word, shorter);
      var kept :| TrimRight(word + shorter) == word + kept && kept <= shorter;
      assert kept <= more;
    }
  }

  /** A tag's text up to its '>': the name is what the scanner finds, attributes or not. */
  lemma NameOfOpenTag(tag: string, more: string)
    requires TagWord(tag) && (more == "" || more[0] == ' ')
    ensures TagName(tag + more) == tag
  {
    assert tag[0] in tag && tag[|tag| - 1] in tag;
    var t := tag + more;
    assert t[0] == tag[0] && TrimLeft(t) == t;
    TrimRightKeepsWord(tag, more);
    var kept :| TrimRight(t) == tag + kept && kept <= more;
    assert (tag + kept)[0] == tag[0];
    UntilStops(tag, kept, {' ', '\t', '\r', '\n', '/'});
  }

  lemma NameOfEndTag(tag: string)
    requires TagWord(tag)
    ensures TagName("/" + tag) == tag
  {
    assert tag[|tag| - 1] in tag;
    var t := "/" + tag;
    assert TrimLeft(t) == t && t[|t| - 1] == tag[|tag| - 1];
    assert TrimRight(t) == t && t[1..] == tag;
    assert tag + "" == tag;
    UntilStops(tag, "", {' ', '\t', '\r', '\n', '/'});
  }

  // ---- stripping what was printed ----

  lemma {:induction false} StripText(raw: string, rest: string)
    requires forall c <- raw :: c != '<'
    ensures Strip(raw + rest) == raw + Strip(rest)
  {
    if raw == "" {
      assert "" + rest == rest;
    } else {
      var s := raw + rest;
      assert raw[0] in raw && s[0] == raw[0] && s[1..] == raw[1..] + rest;
      assert forall c <- raw[1..] :: c in raw;
      StripText(raw[1..], rest);
      Regroup([raw[0]], raw[1..], Strip(rest));
      assert raw == [raw[0]] + raw[1..];
    }
  }

  /** A whole tag, whatever its attribute values say. */
  lemma StripTag(content: string, rest: string)
    requires (forall c <- content :: c != '>') && !IsCode(TagName(content))
    ensures Strip("<" + (content + (">" + rest))) == SpaceFor(TagName(content)) + Strip(rest)
  {
    var s := "<" + (content + (">" + rest));
    assert s == ("<" + content) + (">" + rest);
    assert forall c <- "<" + content :: c != '>';
    UntilStops("<" + content, ">" + rest, {'>'});
    var end := |content| + 1;
    assert s[1..end] == content && s[end..] == ">" + rest && (">" + rest)[1..] == rest;
  }

  lemma {:induction false} AttrsAreInert(attrs: seq<Attr>)
    requires forall a <- attrs :: PrintableAttr(a)
    ensures forall c <- PrintAttrs(attrs) :: c != '>'
    ensures PrintAttrs(attrs) == "" || PrintAttrs(attrs)[0] == ' '
  {
    if attrs != [] {
      var a := attrs[0];
      assert a in attrs && PrintableAttr(a);
      AttrsAreInert(attrs[1..]);
      EscapedIsInert(a.val);
      var tail := "\"" + PrintAttrs(attrs[1..]);
      assert forall c <- tail :: c != '>';
      assert forall c <- Escape(a.val) + tail :: c != '>';
      assert forall c <- a.key :: c in a.key && c !in NAME_ENDS;
    }
  }

  lemma StripOpenTag(tag: string, attrs: seq<Attr>, rest: string)
    requires TagWord(tag) && !IsCode(tag) && (forall a <- attrs :: PrintableAttr(a))
    ensures Strip("<" + (tag + (PrintAttrs(attrs) + (">" + rest)))) == SpaceFor(tag) + Strip(rest)
  {
    AttrsAreInert(attrs);
    NameOfOpenTag(tag, PrintAttrs(attrs));
    var content := tag + PrintAttrs(attrs);
    assert forall c <- content :: c in tag || c in PrintAttrs(attrs);
    Regroup(tag, PrintAttrs(attrs), ">" + rest);
    StripTag(content, rest);
  }

  lemma StripEndTag(tag: string, rest: string)
    requires TagWord(tag) && !IsCode(tag)
    ensures Strip(EndTag(tag) + rest) == SpaceFor(tag) + Strip(rest)
  {
    NameOfEndTag(tag);
    StripTag("/" + tag, rest);
    EndTagText(tag, rest);
  }

  lemma EndTagText(tag: string, rest: string)
    ensures EndTag(tag) + rest == "<" + (("/" + tag) + (">" + rest))
  {
    assert "</" + tag == "<" + ("/" + tag);
    Regroup("<" + ("/" + tag), ">", rest);
    Regroup("<", "/" + tag, ">" + rest);
  }

  lemma {:induction false} StripPrinted(n: Node, inAnchor: bool, rest: string)
    requires Clean(n, inAnchor)
    ensures Strip(Print(n) + rest) == Stripped(n) + Strip(rest)
    decreases n, 1
  {
    match n
    case Text(data) =>
      EscapedIsInert(data);
      StripText(Escape(data), rest);
    case Element(tag, attrs, kids) =>
      CleanIsPrintable(n, inAnchor);
      AllowedTagsAreWords(tag);
      PrintedElement(n, rest);
      StripOpenTag(tag, attrs, Body(n, rest));
      if !IsVoid(tag) {
        StripPrintedAll(kids, inAnchor || tag == "a", EndTag(tag) + rest);
        StripEndTag(tag, rest);
        Surround(SpaceFor(tag), StrippedAll(kids), Strip(rest));
      }
  }

  lemma {:induction false} StripPrintedAll(ns: seq<Node>, inAnchor: bool, rest: string)
    requires CleanAll(ns, inAnchor)
    ensures Strip(PrintAll(ns) + rest) == StrippedAll(ns) + Strip(rest)
    decreases ns, 0
  {
    if ns == [] {
      assert "" + rest == rest && "" + Strip(rest) == Strip(rest);
    } else {
      StripPrinted(ns[0], inAnchor, PrintAll(ns[1..]) + rest);
      StripPrintedAll(ns[1..], inAnchor, rest);
      Regroup(Print(ns[0]), PrintAll(ns[1..]), rest);
      Regroup(Stripped(ns[0]), StrippedAll(ns[1..]), Strip(rest));
    }
  }

  /** On any sanitiser output the byte loop agrees with the tree: the text, one blank per block tag,
      nothing for inline tags, whatever quotes or brackets stood in attribute values. */
  lemma StrippingReadsTheTree(ns: seq<Node>)
    ensures Unescape(Strip(PrintAll(KeptAll(ns, false)))) == SpacedAll(KeptAll(ns, false))
  {
    var kept := KeptAll(ns, false);
    KeptAllIsClean(ns, false);
    StripPrintedAll(kept, false, "");
    assert PrintAll(kept) + "" == PrintAll(kept);
    UnescapeStrippedAll(kept, "");
    assert StrippedAll(kept) + "" == StrippedAll(kept) && SpacedAll(kept) + "" == SpacedAll(kept);
  }

  // ---- the whole excerpt ----

  function NonBlank(s: string): string {
    if s == "" then "" else (if IsSpace(s[0]) then "" else [s[0]]) + NonBlank(s[1..])
  }

  lemma {:induction false} NonBlankAppend(a: string, b: string)
    ensures NonBlank(a + b) == NonBlank(a) + NonBlank(b)
  {
    if a == "" {
      assert a + b == b;
    } else {
      assert (a + b)[1..] == a[1..] + b;
      NonBlankAppend(a[1..], b);
    }
  }

  lemma SpaceIsBlank(tag: string)
    ensures NonBlank(SpaceFor(tag)) == ""
  {
    assert " "[1..] == "";
  }

  lemma {:induction false} SpacedIsProse(n: Node, inAnchor: bool)
    requires Clean(n, inAnchor)
    ensures NonBlank(Spaced(n)) == NonBlank(Prose(n))
    decreases n, 1
  {
    if n.Element? {
      AllowedTagsAreWords(n.tag);
      SpaceIsBlank(n.tag);
      if !IsVoid(n.tag) {
        SpacedAllIsProse(n.kids, inAnchor || n.tag == "a");
        NonBlankAppend(SpacedAll(n.kids), SpaceFor(n.tag));
        NonBlankAppend(SpaceFor(n.tag), SpacedAll(n.kids) + SpaceFor(n.tag));
      }
    }
  }

  /** The blanks are the only difference between this reading and the prose of the tree. */
  lemma {:induction false} SpacedAllIsProse(ns: seq<Node>, inAnchor: bool)
    requires CleanAll(ns, inAnchor)
    ensures NonBlank(SpacedAll(ns)) == NonBlank(ProseAll(ns))
    decreases ns, 0
  {
    if ns != [] {
      SpacedIsProse(ns[0], inAnchor);
      SpacedAllIsProse(ns[1..], inAnchor);
      NonBlankAppend(Spaced(ns[0]), SpacedAll(ns[1..]));
      NonBlankAppend(Prose(ns[0]), ProseAll(ns[1..]));
    }
  }

  /** Every blank is a single ' ' between two words. */
  predicate Tidy(s: string) {
    && (forall i | 0 <= i < |s| :: IsSpace(s[i]) ==> s[i] == ' ' && 0 < i < |s| - 1)
    && (forall i | 0 <= i < |s| - 1 :: s[i] != ' ' || s[i + 1] != ' ')
  }

  predicate Word(w: string) {
    w != "" && forall c <- w :: !IsSpace(c)
  }

  lemma {:induction false} WordEndsAtBlank(s: string)
    ensures forall i | 0 <= i < WordEnd(s) :: !IsSpace(s[i])
  {
    if s != "" && !IsSpace(s[0]) {
      WordEndsAtBlank(s[1..]);
      forall i | 0 <= i < WordEnd(s) ensures !IsSpace(s[i]) {
        if i > 0 { assert s[i] == s[1..][i - 1]; }
      }
    }
  }

  lemma {:induction false} FieldsAreWords(s: string)
    ensures forall w <- Fields(s) :: Word(w)
    decreases |s|
  {
    if s == "" {
    } else if IsSpace(s[0]) {
      FieldsAreWords(s[1..]);
    } else {
      WordEndsAtBlank(s);
      FieldsAreWords(s[WordEnd(s)..]);
    }
  }

  lemma {:induction false} JoinIsTidy(words: seq<string>)
    requires forall w <- words :: Word(w)
    ensures Tidy(Join(words))
    ensures words != [] ==> Join(words) != "" && !IsSpace(Join(words)[0]) && !IsSpace(Join(words)[|Join(words)| - 1])
  {
    if words != [] {
      var w := words[0];
      assert w in words && w[0] in w && w[|w| - 1] in w;
      if |words| > 1 {
        JoinIsTidy(words[1..]);
        var rest := Join(words[1..]);
        JoinTwo(w, rest);
      }
    }
  }

  lemma JoinTwo(w: string, rest: string)
    requires Word(w) && Tidy(rest) && rest != "" && !IsSpace(rest[0]) && !IsSpace(rest[|rest| - 1])
    ensures var s := w + " " + rest;
            Tidy(s) && s != "" && !IsSpace(s[0]) && !IsSpace(s[|s| - 1])
  {
    var s := w + " " + rest;
    forall i | 0 <= i < |s|
      ensures s[i] == if i < |w| then w[i] else if i == |w| then ' ' else rest[i - |w| - 1]
    {
    }
    forall i | 0 <= i < |w| ensures !IsSpace(w[i]) {
      assert w[i] in w;
    }
  }

  lemma {:induction false} JoinKeeps(words: seq<string>)
    ensures |words| > 1 ==> NonBlank(Join(words)) == NonBlank(words[0]) + NonBlank(Join(words[1..]))
  {
    if |words| > 1 {
      NonBlankAppend(words[0] + " ", Join(words[1..]));
      NonBlankAppend(words[0], " ");
      assert " "[1..] == "" && NonBlank(" ") == "";
    }
  }

  lemma {:induction false} FieldsKeep(s: string)
    ensures NonBlank(Join(Fields(s))) == NonBlank(s)
    decreases |s|
  {
    if s == "" {
    } else if IsSpace(s[0]) {
      FieldsKeep(s[1..]);
    } else {
      var n := WordEnd(s);
      FieldsKeep(s[n..]);
      assert s == s[..n] + s[n..];
      NonBlankAppend(s[..n], s[n..]);
      JoinKeeps(Fields(s));
      if Fields(s[n..]) != [] {
        assert Fields(s)[1..] == Fields(s[n..]);
      }
    }
  }

  /** Collapsing whitespace tidies a text and loses none of its words. */
  lemma CollapseTidies(s: string)
    ensures Tidy(Collapse(s)) && NonBlank(Collapse(s)) == NonBlank(s)
  {
    FieldsAreWords(s);
    JoinIsTidy(Fields(s));
    FieldsKeep(s);
  }

  /** An excerpt of sanitised HTML is the tree's reading, collapsed and cut: at most n + 1
      characters, and when it fits, every word of the prose in order. */
  lemma ExcerptReadsTheTree(n: int, ns: seq<Node>)
    requires ParsedAll(ns)
    ensures ExcerptOf(n, PrintAll(KeptAll(ns, false))) == Shortened(n, Collapse(SpacedAll(KeptAll(ns, false))))
    ensures |ExcerptOf(n, PrintAll(KeptAll(ns, false)))| <= if n <= 0 then 0 else n + 1
    ensures |Collapse(SpacedAll(KeptAll(ns, false)))| <= n ==>
              Tidy(ExcerptOf(n, PrintAll(KeptAll(ns, false))))
              && NonBlank(ExcerptOf(n, PrintAll(KeptAll(ns, false)))) == NonBlank(ProseAll(ns))
  {
    var kept := KeptAll(ns, false);
    StrippingReadsTheTree(ns);
    ShortenedIsShort(n, Collapse(SpacedAll(kept)));
    CollapseTidies(SpacedAll(kept));
    KeptAllIsClean(ns, false);
    SpacedAllIsProse(kept, false);
    KeptAllKeepsProse(ns, false);
  }

  // ---- the branch sanitised input never reaches ----

  lemma {:induction false} LowerSlice(s: string, i: nat, j: nat)
    requires i <= j <= |s|
    ensures Lower(s)[i..j] == Lower(s[i..j])
  {
    if i == j {
    } else if i == 0 {
      LowerSlice(s[1..], 0, j - 1);
      assert s[0..j][1..] == s[1..][0..j - 1];
      assert s[0..j][0] == s[0];
    } else {
      LowerSlice(s[1..], i - 1, j - 1);
      assert s[1..][i - 1..j - 1] == s[i..j];
      assert Lower(s)[i..j] == Lower(s[1..])[i - 1..j - 1];
    }
  }

  lemma {:induction false} IndexOfFinds(s: string, p: string)
    ensures var i := IndexOf(s, p); i.Some? ==> s[i.value..i.value + |p|] == p
  {
    if !StartsWith(s, p) && s != "" {
      IndexOfFinds(s[1..], p);
      var i := IndexOf(s[1..], p);
      if i.Some? {
        assert s[1..][i.value..i.value + |p|] == s[i.value + 1..i.value + 1 + |p|];
      }
    }
  }

  lemma {:induction false} LowerKeepsAngles(s: string)
    requires '<' !in Lower(s)
    ensures '<' !in s
  {
    if s != "" {
      assert Lower(s) == [LowerChar(s[0])] + Lower(s[1..]);
      assert LowerChar(s[0]) in Lower(s);
      forall c <- Lower(s[1..]) ensures c in Lower(s) {
      }
      LowerKeepsAngles(s[1..]);
    }
  }

  /** What stands where a closing tag was found, past its first character. */
  lemma FoundTail(low: string, closing: string, k: nat)
    requires closing != "" && IndexOf(low, closing) == Some(k)
    ensures k + |closing| <= |low| && low[k + 1..k + |closing|] == closing[1..]
  {
    IndexOfFinds(low, closing);
    assert low[k..k + |closing|][1..] == low[k + 1..k + |closing|];
  }

  lemma CodeNameIsPlain(name: string, t: string)
    requires IsCode(name) && Lower(t) == "/" + name
    ensures forall c <- t :: c != '<'
  {
    if name == "script" {
      assert '<' !in "/script";
    } else {
      assert '<' !in "/style";
    }
    LowerKeepsAngles(t);
  }

  lemma PlainComesOut(s: string, i: nat, j: nat)
    requires i <= j <= |s| && forall c <- s[i..j] :: c != '<'
    ensures j - i <= |Strip(s[i..])| && Strip(s[i..])[..j - i] == s[i..j]
  {
    assert s[i..] == s[i..j] + s[j..];
    StripText(s[i..j], s[j..]);
  }

  /** Past a script or style the loop resumes one byte into the closing tag, not after it: unless no
      closing tag follows, "/script" or "/style" comes out as text. */
  lemma CodeLeaksItsClosingTag(name: string, s: string)
    requires s != "" && IsCode(name)
    ensures IndexOf(Lower(s), "</" + name).None? ==> AfterTag(name, s) == ""
    ensures IndexOf(Lower(s), "</" + name).Some? ==>
              |name| < |AfterTag(name, s)| && Lower(AfterTag(name, s)[..|name| + 1]) == "/" + name
  {
    var found := IndexOf(Lower(s), "</" + name);
    if found.Some? {
      var k, end := found.value, found.value + 2 + |name|;
      FoundTail(Lower(s), "</" + name, k);
      assert ("</" + name)[1..] == "/" + name;
      LowerSlice(s, k + 1, end);
      CodeNameIsPlain(name, s[k + 1..end]);
      PlainComesOut(s, k + 1, end);
      assert AfterTag(name, s) == Strip(s[k + 1..]);
    }
  }

  lemma TagNameOfCode(name: string)
    requires IsCode(name)
    ensures TagName(name) == name
  {
    if name == "script" {
      CodeWord("script");
    } else {
      CodeWord("style");
    }
  }

  lemma NoBracketInCode(name: string)
    requires IsCode(name)
    ensures forall c <- name :: c != '>'
  {
  }

  lemma CodeWord(name: string)
    requires TagWord(name) && name[0] != '/'
    ensures TagName(name) == name
  {
    assert name + "" == name;
    NameOfOpenTag(name, "");
  }

  /** Where the loop meets a script or style. */
  lemma StripCode(name: string, s: string)
    requires IsCode(name)
    ensures Strip("<" + (name + (">" + s))) == AfterTag(name, ">" + s)
  {
    var text := "<" + (name + (">" + s));
    TagNameOfCode(name);
    NoBracketInCode(name);
    assert text == ("<" + name) + (">" + s);
    UntilStops("<" + name, ">" + s, {'>'});
    assert text[1..|name| + 1] == name && text[|name| + 1..] == ">" + s;
  }

  lemma FoundPastOneMore(t: string, p: string)
    requires p != "" && p[0] != '>'
    ensures IndexOf(">" + t, p) == if IndexOf(t, p).Some? then Some(IndexOf(t, p).value + 1) else None
  {
    assert (">" + t)[0] == '>' && (">" + t)[1..] == t;
    assert !StartsWith(">" + t, p);
  }

  /** Of an excerpt's input that opens with a script or style: nothing of it is left if no closing tag
      follows; if one does, what is left begins with that tag's own slash and name. */
  lemma CodeBlockLeaks(name: string, s: string)
    requires IsCode(name)
    ensures var left := Strip("<" + (name + (">" + s)));
            && (left == "" <==> IndexOf(Lower(s), "</" + name).None?)
            && (left != "" ==> |name| < |left| && Lower(left[..|name| + 1]) == "/" + name)
  {
    StripCode(name, s);
    LowerAfterBracket(s);
    FoundPastOneMore(Lower(s), "</" + name);
    CodeLeaksItsClosingTag(name, ">" + s);
  }

  lemma LowerAfterBracket(s: string)
    ensures Lower(">" + s) == ">" + Lower(s)
  {
    assert (">" + s)[1..] == s && LowerChar('>') == '>';
  }
}
