/** What the policy promises about its output, for every parsed tree. */
module SanitizeProps {
  import opened Ascii
  import opened Wrappers
  import opened Markup
  import opened MarkupRoundTrip
  import opened Sanitize

  // ---- only the allowlist, and no anchor inside an anchor ----

  /** A node of clean output. `inAnchor` says whether an anchor is open around it. */
  predicate Clean(n: Node, inAnchor: bool)
    decreases n, 1
  {
    match n
    case Text(_) => true
    case Other(_) => false
    case Element(tag, attrs, kids) =>
      && tag in ALLOWED_TAGS
      && (tag == "a" ==> !inAnchor)
      && (forall a <- attrs :: KeepsAttr(tag, a))
      && (IsVoid(tag) ==> kids == [])
      && CleanAll(kids, inAnchor || tag == "a")
  }

  predicate CleanAll(ns: seq<Node>, inAnchor: bool)
    decreases ns, 0
  {
    ns == [] || (Clean(ns[0], inAnchor) && CleanAll(ns[1..], inAnchor))
  }

  lemma {:induction false} CleanAppend(a: seq<Node>, b: seq<Node>, inAnchor: bool)
    ensures CleanAll(a + b, inAnchor) <==> CleanAll(a, inAnchor) && CleanAll(b, inAnchor)
  {
    if a == [] {
      assert a + b == b;
    } else {
      assert (a + b)[1..] == a[1..] + b;
      CleanAppend(a[1..], b, inAnchor);
    }
  }

  lemma {:induction false} KeptAttrsAreKept(tag: string, attrs: seq<Attr>)
    ensures forall a <- KeptAttrs(tag, attrs) :: KeepsAttr(tag, a)
    ensures (forall a <- attrs :: KeepsAttr(tag, a)) ==> KeptAttrs(tag, attrs) == attrs
  {
    if attrs != [] {
      KeptAttrsAreKept(tag, attrs[1..]);
      assert attrs == [attrs[0]] + attrs[1..];
      if forall a <- attrs :: KeepsAttr(tag, a) { assert attrs[0] in attrs; }
    }
  }

  lemma CleanOne(n: Node, inAnchor: bool)
    ensures CleanAll([n], inAnchor) <==> Clean(n, inAnchor)
  {
    assert [n][0] == n && [n][1..] == [] && CleanAll([], inAnchor);
  }

  lemma {:induction false} KeptIsClean(n: Node, inAnchor: bool)
    ensures CleanAll(Kept(n, inAnchor), inAnchor)
    decreases n, 1
  {
    match n
    case Text(_) => CleanOne(n, inAnchor);
    case Other(kids) => KeptAllIsClean(kids, inAnchor);
    case Element(tag, attrs, kids) =>
      KeptAllIsClean(kids, inAnchor || tag == "a");
      KeptAllIsClean(kids, inAnchor);
      if Kept(n, inAnchor) != [] && tag in ALLOWED_TAGS && !(tag == "a" && inAnchor) {
        KeptAttrsAreKept(tag, attrs);
        var kept := Kept(n, inAnchor)[0];
        assert Clean(kept, inAnchor) && Kept(n, inAnchor) == [kept];
        CleanOne(kept, inAnchor);
      }
  }

  /** For every tree, the output uses only allowlisted tags and attributes, only safe URLs in the
      attributes that hold them, and never opens an anchor inside another. */
  lemma {:induction false} KeptAllIsClean(ns: seq<Node>, inAnchor: bool)
    ensures CleanAll(KeptAll(ns, inAnchor), inAnchor)
    decreases ns, 0
  {
    if ns != [] {
      KeptIsClean(ns[0], inAnchor);
      KeptAllIsClean(ns[1..], inAnchor);
      CleanAppend(Kept(ns[0], inAnchor), KeptAll(ns[1..], inAnchor), inAnchor);
    }
  }

  lemma {:induction false} CleanIsKept(n: Node, inAnchor: bool)
    requires Clean(n, inAnchor)
    ensures Kept(n, inAnchor) == [n]
    decreases n, 1
  {
    if n.Element? {
      KeptAttrsAreKept(n.tag, n.attrs);
      CleanAllIsKept(n.kids, inAnchor || n.tag == "a");
    }
  }

  lemma {:induction false} CleanAllIsKept(ns: seq<Node>, inAnchor: bool)
    requires CleanAll(ns, inAnchor)
    ensures KeptAll(ns, inAnchor) == ns
    decreases ns, 0
  {
    if ns != [] {
      CleanIsKept(ns[0], inAnchor);
      CleanAllIsKept(ns[1..], inAnchor);
      assert ns == [ns[0]] + ns[1..];
    }
  }

  /** Clean forests are exactly the ones the policy leaves alone; so sanitising twice is sanitising once. */
  lemma FixedPointsAreTheCleanForests(ns: seq<Node>, inAnchor: bool)
    ensures KeptAll(ns, inAnchor) == ns <==> CleanAll(ns, inAnchor)
    ensures KeptAll(KeptAll(ns, inAnchor), inAnchor) == KeptAll(ns, inAnchor)
  {
    KeptAllIsClean(ns, inAnchor);
    CleanAllIsKept(KeptAll(ns, inAnchor), inAnchor);
    if CleanAll(ns, inAnchor) {
      CleanAllIsKept(ns, inAnchor);
    }
  }

  // ---- what the links that survive point at ----

  function AttrsIn(n: Node): set<Attr>
    decreases n, 1
  {
    match n
    case Text(_) => {}
    case Element(_, attrs, kids) => (set a <- attrs) + AttrsInAll(kids)
    case Other(kids) => AttrsInAll(kids)
  }

  function AttrsInAll(ns: seq<Node>): set<Attr>
    decreases ns, 0
  {
    if ns == [] then {} else AttrsIn(ns[0]) + AttrsInAll(ns[1..])
  }

  /** What both URL tests together leave of an attribute. */
  predicate Survives(a: Attr) {
    a.ns == "" && (a.key == "href" || a.key == "src" ==> SafeURL(a.val))
  }

  lemma {:induction false} AttrsInAppend(a: seq<Node>, b: seq<Node>)
    ensures AttrsInAll(a + b) == AttrsInAll(a) + AttrsInAll(b)
  {
    if a == [] {
      assert a + b == b;
    } else {
      assert (a + b)[1..] == a[1..] + b;
      AttrsInAppend(a[1..], b);
    }
  }

  lemma {:induction false} KeptAttrsSurvive(tag: string, attrs: seq<Attr>)
    ensures forall a <- KeptAttrs(tag, attrs) :: a in attrs && Survives(a)
  {
    if attrs != [] { KeptAttrsSurvive(tag, attrs[1..]); }
  }

  lemma {:induction false} AttrsSurvive(n: Node, inAnchor: bool)
    ensures forall a | a in AttrsInAll(Kept(n, inAnchor)) :: a in AttrsIn(n) && Survives(a)
    decreases n, 1
  {
    match n
    case Text(_) => assert [n][1..] == [];
    case Other(kids) => AttrsSurviveAll(kids, inAnchor);
    case Element(tag, attrs, kids) =>
      AttrsSurviveAll(kids, inAnchor || tag == "a");
      AttrsSurviveAll(kids, inAnchor);
      KeptAttrsSurvive(tag, attrs);
      var kept := Kept(n, inAnchor);
      if |kept| == 1 { assert kept[1..] == []; }
  }

  lemma {:induction false} AttrsSurviveAll(ns: seq<Node>, inAnchor: bool)
    ensures forall a | a in AttrsInAll(KeptAll(ns, inAnchor)) :: a in AttrsInAll(ns) && Survives(a)
    decreases ns, 0
  {
    if ns != [] {
      AttrsSurvive(ns[0], inAnchor);
      AttrsSurviveAll(ns[1..], inAnchor);
      AttrsInAppend(Kept(ns[0], inAnchor), KeptAll(ns[1..], inAnchor));
    }
  }

  /** In a tree whose attribute keys are in lower case, as a parser delivers them, every link and image
      source in the output has no scheme or one of the three that cannot execute. */
  lemma OutputLinksAreSafe(ns: seq<Node>)
    requires forall a | a in AttrsInAll(ns) :: a.key == Lower(a.key)
    ensures forall a | a in AttrsInAll(KeptAll(ns, false)) && Lower(a.key) in {"href", "src"} ::
              SchemeOf(Lower(Squeezed(a.val))) in {None, Some("http"), Some("https"), Some("mailto")}
  {
    AttrsSurviveAll(ns, false);
    forall a | a in AttrsInAll(KeptAll(ns, false)) && Lower(a.key) in {"href", "src"}
      ensures SchemeOf(Lower(Squeezed(a.val))) in {None, Some("http"), Some("https"), Some("mailto")}
    {
      assert a.key == Lower(a.key) && Survives(a);
      SafeMeansKnownScheme(a.val);
    }
  }

  /** The allowlist ignores case and the URL test does not: a key in upper case would be kept untested. */
  lemma UpperCaseKeysGoUntested(val: string)
    ensures KeepsAttr("a", Attr("", "HREF", val))
  {
    assert "HREF"[1..] == "REF" && "REF"[1..] == "EF" && "EF"[1..] == "F" && "F"[1..] == "";
    assert Lower("HREF") == "href";
  }

  // ---- the words stay ----

  /** The text of a tree outside script and style, in document order. */
  function Prose(n: Node): string
    decreases n, 1
  {
    match n
    case Text(data) => data
    case Element(tag, _, kids) => if tag == "script" || tag == "style" then "" else ProseAll(kids)
    case Other(kids) => ProseAll(kids)
  }

  function ProseAll(ns: seq<Node>): string
    decreases ns, 0
  {
    if ns == [] then "" else Prose(ns[0]) + ProseAll(ns[1..])
  }

  /** What the parser delivers: void elements have no children. */
  predicate Parsed(n: Node)
    decreases n, 1
  {
    match n
    case Text(_) => true
    case Element(tag, _, kids) => (IsVoid(tag) ==> kids == []) && ParsedAll(kids)
    case Other(kids) => ParsedAll(kids)
  }

  predicate ParsedAll(ns: seq<Node>)
    decreases ns, 0
  {
    ns == [] || (Parsed(ns[0]) && ParsedAll(ns[1..]))
  }

  lemma {:induction false} ProseAppend(a: seq<Node>, b: seq<Node>)
    ensures ProseAll(a + b) == ProseAll(a) + ProseAll(b)
  {
    if a == [] {
      assert a + b == b;
    } else {
      assert (a + b)[1..] == a[1..] + b;
      ProseAppend(a[1..], b);
      Regroup(Prose(a[0]), ProseAll(a[1..]), ProseAll(b));
    }
  }

  lemma {:induction false} KeptKeepsProse(n: Node, inAnchor: bool)
    requires Parsed(n)
    ensures ProseAll(Kept(n, inAnchor)) == Prose(n)
    decreases n, 1
  {
    match n
    case Text(_) => assert [n][1..] == [];
    case Other(kids) => KeptAllKeepsProse(kids, inAnchor);
    case Element(tag, attrs, kids) =>
      KeptAllKeepsProse(kids, inAnchor || tag == "a");
      KeptAllKeepsProse(kids, inAnchor);
      var kept := Kept(n, inAnchor);
      if |kept| == 1 { assert kept[1..] == []; }
  }

  /** Every word outside script and style survives, in order: tags go, prose stays. */
  lemma {:induction false} KeptAllKeepsProse(ns: seq<Node>, inAnchor: bool)
    requires ParsedAll(ns)
    ensures ProseAll(KeptAll(ns, inAnchor)) == ProseAll(ns)
    decreases ns, 0
  {
    if ns != [] {
      KeptKeepsProse(ns[0], inAnchor);
      KeptAllKeepsProse(ns[1..], inAnchor);
      ProseAppend(Kept(ns[0], inAnchor), KeptAll(ns[1..], inAnchor));
    }
  }

  // ---- print, parse, sanitise again ----

  lemma AllowedNamesArePlain(tag: string)
    requires tag in ALLOWED_TAGS
    ensures PlainName(tag)
  {
  }

  predicate Letters(s: string) {
    forall c <- s :: 'a' <= LowerChar(c) <= 'z'
  }

  lemma {:induction false} LowerLetters(s: string)
    requires forall c <- Lower(s) :: 'a' <= c <= 'z'
    ensures Letters(s)
  {
    if s != "" {
      assert Lower(s)[0] in Lower(s);
      assert forall c <- Lower(s[1..]) :: c in Lower(s);
      LowerLetters(s[1..]);
    }
  }

  lemma AllowedKeysArePlain(tag: string, key: string)
    requires Lower(key) in AllowedAttrs(tag)
    ensures PlainName(key)
  {
    assert forall c <- Lower(key) :: 'a' <= c <= 'z';
    LowerLetters(key);
  }

  lemma {:induction false} CleanIsPrintable(n: Node, inAnchor: bool)
    requires Clean(n, inAnchor)
    ensures Printable(n)
    decreases n, 1
  {
    if n.Element? {
      AllowedNamesArePlain(n.tag);
      forall a <- n.attrs ensures PrintableAttr(a) {
        assert KeepsAttr(n.tag, a);
        AllowedKeysArePlain(n.tag, a.key);
      }
      CleanAllIsPrintable(n.kids, inAnchor || n.tag == "a");
    }
  }

  lemma {:induction false} CleanAllIsPrintable(ns: seq<Node>, inAnchor: bool)
    requires CleanAll(ns, inAnchor)
    ensures PrintableAll(ns)
    decreases ns, 0
  {
    if ns != [] {
      CleanIsPrintable(ns[0], inAnchor);
      CleanAllIsPrintable(ns[1..], inAnchor);
    }
  }

  lemma {:induction false} MergeStaysClean(n: Node, inAnchor: bool)
    requires Clean(n, inAnchor)
    ensures Clean(Merge(n), inAnchor)
    decreases n, 1
  {
    if n.Element? { MergeAllStaysClean(n.kids, inAnchor || n.tag == "a"); }
  }

  lemma {:induction false} MergeAllStaysClean(ns: seq<Node>, inAnchor: bool)
    requires CleanAll(ns, inAnchor)
    ensures CleanAll(MergeAll(ns), inAnchor)
    decreases ns, 0
  {
    if ns != [] {
      MergeStaysClean(ns[0], inAnchor);
      MergeAllStaysClean(ns[1..], inAnchor);
      var n, rest := Merge(ns[0]), MergeAll(ns[1..]);
      assert ([n] + rest)[1..] == rest;
      if n.Text? && rest != [] && rest[0].Text? {
        var glued := [Text(n.data + rest[0].data)] + rest[1..];
        assert glued[1..] == rest[1..];
      }
    }
  }

  /** What the policy writes reads back, in the printed grammar, as the very forest it kept, adjacent
      text merged: nothing in the output can be mistaken for markup the policy did not write. */
  lemma OutputParsesToWhatWasKept(ns: seq<Node>)
    ensures Parse(PrintAll(KeptAll(ns, false))) == Some(MergeAll(KeptAll(ns, false)))
    ensures CleanAll(MergeAll(KeptAll(ns, false)), false)
  {
    KeptAllIsClean(ns, false);
    CleanAllIsPrintable(KeptAll(ns, false), false);
    PrintParses(KeptAll(ns, false));
    MergeAllStaysClean(KeptAll(ns, false), false);
  }

  /** Sanitising the output, as text, gives the same text. */
  lemma SanitisingTwiceIsSanitisingOnce(ns: seq<Node>)
    ensures var out := PrintAll(KeptAll(ns, false));
            Parse(out).Some? && PrintAll(KeptAll(Parse(out).value, false)) == out
  {
    OutputParsesToWhatWasKept(ns);
    var kept := KeptAll(ns, false);
    CleanAllIsKept(MergeAll(kept), false);
    MergeAllPrints(kept);
  }
}
