/**
 The site's HTML policy (internal/sanitize/sanitize.go): rebuild the parsed tree
 from an allowlist and print it.

 `Kept` is the forest the policy keeps of a node; `WriteSanitized` is the
 source's recursive printer, proved to write exactly that forest. The trees are what
 the HTML parser delivers: an element's atom is its tag name, in lower case.
 */
module Sanitize {
  import opened Ascii
  import opened Wrappers
  import opened Markup
  import opened MarkupRoundTrip

  const ALLOWED_TAGS: set<string> := {
    "p", "br", "strong", "b", "em", "i", "u", "s", "del", "ul", "ol", "li", "blockquote", "code", "pre",
    "h2", "h3", "h4", "a", "img", "hr", "table", "thead", "tbody", "tr", "th", "td"
  }

  function AllowedAttrs(tag: string): set<string> {
    if tag == "a" then {"href", "title"}
    else if tag == "img" then {"src", "alt", "title"}
    else {}
  }

  // ---- URLs ----

  /** Control characters and blanks go first: they are how a scheme hides from a prefix test. */
  function Squeezed(s: string): string {
    if s == "" then "" else (if s[0] <= ' ' || s[0] == '\U{7F}' then "" else [s[0]]) + Squeezed(s[1..])
  }

  predicate SafeURL(raw: string) {
    var s := Lower(Squeezed(raw));
    var i := Until(s, {':'});
    var j := Until(s, {'/', '?', '#'});
    if i < |s| && (j == |s| || i < j) then s[..i] == "http" || s[..i] == "https" || s[..i] == "mailto"
    else true
  }

  /** The scheme of a URI reference (sections 3.1 and 4.2 of RFC 3986): what stands before the first
      of ": / ? #", if that is a colon. */
  function SchemeOf(s: string): Option<string> {
    var n := Until(s, {':', '/', '?', '#'});
    if n < |s| && s[n] == ':' then Some(s[..n]) else None
  }

  lemma {:induction false} UntilUnion(s: string, a: set<char>, b: set<char>)
    ensures Until(s, a + b) == if Until(s, a) <= Until(s, b) then Until(s, a) else Until(s, b)
  {
    if s != "" { UntilUnion(s[1..], a, b); }
  }

  /** A URL is kept if and only if, blanks and controls aside and in any case, it has no scheme or
      one of the three that cannot execute. */
  lemma SafeMeansKnownScheme(raw: string)
    ensures SafeURL(raw) <==>
            SchemeOf(Lower(Squeezed(raw))) in {None, Some("http"), Some("https"), Some("mailto")}
  {
    var s := Lower(Squeezed(raw));
    UntilUnion(s, {':'}, {'/', '?', '#'});
    assert {':'} + {'/', '?', '#'} == {':', '/', '?', '#'};
  }

  lemma {:induction false} SqueezedAppend(a: string, b: string)
    ensures Squeezed(a + b) == Squeezed(a) + Squeezed(b)
  {
    if a == "" {
      assert a + b == b;
    } else {
      assert (a + b)[1..] == a[1..] + b;
      SqueezedAppend(a[1..], b);
    }
  }

  /** Hiding a character in a URL that a browser would ignore never changes the verdict. */
  lemma HiddenCharactersDecideNothing(before: string, c: char, after: string)
    requires c <= ' ' || c == '\U{7F}'
    ensures SafeURL(before + [c] + after) == SafeURL(before + after)
  {
    SqueezedAppend(before + [c], after);
    SqueezedAppend(before, [c]);
    SqueezedAppend(before, after);
    assert [c][1..] == "" && Squeezed([c]) == "";
    assert Squeezed(before + [c] + after) == Squeezed(before + after);
  }

  // ---- the policy, as a tree rewriting ----

  predicate KeepsAttr(tag: string, a: Attr) {
    && a.ns == ""
    && Lower(a.key) in AllowedAttrs(tag)
    && (a.key == "href" || a.key == "src" ==> SafeURL(a.val))
  }

  function KeptAttrs(tag: string, attrs: seq<Attr>): seq<Attr> {
    if attrs == [] then []
    else (if KeepsAttr(tag, attrs[0]) then [attrs[0]] else []) + KeptAttrs(tag, attrs[1..])
  }

  function Kept(n: Node, inAnchor: bool): seq<Node>
    decreases n, 1
  {
    match n
    case Text(_) => [n]
    case Other(kids) => KeptAll(kids, inAnchor)
    case Element(tag, attrs, kids) =>
      if tag == "script" || tag == "style" then []
      else if tag == "a" && inAnchor then KeptAll(kids, true)
      else if tag !in ALLOWED_TAGS then KeptAll(kids, inAnchor)
      else if IsVoid(tag) then [Element(tag, KeptAttrs(tag, attrs), [])]
      else [Element(tag, KeptAttrs(tag, attrs), KeptAll(kids, inAnchor || tag == "a"))]
  }

  function KeptAll(ns: seq<Node>, inAnchor: bool): seq<Node>
    decreases ns, 0
  {
    if ns == [] then [] else Kept(ns[0], inAnchor) + KeptAll(ns[1..], inAnchor)
  }

  lemma {:induction false} KeptAppend(a: seq<Node>, b: seq<Node>, inAnchor: bool)
    ensures KeptAll(a + b, inAnchor) == KeptAll(a, inAnchor) + KeptAll(b, inAnchor)
  {
    if a == [] {
      assert a + b == b;
    } else {
      assert (a + b)[1..] == a[1..] + b;
      KeptAppend(a[1..], b, inAnchor);
      Regroup(Kept(a[0], inAnchor), KeptAll(a[1..], inAnchor), KeptAll(b, inAnchor));
    }
  }

  lemma PrintKeptNext(kids: seq<Node>, i: nat, inAnchor: bool)
    requires i < |kids|
    ensures PrintAll(KeptAll(kids[..i + 1], inAnchor))
         == PrintAll(KeptAll(kids[..i], inAnchor)) + PrintAll(Kept(kids[i], inAnchor))
  {
    assert kids[..i + 1] == kids[..i] + [kids[i]];
    KeptAppend(kids[..i], [kids[i]], inAnchor);
    assert [kids[i]][1..] == [] && KeptAll([kids[i]], inAnchor) == Kept(kids[i], inAnchor);
    PrintAppend(KeptAll(kids[..i], inAnchor), Kept(kids[i], inAnchor));
  }

  // ---- the printer ----

  class StringBuilder {
    var text: string

    constructor ()
      ensures text == ""
    {
      text := "";
    }

    method WriteString(s: string)
      modifies this
      ensures text == old(text) + s
    {
      text := text + s;
    }
  }

  lemma AttrsNext(tag: string, attrs: seq<Attr>, i: nat)
    requires i < |attrs|
    ensures PrintAttrs(KeptAttrs(tag, attrs[..i + 1])) ==
            PrintAttrs(KeptAttrs(tag, attrs[..i])) +
            (if KeepsAttr(tag, attrs[i]) then " " + attrs[i].key + "=\"" + Escape(attrs[i].val) + "\"" else "")
  {
    assert attrs[..i + 1] == attrs[..i] + [attrs[i]];
    KeptAttrsAppend(tag, attrs[..i], [attrs[i]]);
    PrintAttrsAppend(KeptAttrs(tag, attrs[..i]), KeptAttrs(tag, [attrs[i]]));
    assert [attrs[i]][1..] == [];
    if KeepsAttr(tag, attrs[i]) {
      assert KeptAttrs(tag, [attrs[i]]) == [attrs[i]];
      OneAttrText(attrs[i]);
    } else {
      assert KeptAttrs(tag, [attrs[i]]) == [];
    }
  }

  lemma OneAttrText(a: Attr)
    ensures PrintAttrs([a]) == " " + a.key + "=\"" + Escape(a.val) + "\""
  {
    assert [a][1..] == [];
    assert "\"" + PrintAttrs([]) == "\"";
    Regroup(" " + a.key + "=\"", Escape(a.val), "\"");
    Regroup(" " + a.key, "=\"", Escape(a.val) + "\"");
    Regroup(" ", a.key, "=\"" + (Escape(a.val) + "\""));
  }

  lemma {:induction false} KeptAttrsAppend(tag: string, a: seq<Attr>, b: seq<Attr>)
    ensures KeptAttrs(tag, a + b) == KeptAttrs(tag, a) + KeptAttrs(tag, b)
  {
    if a == [] {
      assert a + b == b;
    } else {
      assert (a + b)[1..] == a[1..] + b;
      KeptAttrsAppend(tag, a[1..], b);
    }
  }

  lemma {:induction false} PrintAttrsAppend(a: seq<Attr>, b: seq<Attr>)
    ensures PrintAttrs(a + b) == PrintAttrs(a) + PrintAttrs(b)
  {
    if a == [] {
      assert a + b == b;
    } else {
      assert (a + b)[1..] == a[1..] + b;
      PrintAttrsAppend(a[1..], b);
      PrintedAttr(a[0].key, Escape(a[0].val), PrintAttrs(a[1..]), PrintAttrs(b));
    }
  }

  method WriteAttrs(sb: StringBuilder, tag: string, attrs: seq<Attr>)
    modifies sb
    ensures sb.text == old(sb.text) + PrintAttrs(KeptAttrs(tag, attrs))
  {
    var allowed := AllowedAttrs(tag);
    for i := 0 to |attrs|
      invariant sb.text == old(sb.text) + PrintAttrs(KeptAttrs(tag, attrs[..i]))
    {
      var a := attrs[i];
      ghost var before := PrintAttrs(KeptAttrs(tag, attrs[..i]));
      AttrsNext(tag, attrs, i);
      if a.ns != "" || Lower(a.key) !in allowed {
        continue;
      }
      if (a.key == "href" || a.key == "src") && !SafeURL(a.val) {
        continue;
      }
      sb.WriteString(" " + a.key + "=\"" + Escape(a.val) + "\"");
      Regroup(old(sb.text), before, " " + a.key + "=\"" + Escape(a.val) + "\"");
    }
    assert attrs[..|attrs|] == attrs;
  }

  method WriteKids(sb: StringBuilder, kids: seq<Node>, inAnchor: bool)
    modifies sb
    ensures sb.text == old(sb.text) + PrintAll(KeptAll(kids, inAnchor))
    decreases kids, 0
  {
    for i := 0 to |kids|
      invariant sb.text == old(sb.text) + PrintAll(KeptAll(kids[..i], inAnchor))
    {
      PrintKeptNext(kids, i, inAnchor);
      Regroup(old(sb.text), PrintAll(KeptAll(kids[..i], inAnchor)), PrintAll(Kept(kids[i], inAnchor)));
      WriteSanitized(sb, kids[i], inAnchor);
    }
    assert kids[..|kids|] == kids;
  }

  method WriteSanitized(sb: StringBuilder, n: Node, inAnchor: bool)
    modifies sb
    ensures sb.text == old(sb.text) + PrintAll(Kept(n, inAnchor))
    decreases n, 1
  {
    match n
    case Text(data) =>
      sb.WriteString(Escape(data));
      SinglePrints(n);
    case Other(kids) =>
      WriteKids(sb, kids, inAnchor);
    case Element(tag, attrs, kids) =>
      if tag == "script" || tag == "style" {
        return;
      }
      if tag == "a" && inAnchor {
        WriteKids(sb, kids, true);
        return;
      }
      if tag !in ALLOWED_TAGS {
        WriteKids(sb, kids, inAnchor);
        return;
      }
      ghost var start := sb.text;
      ghost var kept := KeptAttrs(tag, attrs);
      sb.WriteString("<" + tag);
      WriteAttrs(sb, tag, attrs);
      if IsVoid(tag) {
        sb.WriteString(">");
        WrittenElement(start, tag, kept, []);
        return;
      }
      sb.WriteString(">");
      WriteKids(sb, kids, inAnchor || tag == "a");
      sb.WriteString("</" + tag + ">");
      WrittenElement(start, tag, kept, KeptAll(kids, inAnchor || tag == "a"));
  }

  lemma SinglePrints(n: Node)
    ensures PrintAll([n]) == Print(n)
  {
    assert [n][1..] == [];
  }

  /** The pieces the printer appends, in order, are the printed element. */
  lemma WrittenElement(start: string, tag: string, attrs: seq<Attr>, kids: seq<Node>)
    ensures var open := start + ("<" + tag) + PrintAttrs(attrs) + ">";
            start + PrintAll([Element(tag, attrs, kids)])
            == if IsVoid(tag) then open else open + PrintAll(kids) + ("</" + tag + ">")
  {
    SinglePrints(Element(tag, attrs, kids));
    var inner := if IsVoid(tag) then "" else PrintAll(kids) + EndTag(tag);
    var open := start + ("<" + tag) + PrintAttrs(attrs) + ">";
    Regroup(start + ("<" + tag) + PrintAttrs(attrs), ">", inner);
    Regroup(start + ("<" + tag), PrintAttrs(attrs), ">" + inner);
    Regroup(start, "<" + tag, PrintAttrs(attrs) + (">" + inner));
    Regroup("<", tag, PrintAttrs(attrs) + (">" + inner));
    assert open + inner == start + Print(Element(tag, attrs, kids));
    if IsVoid(tag) {
      assert open + "" == open;
    } else {
      Regroup(open, PrintAll(kids), EndTag(tag));
    }
  }

  /** HTML: the whole fragment; input the parser cannot read is escaped instead. */
  method HTML(input: string, parsed: Option<seq<Node>>) returns (out: string)
    ensures out == if parsed.Some? then PrintAll(KeptAll(parsed.value, false)) else Escape(input)
  {
    if parsed.None? {
      return Escape(input);
    }
    var sb := new StringBuilder();
    WriteKids(sb, parsed.value, false);
    out := sb.text;
  }
}
