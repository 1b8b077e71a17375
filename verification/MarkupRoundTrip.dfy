/** What is printed parses back: the grammar's parser is a left inverse of the printer. */
module MarkupRoundTrip {
  import opened Ascii
  import opened Wrappers
  import opened Markup

  // ---- trees the printer can write faithfully ----

  predicate PlainName(s: string) {
    s != "" && forall c <- s :: c !in NAME_ENDS
  }

  predicate PrintableAttr(a: Attr) {
    a.ns == "" && PlainName(a.key)
  }

  predicate Printable(n: Node)
    decreases n, 1
  {
    match n
    case Text(_) => true
    case Element(tag, attrs, kids) =>
      PlainName(tag) && (forall a <- attrs :: PrintableAttr(a)) && (IsVoid(tag) ==> kids == []) && PrintableAll(kids)
    case Other(_) => false
  }

  predicate PrintableAll(ns: seq<Node>)
    decreases ns, 0
  {
    ns == [] || (Printable(ns[0]) && PrintableAll(ns[1..]))
  }

  /** No empty text, no two texts side by side. */
  predicate Normal(n: Node)
    decreases n, 1
  {
    match n
    case Text(data) => data != ""
    case Element(_, _, kids) => NormalAll(kids)
    case Other(kids) => NormalAll(kids)
  }

  predicate NormalAll(ns: seq<Node>)
    decreases ns, 0
  {
    ns == [] || (
      && Normal(ns[0]) && NormalAll(ns[1..])
      && (ns[0].Text? && |ns| > 1 ==> !ns[1].Text?))
  }

  // ---- merging adjacent text ----

  function Glue(n: Node, rest: seq<Node>): seq<Node> {
    if !n.Text? then [n] + rest
    else if n.data == "" then rest
    else if rest != [] && rest[0].Text? then [Text(n.data + rest[0].data)] + rest[1..]
    else [n] + rest
  }

  function Merge(n: Node): Node
    decreases n, 1
  {
    match n
    case Text(_) => n
    case Element(tag, attrs, kids) => Element(tag, attrs, MergeAll(kids))
    case Other(kids) => Other(MergeAll(kids))
  }

  function MergeAll(ns: seq<Node>): seq<Node>
    decreases ns, 0
  {
    if ns == [] then [] else Glue(Merge(ns[0]), MergeAll(ns[1..]))
  }

  lemma GluePrints(n: Node, rest: seq<Node>)
    ensures PrintAll(Glue(n, rest)) == Print(n) + PrintAll(rest)
  {
    assert ([n] + rest)[1..] == rest;
    if n.Text? && n.data == "" {
      assert Print(n) == "";
    } else if n.Text? && rest != [] && rest[0].Text? {
      EscapeConcat(n.data, rest[0].data);
      var glued := [Text(n.data + rest[0].data)] + rest[1..];
      assert glued[1..] == rest[1..];
      Regroup(Escape(n.data), Escape(rest[0].data), PrintAll(rest[1..]));
    }
  }

  lemma {:induction false} MergePrints(n: Node)
    ensures Print(Merge(n)) == Print(n)
    decreases n, 1
  {
    match n
    case Text(_) =>
    case Element(_, _, kids) => MergeAllPrints(kids);
    case Other(kids) => MergeAllPrints(kids);
  }

  lemma {:induction false} MergeAllPrints(ns: seq<Node>)
    ensures PrintAll(MergeAll(ns)) == PrintAll(ns)
    decreases ns, 0
  {
    if ns != [] {
      MergePrints(ns[0]);
      MergeAllPrints(ns[1..]);
      GluePrints(Merge(ns[0]), MergeAll(ns[1..]));
    }
  }

  lemma {:induction false} MergeIsNormal(n: Node)
    ensures !n.Text? ==> Normal(Merge(n))
    decreases n, 1
  {
    match n
    case Text(_) =>
    case Element(_, _, kids) => MergeAllIsNormal(kids);
    case Other(kids) => MergeAllIsNormal(kids);
  }

  lemma {:induction false} MergeAllIsNormal(ns: seq<Node>)
    ensures NormalAll(MergeAll(ns))
    decreases ns, 0
  {
    if ns != [] {
      MergeIsNormal(ns[0]);
      MergeAllIsNormal(ns[1..]);
      var n, rest := Merge(ns[0]), MergeAll(ns[1..]);
      assert ([n] + rest)[1..] == rest;
      if n.Text? && rest != [] && rest[0].Text? {
        var glued := [Text(n.data + rest[0].data)] + rest[1..];
        assert glued[1..] == rest[1..];
      }
    }
  }

  lemma {:induction false} MergePrintable(n: Node)
    requires Printable(n)
    ensures Printable(Merge(n))
    decreases n, 1
  {
    if n.Element? { MergeAllPrintable(n.kids); }
  }

  lemma {:induction false} MergeAllPrintable(ns: seq<Node>)
    requires PrintableAll(ns)
    ensures PrintableAll(MergeAll(ns))
    decreases ns, 0
  {
    if ns != [] {
      MergePrintable(ns[0]);
      MergeAllPrintable(ns[1..]);
      var n, rest := Merge(ns[0]), MergeAll(ns[1..]);
      assert ([n] + rest)[1..] == rest;
      if n.Text? && rest != [] && rest[0].Text? {
        var glued := [Text(n.data + rest[0].data)] + rest[1..];
        assert glued[1..] == rest[1..];
      }
    }
  }

  // ---- parsing back ----

  lemma ValueParsesBack(key: string, val: string, after: string)
    ensures ParseValue(key, Escape(val) + ("\"" + after)) == Some((Attr("", key, val), after))
  {
    EscapedIsInert(val);
    UnescapeEscaped(val);
    ValueEnds(key, Escape(val), after);
  }

  lemma ValueEnds(key: string, raw: string, after: string)
    requires forall c <- raw :: c != '"'
    ensures ParseValue(key, raw + ("\"" + after)) == Some((Attr("", key, Unescape(raw)), after))
  {
    UntilStops(raw, "\"" + after, {'"'});
    assert (raw + ("\"" + after))[|raw| + 1..] == after;
  }

  lemma AttrParsesBack(a: Attr, after: string)
    requires PrintableAttr(a)
    ensures ParseAttr(a.key + ("=\"" + (Escape(a.val) + ("\"" + after)))) == Some((a, after))
  {
    var value := Escape(a.val) + ("\"" + after);
    UntilStops(a.key, "=\"" + value, NAME_ENDS);
    HeadStays("=\"", value);
    var s := a.key + ("=\"" + value);
    assert s[|a.key| + 2..] == value;
    ValueParsesBack(a.key, a.val, after);
  }

  lemma {:induction false} AttrsParseBack(attrs: seq<Attr>, rest: string)
    requires forall a <- attrs :: PrintableAttr(a)
    requires rest != "" && rest[0] == '>'
    ensures ParseAttrs(PrintAttrs(attrs) + rest) == Some((attrs, rest))
  {
    if attrs == [] {
      NoAttrs(rest);
    } else {
      var more := attrs[1..];
      assert attrs == [attrs[0]] + more && attrs[0] in attrs && forall a <- more :: a in attrs;
      AttrsParseBack(more, rest);
      ConsAttr(attrs[0], more, rest);
    }
  }

  lemma NoAttrs(rest: string)
    requires rest != "" && rest[0] == '>'
    ensures ParseAttrs(PrintAttrs([]) + rest) == Some(([], rest))
  {
    assert PrintAttrs([]) + rest == rest;
  }

  lemma ConsAttr(a: Attr, more: seq<Attr>, rest: string)
    requires PrintableAttr(a) && ParseAttrs(PrintAttrs(more) + rest) == Some((more, rest))
    ensures ParseAttrs(PrintAttrs([a] + more) + rest) == Some(([a] + more, rest))
  {
    var after := PrintAttrs(more) + rest;
    AttrParsesBack(a, after);
    HeadAttr(a.key + ("=\"" + (Escape(a.val) + ("\"" + after))));
    assert ([a] + more)[1..] == more;
    PrintedAttr(a.key, Escape(a.val), PrintAttrs(more), rest);
  }

  lemma HeadAttr(s: string)
    requires ParseAttr(s).Some?
    ensures ParseAttrs(" " + s) == PrependAttr(ParseAttr(s).value.0, ParseAttrs(ParseAttr(s).value.1))
  {
    assert (" " + s)[1..] == s;
  }

  lemma PrintedAttr(key: string, val: string, more: string, rest: string)
    ensures (" " + (key + ("=\"" + (val + ("\"" + more))))) + rest == " " + (key + ("=\"" + (val + ("\"" + (more + rest)))))
  {
    Regroup("\"", more, rest);
    Regroup(val, "\"" + more, rest);
    Regroup("=\"", val + ("\"" + more), rest);
    Regroup(key, "=\"" + (val + ("\"" + more)), rest);
    Regroup(" ", key + ("=\"" + (val + ("\"" + more))), rest);
  }

  /** What may follow a forest: nothing, or the end tag around it. */
  predicate Closes(rest: string) {
    rest == "" || StartsWith(rest, "</")
  }

  lemma TextParsesBack(data: string, after: string)
    requires data != "" && (after == "" || after[0] == '<')
    ensures ParseNodes(Escape(data) + after) == Prepend(Text(data), ParseNodes(after))
  {
    EscapedIsInert(data);
    var s := Escape(data) + after;
    assert s[0] == Escape(data)[0] && Escape(data)[0] in Escape(data);
    assert !StartsWith(s, "</");
    UntilStops(Escape(data), after, {'<'});
    UnescapeEscaped(data);
  }

  lemma StartTagParsesBack(tag: string, attrs: seq<Attr>, body: string)
    requires PlainName(tag) && (forall a <- attrs :: PrintableAttr(a))
    ensures ParseStartTag(tag + (PrintAttrs(attrs) + (">" + body))) == Some(StartTag(tag, attrs, body))
  {
    var after := PrintAttrs(attrs) + (">" + body);
    assert after[0] in NAME_ENDS;
    UntilStops(tag, after, NAME_ENDS);
    AttrsParseBack(attrs, ">" + body);
    HeadStays(">", body);
  }

  /** Everything after the element's '<', with what follows the element at its end. */
  function AfterOpen(n: Node, tail: string): string
    requires n.Element?
  {
    n.tag + (PrintAttrs(n.attrs) + (">" + Body(n, tail)))
  }

  function Body(n: Node, tail: string): string
    requires n.Element?
  {
    if IsVoid(n.tag) then tail else PrintAll(n.kids) + (EndTag(n.tag) + tail)
  }

  lemma PrintedElement(n: Node, tail: string)
    requires n.Element? && PlainName(n.tag)
    ensures Print(n) + tail == "<" + AfterOpen(n, tail)
    ensures ("<" + AfterOpen(n, tail))[1..] == AfterOpen(n, tail)
    ensures !StartsWith("<" + AfterOpen(n, tail), "</")
  {
    var inner := if IsVoid(n.tag) then "" else PrintAll(n.kids) + EndTag(n.tag);
    assert inner + tail == Body(n, tail) by {
      if !IsVoid(n.tag) { Regroup(PrintAll(n.kids), EndTag(n.tag), tail); } else { assert "" + tail == tail; }
    }
    Nest(n.tag, PrintAttrs(n.attrs), inner, tail);
    SlashIsNoName(n.tag, PrintAttrs(n.attrs) + (">" + Body(n, tail)));
  }

  lemma Nest(tag: string, attrs: string, inner: string, tail: string)
    ensures ("<" + (tag + (attrs + (">" + inner)))) + tail == "<" + (tag + (attrs + (">" + (inner + tail))))
  {
    Regroup(">", inner, tail);
    Regroup(attrs, ">" + inner, tail);
    Regroup(tag, attrs + (">" + inner), tail);
    Regroup("<", tag + (attrs + (">" + inner)), tail);
  }

  lemma SlashIsNoName(tag: string, after: string)
    requires PlainName(tag)
    ensures !StartsWith("<" + (tag + after), "</") && ("<" + (tag + after))[1..] == tag + after
  {
    assert ("<" + (tag + after))[1] == tag[0] && tag[0] in tag && '/' in NAME_ENDS;
  }

  lemma ElementParsesBack(n: Node, tail: string)
    requires n.Element? && Printable(n)
    requires !IsVoid(n.tag) ==> ParseNodes(Body(n, tail)) == Some((n.kids, EndTag(n.tag) + tail))
    ensures ParseNodes(Print(n) + tail) == Prepend(n, ParseNodes(tail))
  {
    PrintedElement(n, tail);
    StartTagParsesBack(n.tag, n.attrs, Body(n, tail));
    HeadStays(EndTag(n.tag), tail);
  }

  /** After a text comes a tag or the end. */
  lemma TextEnds(ns: seq<Node>, rest: string)
    requires ns != [] && ns[0].Text? && NormalAll(ns) && PrintableAll(ns) && Closes(rest)
    ensures var tail := PrintAll(ns[1..]) + rest;
            tail == "" || tail[0] == '<'
  {
    if |ns| > 1 {
      assert ns[1..] != [] && ns[1..][0] == ns[1] && Printable(ns[1]);
      assert Print(ns[1])[0] == '<';
    } else {
      assert PrintAll(ns[1..]) + rest == rest;
    }
  }

  lemma {:induction false} NodesParseBack(ns: seq<Node>, rest: string)
    requires PrintableAll(ns) && NormalAll(ns) && Closes(rest)
    ensures ParseNodes(PrintAll(ns) + rest) == Some((ns, rest))
    decreases ns
  {
    if ns == [] {
      assert PrintAll(ns) + rest == rest;
    } else {
      var n, tail := ns[0], PrintAll(ns[1..]) + rest;
      NodesParseBack(ns[1..], rest);
      if n.Text? {
        TextEnds(ns, rest);
        TextParsesBack(n.data, tail);
      } else {
        if !IsVoid(n.tag) {
          EndTagCloses(n.tag, tail);
          NodesParseBack(n.kids, EndTag(n.tag) + tail);
        }
        ElementParsesBack(n, tail);
      }
      ConsNode(n, ns[1..], rest);
      assert [n] + ns[1..] == ns;
    }
  }

  lemma ConsNode(n: Node, more: seq<Node>, rest: string)
    requires ParseNodes(Print(n) + (PrintAll(more) + rest)) == Prepend(n, Some((more, rest)))
    ensures ParseNodes(PrintAll([n] + more) + rest) == Some(([n] + more, rest))
  {
    assert ([n] + more)[1..] == more;
    Regroup(Print(n), PrintAll(more), rest);
  }

  lemma EndTagCloses(tag: string, tail: string)
    ensures Closes(EndTag(tag) + tail)
  {
    assert StartsWith(EndTag(tag) + tail, "</");
  }

  /** The round trip: a printed forest parses back to itself, with adjacent text merged. */
  lemma PrintParses(ns: seq<Node>)
    requires PrintableAll(ns)
    ensures Parse(PrintAll(ns)) == Some(MergeAll(ns))
  {
    MergeAllPrints(ns);
    MergeAllIsNormal(ns);
    MergeAllPrintable(ns);
    NodesParseBack(MergeAll(ns), "");
    assert PrintAll(ns) + "" == PrintAll(ns);
  }
}
