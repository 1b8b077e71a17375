/**
 HTML trees and the text form the sanitiser writes them in: start tags with quoted
 attributes, escaped text, end tags, and three void elements (section 13.3 of the
 WHATWG HTML Standard). The parser reads exactly that grammar.
 */
module Markup {
  import opened Ascii
  import opened Wrappers

  datatype Attr = Attr(ns: string, key: string, val: string)

  /** `Other` is a comment, a doctype, or anything else that is neither text nor element. */
  datatype Node =
    | Text(data: string)
    | Element(tag: string, attrs: seq<Attr>, kids: seq<Node>)
    | Other(kids: seq<Node>)

  predicate IsVoid(tag: string) {
    tag == "br" || tag == "img" || tag == "hr"
  }

  // ---- escaping ----

  function EscapeChar(c: char): string {
    match c
    case '&' => "&amp;"
    case '\'' => "&#39;"
    case '<' => "&lt;"
    case '>' => "&gt;"
    case '"' => "&#34;"
    case '\r' => "&#13;"
    case _ => [c]
  }

  function Escape(s: string): string {
    if s == "" then "" else EscapeChar(s[0]) + Escape(s[1..])
  }

  /** The entity at the head of s, if it is one of the six: its character and its length. */
  function Entity(s: string): Option<(char, nat)> {
    if StartsWith(s, "&amp;") then Some(('&', 5))
    else if StartsWith(s, "&#39;") then Some(('\'', 5))
    else if StartsWith(s, "&lt;") then Some(('<', 4))
    else if StartsWith(s, "&gt;") then Some(('>', 4))
    else if StartsWith(s, "&#34;") then Some(('"', 5))
    else if StartsWith(s, "&#13;") then Some(('\r', 5))
    else None
  }

  function Unescape(s: string): string {
    if s == "" then ""
    else
      var e := Entity(s);
      if e.Some? then [e.value.0] + Unescape(s[e.value.1..]) else [s[0]] + Unescape(s[1..])
  }

  lemma HeadStays(p: string, t: string)
    ensures StartsWith(p + t, p) && (p + t)[|p|..] == t
  {
    assert (p + t)[..|p|] == p;
  }

  lemma EntityOf(c: char, t: string)
    ensures |EscapeChar(c)| == 1 ==> Entity(EscapeChar(c) + t) == None && EscapeChar(c) == [c]
    ensures |EscapeChar(c)| != 1 ==> Entity(EscapeChar(c) + t) == Some((c, |EscapeChar(c)|))
  {
    var s := EscapeChar(c) + t;
    HeadStays(EscapeChar(c), t);
    match c {
      case '&' =>
      case '\'' => assert s[1] == '#';
      case '<' => assert s[1] == 'l';
      case '>' => assert s[1] == 'g';
      case '"' => assert s[1] == '#' && s[2] == '3' && s[3] == '4';
      case '\r' => assert s[1] == '#' && s[2] == '1';
      case _ => assert s[0] == c && c != '&';
    }
  }

  lemma UnescapeChar(c: char, t: string)
    ensures Unescape(EscapeChar(c) + t) == [c] + Unescape(t)
  {
    EntityOf(c, t);
    HeadStays(EscapeChar(c), t);
  }

  /** Unescaping what was escaped, with anything after it, gives the text back. */
  lemma {:induction false} UnescapeAppend(a: string, b: string)
    ensures Unescape(Escape(a) + b) == a + Unescape(b)
  {
    if a == "" {
      assert Escape(a) + b == b;
    } else {
      var head, tail := EscapeChar(a[0]), Escape(a[1..]);
      UnescapeAppend(a[1..], b);
      UnescapeChar(a[0], tail + b);
      Regroup(head, tail, b);
      Regroup([a[0]], a[1..], Unescape(b));
      assert a == [a[0]] + a[1..] && Escape(a) == head + tail;
    }
  }

  lemma UnescapeEscaped(s: string)
    ensures Unescape(Escape(s)) == s
  {
    UnescapeAppend(s, "");
    assert Escape(s) + "" == Escape(s) && s + Unescape("") == s;
  }

  /** Escaped text holds no character that could end it. */
  lemma {:induction false} EscapedIsInert(s: string)
    ensures forall c <- Escape(s) :: c != '<' && c != '>' && c != '"'
    ensures Escape(s) == "" <==> s == ""
  {
    if s != "" {
      EscapedIsInert(s[1..]);
      assert forall c <- EscapeChar(s[0]) :: c != '<' && c != '>' && c != '"';
    }
  }

  lemma {:induction false} EscapeConcat(a: string, b: string)
    ensures Escape(a + b) == Escape(a) + Escape(b)
  {
    if a == "" {
      assert a + b == b;
    } else {
      assert (a + b)[1..] == a[1..] + b;
      EscapeConcat(a[1..], b);
      Regroup(EscapeChar(a[0]), Escape(a[1..]), Escape(b));
    }
  }

  // ---- printing ----

  function EndTag(tag: string): string {
    "</" + tag + ">"
  }

  function PrintAttrs(attrs: seq<Attr>): string {
    if attrs == [] then ""
    else " " + (attrs[0].key + ("=\"" + (Escape(attrs[0].val) + ("\"" + PrintAttrs(attrs[1..])))))
  }

  function Print(n: Node): string
    decreases n, 1
  {
    match n
    case Text(data) => Escape(data)
    case Element(tag, attrs, kids) =>
      "<" + (tag + (PrintAttrs(attrs) + (">" + (if IsVoid(tag) then "" else PrintAll(kids) + EndTag(tag)))))
    case Other(kids) => PrintAll(kids)
  }

  function PrintAll(ns: seq<Node>): string
    decreases ns, 0
  {
    if ns == [] then "" else Print(ns[0]) + PrintAll(ns[1..])
  }

  lemma {:induction false} PrintAppend(a: seq<Node>, b: seq<Node>)
    ensures PrintAll(a + b) == PrintAll(a) + PrintAll(b)
  {
    if a == [] {
      assert a + b == b;
    } else {
      assert (a + b)[1..] == a[1..] + b;
      PrintAppend(a[1..], b);
      Regroup(Print(a[0]), PrintAll(a[1..]), PrintAll(b));
    }
  }

  // ---- the grammar's parser ----

  const NAME_ENDS: set<char> := {' ', '>', '/', '<', '"', '='}

  /** One ` key="value"`, after its leading blank. */
  function ParseAttr(s: string): (r: Option<(Attr, string)>)
    ensures r.Some? ==> |r.value.1| < |s|
  {
    var k := Until(s, NAME_ENDS);
    if !StartsWith(s[k..], "=\"") then None
    else ParseValue(s[..k], s[k + 2..])
  }

  function ParseValue(key: string, s: string): (r: Option<(Attr, string)>)
    ensures r.Some? ==> |r.value.1| < |s|
  {
    var v := Until(s, {'"'});
    if v == |s| then None else Some((Attr("", key, Unescape(s[..v])), s[v + 1..]))
  }

  function ParseAttrs(s: string): (r: Option<(seq<Attr>, string)>)
    ensures r.Some? ==> |r.value.1| <= |s|
  {
    if s == "" || s[0] != ' ' then Some(([], s))
    else
      var first := ParseAttr(s[1..]);
      if first.None? then None
      else
        PrependAttr(first.value.0, ParseAttrs(first.value.1))
  }

  function PrependAttr(a: Attr, rest: Option<(seq<Attr>, string)>): Option<(seq<Attr>, string)> {
    if rest.None? then None else Some(([a] + rest.value.0, rest.value.1))
  }

  datatype StartTag = StartTag(tag: string, attrs: seq<Attr>, body: string)

  /** A start tag, after its '<'. */
  function ParseStartTag(s: string): (r: Option<StartTag>)
    ensures r.Some? ==> |r.value.body| < |s|
  {
    var k := Until(s, NAME_ENDS);
    var attrs := ParseAttrs(s[k..]);
    if attrs.None? || !StartsWith(attrs.value.1, ">") then None
    else Some(StartTag(s[..k], attrs.value.0, attrs.value.1[1..]))
  }

  function Prepend(n: Node, rest: Option<(seq<Node>, string)>): Option<(seq<Node>, string)> {
    if rest.None? then None else Some(([n] + rest.value.0, rest.value.1))
  }

  /** Nodes up to the end of the input or the next end tag; the second part is what follows. */
  function ParseNodes(s: string): (r: Option<(seq<Node>, string)>)
    ensures r.Some? ==> |r.value.1| <= |s|
    decreases |s|
  {
    if s == "" || StartsWith(s, "</") then Some(([], s))
    else if s[0] != '<' then
      var end := Until(s, {'<'});
      Prepend(Text(Unescape(s[..end])), ParseNodes(s[end..]))
    else
      var start := ParseStartTag(s[1..]);
      if start.None? then None
      else if IsVoid(start.value.tag) then
        Prepend(Element(start.value.tag, start.value.attrs, []), ParseNodes(start.value.body))
      else
        var kids := ParseNodes(start.value.body);
        if kids.None? || !StartsWith(kids.value.1, EndTag(start.value.tag)) then None
        else
          Prepend(Element(start.value.tag, start.value.attrs, kids.value.0),
                  ParseNodes(kids.value.1[|EndTag(start.value.tag)|..]))
  }

  function Parse(s: string): Option<seq<Node>> {
    var r := ParseNodes(s);
    if r.Some? && r.value.1 == "" then Some(r.value.0) else None
  }
}
