/**
 Plain-text summaries of sanitised prose (internal/markdown/markdown.go): a loop
 that strips tags out of the printed HTML, and a cut at about n characters.
 Characters stand for the source's bytes and runes alike.
 */
module Excerpt {
  import opened Ascii
  import opened Wrappers
  import opened Markup

  /** excerptTagName: "/p", `a href="..."` or "br /" down to the bare lower-case name. */
  function TagName(tag: string): string {
    var t := Trim(tag);
    var u := if t != "" && t[0] == '/' then t[1..] else t;
    Lower(u[..Until(u, {' ', '\t', '\r', '\n', '/'})])
  }

  predicate BlockTag(name: string) {
    name in {"p", "br", "hr", "div", "li", "ul", "ol", "blockquote", "pre",
             "h1", "h2", "h3", "h4", "h5", "h6", "table", "thead", "tbody", "tr", "th", "td"}
  }

  function SpaceFor(name: string): string {
    if BlockTag(name) then " " else ""
  }

  /** strings.Index. */
  function IndexOf(s: string, p: string): (i: Option<nat>)
    ensures i.Some? ==> i.value + |p| <= |s|
  {
    if StartsWith(s, p) then Some(0)
    else if s == "" then None
    else
      var i := IndexOf(s[1..], p);
      if i.Some? then Some(i.value + 1) else None
  }

  /** What the loop writes for the input from here on. A tag that never ends stops it; a script or
      style skips to its closing tag, or stops it. */
  function Strip(s: string): string
    decreases |s|, 1
  {
    if s == "" then ""
    else if s[0] != '<' then [s[0]] + Strip(s[1..])
    else
      var end := Until(s, {'>'});
      if end == |s| then "" else AfterTag(TagName(s[1..end]), s[end..])
  }

  /** The same, from the '>' of a tag. */
  function AfterTag(name: string, s: string): string
    requires s != ""
    decreases |s|, 0
  {
    if IsCode(name) then
      var closeAt := IndexOf(Lower(s), "</" + name);
      if closeAt.None? then "" else Strip(s[closeAt.value + 1..])
    else SpaceFor(name) + Strip(s[1..])
  }

  // ---- strings.Fields and strings.Join ----

  function WordEnd(s: string): (n: nat)
    ensures n <= |s|
    ensures s != "" && !IsSpace(s[0]) ==> 0 < n
  {
    if s == "" || IsSpace(s[0]) then 0 else 1 + WordEnd(s[1..])
  }

  function Fields(s: string): seq<string>
    decreases |s|
  {
    if s == "" then []
    else if IsSpace(s[0]) then Fields(s[1..])
    else [s[..WordEnd(s)]] + Fields(s[WordEnd(s)..])
  }

  function Join(words: seq<string>): string {
    if words == [] then "" else if |words| == 1 then words[0] else words[0] + " " + Join(words[1..])
  }

  function Collapse(s: string): string {
    Join(Fields(s))
  }

  // ---- Ellipsis ----

  /** The nearest blank at or before i, but not at or before `low`; `fallback` if there is none. */
  function CutPoint(s: string, i: nat, low: nat, fallback: nat): (cut: nat)
    requires i < |s|
    ensures cut == fallback || cut <= i
  {
    if i <= low || i == 0 then fallback
    else if s[i] == ' ' then i
    else CutPoint(s, i - 1, low, fallback)
  }

  function TrimBlanks(s: string): string {
    if s != "" && s[|s| - 1] == ' ' then TrimBlanks(s[..|s| - 1]) else s
  }

  lemma {:induction false} CutPointIs(s: string, i: nat, low: nat, fallback: nat)
    requires i < |s|
    ensures var cut := CutPoint(s, i, low, fallback);
            if cut <= i && s[cut] == ' ' && low < cut then forall j | cut < j <= i :: s[j] != ' '
            else cut == fallback && forall j | low < j <= i :: s[j] != ' '
  {
    if i > low && i > 0 && s[i] != ' ' { CutPointIs(s, i - 1, low, fallback); }
  }

  function Shortened(n: int, s: string): string {
    if n <= 0 then ""
    else if |s| <= n then s
    else
      TrimBlanks(s[..CutPoint(s, n, n * 3 / 4, n)]) + ['\U{2026}']
  }

  method Ellipsis(n: int, s: string) returns (out: string)
    ensures out == Shortened(n, s)
  {
    if n <= 0 {
      return "";
    }
    if |s| <= n {
      return s;
    }
    var cut := n;
    var i := n;
    CutPointIs(s, n, n * 3 / 4, n);
    while i > n * 3 / 4 && i > 0
      invariant 0 <= i <= n && cut == n
      invariant CutPoint(s, n, n * 3 / 4, n) == CutPoint(s, i, n * 3 / 4, n)
    {
      if s[i] == ' ' {
        cut := i;
        break;
      }
      i := i - 1;
    }
    assert cut == CutPoint(s, n, n * 3 / 4, n);
    return TrimBlanks(s[..cut]) + ['\U{2026}'];
  }

  lemma {:induction false} TrimBlanksIsPrefix(s: string)
    ensures |TrimBlanks(s)| <= |s| && TrimBlanks(s) == s[..|TrimBlanks(s)|]
    ensures forall i | |TrimBlanks(s)| <= i < |s| :: s[i] == ' '
    ensures TrimBlanks(s) != "" ==> TrimBlanks(s)[|TrimBlanks(s)| - 1] != ' '
  {
    if s != "" && s[|s| - 1] == ' ' { TrimBlanksIsPrefix(s[..|s| - 1]); }
  }

  /** At most n characters and the ellipsis; never a word torn when a blank is near; all the blanks before
      the cut are dropped, and nothing else. */
  lemma ShortenedFits(n: int, s: string) returns (cut: nat, k: nat)
    requires 0 < n < |s|
    ensures k <= cut <= n && Shortened(n, s) == s[..k] + ['\U{2026}']
    ensures (forall i | k <= i < cut :: s[i] == ' ') && (0 < k ==> s[k - 1] != ' ')
    ensures s[cut] == ' ' || (cut == n && forall j | n * 3 / 4 < j <= n :: s[j] != ' ')
    ensures n * 3 / 4 < cut && forall j | cut < j <= n :: s[j] != ' '
  {
    cut := CutPoint(s, n, n * 3 / 4, n);
    CutPointIs(s, n, n * 3 / 4, n);
    TrimBlanksIsPrefix(s[..cut]);
    k := |TrimBlanks(s[..cut])|;
    assert s[..cut][..k] == s[..k];
  }

  lemma ShortenedIsShort(n: int, s: string)
    ensures |Shortened(n, s)| <= if n <= 0 then 0 else n + 1
    ensures 0 < n && |s| <= n ==> Shortened(n, s) == s
  {
    if 0 < n < |s| { var cut, k := ShortenedFits(n, s); }
  }

  // ---- Excerpt ----

  function ExcerptOf(n: int, body: string): string {
    Shortened(n, Collapse(Unescape(Strip(body))))
  }

  lemma Drop(s: string, i: nat, k: nat)
    requires i + k <= |s|
    ensures s[i..][k..] == s[i + k..]
  {
  }

  method StripTags(body: string) returns (b: string)
    ensures b == Strip(body)
  {
    b := "";
    var i := 0;
    while i < |body|
      invariant 0 <= i <= |body|
      invariant b + Strip(body[i..]) == Strip(body)
      decreases |body| - i
    {
      Drop(body, i, 1);
      if body[i] != '<' {
        Regroup(b, [body[i]], Strip(body[i + 1..]));
        b := b + [body[i]];
        i := i + 1;
        continue;
      }
      var end := Until(body[i..], {'>'});
      if end == |body[i..]| {
        return;
      }
      Drop(body, i, end);
      var name := TagName(body[i..][1..end]);
      i := i + end;
      assert b + AfterTag(name, body[i..]) == Strip(body);
      var space, next := SkipTag(body, name, i);
      Regroup(b, space, Strip(body[next..]));
      b, i := b + space, next;
    }
  }

  predicate IsCode(name: string) {
    name == "script" || name == "style"
  }

  lemma AfterInlineOrBlock(body: string, name: string, close: nat)
    requires close < |body| && !IsCode(name)
    ensures AfterTag(name, body[close..]) == SpaceFor(name) + Strip(body[close + 1..])
  {
    Drop(body, close, 1);
  }

  lemma AfterCode(body: string, name: string, close: nat, closeAt: Option<nat>)
    requires close < |body| && IsCode(name) && closeAt == IndexOf(Lower(body[close..]), "</" + name)
    ensures closeAt.None? ==> AfterTag(name, body[close..]) == ""
    ensures closeAt.Some? ==> AfterTag(name, body[close..]) == Strip(body[close + closeAt.value + 1..])
  {
    var s := body[close..];
    if closeAt.Some? {
      assert AfterTag(name, s) == Strip(s[closeAt.value + 1..]);
      Drop(body, close, closeAt.value + 1);
    }
  }

  /** The loop body from a tag's '>' on: what to write, and where to go on reading. */
  method SkipTag(body: string, name: string, close: nat) returns (space: string, i: nat)
    requires close < |body|
    ensures close < i <= |body| && space + Strip(body[i..]) == AfterTag(name, body[close..])
  {
    if IsCode(name) {
      space := "";
      var closeAt := IndexOf(Lower(body[close..]), "</" + name);
      AfterCode(body, name, close, closeAt);
      i := if closeAt.None? then |body| else close + closeAt.value + 1;
      assert space + Strip(body[i..]) == Strip(body[i..]);
      return;
    }
    AfterInlineOrBlock(body, name, close);
    return SpaceFor(name), close + 1;
  }

  method Excerpt(n: int, body: string) returns (out: string)
    ensures out == ExcerptOf(n, body)
  {
    var b := StripTags(body);
    var text := Unescape(b);
    out := Ellipsis(n, Join(Fields(text)));
  }
}
