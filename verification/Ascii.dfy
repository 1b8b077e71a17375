/**
 The string helpers several files of the site use, as Go's strings package defines
 them. Case is ASCII case; blanks are Unicode's White_Space.
 */
module Ascii {

  function UpperChar(c: char): char {
    if 'a' <= c <= 'z' then c - 'a' + 'A' else c
  }

  function LowerChar(c: char): char {
    if 'A' <= c <= 'Z' then c - 'A' + 'a' else c
  }

  function Upper(s: string): (r: string)
    ensures |r| == |s|
  {
    if s == "" then "" else [UpperChar(s[0])] + Upper(s[1..])
  }

  function Lower(s: string): (r: string)
    ensures |r| == |s|
  {
    if s == "" then "" else [LowerChar(s[0])] + Lower(s[1..])
  }

  predicate StartsWith(s: string, p: string) {
    |p| <= |s| && s[..|p|] == p
  }

  predicate IsSpace(c: char) {
    || '\t' <= c <= '\r' || c == ' ' || c == '\U{85}' || c == '\U{A0}' || c == '\U{1680}'
    || '\U{2000}' <= c <= '\U{200A}' || c == '\U{2028}' || c == '\U{2029}'
    || c == '\U{202F}' || c == '\U{205F}' || c == '\U{3000}'
  }

  function TrimLeft(s: string): string {
    if s != "" && IsSpace(s[0]) then TrimLeft(s[1..]) else s
  }

  function TrimRight(s: string): string {
    if s != "" && IsSpace(s[|s| - 1]) then TrimRight(s[..|s| - 1]) else s
  }

  function Trim(s: string): string {
    TrimRight(TrimLeft(s))
  }

  /** The index of the first character in `stops`, or the length. */
  function Until(s: string, stops: set<char>): (n: nat)
    ensures n <= |s|
    ensures n < |s| ==> s[n] in stops
  {
    if s == "" || s[0] in stops then 0 else 1 + Until(s[1..], stops)
  }

  lemma {:induction false} UntilStops(a: string, b: string, stops: set<char>)
    requires forall c <- a :: c !in stops
    requires b == "" || b[0] in stops
    ensures Until(a + b, stops) == |a|
    ensures (a + b)[..|a|] == a && (a + b)[|a|..] == b
  {
    if a == "" {
      assert a + b == b;
    } else {
      assert a[0] in a && (a + b)[0] == a[0] && (a + b)[1..] == a[1..] + b;
      UntilStops(a[1..], b, stops);
    }
  }

  // ---- what trimming does ----

  /** Nothing to trim on either side. */
  predicate Trimmed(s: string) {
    s != "" ==> !IsSpace(s[0]) && !IsSpace(s[|s| - 1])
  }

  lemma {:induction false} TrimLeftTrims(s: string)
    ensures TrimLeft(s) != "" ==> !IsSpace(TrimLeft(s)[0])
  {
    if s != "" && IsSpace(s[0]) { TrimLeftTrims(s[1..]); }
  }

  lemma {:induction false} TrimRightTrims(s: string)
    requires s != "" ==> !IsSpace(s[0])
    ensures Trimmed(TrimRight(s))
  {
    if s != "" && IsSpace(s[|s| - 1]) { TrimRightTrims(s[..|s| - 1]); }
  }

  predicate Blanks(s: string) {
    forall c <- s :: IsSpace(c)
  }

  lemma {:induction false} TrimLeftCuts(s: string) returns (cut: string)
    ensures s == cut + TrimLeft(s) && Blanks(cut)
  {
    cut := "";
    if s != "" && IsSpace(s[0]) {
      var more := TrimLeftCuts(s[1..]);
      cut := [s[0]] + more;
    }
  }

  lemma {:induction false} TrimRightCuts(s: string) returns (cut: string)
    ensures s == TrimRight(s) + cut && Blanks(cut)
  {
    cut := "";
    if s != "" && IsSpace(s[|s| - 1]) {
      var more := TrimRightCuts(s[..|s| - 1]);
      cut := more + [s[|s| - 1]];
    }
  }

  /** Trimming takes blanks off both ends, all of them, and nothing else. */
  lemma TrimTakesTheBlanks(s: string) returns (before: string, after: string)
    ensures s == before + Trim(s) + after && Blanks(before) && Blanks(after) && Trimmed(Trim(s))
  {
    before := TrimLeftCuts(s);
    after := TrimRightCuts(TrimLeft(s));
    TrimLeftTrims(s);
    TrimRightTrims(TrimLeft(s));
    assert s == before + (Trim(s) + after);
  }

  lemma {:induction false} TrimLeftBefore(s: string, b: char)
    requires IsSpace(b)
    ensures TrimLeft(s + [b]) == if TrimLeft(s) == "" then "" else TrimLeft(s) + [b]
  {
    if s == "" {
      assert s + [b] == [b] && TrimLeft([b][1..]) == "";
    } else if IsSpace(s[0]) {
      assert (s + [b])[1..] == s[1..] + [b];
      TrimLeftBefore(s[1..], b);
    }
  }

  /** A blank more at either end makes no difference. */
  lemma TrimIgnoresBlanks(s: string, b: char)
    requires IsSpace(b)
    ensures Trim([b] + s) == Trim(s) && Trim(s + [b]) == Trim(s)
  {
    assert ([b] + s)[1..] == s;
    TrimLeftBefore(s, b);
    var t := TrimLeft(s) + [b];
    assert t[..|t| - 1] == TrimLeft(s);
  }

  lemma LowerKeepsBlanks(c: char)
    ensures IsSpace(LowerChar(c)) == IsSpace(c) && LowerChar(LowerChar(c)) == LowerChar(c)
  {
  }

  lemma {:induction false} LowerTwice(s: string)
    ensures Lower(Lower(s)) == Lower(s)
  {
    if s != "" {
      LowerTwice(s[1..]);
      LowerKeepsBlanks(s[0]);
      assert Lower(s)[1..] == Lower(s[1..]);
    }
  }

  lemma {:induction false} LowerLast(s: string)
    requires s != ""
    ensures Lower(s)[..|s| - 1] == Lower(s[..|s| - 1]) && Lower(s)[|s| - 1] == LowerChar(s[|s| - 1])
  {
    if |s| > 1 {
      LowerLast(s[1..]);
      assert s[..|s| - 1][1..] == s[1..][..|s| - 2];
      assert Lower(s)[1..] == Lower(s[1..]);
      assert Lower(s)[..|s| - 1] == [LowerChar(s[0])] + Lower(s[1..])[..|s| - 2];
    }
  }

  lemma {:induction false} TrimRightLower(s: string)
    ensures TrimRight(Lower(s)) == Lower(TrimRight(s))
  {
    if s != "" {
      LowerLast(s);
      LowerKeepsBlanks(s[|s| - 1]);
      TrimRightLower(s[..|s| - 1]);
    }
  }

  lemma {:induction false} TrimLeftLower(s: string)
    ensures TrimLeft(Lower(s)) == Lower(TrimLeft(s))
  {
    if s != "" {
      LowerKeepsBlanks(s[0]);
      assert Lower(s)[1..] == Lower(s[1..]);
      TrimLeftLower(s[1..]);
    }
  }
}
