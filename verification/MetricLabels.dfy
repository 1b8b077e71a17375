/**
 Label sets as the text exposition format writes them (internal/metrics/metrics.go).
 Histograms file their series under this text, so two label sets must never share it.
 */
module MetricLabels {
  import opened Wrappers
  import opened Ascii

  // ---- escaping ----

  /** strings.ReplaceAll for a single character. */
  function ReplaceAll(s: string, c: char, sub: string): string {
    if s == "" then "" else (if s[0] == c then sub else [s[0]]) + ReplaceAll(s[1..], c, sub)
  }

  /** escapeLabel, in its three passes. */
  function EscapeLabel(v: string): string {
    ReplaceAll(ReplaceAll(ReplaceAll(v, '\\', "\\\\"), '"', "\\\""), '\n', "\\n")
  }

  function EscapedChar(c: char): string {
    match c
    case '\\' => "\\\\"
    case '"' => "\\\""
    case '\n' => "\\n"
    case _ => [c]
  }

  /** Every character escaped once, left to right. */
  function EscapedOnce(v: string): string {
    if v == "" then "" else EscapedChar(v[0]) + EscapedOnce(v[1..])
  }

  lemma {:induction false} ReplaceAppend(a: string, b: string, c: char, sub: string)
    ensures ReplaceAll(a + b, c, sub) == ReplaceAll(a, c, sub) + ReplaceAll(b, c, sub)
  {
    if a == "" {
      assert a + b == b;
    } else {
      ReplaceAppend(a[1..], b, c, sub);
      assert (a + b)[0] == a[0] && (a + b)[1..] == a[1..] + b;
      Regroup(if a[0] == c then sub else [a[0]], ReplaceAll(a[1..], c, sub), ReplaceAll(b, c, sub));
    }
  }

  lemma ReplaceChar(x: char, c: char, sub: string)
    ensures ReplaceAll([x], c, sub) == if x == c then sub else [x]
  {
    assert [x][1..] == "";
    assert sub + "" == sub && [x] + "" == [x];
  }

  lemma ReplacePair(x: char, y: char, c: char, sub: string)
    requires x != c && y != c
    ensures ReplaceAll([x, y], c, sub) == [x, y]
  {
    ReplaceAppend([x], [y], c, sub);
    assert [x] + [y] == [x, y];
    ReplaceChar(x, c, sub);
    ReplaceChar(y, c, sub);
  }

  lemma EscapeOneChar(x: char)
    ensures EscapeLabel([x]) == EscapedChar(x)
  {
    ReplaceChar(x, '\\', "\\\\");
    if x == '\\' {
      ReplacePair('\\', '\\', '"', "\\\"");
      ReplacePair('\\', '\\', '\n', "\\n");
    } else {
      ReplaceChar(x, '"', "\\\"");
      if x == '"' {
        ReplacePair('\\', '"', '\n', "\\n");
      } else {
        ReplaceChar(x, '\n', "\\n");
      }
    }
  }

  /** The three passes, in the order they are made, escape every character exactly once. */
  lemma {:induction false} ThreePassesAreOne(v: string)
    ensures EscapeLabel(v) == EscapedOnce(v)
  {
    if v != "" {
      var first, rest := [v[0]], v[1..];
      assert v == first + rest;
      ReplaceAppend(first, rest, '\\', "\\\\");
      var f1, r1 := ReplaceAll(first, '\\', "\\\\"), ReplaceAll(rest, '\\', "\\\\");
      ReplaceAppend(f1, r1, '"', "\\\"");
      ReplaceAppend(ReplaceAll(f1, '"', "\\\""), ReplaceAll(r1, '"', "\\\""), '\n', "\\n");
      EscapeOneChar(v[0]);
      ThreePassesAreOne(rest);
    }
  }

  /** The backslash has to go first: with the quote first, a quote comes out escaped twice. */
  lemma OrderOfPassesMatters()
    ensures ReplaceAll(ReplaceAll("\"", '"', "\\\""), '\\', "\\\\") != EscapedOnce("\"")
  {
    ReplaceChar('"', '"', "\\\"");
    ReplaceAppend("\\", "\"", '\\', "\\\\");
    assert "\\" + "\"" == "\\\"";
    ReplaceChar('\\', '\\', "\\\\");
    ReplaceChar('"', '\\', "\\\\");
    assert EscapedOnce("\"") == EscapedChar('"') + EscapedOnce("");
  }

  /** Reads a value up to its closing quote. */
  function ReadValue(s: string): Option<(string, string)> {
    if s == "" then None
    else if s[0] == '"' then Some(("", s[1..]))
    else if s[0] != '\\' then Push(s[0], ReadValue(s[1..]))
    else if |s| < 2 || s[1] !in {'\\', '"', 'n'} then None
    else Push(if s[1] == 'n' then '\n' else s[1], ReadValue(s[2..]))
  }

  function Push(c: char, r: Option<(string, string)>): Option<(string, string)> {
    if r.None? then None else Some(([c] + r.value.0, r.value.1))
  }

  /** Reading undoes writing, and stops at the quote that closes the value. */
  lemma {:induction false} ReadValueUndoes(v: string, rest: string)
    ensures ReadValue(EscapeLabel(v) + ("\"" + rest)) == Some((v, rest))
    decreases v
  {
    ThreePassesAreOne(v);
    var closing := "\"" + rest;
    if v == "" {
      assert "" + closing == closing && closing[0] == '"' && closing[1..] == rest;
    } else {
      ReadValueUndoes(v[1..], rest);
      ThreePassesAreOne(v[1..]);
      var tail := EscapedOnce(v[1..]) + closing;
      Regroup(EscapedChar(v[0]), EscapedOnce(v[1..]), closing);
      ReadEscaped(v[0], tail);
      assert v == [v[0]] + v[1..];
    }
  }

  lemma ReadEscaped(c: char, tail: string)
    ensures ReadValue(EscapedChar(c) + tail) == Push(c, ReadValue(tail))
  {
    var e := EscapedChar(c);
    var s := e + tail;
    assert s[0] == e[0] && s[|e|..] == tail;
  }

  // ---- the order of the keys ----

  /** String comparison, as sort.Strings uses it. */
  predicate Before(a: string, b: string) {
    b != "" && (a == "" || a[0] < b[0] || (a[0] == b[0] && Before(a[1..], b[1..])))
  }

  lemma {:induction false} BeforeIsTotal(a: string, b: string)
    ensures a == b || Before(a, b) || Before(b, a)
    ensures !(Before(a, b) && Before(b, a)) && !Before(a, a)
  {
    if a != "" {
      BeforeIsTotal(a[1..], if b == "" then "" else b[1..]);
      if b != "" && a[0] == b[0] && a[1..] == b[1..] {
        assert a == [a[0]] + a[1..] && b == [b[0]] + b[1..];
      }
    }
  }

  lemma {:induction false} BeforeIsTransitive(a: string, b: string, c: string)
    requires Before(a, b) && Before(b, c)
    ensures Before(a, c)
  {
    if a != "" && a[0] == b[0] == c[0] {
      BeforeIsTransitive(a[1..], b[1..], c[1..]);
    }
  }

  /** The order of bytes: the first character that differs decides, and a prefix comes first. */
  lemma {:induction false} FirstDifferenceDecides(p: string, a: char, s: string, b: char, t: string)
    ensures Before(p + ([a] + s), p + ([b] + t)) <==> a < b || (a == b && Before(s, t))
    ensures Before(p, p + ([a] + s))
  {
    var q, r := p + ([a] + s), p + ([b] + t);
    if p == "" {
      assert q[0] == a && q[1..] == s && r[0] == b && r[1..] == t;
    } else {
      assert q[0] == r[0] == p[0] && q[1..] == p[1..] + ([a] + s) && r[1..] == p[1..] + ([b] + t);
      FirstDifferenceDecides(p[1..], a, s, b, t);
    }
  }

  predicate Ascending(ks: seq<string>) {
    forall i, j | 0 <= i < j < |ks| :: Before(ks[i], ks[j])
  }

  function Members(ks: seq<string>): set<string> {
    set k <- ks
  }

  lemma EmptyMembers(ks: seq<string>)
    ensures Members(ks) == {} <==> ks == []
  {
    if ks != [] { assert ks[0] in Members(ks); }
  }

  ghost predicate SortedListOf(ks: seq<string>, keys: set<string>) {
    Ascending(ks) && Members(ks) == keys
  }

  function Insert(k: string, ks: seq<string>): seq<string> {
    if ks == [] || Before(k, ks[0]) then [k] + ks
    else [ks[0]] + Insert(k, ks[1..])
  }

  lemma {:induction false} InsertSorts(k: string, ks: seq<string>)
    requires Ascending(ks) && k !in ks
    ensures SortedListOf(Insert(k, ks), Members(ks) + {k})
  {
    if ks == [] {
    } else if Before(k, ks[0]) {
      forall j | 0 <= j < |ks| ensures Before(k, ks[j]) {
        if j > 0 { BeforeIsTransitive(k, ks[0], ks[j]); }
      }
      assert Members([k] + ks) == Members(ks) + {k};
    } else {
      var rest := Insert(k, ks[1..]);
      assert forall x <- ks[1..] :: x in ks;
      InsertSorts(k, ks[1..]);
      BeforeIsTotal(k, ks[0]);
      assert ks == [ks[0]] + ks[1..];
      assert Members(ks) == {ks[0]} + Members(ks[1..]);
      forall j | 0 <= j < |rest| ensures Before(ks[0], rest[j]) {
        assert rest[j] in Members(rest);
      }
      assert Members([ks[0]] + rest) == {ks[0]} + Members(rest);
    }
  }

  lemma {:induction false} SortedListExists(keys: set<string>) returns (ks: seq<string>)
    ensures SortedListOf(ks, keys)
    decreases |keys|
  {
    if keys == {} {
      ks := [];
    } else {
      var k := SomeMember(keys);
      var rest := SortedListExists(keys - {k});
      assert k !in Members(rest);
      InsertSorts(k, rest);
      ks := Insert(k, rest);
    }
  }

  lemma FirstIsLeast(a: seq<string>, b: seq<string>)
    requires Ascending(a) && Ascending(b) && Members(a) == Members(b) && a != [] && b != []
    ensures a[0] == b[0]
  {
    assert a[0] in Members(b) && b[0] in Members(a);
    BeforeIsTotal(a[0], b[0]);
    assert forall x <- a :: x == a[0] || Before(a[0], x);
    assert forall x <- b :: x == b[0] || Before(b[0], x);
  }

  lemma RestOfSorted(ks: seq<string>)
    requires Ascending(ks) && ks != []
    ensures Ascending(ks[1..]) && Members(ks[1..]) == Members(ks) - {ks[0]}
  {
    forall x <- ks[1..] ensures x != ks[0] {
      BeforeIsTotal(ks[0], ks[0]);
    }
    assert ks == [ks[0]] + ks[1..];
  }

  /** Whatever order a map is walked in, sorting its keys gives one list. */
  lemma {:induction false} SortedListIsUnique(a: seq<string>, b: seq<string>)
    requires Ascending(a) && Ascending(b) && Members(a) == Members(b)
    ensures a == b
    decreases |a|
  {
    EmptyMembers(a);
    EmptyMembers(b);
    if a != [] {
      FirstIsLeast(a, b);
      RestOfSorted(a);
      RestOfSorted(b);
      SortedListIsUnique(a[1..], b[1..]);
      assert a == [a[0]] + a[1..] && b == [b[0]] + b[1..];
    }
  }

  lemma {:induction false} AscendingSize(ks: seq<string>)
    requires Ascending(ks)
    ensures |Members(ks)| == |ks|
  {
    EmptyMembers(ks);
    if ks != [] {
      RestOfSorted(ks);
      AscendingSize(ks[1..]);
      assert ks[0] in Members(ks);
      assert Members(ks) == Members(ks[1..]) + {ks[0]};
    }
  }

  ghost function SortedKeys(keys: set<string>): (ks: seq<string>)
    ensures SortedListOf(ks, keys)
  {
    assert exists ks :: SortedListOf(ks, keys) by {
      var ks := SortedListExists(keys);
    }
    var ks :| SortedListOf(ks, keys);
    ks
  }

  /** sort.Strings over distinct keys. */
  method SortStrings(keys: seq<string>) returns (ks: seq<string>)
    requires Distinct(keys)
    ensures ks == SortedKeys(Members(keys))
  {
    ks := [];
    for i := 0 to |keys|
      invariant SortedListOf(ks, Members(keys[..i]))
    {
      assert keys[..i + 1] == keys[..i] + [keys[i]];
      assert forall x <- keys[..i] :: x != keys[i];
      assert keys[i] !in Members(ks);
      InsertSorts(keys[i], ks);
      ks := Insert(keys[i], ks);
    }
    assert keys[..|keys|] == keys;
    SortedListIsUnique(ks, SortedKeys(Members(keys)));
  }

  // ---- labelString ----

  function Pair(k: string, v: string): string {
    k + ("=\"" + (EscapeLabel(v) + "\""))
  }

  function Pairs(ks: seq<string>, labels: map<string, string>): string
    requires forall k <- ks :: k in labels
  {
    if ks == [] then ""
    else if |ks| == 1 then Pair(ks[0], labels[ks[0]])
    else Pair(ks[0], labels[ks[0]]) + ("," + Pairs(ks[1..], labels))
  }

  /** What a label set is written as. */
  ghost function LabelText(labels: map<string, string>): string {
    if labels == map[] then ""
    else
      var ks := SortedKeys(labels.Keys);
      assert forall k <- ks :: k in Members(ks);
      "{" + (Pairs(ks, labels) + "}")
  }

  lemma {:induction false} PairsGrow(ks: seq<string>, k: string, labels: map<string, string>)
    requires (forall x <- ks :: x in labels) && k in labels
    ensures forall x <- ks + [k] :: x in labels
    ensures Pairs(ks + [k], labels)
         == (if ks == [] then "" else Pairs(ks, labels) + ",") + Pair(k, labels[k])
  {
    var more := ks + [k];
    if ks == [] {
      assert more == [k];
      assert "" + Pair(k, labels[k]) == Pair(k, labels[k]);
    } else {
      assert more[0] == ks[0] && more[1..] == ks[1..] + [k];
      PairsGrow(ks[1..], k, labels);
      var head, last := Pair(ks[0], labels[ks[0]]), Pair(k, labels[k]);
      if |ks| == 1 {
        assert ks[1..] == [];
        assert "" + last == last;
        assert head + ("," + last) == (head + ",") + last;
      } else {
        var rest := Pairs(ks[1..], labels);
        assert head + ("," + ((rest + ",") + last)) == ((head + ("," + rest)) + ",") + last;
      }
    }
  }

  lemma AppendKey(ks: seq<string>, k: string)
    requires Distinct(ks) && k !in Members(ks)
    ensures Distinct(ks + [k]) && Members(ks + [k]) == Members(ks) + {k}
  {
    assert forall x <- ks :: x in Members(ks);
  }

  /** The keys of a map, in the order it happens to give them. */
  method CollectKeys<T>(labels: map<string, T>) returns (keys: seq<string>)
    ensures Members(keys) == labels.Keys
    ensures Distinct(keys)
  {
    keys := [];
    var todo := labels.Keys;
    while todo != {}
      invariant Members(keys) + todo == labels.Keys && Members(keys) !! todo && Distinct(keys)
      decreases |todo|
    {
      ghost var any := SomeMember(todo);
      var k :| k in todo;
      AppendKey(keys, k);
      keys := keys + [k];
      todo := todo - {k};
    }
  }

  method LabelString(labels: map<string, string>) returns (out: string)
    ensures out == LabelText(labels)
  {
    if labels == map[] {
      return "";
    }
    var keys := CollectKeys(labels);
    keys := SortStrings(keys);
    assert forall k <- keys :: k in Members(keys);
    var pairs := WritePairs(keys, labels);
    return "{" + (pairs + "}");
  }

  /** The writing loop, between the braces. */
  method WritePairs(keys: seq<string>, labels: map<string, string>) returns (b: string)
    requires forall k <- keys :: k in labels
    ensures b == Pairs(keys, labels)
  {
    b := "";
    for i := 0 to |keys|
      invariant b == Pairs(keys[..i], labels)
    {
      var k := keys[i];
      assert keys[..i + 1] == keys[..i] + [k];
      PairsGrow(keys[..i], k, labels);
      ghost var was := b;
      if i > 0 {
        b := b + ",";
      }
      b := b + k;
      b := b + "=\"";
      b := b + EscapeLabel(labels[k]);
      b := b + "\"";
      OneMorePair(was, if i > 0 then "," else "", k, EscapeLabel(labels[k]));
    }
    assert keys[..|keys|] == keys;
  }

  /** What one round of the loop appends. */
  lemma OneMorePair(was: string, comma: string, k: string, v: string)
    ensures (((was + comma) + k) + "=\"" + v) + "\"" == was + (comma + (k + ("=\"" + (v + "\""))))
  {
  }

  // ---- reading it back ----

  /** A name the format allows: letters, digits and underscores. */
  predicate ValidName(k: string) {
    k != "" && forall c <- k :: 'a' <= c <= 'z' || 'A' <= c <= 'Z' || '0' <= c <= '9' || c == '_'
  }

  predicate ValidNames(labels: map<string, string>) {
    forall k | k in labels :: ValidName(k)
  }

  function ReadName(s: string): (r: (string, string))
    ensures |r.1| <= |s|
  {
    if s == "" || s[0] == '=' then ("", s)
    else
      var r := ReadName(s[1..]);
      ([s[0]] + r.0, r.1)
  }

  lemma {:induction false} ReadNameReads(k: string, rest: string)
    requires (forall c <- k :: c != '=') && rest != "" && rest[0] == '='
    ensures ReadName(k + rest) == (k, rest)
  {
    if k == "" {
      assert k + rest == rest;
    } else {
      assert k[0] in k && (k + rest)[0] == k[0] && (k + rest)[1..] == k[1..] + rest;
      assert forall c <- k[1..] :: c in k;
      ReadNameReads(k[1..], rest);
      assert k == [k[0]] + k[1..];
    }
  }

  lemma {:induction false} ReadValueShrinks(s: string)
    ensures var r := ReadValue(s); r.Some? ==> |r.value.1| < |s|
  {
    if s != "" && s[0] != '"' {
      ReadValueShrinks(if s[0] == '\\' && |s| >= 2 then s[2..] else s[1..]);
    }
  }

  /** Reads name="value" pairs to the closing brace. */
  function ReadPairs(s: string): Option<map<string, string>>
    decreases |s|
  {
    var name := ReadName(s);
    if !StartsWith(name.1, "=\"") then None
    else
      var value := ReadValue(name.1[2..]);
      ReadValueShrinks(name.1[2..]);
      if value.None? || value.value.1 == "" then None
      else if value.value.1 == "}" then Some(map[name.0 := value.value.0])
      else if value.value.1[0] != ',' then None
      else
        var rest := ReadPairs(value.value.1[1..]);
        if rest.None? then None else Some(rest.value[name.0 := value.value.0])
  }

  function ReadLabels(s: string): Option<map<string, string>> {
    if s == "" then Some(map[])
    else if s[0] != '{' then None
    else ReadPairs(s[1..])
  }

  lemma ReadOnePair(k: string, v: string, rest: string)
    requires ValidName(k)
    ensures var s := Pair(k, v) + rest;
            var name := ReadName(s);
            && name.0 == k && StartsWith(name.1, "=\"")
            && ReadValue(name.1[2..]) == Some((v, rest))
  {
    var value := EscapeLabel(v) + "\"";
    var after := ("=\"" + value) + rest;
    assert Pair(k, v) + rest == k + after;
    ReadNameReads(k, after);
    assert after[..2] == "=\"";
    assert after[2..] == EscapeLabel(v) + ("\"" + rest);
    ReadValueUndoes(v, rest);
  }

  function Only(ks: seq<string>, labels: map<string, string>): map<string, string>
    requires forall k <- ks :: k in labels
  {
    map k | k in Members(ks) :: labels[k]
  }

  /** A pair with more to come. */
  lemma ReadOneMorePair(k: string, v: string, rest: string)
    requires ValidName(k)
    ensures ReadPairs(Pair(k, v) + ("," + rest))
         == var more := ReadPairs(rest); if more.None? then None else Some(more.value[k := v])
  {
    var comma := "," + rest;
    ReadOnePair(k, v, comma);
    assert comma[0] == ',' && comma[1..] == rest;
    assert "}"[0] != ',';
  }

  lemma OnlyOneMore(ks: seq<string>, labels: map<string, string>)
    requires ks != [] && forall k <- ks :: k in labels
    ensures Only(ks[1..], labels)[ks[0] := labels[ks[0]]] == Only(ks, labels)
  {
    assert ks == [ks[0]] + ks[1..];
  }

  lemma {:induction false} ReadPairsReads(ks: seq<string>, labels: map<string, string>)
    requires ks != [] && (forall k <- ks :: k in labels) && ValidNames(labels)
    ensures ReadPairs(Pairs(ks, labels) + "}") == Some(Only(ks, labels))
  {
    var k, v := ks[0], labels[ks[0]];
    if |ks| == 1 {
      ReadOnePair(k, v, "}");
      assert ks == [k];
      assert Only(ks, labels) == map[k := v];
    } else {
      assert forall x <- ks[1..] :: x in ks;
      ReadPairsReads(ks[1..], labels);
      var rest := Pairs(ks[1..], labels) + "}";
      assert Pairs(ks, labels) + "}" == Pair(k, v) + ("," + rest);
      ReadOneMorePair(k, v, rest);
      OnlyOneMore(ks, labels);
    }
  }

  /** The text determines the label set. */
  lemma LabelTextReadsBack(labels: map<string, string>)
    requires ValidNames(labels)
    ensures ReadLabels(LabelText(labels)) == Some(labels)
  {
    if labels != map[] {
      var ks := SortedKeys(labels.Keys);
      assert forall k <- ks :: k in Members(ks);
      EmptyMembers(ks);
      assert labels.Keys != {};
      ReadPairsReads(ks, labels);
      var s := LabelText(labels);
      assert s[1..] == Pairs(ks, labels) + "}";
      assert Only(ks, labels) == labels;
    }
  }

  lemma LabelTextIsInjective(a: map<string, string>, b: map<string, string>)
    requires ValidNames(a) && ValidNames(b)
    ensures LabelText(a) == LabelText(b) <==> a == b
  {
    LabelTextReadsBack(a);
    LabelTextReadsBack(b);
  }

  lemma OneLabel(k: string, v: string)
    ensures LabelText(map[k := v]) == "{" + (Pair(k, v) + "}")
  {
    var labels := map[k := v];
    assert k in labels && Members([k]) == labels.Keys;
    SortedListIsUnique([k], SortedKeys(labels.Keys));
  }

  lemma TwoLabels(k: string, v: string, l: string, w: string)
    requires Before(k, l)
    ensures LabelText(map[k := v, l := w]) == "{" + ((Pair(k, v) + ("," + Pair(l, w))) + "}")
  {
    var labels := map[k := v, l := w];
    BeforeIsTotal(k, l);
    assert k in labels && labels[k] == v && labels[l] == w;
    assert Members([k, l]) == labels.Keys;
    SortedListIsUnique([k, l], SortedKeys(labels.Keys));
    assert [k, l][1..] == [l];
    assert Pairs([l], labels) == Pair(l, w);
    assert Pairs([k, l], labels) == Pair(k, v) + ("," + Pair(l, w));
  }

  lemma OneNameIsNotTwo(k: string, a: string, b: string, v: string, w: string)
    requires a != b
    ensures map[k := w] != map[a := v, b := w]
  {
    var one, two := map[k := w], map[a := v, b := w];
    assert a in two && b in two;
    assert a !in one || b !in one;
  }

  /** Names are written as they are given: one with a quote in it can pass for two labels. */
  lemma UncheckedNamesCanCollide(a: string, b: string, v: string, w: string)
    requires Before(a, b)
    ensures LabelText(map[Pair(a, v) + ("," + b) := w]) == LabelText(map[a := v, b := w])
    ensures map[Pair(a, v) + ("," + b) := w] != map[a := v, b := w]
  {
    BeforeIsTotal(a, b);
    OneNameIsNotTwo(Pair(a, v) + ("," + b), a, b, v, w);
    OneLabel(Pair(a, v) + ("," + b), w);
    TwoLabels(a, v, b, w);
    var value := "=\"" + (EscapeLabel(w) + "\"");
    assert (Pair(a, v) + ("," + b)) + value == Pair(a, v) + ("," + (b + value));
  }
}
