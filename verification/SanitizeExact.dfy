/**
 What the sanitiser does to a parsed tree, token by token: it leaves out the tags that are
 not allowed, and an anchor's inside another anchor, with the attributes that are not; it
 leaves out scripts and styles whole; everything else stays, where it was.
 */
module SanitizeExact {
  import opened Ascii
  import opened Wrappers
  import opened Markup
  import opened Sanitize
  import opened SanitizeProps

  /** A tree as a reader meets it. */
  datatype Token = Open(tag: string, attrs: seq<Attr>) | Words(data: string) | Close(tag: string)

  function Tokens(n: Node): seq<Token>
    decreases n, 1
  {
    match n
    case Text(data) => [Words(data)]
    case Other(kids) => TokensAll(kids)
    case Element(tag, attrs, kids) => [Open(tag, attrs)] + TokensAll(kids) + [Close(tag)]
  }

  function TokensAll(ns: seq<Node>): seq<Token>
    decreases ns, 0
  {
    if ns == [] then [] else Tokens(ns[0]) + TokensAll(ns[1..])
  }

  /** A token of the input, and whether an anchor is open around its element. */
  datatype Mark = Mark(token: Token, inAnchor: bool)

  /** The input outside scripts and styles. */
  function Marks(n: Node, inAnchor: bool): seq<Mark>
    decreases n, 1
  {
    match n
    case Text(data) => [Mark(Words(data), inAnchor)]
    case Other(kids) => MarksAll(kids, inAnchor)
    case Element(tag, attrs, kids) =>
      if tag == "script" || tag == "style" then []
      else [Mark(Open(tag, attrs), inAnchor)] + MarksAll(kids, inAnchor || tag == "a") + [Mark(Close(tag), inAnchor)]
  }

  function MarksAll(ns: seq<Node>, inAnchor: bool): seq<Mark>
    decreases ns, 0
  {
    if ns == [] then [] else Marks(ns[0], inAnchor) + MarksAll(ns[1..], inAnchor)
  }

  predicate TagStays(tag: string, inAnchor: bool) {
    tag in ALLOWED_TAGS && !(tag == "a" && inAnchor)
  }

  /** Listed for its tag, in no namespace, and if it is a link, one without a scheme or with a harmless one. */
  predicate AttrStays(tag: string, a: Attr) {
    && a.ns == ""
    && Lower(a.key) in (if tag == "a" then {"href", "title"} else if tag == "img" then {"src", "alt", "title"} else {})
    && (a.key == "href" || a.key == "src" ==>
          SchemeOf(Lower(Squeezed(a.val))) in {None, Some("http"), Some("https"), Some("mailto")})
  }

  function AttrsThatStay(tag: string, attrs: seq<Attr>): seq<Attr> {
    if attrs == [] then []
    else
      var front, last := AttrsThatStay(tag, attrs[..|attrs| - 1]), attrs[|attrs| - 1];
      if AttrStays(tag, last) then front + [last] else front
  }

  function Survivor(m: Mark): Option<Token> {
    match m.token
    case Words(_) => Some(m.token)
    case Open(tag, attrs) => if TagStays(tag, m.inAnchor) then Some(Open(tag, AttrsThatStay(tag, attrs))) else None
    case Close(tag) => if TagStays(tag, m.inAnchor) then Some(m.token) else None
  }

  function Survivors(marks: seq<Mark>): seq<Token> {
    if marks == [] then []
    else
      var front, last := Survivors(marks[..|marks| - 1]), Survivor(marks[|marks| - 1]);
      if last.Some? then front + [last.value] else front
  }

  // ---- the two readings of the policy agree ----

  lemma {:induction false} TokensAppend(a: seq<Node>, b: seq<Node>)
    ensures TokensAll(a + b) == TokensAll(a) + TokensAll(b)
  {
    if a == [] {
      assert a + b == b;
    } else {
      assert (a + b)[1..] == a[1..] + b;
      TokensAppend(a[1..], b);
      Regroup(Tokens(a[0]), TokensAll(a[1..]), TokensAll(b));
    }
  }

  lemma {:induction false} SurvivorsAppend(a: seq<Mark>, b: seq<Mark>)
    ensures Survivors(a + b) == Survivors(a) + Survivors(b)
  {
    if b == [] {
      assert a + b == a;
    } else {
      var all := a + b;
      assert all[..|all| - 1] == a + b[..|b| - 1] && all[|all| - 1] == b[|b| - 1];
      SurvivorsAppend(a, b[..|b| - 1]);
    }
  }

  lemma OneSurvivor(m: Mark)
    ensures Survivors([m]) == if Survivor(m).Some? then [Survivor(m).value] else []
  {
    assert [m][..0] == [];
  }

  lemma {:induction false} StayingAppend(tag: string, a: seq<Attr>, b: seq<Attr>)
    ensures AttrsThatStay(tag, a + b) == AttrsThatStay(tag, a) + AttrsThatStay(tag, b)
  {
    if b == [] {
      assert a + b == a;
    } else {
      var all := a + b;
      assert all[..|all| - 1] == a + b[..|b| - 1] && all[|all| - 1] == b[|b| - 1];
      StayingAppend(tag, a, b[..|b| - 1]);
    }
  }

  lemma {:induction false} KeptAttrsStay(tag: string, attrs: seq<Attr>)
    ensures KeptAttrs(tag, attrs) == AttrsThatStay(tag, attrs)
  {
    if attrs != [] {
      var first := attrs[0];
      KeptAttrsStay(tag, attrs[1..]);
      SafeMeansKnownScheme(first.val);
      assert attrs == [first] + attrs[1..];
      StayingAppend(tag, [first], attrs[1..]);
      assert [first][..0] == [];
    }
  }

  lemma OneToken(n: Node)
    ensures TokensAll([n]) == Tokens(n)
  {
    assert [n][1..] == [];
  }

  lemma ElementSurvives(tag: string, attrs: seq<Attr>, inner: seq<Mark>, inAnchor: bool)
    ensures var all := [Mark(Open(tag, attrs), inAnchor)] + inner + [Mark(Close(tag), inAnchor)];
            Survivors(all) == if TagStays(tag, inAnchor)
                              then [Open(tag, AttrsThatStay(tag, attrs))] + Survivors(inner) + [Close(tag)]
                              else Survivors(inner)
  {
    var open, close := Mark(Open(tag, attrs), inAnchor), Mark(Close(tag), inAnchor);
    SurvivorsAppend([open] + inner, [close]);
    SurvivorsAppend([open], inner);
    OneSurvivor(open);
    OneSurvivor(close);
  }

  lemma {:induction false} KeptIsWhatSurvives(n: Node, inAnchor: bool)
    requires Parsed(n)
    ensures TokensAll(Kept(n, inAnchor)) == Survivors(Marks(n, inAnchor))
    decreases n, 1
  {
    match n
    case Text(data) =>
      OneToken(n);
      OneSurvivor(Mark(Words(data), inAnchor));
    case Other(kids) => KeptAllIsWhatSurvives(kids, inAnchor);
    case Element(tag, attrs, kids) =>
      if tag != "script" && tag != "style" {
        var below := inAnchor || tag == "a";
        ElementSurvives(tag, attrs, MarksAll(kids, below), inAnchor);
        KeptAttrsStay(tag, attrs);
        KeptAllIsWhatSurvives(kids, below);
        if TagStays(tag, inAnchor) {
          KeptElement(tag, attrs, kids, inAnchor);
        }
      }
  }

  lemma KeptElement(tag: string, attrs: seq<Attr>, kids: seq<Node>, inAnchor: bool)
    requires TagStays(tag, inAnchor) && (IsVoid(tag) ==> kids == [])
    ensures tag != "script" && tag != "style"
    ensures TokensAll(Kept(Element(tag, attrs, kids), inAnchor))
         == [Open(tag, KeptAttrs(tag, attrs))] + TokensAll(KeptAll(kids, inAnchor || tag == "a")) + [Close(tag)]
  {
    OneToken(Element(tag, KeptAttrs(tag, attrs), KeptAll(kids, inAnchor || tag == "a")));
  }

  lemma {:induction false} KeptAllIsWhatSurvives(ns: seq<Node>, inAnchor: bool)
    requires ParsedAll(ns)
    ensures TokensAll(KeptAll(ns, inAnchor)) == Survivors(MarksAll(ns, inAnchor))
    decreases ns, 0
  {
    if ns != [] {
      KeptIsWhatSurvives(ns[0], inAnchor);
      KeptAllIsWhatSurvives(ns[1..], inAnchor);
      TokensAppend(Kept(ns[0], inAnchor), KeptAll(ns[1..], inAnchor));
      SurvivorsAppend(Marks(ns[0], inAnchor), MarksAll(ns[1..], inAnchor));
    }
  }

  /** For every parsed input the output is the input, token by token and in order, less what must go:
      nothing that is allowed is lost, moved or stripped of an allowed attribute. */
  lemma NothingAllowedIsLost(ns: seq<Node>)
    requires ParsedAll(ns)
    ensures TokensAll(KeptAll(ns, false)) == Survivors(MarksAll(ns, false))
  {
    KeptAllIsWhatSurvives(ns, false);
  }

  // ---- what a URL is judged by ----

  predicate Visible(c: char) {
    c > ' ' && c != '\U{7F}'
  }

  /** Squeezing takes out controls and blanks and nothing else. */
  lemma {:induction false} SqueezedIsTheVisible(s: string)
    ensures forall c <- Squeezed(s) :: Visible(c) && c in s
    ensures (forall c <- s :: Visible(c)) ==> Squeezed(s) == s
    ensures multiset(Squeezed(s)) <= multiset(s)
    ensures forall c :: Visible(c) ==> multiset(Squeezed(s))[c] == multiset(s)[c]
  {
    if s != "" {
      SqueezedIsTheVisible(s[1..]);
      assert s == [s[0]] + s[1..];
      assert (forall c <- s :: Visible(c)) ==> Visible(s[0]) by {
        assert s[0] in s;
      }
    }
  }
}
