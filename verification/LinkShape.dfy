/** A path with its row ids blanked (scripts/audit_links.py), so that instances of one page collapse. */
module LinkShape {
  import opened Ascii

  function Split(path: string): (segs: seq<string>)
    ensures |segs| > 0
    decreases |path|
  {
    var n := Until(path, {'/'});
    if n == |path| then [path] else [path[..n]] + Split(path[n + 1..])
  }

  function Join(segs: seq<string>): string {
    if segs == [] then "" else if |segs| == 1 then segs[0] else segs[0] + ("/" + Join(segs[1..]))
  }

  predicate AllDigits(seg: string) {
    seg != "" && forall c <- seg :: '0' <= c <= '9'
  }

  predicate Hash(seg: string) {
    |seg| >= 16 && forall c <- seg :: '0' <= c <= '9' || 'a' <= c <= 'f'
  }

  function Blank(seg: string): string {
    if AllDigits(seg) then ":id" else if Hash(seg) then ":hash" else seg
  }

  function Blanked(segs: seq<string>): (r: seq<string>)
    ensures |r| == |segs| && forall i | 0 <= i < |segs| :: r[i] == Blank(segs[i])
  {
    if segs == [] then [] else [Blank(segs[0])] + Blanked(segs[1..])
  }

  function ShapeOf(path: string): string {
    Join(Blanked(Split(path)))
  }

  method Shape(path: string) returns (shape: string)
    ensures shape == ShapeOf(path)
  {
    var out: seq<string> := [];
    var segs := Split(path);
    for i := 0 to |segs|
      invariant |out| == i && forall j | 0 <= j < i :: out[j] == Blank(segs[j])
    {
      if AllDigits(segs[i]) {
        out := out + [":id"];
      } else if Hash(segs[i]) {
        out := out + [":hash"];
      } else {
        out := out + [segs[i]];
      }
    }
    assert out == Blanked(segs);
    return Join(out);
  }

  // ---- what a shape keeps ----

  lemma {:induction false} SplitHasNoSlash(path: string)
    ensures forall seg <- Split(path) :: '/' !in seg
    decreases |path|
  {
    var n := Until(path, {'/'});
    NoneBefore(path, {'/'});
    if n < |path| { SplitHasNoSlash(path[n + 1..]); }
  }

  lemma {:induction false} NoneBefore(s: string, stops: set<char>)
    ensures forall c <- s[..Until(s, stops)] :: c !in stops
  {
    if s != "" && s[0] !in stops {
      NoneBefore(s[1..], stops);
      assert s[..Until(s, stops)] == [s[0]] + s[1..][..Until(s[1..], stops)];
    }
  }

  lemma BlankHasNoSlash(seg: string)
    requires '/' !in seg
    ensures '/' !in Blank(seg) && Blank(Blank(seg)) == Blank(seg)
  {
    assert ":id"[0] == ':' && ":hash"[0] == ':';
    assert ":id"[0] in ":id" && ":hash"[0] in ":hash";
  }

  lemma SplitWhole(seg: string)
    requires '/' !in seg
    ensures Split(seg) == [seg]
  {
    assert forall c <- seg :: c !in {'/'};
    UntilStops(seg, "", {'/'});
    assert seg + "" == seg;
  }

  lemma SplitFirst(seg: string, rest: string)
    requires '/' !in seg
    ensures Split(seg + ("/" + rest)) == [seg] + Split(rest)
  {
    assert forall c <- seg :: c !in {'/'};
    UntilStops(seg, "/" + rest, {'/'});
    assert (seg + ("/" + rest))[|seg| + 1..] == rest;
  }

  predicate Plain(segs: seq<string>) {
    forall i | 0 <= i < |segs| :: '/' !in segs[i]
  }

  lemma JoinFirst(segs: seq<string>)
    requires |segs| > 1
    ensures Join(segs) == segs[0] + ("/" + Join(segs[1..]))
  {
  }

  lemma {:induction false} SplitJoin(segs: seq<string>)
    requires segs != [] && Plain(segs)
    ensures Split(Join(segs)) == segs
  {
    if |segs| == 1 {
      SplitWhole(segs[0]);
      assert segs == [segs[0]];
    } else {
      var first, rest := segs[0], segs[1..];
      SplitJoin(rest);
      JoinFirst(segs);
      SplitFirst(first, Join(rest));
      assert segs == [first] + rest;
    }
  }

  lemma ShapeSplits(path: string)
    ensures Split(ShapeOf(path)) == Blanked(Split(path))
  {
    SplitHasNoSlash(path);
    forall i | 0 <= i < |Split(path)| ensures '/' !in Blanked(Split(path))[i] {
      BlankHasNoSlash(Split(path)[i]);
    }
    SplitJoin(Blanked(Split(path)));
  }

  lemma CutAtSlash(path: string, n: nat)
    requires n < |path| && path[n] == '/'
    ensures path[..n] + ("/" + path[n + 1..]) == path
  {
  }

  lemma JoinMore(first: string, rest: seq<string>)
    requires rest != []
    ensures Join([first] + rest) == first + ("/" + Join(rest))
  {
    JoinFirst([first] + rest);
    assert ([first] + rest)[1..] == rest;
  }

  /** Joining a path's segments again gives the path. */
  lemma {:induction false} JoinSplit(path: string)
    ensures Join(Split(path)) == path
    decreases |path|
  {
    var n := Until(path, {'/'});
    if n < |path| {
      var first, after := path[..n], path[n + 1..];
      JoinSplit(after);
      JoinMore(first, Split(after));
      assert Split(path) == [first] + Split(after);
      CutAtSlash(path, n);
    }
  }

  /** A row id, or what stands for one. */
  predicate IdLike(seg: string) {
    seg == ":id" || (seg != "" && forall c <- seg :: '0' <= c <= '9')
  }

  /** Sixteen hexadecimal digits or more, not all of them decimal, or what stands for those. */
  predicate HashLike(seg: string) {
    || seg == ":hash"
    || (|seg| >= 16 && (forall c <- seg :: '0' <= c <= '9' || 'a' <= c <= 'f') && exists c <- seg :: 'a' <= c <= 'f')
  }

  lemma BlankMeans(seg: string)
    ensures IdLike(seg) ==> Blank(seg) == ":id"
    ensures HashLike(seg) ==> Blank(seg) == ":hash"
    ensures !IdLike(seg) && !HashLike(seg) ==> Blank(seg) == seg && seg != ":id" && seg != ":hash"
  {
    assert ":id"[0] == ':' && ":hash"[0] == ':';
    assert ":id"[0] in ":id" && ":hash"[0] in ":hash";
    if HashLike(seg) && seg != ":hash" {
      var c :| c in seg && 'a' <= c <= 'f';
      assert !AllDigits(seg);
    }
  }

  predicate Alike(p: string, q: string) {
    p == q || (IdLike(p) && IdLike(q)) || (HashLike(p) && HashLike(q))
  }

  lemma BlankedAlike(p: string, q: string)
    ensures Blank(p) == Blank(q) <==> Alike(p, q)
  {
    BlankMeans(p);
    BlankMeans(q);
  }

  /** Two paths have one shape exactly when they agree segment by segment, ids and hashes apart. */
  lemma SameShape(a: string, b: string)
    ensures ShapeOf(a) == ShapeOf(b) <==>
            |Split(a)| == |Split(b)| && forall i | 0 <= i < |Split(a)| :: Alike(Split(a)[i], Split(b)[i])
  {
    ShapeSplits(a);
    ShapeSplits(b);
    var p, q := Split(a), Split(b);
    if |p| == |q| {
      forall i | 0 <= i < |p| ensures Blanked(p)[i] == Blanked(q)[i] <==> Alike(p[i], q[i]) {
        BlankedAlike(p[i], q[i]);
      }
      if forall i | 0 <= i < |p| :: Alike(p[i], q[i]) {
        assert Blanked(p) == Blanked(q);
      }
    }
  }

  /** A shape is its own shape. */
  lemma ShapeIsIdempotent(path: string)
    ensures ShapeOf(ShapeOf(path)) == ShapeOf(path)
  {
    ShapeSplits(path);
    SplitHasNoSlash(path);
    forall i | 0 <= i < |Split(path)| ensures Blank(Blank(Split(path)[i])) == Blank(Split(path)[i]) {
      BlankHasNoSlash(Split(path)[i]);
    }
    assert Blanked(Blanked(Split(path))) == Blanked(Split(path));
  }
}
