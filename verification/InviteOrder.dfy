/**
 The order InviteTree prints its rows in. ORDER BY path compares the accumulated
 arrays of used_at element by element, a prefix first; the page then shows each row
 with its indent and nothing else, and these lemmas say that is enough.
 */
module InviteOrder {
  import opened Wrappers
  import opened InviteChain
  import opened InviteDuality

  // ---- the array order ----

  predicate PathBefore(p: seq<int>, q: seq<int>) {
    && q != []
    && (p == [] || p[0] < q[0] || (p[0] == q[0] && PathBefore(p[1..], q[1..])))
  }

  lemma {:induction false} PathTotal(p: seq<int>, q: seq<int>)
    ensures p == q || PathBefore(p, q) || PathBefore(q, p)
    ensures PathBefore(p, q) ==> !PathBefore(q, p)
    ensures !PathBefore(p, p)
  {
    if p != [] {
      PathTotal(p[1..], if q == [] then [] else q[1..]);
      if q != [] && p[0] == q[0] && p[1..] == q[1..] {
        assert p == [p[0]] + p[1..] && q == [q[0]] + q[1..];
      }
    }
  }

  lemma {:induction false} PathTransitive(p: seq<int>, q: seq<int>, r: seq<int>)
    requires !PathBefore(q, p) && !PathBefore(r, q)
    ensures !PathBefore(r, p)
  {
    if p != [] && q != [] && r != [] && p[0] == q[0] && q[0] == r[0] {
      PathTransitive(p[1..], q[1..], r[1..]);
    }
  }

  lemma {:induction false} PrefixComesFirst(p: seq<int>, q: seq<int>)
    requires p < q
    ensures PathBefore(p, q)
  {
    if p != [] {
      assert p[0] == q[0] && p[1..] < q[1..];
      PrefixComesFirst(p[1..], q[1..]);
    }
  }

  /** Whatever lies between a path and one of its extensions extends it too. */
  lemma {:induction false} BetweenExtends(p: seq<int>, q: seq<int>, r: seq<int>)
    requires p < r && PathBefore(p, q) && PathBefore(q, r)
    ensures p < q
  {
    if p != [] {
      assert p[0] == r[0] && p[1..] < r[1..];
      assert q != [] && q[0] == p[0];
      BetweenExtends(p[1..], q[1..], r[1..]);
      assert q == [q[0]] + q[1..] && p == [p[0]] + p[1..];
    }
  }

  predicate Ordered(rows: seq<TreeRow>) {
    forall i, j | 0 <= i < j < |rows| :: !PathBefore(rows[j].path, rows[i].path)
  }

  function InsertByPath(row: TreeRow, rows: seq<TreeRow>): (sorted: seq<TreeRow>)
    ensures |sorted| == |rows| + 1
  {
    if rows == [] || !PathBefore(rows[0].path, row.path) then [row] + rows
    else [rows[0]] + InsertByPath(row, rows[1..])
  }

  function OrderByPath(rows: seq<TreeRow>): (sorted: seq<TreeRow>)
    ensures |sorted| == |rows|
  {
    if rows == [] then [] else InsertByPath(rows[0], OrderByPath(rows[1..]))
  }

  lemma {:induction false} InsertKeepsRows(row: TreeRow, rows: seq<TreeRow>)
    ensures multiset(InsertByPath(row, rows)) == multiset(rows) + multiset{row}
    ensures forall t <- InsertByPath(row, rows) :: t == row || t in rows
  {
    if rows != [] && PathBefore(rows[0].path, row.path) {
      InsertKeepsRows(row, rows[1..]);
      assert rows == [rows[0]] + rows[1..];
    }
  }

  lemma FirstInOrder(first: TreeRow, rest: seq<TreeRow>)
    requires Ordered(rest) && forall t <- rest :: !PathBefore(t.path, first.path)
    ensures Ordered([first] + rest)
  {
    var all := [first] + rest;
    forall i, j | 0 <= i < j < |all| ensures !PathBefore(all[j].path, all[i].path) {
      assert all[j] == rest[j - 1] && rest[j - 1] in rest;
      assert i > 0 ==> all[i] == rest[i - 1];
    }
  }

  lemma {:induction false} InsertOrders(row: TreeRow, rows: seq<TreeRow>)
    requires Ordered(rows)
    ensures Ordered(InsertByPath(row, rows))
  {
    if rows == [] {
    } else if !PathBefore(rows[0].path, row.path) {
      forall t <- rows ensures !PathBefore(t.path, row.path) {
        if t != rows[0] { PathTransitive(row.path, rows[0].path, t.path); }
      }
      FirstInOrder(row, rows);
    } else {
      InsertOrders(row, rows[1..]);
      InsertKeepsRows(row, rows[1..]);
      PathTotal(rows[0].path, row.path);
      FirstInOrder(rows[0], InsertByPath(row, rows[1..]));
    }
  }

  /** ORDER BY has an answer, whatever the rows. */
  lemma {:induction false} OrderByPathSorts(rows: seq<TreeRow>)
    ensures Ordered(OrderByPath(rows)) && multiset(OrderByPath(rows)) == multiset(rows)
  {
    if rows != [] {
      OrderByPathSorts(rows[1..]);
      InsertOrders(rows[0], OrderByPath(rows[1..]));
      InsertKeepsRows(rows[0], OrderByPath(rows[1..]));
      assert rows == [rows[0]] + rows[1..];
    }
  }

  lemma {:induction false} ForkOrders(p: seq<int>, a: int, s: seq<int>, b: int, t: seq<int>)
    requires a < b
    ensures PathBefore(p + ([a] + s), p + ([b] + t)) && !PathBefore(p + ([b] + t), p + ([a] + s))
  {
    var q, r := p + ([a] + s), p + ([b] + t);
    if p != [] {
      assert q[0] == r[0] == p[0] && q[1..] == p[1..] + ([a] + s) && r[1..] == p[1..] + ([b] + t);
      ForkOrders(p[1..], a, s, b, t);
    }
  }

  /** Of two branches under one member the one whose invite was redeemed first is printed first, all of it
      before any of the other. */
  lemma EarlierBranchFirst(rows: seq<TreeRow>, i: nat, j: nat, p: seq<int>, a: int, s: seq<int>, b: int, t: seq<int>)
    requires i < |rows| && j < |rows|
    requires OrderByPath(rows)[i].path == p + ([a] + s) && OrderByPath(rows)[j].path == p + ([b] + t) && a < b
    ensures i < j
  {
    OrderByPathSorts(rows);
    ForkOrders(p, a, s, b, t);
  }

  // ---- what paths say about the tree ----

  /** Two invites one member issued are not redeemed at the same instant. */
  predicate DistinctSiblings(links: seq<Link>) {
    forall i, j | 0 <= i < j < |links| && links[i].createdBy == links[j].createdBy
                  && links[i].usedBy.Some? && links[j].usedBy.Some? :: links[i].usedAt != links[j].usedAt
  }

  predicate DistinctPaths(rows: seq<TreeRow>) {
    forall i, j | 0 <= i < j < |rows| :: rows[i].path != rows[j].path
  }

  lemma {:induction false} InBase(links: seq<Link>, root: int, t: TreeRow)
    requires t in Base(links, TreeStart(root))
    ensures exists ic :: ic in links && TreeStart(root)(ic) == Some(t)
  {
    if TreeStart(root)(links[0]) == Some(t) {
      assert links[0] in links;
    } else {
      InBase(links[1..], root, t);
    }
  }

  lemma {:induction false} InJoin(ic: Link, level: seq<TreeRow>, t: TreeRow)
    requires t in JoinOne(ic, level, TreeJoin())
    ensures exists parent :: parent in level && TreeJoin()(ic, parent) == Some(t)
  {
    if TreeJoin()(ic, level[0]) == Some(t) {
      assert level[0] in level;
    } else {
      InJoin(ic, level[1..], t);
    }
  }

  lemma {:induction false} InRound(links: seq<Link>, level: seq<TreeRow>, t: TreeRow)
    requires t in Round(links, level, TreeJoin())
    ensures exists ic, parent :: ic in links && parent in level && TreeJoin()(ic, parent) == Some(t)
  {
    if t in JoinOne(links[0], level, TreeJoin()) {
      InJoin(links[0], level, t);
      assert links[0] in links;
    } else {
      InRound(links[1..], level, t);
    }
  }

  lemma AppendDistinct(a: seq<TreeRow>, b: seq<TreeRow>)
    requires DistinctPaths(a) && DistinctPaths(b)
    requires forall s, t | s in a && t in b :: s.path != t.path
    ensures DistinctPaths(a + b)
  {
    forall i, j | 0 <= i < j < |a + b| ensures (a + b)[i].path != (a + b)[j].path {
      if i < |a| <= j { assert a[i] in a && b[j - |a|] in b; }
    }
  }

  lemma {:induction false} BaseDistinct(links: seq<Link>, root: int)
    requires DistinctSiblings(links)
    ensures DistinctPaths(Base(links, TreeStart(root)))
  {
    if links != [] {
      var row, rest := TreeStart(root)(links[0]), Base(links[1..], TreeStart(root));
      BaseDistinct(links[1..], root);
      forall t | t in rest && row.Some? ensures row.value.path != t.path {
        InBase(links[1..], root, t);
        var ic :| ic in links[1..] && TreeStart(root)(ic) == Some(t);
        var k :| 0 <= k < |links[1..]| && links[1..][k] == ic;
        assert links[k + 1] == ic;
      }
      AppendDistinct(if row.Some? then [row.value] else [], rest);
    }
  }

  lemma SamePathSameRow(rows: seq<TreeRow>, s: TreeRow, t: TreeRow)
    requires DistinctPaths(rows) && s in rows && t in rows && s.path == t.path
    ensures s == t
  {
    var i :| 0 <= i < |rows| && rows[i] == s;
    var j :| 0 <= j < |rows| && rows[j] == t;
  }

  lemma {:induction false} JoinDistinct(ic: Link, level: seq<TreeRow>)
    requires DistinctPaths(level)
    ensures DistinctPaths(JoinOne(ic, level, TreeJoin()))
  {
    if level != [] {
      var row, rest := TreeJoin()(ic, level[0]), JoinOne(ic, level[1..], TreeJoin());
      JoinDistinct(ic, level[1..]);
      forall t | t in rest && row.Some? ensures row.value.path != t.path {
        InJoin(ic, level[1..], t);
        var parent :| parent in level[1..] && TreeJoin()(ic, parent) == Some(t);
        var k :| 0 <= k < |level[1..]| && level[1..][k] == parent;
        assert level[k + 1] == parent;
        assert row.value.path[..|level[0].path|] == level[0].path && t.path[..|parent.path|] == parent.path;
      }
      AppendDistinct(if row.Some? then [row.value] else [], rest);
    }
  }

  /** Two invites, whoever they extend, never give one path. */
  lemma JoinsDiffer(level: seq<TreeRow>, ic: Link, sp: TreeRow, s: TreeRow, ic': Link, tp: TreeRow, t: TreeRow)
    requires DistinctPaths(level) && sp in level && tp in level
    requires TreeJoin()(ic, sp) == Some(s) && TreeJoin()(ic', tp) == Some(t)
    requires ic.createdBy == ic'.createdBy ==> ic.usedAt != ic'.usedAt
    ensures s.path != t.path
  {
    assert s.path[..|s.path| - 1] == sp.path && t.path[..|t.path| - 1] == tp.path;
    assert s.path[|s.path| - 1] == ic.usedAt && t.path[|t.path| - 1] == ic'.usedAt;
    if sp.path == tp.path {
      SamePathSameRow(level, sp, tp);
    }
  }

  lemma SiblingsDiffer(links: seq<Link>, ic: Link)
    requires DistinctSiblings(links) && links != [] && ic in links[1..] && ic.createdBy == links[0].createdBy
    requires ic.usedBy.Some? && links[0].usedBy.Some?
    ensures links[0].usedAt != ic.usedAt
  {
    var k :| 0 <= k < |links[1..]| && links[1..][k] == ic;
    assert links[k + 1] == ic;
  }

  lemma LinksGiveDistinctPaths(links: seq<Link>, level: seq<TreeRow>, s: TreeRow, t: TreeRow)
    requires DistinctSiblings(links) && DistinctPaths(level) && links != []
    requires s in JoinOne(links[0], level, TreeJoin()) && t in Round(links[1..], level, TreeJoin())
    ensures s.path != t.path
  {
    InJoin(links[0], level, s);
    var sp :| sp in level && TreeJoin()(links[0], sp) == Some(s);
    InRound(links[1..], level, t);
    var ic, tp :| ic in links[1..] && tp in level && TreeJoin()(ic, tp) == Some(t);
    if ic.createdBy == links[0].createdBy { SiblingsDiffer(links, ic); }
    JoinsDiffer(level, links[0], sp, s, ic, tp, t);
  }

  lemma {:induction false} RoundDistinct(links: seq<Link>, level: seq<TreeRow>)
    requires DistinctSiblings(links) && DistinctPaths(level)
    ensures DistinctPaths(Round(links, level, TreeJoin()))
  {
    if links != [] {
      var first, rest := JoinOne(links[0], level, TreeJoin()), Round(links[1..], level, TreeJoin());
      JoinDistinct(links[0], level);
      RoundDistinct(links[1..], level);
      forall s, t | s in first && t in rest ensures s.path != t.path {
        LinksGiveDistinctPaths(links, level, s, t);
      }
      AppendDistinct(first, rest);
    }
  }

  lemma {:induction false} LevelPaths(links: seq<Link>, root: int, rounds: nat)
    requires DistinctSiblings(links)
    ensures DistinctPaths(TreeLevel(links, root, rounds))
    ensures forall t <- TreeLevel(links, root, rounds) :: |t.path| == t.depth == rounds + 1
  {
    QueriesDeepen(root);
    RecursionStops(links, TreeStart(root), TreeJoin(), (t: TreeRow) => t.depth, rounds);
    if rounds == 0 {
      BaseDistinct(links, root);
      forall t <- TreeLevel(links, root, 0) ensures |t.path| == 1 { InBase(links, root, t); }
    } else {
      var level := TreeLevel(links, root, rounds - 1);
      LevelPaths(links, root, rounds - 1);
      RoundDistinct(links, level);
      forall t <- TreeLevel(links, root, rounds) ensures |t.path| == rounds + 1 {
        InRound(links, level, t);
      }
    }
  }

  lemma {:induction false} TreePaths(links: seq<Link>, root: int, rounds: nat)
    requires DistinctSiblings(links)
    ensures DistinctPaths(Recurse(links, TreeStart(root), TreeJoin(), rounds))
    ensures forall t <- Recurse(links, TreeStart(root), TreeJoin(), rounds) :: |t.path| == t.depth && 1 <= t.depth <= rounds + 1
  {
    LevelPaths(links, root, rounds);
    if rounds > 0 {
      TreePaths(links, root, rounds - 1);
      AppendDistinct(Recurse(links, TreeStart(root), TreeJoin(), rounds - 1), TreeLevel(links, root, rounds));
    }
  }

  /** The invite that put a row in the tree: from the root, or from the row one step up its path. */
  predicate InvitedUnder(links: seq<Link>, inviter: int, t: TreeRow)
    requires t.path != []
  {
    exists ic <- links :: ic.createdBy == inviter && ic.usedBy == Some(t.user) && ic.usedAt == t.path[|t.path| - 1]
  }

  predicate ParentRow(links: seq<Link>, p: TreeRow, t: TreeRow)
    requires t.path != []
  {
    p.path == t.path[..|t.path| - 1] && p.depth == t.depth - 1 && InvitedUnder(links, p.user, t)
  }

  lemma InRecurse<T>(links: seq<Link>, start: Link -> Option<T>, join: (Link, T) -> Option<T>, rounds: nat, t: T)
    ensures t in Recurse(links, start, join, rounds)
            <==> t in Level(links, start, join, rounds) || (rounds > 0 && t in Recurse(links, start, join, rounds - 1))
  {
  }

  lemma LevelRowHasAnInviter(links: seq<Link>, root: int, rounds: nat, t: TreeRow)
    requires t in TreeLevel(links, root, rounds)
    ensures t.path != []
    ensures rounds == 0 ==> InvitedUnder(links, root, t)
    ensures rounds > 0 ==> exists p :: p in TreeLevel(links, root, rounds - 1) && ParentRow(links, p, t)
  {
    if rounds == 0 {
      InBase(links, root, t);
      var ic :| ic in links && TreeStart(root)(ic) == Some(t);
    } else {
      InRound(links, TreeLevel(links, root, rounds - 1), t);
      var ic, p :| ic in links && p in TreeLevel(links, root, rounds - 1) && TreeJoin()(ic, p) == Some(t);
      assert InvitedUnder(links, p.user, t);
      assert t.path[..|t.path| - 1] == p.path;
      assert ParentRow(links, p, t);
    }
  }

  lemma LevelDepth(links: seq<Link>, root: int, rounds: nat, t: TreeRow)
    requires t in TreeLevel(links, root, rounds)
    ensures t.depth == rounds + 1
  {
    QueriesDeepen(root);
    RecursionStops(links, TreeStart(root), TreeJoin(), (t: TreeRow) => t.depth, rounds);
  }

  /** Somebody's invite put the row there: the root's, or that of the row one step up its path. */
  ghost predicate HasInviter(links: seq<Link>, root: int, rounds: nat, t: TreeRow) {
    && t.path != []
    && (t.depth == 1 ==> InvitedUnder(links, root, t))
    && (t.depth > 1 ==> exists p :: p in Recurse(links, TreeStart(root), TreeJoin(), rounds) && ParentRow(links, p, t))
  }

  lemma PreviousRoundStays(links: seq<Link>, root: int, rounds: nat, p: TreeRow)
    requires rounds > 0 && p in TreeLevel(links, root, rounds - 1)
    ensures p in Recurse(links, TreeStart(root), TreeJoin(), rounds)
  {
    InRecurse(links, TreeStart(root), TreeJoin(), rounds - 1, p);
    InRecurse(links, TreeStart(root), TreeJoin(), rounds, p);
  }

  /** The rows of the last round, whose parents are in the round before. */
  lemma LastRoundHasInviter(links: seq<Link>, root: int, rounds: nat, t: TreeRow)
    requires t in TreeLevel(links, root, rounds)
    ensures HasInviter(links, root, rounds, t)
  {
    LevelDepth(links, root, rounds, t);
    LevelRowHasAnInviter(links, root, rounds, t);
    if rounds > 0 {
      var p :| p in TreeLevel(links, root, rounds - 1) && ParentRow(links, p, t);
      PreviousRoundStays(links, root, rounds, p);
    }
  }

  lemma InviterStays(links: seq<Link>, root: int, rounds: nat, t: TreeRow)
    requires rounds > 0 && HasInviter(links, root, rounds - 1, t)
    ensures HasInviter(links, root, rounds, t)
  {
    if t.depth > 1 {
      var p :| p in Recurse(links, TreeStart(root), TreeJoin(), rounds - 1) && ParentRow(links, p, t);
      InRecurse(links, TreeStart(root), TreeJoin(), rounds, p);
    }
  }

  lemma {:induction false} TreeRowHasInviter(links: seq<Link>, root: int, rounds: nat, t: TreeRow)
    requires t in Recurse(links, TreeStart(root), TreeJoin(), rounds)
    ensures HasInviter(links, root, rounds, t)
  {
    InRecurse(links, TreeStart(root), TreeJoin(), rounds, t);
    if t in TreeLevel(links, root, rounds) {
      LastRoundHasInviter(links, root, rounds, t);
    } else {
      TreeRowHasInviter(links, root, rounds - 1, t);
      InviterStays(links, root, rounds, t);
    }
  }

  lemma EveryRowHasAnInviter(links: seq<Link>, root: int, rounds: nat, t: TreeRow)
    requires t in Recurse(links, TreeStart(root), TreeJoin(), rounds)
    ensures t.path != []
    ensures t.depth == 1 ==> InvitedUnder(links, root, t)
    ensures t.depth > 1 ==> exists p :: p in Recurse(links, TreeStart(root), TreeJoin(), rounds) && ParentRow(links, p, t)
  {
    TreeRowHasInviter(links, root, rounds, t);
  }

  // ---- the printed list ----

  /** The nearest earlier row indented one step less: all the reader of the page has to go by. */
  function ParentByIndent(indents: seq<int>, j: nat): (parent: Option<nat>)
    requires j < |indents|
    ensures parent.Some? ==> parent.value < j
  {
    NearestBefore(indents, j, indents[j] - 1)
  }

  function NearestBefore(indents: seq<int>, j: nat, indent: int): (nearest: Option<nat>)
    requires j <= |indents|
    ensures nearest.Some? ==> nearest.value < j
    decreases j
  {
    if j == 0 then None
    else if indents[j - 1] == indent then Some(j - 1)
    else NearestBefore(indents, j - 1, indent)
  }

  lemma {:induction false} NearestIs(indents: seq<int>, j: nat, indent: int, i: nat)
    requires i < j <= |indents| && indents[i] == indent && (forall m | i < m < j :: indents[m] != indent)
    ensures NearestBefore(indents, j, indent) == Some(i)
  {
    if i < j - 1 { NearestIs(indents, j - 1, indent, i); }
  }

  function Indents(rows: seq<TreeRow>): seq<int> {
    seq(|rows|, i requires 0 <= i < |rows| => rows[i].depth - 1)
  }

  lemma {:induction false} AtMostOnce(rows: seq<TreeRow>, t: TreeRow)
    requires DistinctPaths(rows)
    ensures multiset(rows)[t] <= 1
  {
    if rows != [] {
      assert rows == [rows[0]] + rows[1..];
      AtMostOnce(rows[1..], t);
      if t == rows[0] {
        assert t !in rows[1..];
      }
    }
  }

  lemma RearrangedDistinct(rows: seq<TreeRow>, bag: seq<TreeRow>)
    requires DistinctPaths(bag) && multiset(rows) == multiset(bag)
    ensures DistinctPaths(rows)
  {
    forall i, j | 0 <= i < j < |rows| ensures rows[i].path != rows[j].path {
      assert rows[i] in multiset(rows) && rows[j] in multiset(rows);
      if rows[i].path == rows[j].path {
        SamePathSameRow(bag, rows[i], rows[j]);
        assert rows == rows[..i] + [rows[i]] + rows[i + 1..j] + [rows[j]] + rows[j + 1..];
        AtMostOnce(bag, rows[i]);
        assert false;
      }
    }
  }

  /** The rows InviteTree returns, in some order ORDER BY path allows. */
  ghost predicate Listing(links: seq<Link>, users: set<int>, root: int, rows: seq<TreeRow>) {
    multiset(rows) == multiset(InviteTreeBag(links, users, root)) && Ordered(rows)
  }

  ghost predicate UsersExist(links: seq<Link>, users: set<int>) {
    forall ic <- links :: ic.usedBy.Some? ==> ic.usedBy.value in users
  }

  lemma {:induction false} KeepAll(rows: seq<TreeRow>, users: set<int>)
    requires forall t <- rows :: t.user in users
    ensures Project(rows, (t: TreeRow) => if t.user in users then Some(t) else None) == rows
  {
    if rows != [] {
      assert rows[0] in rows;
      KeepAll(rows[1..], users);
    }
  }

  lemma ListingFacts(links: seq<Link>, users: set<int>, root: int, rows: seq<TreeRow>)
    requires 0 < root && UsersExist(links, users) && DistinctSiblings(links) && Listing(links, users, root, rows)
    ensures DistinctPaths(rows)
    ensures forall t <- rows :: |t.path| == t.depth && 1 <= t.depth
    ensures forall t <- rows :: t.depth == 1 ==> InvitedUnder(links, root, t)
    ensures forall t <- rows :: t.depth > 1 ==> exists p :: p in rows && ParentRow(links, p, t)
  {
    var bag := TreeRows(links, root);
    TreePaths(links, root, 4);
    forall t <- bag ensures t.user in users {
      EveryRowHasAnInviter(links, root, 4, t);
    }
    KeepAll(bag, users);
    RearrangedDistinct(rows, bag);
    forall t <- rows
      ensures |t.path| == t.depth && 1 <= t.depth
      ensures t.depth == 1 ==> InvitedUnder(links, root, t)
      ensures t.depth > 1 ==> exists p :: p in rows && ParentRow(links, p, t)
    {
      assert t in multiset(rows);
      EveryRowHasAnInviter(links, root, 4, t);
      if t.depth > 1 {
        var p :| p in bag && ParentRow(links, p, t);
        assert p in multiset(bag);
      }
    }
  }

  lemma Strictly(rows: seq<TreeRow>, i: nat, j: nat)
    requires Ordered(rows) && DistinctPaths(rows) && i < j < |rows|
    ensures PathBefore(rows[i].path, rows[j].path)
  {
    PathTotal(rows[i].path, rows[j].path);
  }

  /** The list is a preorder: everybody below a member comes after them, in one unbroken block. */
  lemma DescendantsAreOneBlock(rows: seq<TreeRow>, i: nat, j: nat)
    requires Ordered(rows) && DistinctPaths(rows) && i < |rows| && j < |rows| && rows[i].path < rows[j].path
    ensures i < j
    ensures forall m | i < m <= j :: rows[i].path < rows[m].path
  {
    PrefixComesFirst(rows[i].path, rows[j].path);
    PathTotal(rows[i].path, rows[j].path);
    forall m | i < m < j ensures rows[i].path < rows[m].path {
      Strictly(rows, i, m);
      Strictly(rows, m, j);
      BetweenExtends(rows[i].path, rows[m].path, rows[j].path);
    }
  }

  /** The flat indented list determines the tree: a row with indent 0 was invited by the root, and
      any other by the nearest row above it that is indented one step less. */
  lemma IndentDeterminesTheInviter(links: seq<Link>, users: set<int>, root: int, rows: seq<TreeRow>, j: nat)
    requires 0 < root && UsersExist(links, users) && DistinctSiblings(links) && Listing(links, users, root, rows)
    requires j < |rows|
    ensures |rows[j].path| == rows[j].depth >= 1
    ensures Indents(rows)[j] == 0 ==> InvitedUnder(links, root, rows[j])
    ensures Indents(rows)[j] > 0 ==>
      var p := ParentByIndent(Indents(rows), j);
      p.Some? && ParentRow(links, rows[p.value], rows[j])
  {
    ListingFacts(links, users, root, rows);
    var t := rows[j];
    assert t in rows;
    if t.depth > 1 {
      var p :| p in rows && ParentRow(links, p, t);
      var i :| 0 <= i < |rows| && rows[i] == p;
      NearestIsParent(rows, i, j);
    }
  }

  lemma NearestIsParent(rows: seq<TreeRow>, i: nat, j: nat)
    requires Ordered(rows) && DistinctPaths(rows) && (forall t <- rows :: |t.path| == t.depth)
    requires i < |rows| && j < |rows| && rows[j].path != [] && rows[i].path == rows[j].path[..|rows[j].path| - 1]
    ensures ParentByIndent(Indents(rows), j) == Some(i)
  {
    assert rows[i] in rows && rows[j] in rows && rows[i].path < rows[j].path;
    DescendantsAreOneBlock(rows, i, j);
    forall m | i < m < j ensures Indents(rows)[m] != Indents(rows)[j] - 1 {
      assert rows[m] in rows && rows[i].path < rows[m].path;
    }
    NearestIs(Indents(rows), j, Indents(rows)[j] - 1, i);
  }

  /** Every member's descendants directly follow them, also on the page. */
  lemma ListingIsPreorder(links: seq<Link>, users: set<int>, root: int, rows: seq<TreeRow>, i: nat, j: nat)
    requires 0 < root && UsersExist(links, users) && DistinctSiblings(links) && Listing(links, users, root, rows)
    requires i < |rows| && j < |rows| && rows[i].path < rows[j].path
    ensures i < j
    ensures forall m | i < m <= j :: rows[i].path < rows[m].path && Indents(rows)[i] < Indents(rows)[m]
  {
    ListingFacts(links, users, root, rows);
    DescendantsAreOneBlock(rows, i, j);
    forall m | i < m <= j ensures Indents(rows)[i] < Indents(rows)[m] {
      assert rows[i] in rows && rows[m] in rows;
    }
  }
}
