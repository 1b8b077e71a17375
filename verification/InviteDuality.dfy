/**
 Looking down the chain and looking up it: InviteTree and InviteUpline find the same
 walks from opposite ends.
 */
module InviteDuality {
  import opened Wrappers
  import opened InviteChain

  // ---- sums over the table ----

  function Sum(links: seq<Link>, f: Link -> nat): nat {
    if links == [] then 0 else f(links[0]) + Sum(links[1..], f)
  }

  lemma {:induction false} SumSame(links: seq<Link>, f: Link -> nat, g: Link -> nat)
    requires forall ic <- links :: f(ic) == g(ic)
    ensures Sum(links, f) == Sum(links, g)
  {
    if links != [] {
      assert links[0] in links;
      SumSame(links[1..], f, g);
    }
  }

  lemma {:induction false} SumPlus(links: seq<Link>, f: Link -> nat, g: Link -> nat, both: Link -> nat)
    requires forall ic <- links :: both(ic) == f(ic) + g(ic)
    ensures Sum(links, both) == Sum(links, f) + Sum(links, g)
  {
    if links != [] {
      assert links[0] in links;
      SumPlus(links[1..], f, g, both);
    }
  }

  lemma {:induction false} SumZero(links: seq<Link>, f: Link -> nat)
    requires forall ic <- links :: f(ic) == 0
    ensures Sum(links, f) == 0
  {
    if links != [] {
      assert links[0] in links;
      SumZero(links[1..], f);
    }
  }

  function Row(f: (Link, Link) -> nat, a: Link): Link -> nat { (b: Link) => f(a, b) }
  function Column(f: (Link, Link) -> nat, b: Link): Link -> nat { (a: Link) => f(a, b) }
  function RowSums(inner: seq<Link>, f: (Link, Link) -> nat): Link -> nat { (a: Link) => Sum(inner, Row(f, a)) }
  function ColumnSums(outer: seq<Link>, f: (Link, Link) -> nat): Link -> nat { (b: Link) => Sum(outer, Column(f, b)) }

  lemma {:induction false} SumSwap(outer: seq<Link>, inner: seq<Link>, f: (Link, Link) -> nat)
    ensures Sum(outer, RowSums(inner, f)) == Sum(inner, ColumnSums(outer, f))
  {
    if outer == [] {
      SumZero(inner, ColumnSums(outer, f));
    } else {
      SumSwap(outer[1..], inner, f);
      SumPlus(inner, Row(f, outer[0]), ColumnSums(outer[1..], f), ColumnSums(outer, f));
    }
  }

  // ---- walks ----

  /** How many walks of n used invites lead from a down to b, counted by their last step. */
  function Walks(links: seq<Link>, a: int, b: int, n: nat): nat
    decreases n, 1
  {
    if n == 0 then (if a == b then 1 else 0) else Sum(links, LastStep(links, a, b, n))
  }

  function LastStep(links: seq<Link>, a: int, b: int, n: nat): Link -> nat
    requires 0 < n
    decreases n, 0
  {
    (ic: Link) => if ic.usedBy == Some(b) then Walks(links, a, ic.createdBy, n - 1) else 0
  }

  function FirstStep(links: seq<Link>, a: int, b: int, n: nat): Link -> nat
    requires 0 < n
  {
    (ic: Link) => if ic.createdBy == a && ic.usedBy.Some? then Walks(links, ic.usedBy.value, b, n - 1) else 0
  }

  /** Walks with a given last and first step. */
  function TwoSteps(links: seq<Link>, a: int, b: int, n: nat): (Link, Link) -> nat
    requires 1 < n
  {
    (last: Link, first: Link) =>
      if last.usedBy == Some(b) && first.createdBy == a && first.usedBy.Some?
      then Walks(links, first.usedBy.value, last.createdBy, n - 2) else 0
  }

  /** Counting by the first step gives the same number. */
  lemma {:induction false} WalksByFirstStep(links: seq<Link>, a: int, b: int, n: nat)
    requires 0 < n
    ensures Walks(links, a, b, n) == Sum(links, FirstStep(links, a, b, n))
    decreases n
  {
    if n == 1 {
      SumSame(links, LastStep(links, a, b, 1), FirstStep(links, a, b, 1));
    } else {
      var both := TwoSteps(links, a, b, n);
      forall last <- links ensures LastStep(links, a, b, n)(last) == RowSums(links, both)(last) {
        if last.usedBy == Some(b) {
          WalksByFirstStep(links, a, last.createdBy, n - 1);
          SumSame(links, FirstStep(links, a, last.createdBy, n - 1), Row(both, last));
        } else {
          SumZero(links, Row(both, last));
        }
      }
      forall first <- links ensures FirstStep(links, a, b, n)(first) == ColumnSums(links, both)(first) {
        if first.createdBy == a && first.usedBy.Some? {
          SumSame(links, LastStep(links, first.usedBy.value, b, n - 1), Column(both, first));
        } else {
          SumZero(links, Column(both, first));
        }
      }
      SumSame(links, LastStep(links, a, b, n), RowSums(links, both));
      SumSwap(links, links, both);
      SumSame(links, FirstStep(links, a, b, n), ColumnSums(links, both));
    }
  }

  // ---- the levels count walks ----

  function TreeCount(rows: seq<TreeRow>, user: int): nat {
    if rows == [] then 0 else (if rows[0].user == user then 1 else 0) + TreeCount(rows[1..], user)
  }

  function UpCount(rows: seq<UpRow>, user: int): nat {
    if rows == [] then 0 else (if rows[0].user == user then 1 else 0) + UpCount(rows[1..], user)
  }

  lemma {:induction false} TreeCountAppend(a: seq<TreeRow>, b: seq<TreeRow>, user: int)
    ensures TreeCount(a + b, user) == TreeCount(a, user) + TreeCount(b, user)
  {
    if a == [] {
      assert a + b == b;
    } else {
      assert (a + b)[1..] == a[1..] + b;
      TreeCountAppend(a[1..], b, user);
    }
  }

  lemma {:induction false} UpCountAppend(a: seq<UpRow>, b: seq<UpRow>, user: int)
    ensures UpCount(a + b, user) == UpCount(a, user) + UpCount(b, user)
  {
    if a == [] {
      assert a + b == b;
    } else {
      assert (a + b)[1..] == a[1..] + b;
      UpCountAppend(a[1..], b, user);
    }
  }

  lemma {:induction false} TreeJoinCount(ic: Link, level: seq<TreeRow>, user: int)
    requires forall t <- level :: t.depth < INVITE_TREE_DEPTH
    ensures TreeCount(JoinOne(ic, level, TreeJoin()), user)
         == if ic.usedBy == Some(user) then TreeCount(level, ic.createdBy) else 0
  {
    if level != [] {
      assert level[0] in level;
      var row := TreeJoin()(ic, level[0]);
      TreeCountAppend(if row.Some? then [row.value] else [], JoinOne(ic, level[1..], TreeJoin()), user);
      TreeJoinCount(ic, level[1..], user);
    }
  }

  lemma {:induction false} UpJoinCount(ic: Link, level: seq<UpRow>, user: int)
    requires forall u <- level :: u.distance < INVITE_TREE_DEPTH
    ensures UpCount(JoinOne(ic, level, UpJoin()), user)
         == if ic.createdBy == user && ic.usedBy.Some? then UpCount(level, ic.usedBy.value) else 0
  {
    if level != [] {
      assert level[0] in level;
      var row := UpJoin()(ic, level[0]);
      UpCountAppend(if row.Some? then [row.value] else [], JoinOne(ic, level[1..], UpJoin()), user);
      UpJoinCount(ic, level[1..], user);
    }
  }

  /** How a link extends a level's walks down to the user, or up to them. */
  function Above(level: seq<TreeRow>, user: int): Link -> nat {
    (ic: Link) => if ic.usedBy == Some(user) then TreeCount(level, ic.createdBy) else 0
  }

  function Below(level: seq<UpRow>, user: int): Link -> nat {
    (ic: Link) => if ic.createdBy == user && ic.usedBy.Some? then UpCount(level, ic.usedBy.value) else 0
  }

  lemma {:induction false} TreeRoundCount(links: seq<Link>, level: seq<TreeRow>, user: int)
    requires forall t <- level :: t.depth < INVITE_TREE_DEPTH
    ensures TreeCount(Round(links, level, TreeJoin()), user)
         == Sum(links, Above(level, user))
  {
    if links != [] {
      TreeJoinCount(links[0], level, user);
      TreeRoundCount(links[1..], level, user);
      TreeCountAppend(JoinOne(links[0], level, TreeJoin()), Round(links[1..], level, TreeJoin()), user);
    }
  }

  lemma {:induction false} UpRoundCount(links: seq<Link>, level: seq<UpRow>, user: int)
    requires forall u <- level :: u.distance < INVITE_TREE_DEPTH
    ensures UpCount(Round(links, level, UpJoin()), user)
         == Sum(links, Below(level, user))
  {
    if links != [] {
      UpJoinCount(links[0], level, user);
      UpRoundCount(links[1..], level, user);
      UpCountAppend(JoinOne(links[0], level, UpJoin()), Round(links[1..], level, UpJoin()), user);
    }
  }

  lemma {:induction false} TreeBaseCount(links: seq<Link>, all: seq<Link>, root: int, user: int)
    ensures TreeCount(Base(links, TreeStart(root)), user) == Sum(links, LastStep(all, root, user, 1))
  {
    if links != [] {
      var row := TreeStart(root)(links[0]);
      TreeCountAppend(if row.Some? then [row.value] else [], Base(links[1..], TreeStart(root)), user);
      TreeBaseCount(links[1..], all, root, user);
    }
  }

  lemma {:induction false} UpBaseCount(links: seq<Link>, all: seq<Link>, user: int, above: int)
    ensures UpCount(Base(links, UpStart(user)), above) == Sum(links, FirstStep(all, above, user, 1))
  {
    if links != [] {
      var row := UpStart(user)(links[0]);
      UpCountAppend(if row.Some? then [row.value] else [], Base(links[1..], UpStart(user)), above);
      UpBaseCount(links[1..], all, user, above);
    }
  }

  lemma {:induction false} TreeLevelCountsWalks(links: seq<Link>, root: int, rounds: nat, user: int)
    requires rounds < INVITE_TREE_DEPTH
    ensures TreeCount(TreeLevel(links, root, rounds), user) == Walks(links, root, user, rounds + 1)
    decreases rounds
  {
    if rounds == 0 {
      TreeBaseCount(links, links, root, user);
    } else {
      var level := TreeLevel(links, root, rounds - 1);
      QueriesDeepen(root);
      RecursionStops(links, TreeStart(root), TreeJoin(), (t: TreeRow) => t.depth, rounds - 1);
      TreeRoundCount(links, level, user);
      forall ic <- links ensures Above(level, user)(ic) == LastStep(links, root, user, rounds + 1)(ic) {
        TreeLevelCountsWalks(links, root, rounds - 1, ic.createdBy);
      }
      SumSame(links, Above(level, user), LastStep(links, root, user, rounds + 1));
    }
  }

  lemma {:induction false} UpLevelCountsWalks(links: seq<Link>, user: int, rounds: nat, above: int)
    requires rounds < INVITE_TREE_DEPTH
    ensures UpCount(UpLevel(links, user, rounds), above) == Walks(links, above, user, rounds + 1)
    decreases rounds
  {
    WalksByFirstStep(links, above, user, rounds + 1);
    if rounds == 0 {
      UpBaseCount(links, links, user, above);
    } else {
      forall ic <- links
        ensures Below(UpLevel(links, user, rounds - 1), above)(ic) == FirstStep(links, above, user, rounds + 1)(ic)
      {
        if ic.usedBy.Some? {
          UpLevelCountsWalks(links, user, rounds - 1, ic.usedBy.value);
        }
      }
      SumSame(links, Below(UpLevel(links, user, rounds - 1), above), FirstStep(links, above, user, rounds + 1));
      UpLevelCount(links, user, rounds, above);
    }
  }

  lemma UpLevelCount(links: seq<Link>, user: int, rounds: nat, above: int)
    requires 0 < rounds < INVITE_TREE_DEPTH
    ensures UpCount(UpLevel(links, user, rounds), above) == Sum(links, Below(UpLevel(links, user, rounds - 1), above))
  {
    QueriesDeepen(user);
    RecursionStops(links, UpStart(user), UpJoin(), (u: UpRow) => u.distance, rounds - 1);
    UpRoundCount(links, UpLevel(links, user, rounds - 1), above);
  }

  // ---- the two queries, row for row ----

  /** JOIN users drops the rows of accounts that do not exist. */
  function InviteTreeBag(links: seq<Link>, users: set<int>, root: int): seq<TreeRow> {
    if root <= 0 then [] else Project(TreeRows(links, root), (t: TreeRow) => if t.user in users then Some(t) else None)
  }

  function InviteUplineBag(links: seq<Link>, users: set<int>, user: int): seq<UpRow> {
    if user <= 0 then [] else Project(UpRows(links, user), (u: UpRow) => if u.user in users then Some(u) else None)
  }

  function BelowAt(rows: seq<TreeRow>, user: int, depth: int): nat {
    if rows == [] then 0
    else (if rows[0].user == user && rows[0].depth == depth then 1 else 0) + BelowAt(rows[1..], user, depth)
  }

  function AboveAt(rows: seq<UpRow>, user: int, distance: int): nat {
    if rows == [] then 0
    else (if rows[0].user == user && rows[0].distance == distance then 1 else 0) + AboveAt(rows[1..], user, distance)
  }

  lemma {:induction false} BelowAppend(a: seq<TreeRow>, b: seq<TreeRow>, user: int, depth: int)
    ensures BelowAt(a + b, user, depth) == BelowAt(a, user, depth) + BelowAt(b, user, depth)
  {
    if a == [] {
      assert a + b == b;
    } else {
      assert (a + b)[1..] == a[1..] + b;
      BelowAppend(a[1..], b, user, depth);
    }
  }

  lemma {:induction false} AboveAppend(a: seq<UpRow>, b: seq<UpRow>, user: int, distance: int)
    ensures AboveAt(a + b, user, distance) == AboveAt(a, user, distance) + AboveAt(b, user, distance)
  {
    if a == [] {
      assert a + b == b;
    } else {
      assert (a + b)[1..] == a[1..] + b;
      AboveAppend(a[1..], b, user, distance);
    }
  }

  lemma {:induction false} BelowLevel(rows: seq<TreeRow>, user: int, depth: int, d: int)
    requires forall t <- rows :: t.depth == d
    ensures BelowAt(rows, user, depth) == if d == depth then TreeCount(rows, user) else 0
  {
    if rows != [] {
      assert rows[0] in rows;
      BelowLevel(rows[1..], user, depth, d);
    }
  }

  lemma {:induction false} AboveLevel(rows: seq<UpRow>, user: int, distance: int, d: int)
    requires forall u <- rows :: u.distance == d
    ensures AboveAt(rows, user, distance) == if d == distance then UpCount(rows, user) else 0
  {
    if rows != [] {
      assert rows[0] in rows;
      AboveLevel(rows[1..], user, distance, d);
    }
  }

  lemma {:induction false} BelowCountsWalks(links: seq<Link>, root: int, user: int, depth: int, rounds: nat)
    requires rounds < INVITE_TREE_DEPTH
    ensures BelowAt(Recurse(links, TreeStart(root), TreeJoin(), rounds), user, depth)
         == if 1 <= depth <= rounds + 1 then Walks(links, root, user, depth) else 0
  {
    QueriesDeepen(root);
    RecursionStops(links, TreeStart(root), TreeJoin(), (t: TreeRow) => t.depth, rounds);
    BelowLevel(TreeLevel(links, root, rounds), user, depth, rounds + 1);
    TreeLevelCountsWalks(links, root, rounds, user);
    if rounds > 0 {
      BelowCountsWalks(links, root, user, depth, rounds - 1);
      BelowAppend(Recurse(links, TreeStart(root), TreeJoin(), rounds - 1), TreeLevel(links, root, rounds), user, depth);
    }
  }

  lemma {:induction false} AboveCountsWalks(links: seq<Link>, user: int, above: int, distance: int, rounds: nat)
    requires rounds < INVITE_TREE_DEPTH
    ensures AboveAt(Recurse(links, UpStart(user), UpJoin(), rounds), above, distance)
         == if 1 <= distance <= rounds + 1 then Walks(links, above, user, distance) else 0
  {
    QueriesDeepen(user);
    RecursionStops(links, UpStart(user), UpJoin(), (u: UpRow) => u.distance, rounds);
    AboveLevel(UpLevel(links, user, rounds), above, distance, rounds + 1);
    UpLevelCountsWalks(links, user, rounds, above);
    if rounds > 0 {
      AboveCountsWalks(links, user, above, distance, rounds - 1);
      AboveAppend(Recurse(links, UpStart(user), UpJoin(), rounds - 1), UpLevel(links, user, rounds), above, distance);
    }
  }

  lemma {:induction false} KeptBelow(rows: seq<TreeRow>, users: set<int>, user: int, depth: int)
    requires user in users
    ensures BelowAt(Project(rows, (t: TreeRow) => if t.user in users then Some(t) else None), user, depth)
         == BelowAt(rows, user, depth)
  {
    if rows != [] {
      var rest := Project(rows[1..], (t: TreeRow) => if t.user in users then Some(t) else None);
      BelowAppend(if rows[0].user in users then [rows[0]] else [], rest, user, depth);
      KeptBelow(rows[1..], users, user, depth);
    }
  }

  lemma {:induction false} KeptAbove(rows: seq<UpRow>, users: set<int>, user: int, distance: int)
    requires user in users
    ensures AboveAt(Project(rows, (u: UpRow) => if u.user in users then Some(u) else None), user, distance)
         == AboveAt(rows, user, distance)
  {
    if rows != [] {
      var rest := Project(rows[1..], (u: UpRow) => if u.user in users then Some(u) else None);
      AboveAppend(if rows[0].user in users then [rows[0]] else [], rest, user, distance);
      KeptAbove(rows[1..], users, user, distance);
    }
  }

  /** On any table, cycles and repeated invites included: one account appears under another at some
      depth exactly as often as the other appears above it at that distance, to five generations. */
  lemma TreeAndUplineAreDuals(links: seq<Link>, users: set<int>, a: int, b: int, depth: int)
    requires a in users && b in users && 0 < a && 0 < b
    ensures BelowAt(InviteTreeBag(links, users, a), b, depth) == AboveAt(InviteUplineBag(links, users, b), a, depth)
    ensures BelowAt(InviteTreeBag(links, users, a), b, depth)
         == if 1 <= depth <= INVITE_TREE_DEPTH then Walks(links, a, b, depth) else 0
  {
    KeptBelow(TreeRows(links, a), users, b, depth);
    BelowCountsWalks(links, a, b, depth, 4);
    KeptAbove(UpRows(links, b), users, a, depth);
    AboveCountsWalks(links, b, a, depth, 4);
  }

  // ---- what the profile's two numbers are ----

  lemma {:induction false} SumPositive(links: seq<Link>, f: Link -> nat)
    ensures Sum(links, f) > 0 <==> exists ic <- links :: f(ic) > 0
  {
    if links != [] {
      SumPositive(links[1..], f);
      assert links == [links[0]] + links[1..];
    }
  }

  lemma {:induction false} OccursBelow(rows: seq<TreeRow>, user: int, depth: int)
    ensures BelowAt(rows, user, depth) > 0 <==> exists t <- rows :: t.user == user && t.depth == depth
  {
    if rows != [] {
      OccursBelow(rows[1..], user, depth);
      assert rows == [rows[0]] + rows[1..];
    }
  }

  lemma CountedMembersAreReached(links: seq<Link>, root: int, u: int, d: int)
    ensures MemberRow(u, d) in MemberRows(links, root) <==> 1 <= d <= 5 && Walks(links, root, u, d) > 0
  {
    var rows := TreeRows(links, root);
    TreeCountsMembers(links, root);
    InProject(rows, WithoutPath(), MemberRow(u, d));
    OccursBelow(rows, u, d);
    BelowCountsWalks(links, root, u, d, 4);
    if t :| t in rows && t.user == u && t.depth == d {
      assert WithoutPath()(t) == Some(MemberRow(u, d));
    }
  }

  lemma OneStep(links: seq<Link>, root: int, u: int)
    ensures Walks(links, root, u, 1) > 0 <==> exists ic <- links :: ic.createdBy == root && ic.usedBy == Some(u)
  {
    SumPositive(links, LastStep(links, root, u, 1));
    assert forall ic <- links :: LastStep(links, root, u, 1)(ic) > 0 <==> ic.createdBy == root && ic.usedBy == Some(u);
  }

  ghost predicate Reaches(links: seq<Link>, root: int, u: int) {
    exists d :: 1 <= d <= 5 && Walks(links, root, u, d) > 0
  }

  /** The first is how many different accounts used one of the member's own codes, the second how many can
      be reached from the member by one to five used invites. */
  lemma CountsAreReach(links: seq<Link>, root: int) returns (direct: set<int>, reached: set<int>)
    ensures RecruitCounts(links, root) == Counts(|direct|, |reached|)
    ensures forall u :: u in direct <==> exists ic <- links :: ic.createdBy == root && ic.usedBy == Some(u)
    ensures forall u :: u in reached <==> Reaches(links, root, u)
  {
    var rows := MemberRows(links, root);
    direct := set t <- rows | t.depth == 1 :: t.member;
    reached := set t <- rows :: t.member;
    forall u ensures u in direct <==> exists ic <- links :: ic.createdBy == root && ic.usedBy == Some(u) {
      CountedMembersAreReached(links, root, u, 1);
      OneStep(links, root, u);
      assert u in direct <==> MemberRow(u, 1) in rows;
    }
    forall u ensures u in reached <==> Reaches(links, root, u) {
      ReachedMember(links, root, u);
      assert u in reached <==> exists t <- rows :: t.member == u;
    }
  }

  lemma ReachedMember(links: seq<Link>, root: int, u: int)
    ensures (exists t <- MemberRows(links, root) :: t.member == u) <==> Reaches(links, root, u)
  {
    var rows := MemberRows(links, root);
    if t :| t in rows && t.member == u {
      CountedMembersAreReached(links, root, u, t.depth);
    }
    if d :| 1 <= d <= 5 && Walks(links, root, u, d) > 0 {
      CountedMembersAreReached(links, root, u, d);
      assert MemberRow(u, d) in rows;
    }
  }
}
