/**
 The invite chain: four recursive queries over the same two columns
 (internal/storage/invites.go).

 A table is a sequence of rows that stands for a bag: nothing below depends on its
 order. WITH RECURSIVE ... UNION ALL is `Recurse`: each round joins the rows of the
 last round to the table, keeps duplicates, and the rounds are appended. Every query
 cuts the recursion at five generations with a test on the row's own depth.
 */
module InviteChain {
  import opened Wrappers

  const INVITE_TREE_DEPTH := 5

  /** The columns the walks read. `usedAt` means something only when the code was used. */
  datatype Link = Link(createdBy: int, usedBy: Option<int>, usedAt: int)

  // ---- WITH RECURSIVE ----

  function Base<T>(links: seq<Link>, start: Link -> Option<T>): seq<T> {
    if links == [] then []
    else
      var row := start(links[0]);
      (if row.Some? then [row.value] else []) + Base(links[1..], start)
  }

  function JoinOne<T>(link: Link, level: seq<T>, join: (Link, T) -> Option<T>): seq<T> {
    if level == [] then []
    else
      var row := join(link, level[0]);
      (if row.Some? then [row.value] else []) + JoinOne(link, level[1..], join)
  }

  function Round<T>(links: seq<Link>, level: seq<T>, join: (Link, T) -> Option<T>): seq<T> {
    if links == [] then [] else JoinOne(links[0], level, join) + Round(links[1..], level, join)
  }

  /** The rows `rounds` joins after the base. */
  function Level<T>(links: seq<Link>, start: Link -> Option<T>, join: (Link, T) -> Option<T>, rounds: nat): seq<T> {
    if rounds == 0 then Base(links, start) else Round(links, Level(links, start, join, rounds - 1), join)
  }

  function Recurse<T>(links: seq<Link>, start: Link -> Option<T>, join: (Link, T) -> Option<T>, rounds: nat): seq<T> {
    if rounds == 0 then Level(links, start, join, 0)
    else Recurse(links, start, join, rounds - 1) + Level(links, start, join, rounds)
  }

  // ---- the four queries ----

  datatype TreeRow = TreeRow(user: int, depth: int, path: seq<int>)
  datatype UpRow = UpRow(user: int, distance: int)
  datatype EdgeRow = EdgeRow(root: int, descendant: int, depth: int)
  datatype MemberRow = MemberRow(member: int, depth: int)

  function TreeStart(root: int): Link -> Option<TreeRow> {
    (ic: Link) =>
      if ic.createdBy == root && ic.usedBy.Some? then Some(TreeRow(ic.usedBy.value, 1, [ic.usedAt])) else None
  }

  function TreeJoin(): (Link, TreeRow) -> Option<TreeRow> {
    (ic: Link, t: TreeRow) =>
      if ic.createdBy == t.user && ic.usedBy.Some? && t.depth < INVITE_TREE_DEPTH
      then Some(TreeRow(ic.usedBy.value, t.depth + 1, t.path + [ic.usedAt])) else None
  }

  function UpStart(user: int): Link -> Option<UpRow> {
    (ic: Link) => if ic.usedBy == Some(user) then Some(UpRow(ic.createdBy, 1)) else None
  }

  function UpJoin(): (Link, UpRow) -> Option<UpRow> {
    (ic: Link, u: UpRow) =>
      if ic.usedBy == Some(u.user) && u.distance < INVITE_TREE_DEPTH
      then Some(UpRow(ic.createdBy, u.distance + 1)) else None
  }

  function EdgeStart(): Link -> Option<EdgeRow> {
    (ic: Link) => if ic.usedBy.Some? then Some(EdgeRow(ic.createdBy, ic.usedBy.value, 1)) else None
  }

  function EdgeJoin(): (Link, EdgeRow) -> Option<EdgeRow> {
    (ic: Link, e: EdgeRow) =>
      if ic.createdBy == e.descendant && ic.usedBy.Some? && e.depth < 5
      then Some(EdgeRow(e.root, ic.usedBy.value, e.depth + 1)) else None
  }

  function MemberStart(root: int): Link -> Option<MemberRow> {
    (ic: Link) =>
      if ic.createdBy == root && ic.usedBy.Some? then Some(MemberRow(ic.usedBy.value, 1)) else None
  }

  function MemberJoin(): (Link, MemberRow) -> Option<MemberRow> {
    (ic: Link, t: MemberRow) =>
      if ic.createdBy == t.member && ic.usedBy.Some? && t.depth < INVITE_TREE_DEPTH
      then Some(MemberRow(ic.usedBy.value, t.depth + 1)) else None
  }

  function TreeLevel(links: seq<Link>, root: int, rounds: nat): seq<TreeRow> {
    Level(links, TreeStart(root), TreeJoin(), rounds)
  }

  function UpLevel(links: seq<Link>, user: int, rounds: nat): seq<UpRow> {
    Level(links, UpStart(user), UpJoin(), rounds)
  }

  /** The CTEs: the base and four rounds reach depth five, and the fifth round is empty. */
  function TreeRows(links: seq<Link>, root: int): seq<TreeRow> {
    Recurse(links, TreeStart(root), TreeJoin(), 4)
  }

  function UpRows(links: seq<Link>, user: int): seq<UpRow> {
    Recurse(links, UpStart(user), UpJoin(), 4)
  }

  function EdgeRows(links: seq<Link>): seq<EdgeRow> {
    Recurse(links, EdgeStart(), EdgeJoin(), 4)
  }

  function MemberRows(links: seq<Link>, root: int): seq<MemberRow> {
    Recurse(links, MemberStart(root), MemberJoin(), 4)
  }

  // ---- the depth test ends every recursion ----

  /** The join only fires below the cap and adds one to the depth. */
  ghost predicate Deepens<T(!new)>(start: Link -> Option<T>, join: (Link, T) -> Option<T>, depth: T -> int) {
    && (forall ic :: start(ic).Some? ==> depth(start(ic).value) == 1)
    && (forall ic, t :: join(ic, t).Some? ==> depth(t) < INVITE_TREE_DEPTH && depth(join(ic, t).value) == depth(t) + 1)
  }

  lemma {:induction false} BaseDepth<T(!new)>(links: seq<Link>, start: Link -> Option<T>, join: (Link, T) -> Option<T>, depth: T -> int)
    requires Deepens(start, join, depth)
    ensures forall t <- Base(links, start) :: depth(t) == 1
  {
    if links != [] { BaseDepth(links[1..], start, join, depth); }
  }

  lemma {:induction false} JoinDepth<T(!new)>(ic: Link, level: seq<T>, start: Link -> Option<T>, join: (Link, T) -> Option<T>, depth: T -> int, d: int)
    requires Deepens(start, join, depth) && (forall t <- level :: depth(t) == d)
    ensures forall t <- JoinOne(ic, level, join) :: depth(t) == d + 1
    ensures INVITE_TREE_DEPTH <= d ==> JoinOne(ic, level, join) == []
  {
    if level != [] {
      assert level[0] in level;
      JoinDepth(ic, level[1..], start, join, depth, d);
    }
  }

  lemma {:induction false} RoundDepth<T(!new)>(links: seq<Link>, level: seq<T>, start: Link -> Option<T>, join: (Link, T) -> Option<T>, depth: T -> int, d: int)
    requires Deepens(start, join, depth) && (forall t <- level :: depth(t) == d)
    ensures forall t <- Round(links, level, join) :: depth(t) == d + 1
    ensures INVITE_TREE_DEPTH <= d ==> Round(links, level, join) == []
  {
    if links != [] {
      JoinDepth(links[0], level, start, join, depth, d);
      RoundDepth(links[1..], level, start, join, depth, d);
    }
  }

  /** Round n yields rows of depth n + 1 only, and from the fifth on nothing: four rounds are all
      that WITH RECURSIVE ever runs to effect, on any table, cycles included. */
  lemma {:induction false} RecursionStops<T(!new)>(links: seq<Link>, start: Link -> Option<T>, join: (Link, T) -> Option<T>, depth: T -> int, rounds: nat)
    requires Deepens(start, join, depth)
    ensures forall t <- Level(links, start, join, rounds) :: depth(t) == rounds + 1
    ensures INVITE_TREE_DEPTH <= rounds ==> Level(links, start, join, rounds) == []
  {
    if rounds == 0 {
      BaseDepth(links, start, join, depth);
    } else {
      RecursionStops(links, start, join, depth, rounds - 1);
      RoundDepth(links, Level(links, start, join, rounds - 1), start, join, depth, rounds);
    }
  }

  lemma QueriesDeepen(root: int)
    ensures Deepens(TreeStart(root), TreeJoin(), (t: TreeRow) => t.depth)
    ensures Deepens(UpStart(root), UpJoin(), (u: UpRow) => u.distance)
    ensures Deepens(EdgeStart(), EdgeJoin(), (e: EdgeRow) => e.depth)
    ensures Deepens(MemberStart(root), MemberJoin(), (t: MemberRow) => t.depth)
  {
  }

  // ---- one walk seen through another ----

  function Through<T, U>(row: Option<T>, p: T -> Option<U>): Option<U> {
    if row.Some? then p(row.value) else None
  }

  function Project<T, U>(rows: seq<T>, p: T -> Option<U>): seq<U> {
    if rows == [] then []
    else
      var row := p(rows[0]);
      (if row.Some? then [row.value] else []) + Project(rows[1..], p)
  }

  /** Looking through p before or after a join makes no difference. */
  ghost predicate Mirrors<T(!new), U(!new)>(
      start: Link -> Option<T>, join: (Link, T) -> Option<T>,
      start': Link -> Option<U>, join': (Link, U) -> Option<U>, p: T -> Option<U>)
  {
    && (forall ic :: Through(start(ic), p) == start'(ic))
    && (forall ic, t :: Through(join(ic, t), p) == if p(t).Some? then join'(ic, p(t).value) else None)
  }

  lemma {:induction false} ProjectAppend<T, U>(a: seq<T>, b: seq<T>, p: T -> Option<U>)
    ensures Project(a + b, p) == Project(a, p) + Project(b, p)
  {
    if a == [] {
      assert a + b == b;
    } else {
      var head := if p(a[0]).Some? then [p(a[0]).value] else [];
      assert (a + b)[0] == a[0] && (a + b)[1..] == a[1..] + b;
      assert Project(a + b, p) == head + Project(a[1..] + b, p);
      ProjectAppend(a[1..], b, p);
      assert Project(a, p) == head + Project(a[1..], p);
    }
  }

  lemma {:induction false} ProjectBase<T(!new), U(!new)>(links: seq<Link>,
      start: Link -> Option<T>, join: (Link, T) -> Option<T>,
      start': Link -> Option<U>, join': (Link, U) -> Option<U>, p: T -> Option<U>)
    requires Mirrors(start, join, start', join', p)
    ensures Project(Base(links, start), p) == Base(links, start')
  {
    if links != [] {
      var row := start(links[0]);
      assert Through(row, p) == start'(links[0]);
      ProjectAppend(if row.Some? then [row.value] else [], Base(links[1..], start), p);
      ProjectBase(links[1..], start, join, start', join', p);
    }
  }

  lemma {:induction false} ProjectJoin<T(!new), U(!new)>(ic: Link, level: seq<T>,
      start: Link -> Option<T>, join: (Link, T) -> Option<T>,
      start': Link -> Option<U>, join': (Link, U) -> Option<U>, p: T -> Option<U>)
    requires Mirrors(start, join, start', join', p)
    ensures Project(JoinOne(ic, level, join), p) == JoinOne(ic, Project(level, p), join')
  {
    if level != [] {
      var row := join(ic, level[0]);
      assert Through(row, p) == if p(level[0]).Some? then join'(ic, p(level[0]).value) else None;
      ProjectAppend(if row.Some? then [row.value] else [], JoinOne(ic, level[1..], join), p);
      ProjectJoin(ic, level[1..], start, join, start', join', p);
      if p(level[0]).Some? {
        assert Project(level, p)[1..] == Project(level[1..], p);
      } else {
        assert Project(level, p) == Project(level[1..], p);
      }
    }
  }

  lemma {:induction false} ProjectRound<T(!new), U(!new)>(links: seq<Link>, level: seq<T>,
      start: Link -> Option<T>, join: (Link, T) -> Option<T>,
      start': Link -> Option<U>, join': (Link, U) -> Option<U>, p: T -> Option<U>)
    requires Mirrors(start, join, start', join', p)
    ensures Project(Round(links, level, join), p) == Round(links, Project(level, p), join')
  {
    if links != [] {
      ProjectJoin(links[0], level, start, join, start', join', p);
      ProjectRound(links[1..], level, start, join, start', join', p);
      ProjectAppend(JoinOne(links[0], level, join), Round(links[1..], level, join), p);
    }
  }

  lemma {:induction false} ProjectLevel<T(!new), U(!new)>(links: seq<Link>,
      start: Link -> Option<T>, join: (Link, T) -> Option<T>,
      start': Link -> Option<U>, join': (Link, U) -> Option<U>, p: T -> Option<U>, rounds: nat)
    requires Mirrors(start, join, start', join', p)
    ensures Project(Level(links, start, join, rounds), p) == Level(links, start', join', rounds)
  {
    if rounds == 0 {
      ProjectBase(links, start, join, start', join', p);
    } else {
      ProjectLevel(links, start, join, start', join', p, rounds - 1);
      ProjectRound(links, Level(links, start, join, rounds - 1), start, join, start', join', p);
    }
  }

  /** Running a recursion and looking through p is running the recursion p sees. */
  lemma {:induction false} ProjectRecurse<T(!new), U(!new)>(links: seq<Link>,
      start: Link -> Option<T>, join: (Link, T) -> Option<T>,
      start': Link -> Option<U>, join': (Link, U) -> Option<U>, p: T -> Option<U>, rounds: nat)
    requires Mirrors(start, join, start', join', p)
    ensures Project(Recurse(links, start, join, rounds), p) == Recurse(links, start', join', rounds)
  {
    ProjectLevel(links, start, join, start', join', p, rounds);
    if rounds > 0 {
      ProjectRecurse(links, start, join, start', join', p, rounds - 1);
      ProjectAppend(Recurse(links, start, join, rounds - 1), Level(links, start, join, rounds), p);
    }
  }

  // ---- TopRecruiters against RecruitCounts ----

  datatype Counts = Counts(direct: nat, chain: nat)

  /** The profile's query: one root. */
  function RecruitCounts(links: seq<Link>, root: int): Counts {
    var rows := MemberRows(links, root);
    Counts(|set t <- rows | t.depth == 1 :: t.member|, |set t <- rows :: t.member|)
  }

  /** The staff page's query: every root at once, then GROUP BY root. None is no row for that root. */
  function RecruiterRow(links: seq<Link>, users: set<int>, root: int): Option<Counts> {
    var group := EdgeRows(links);
    if root in users && exists e :: e in group && e.root == root
    then Some(Counts(|set e <- group | e.root == root && e.depth == 1 :: e.descendant|,
                     |set e <- group | e.root == root :: e.descendant|))
    else None
  }

  function OfRoot(root: int): EdgeRow -> Option<MemberRow> {
    (e: EdgeRow) => if e.root == root then Some(MemberRow(e.descendant, e.depth)) else None
  }

  function WithoutPath(): TreeRow -> Option<MemberRow> {
    (t: TreeRow) => Some(MemberRow(t.user, t.depth))
  }

  lemma EdgesOfRoot(links: seq<Link>, root: int)
    ensures Project(EdgeRows(links), OfRoot(root)) == MemberRows(links, root)
  {
    ProjectRecurse(links, EdgeStart(), EdgeJoin(), MemberStart(root), MemberJoin(), OfRoot(root), 4);
  }

  /** The member counted on a profile are the members drawn in the tree, row for row. */
  lemma TreeCountsMembers(links: seq<Link>, root: int)
    ensures Project(TreeRows(links, root), WithoutPath()) == MemberRows(links, root)
  {
    ProjectRecurse(links, TreeStart(root), TreeJoin(), MemberStart(root), MemberJoin(), WithoutPath(), 4);
  }

  lemma {:induction false} InProject<T, U>(rows: seq<T>, p: T -> Option<U>, u: U)
    ensures u in Project(rows, p) <==> exists t :: t in rows && p(t) == Some(u)
  {
    if rows != [] {
      InProject(rows[1..], p, u);
      assert forall t :: t in rows <==> t == rows[0] || t in rows[1..];
    }
  }

  lemma InGroup(links: seq<Link>, root: int, u: MemberRow)
    ensures u in MemberRows(links, root) <==>
            EdgeRow(root, u.member, u.depth) in EdgeRows(links)
  {
    EdgesOfRoot(links, root);
    InProject(EdgeRows(links), OfRoot(root), u);
    var e := EdgeRow(root, u.member, u.depth);
    assert OfRoot(root)(e) == Some(u);
  }

  /** The board ranks with one recursion over every root, the profile with one of its own: on any
      table they agree about everyone, and whoever the board leaves out recruited nobody. */
  lemma BoardAgreesWithProfiles(links: seq<Link>, users: set<int>, root: int)
    requires root in users
    ensures RecruiterRow(links, users, root)
         == if RecruitCounts(links, root).chain == 0 then None else Some(RecruitCounts(links, root))
  {
    var edges, rows := EdgeRows(links), MemberRows(links, root);
    forall e | e in edges && e.root == root ensures MemberRow(e.descendant, e.depth) in rows {
      InGroup(links, root, MemberRow(e.descendant, e.depth));
    }
    forall t | t in rows ensures EdgeRow(root, t.member, t.depth) in edges {
      InGroup(links, root, t);
    }
    SameMembers(edges, rows, root);
    var members := set t <- rows :: t.member;
    assert RecruitCounts(links, root).chain == |members|;
    if e :| e in edges && e.root == root {
      assert e.descendant in members;
    } else {
      assert members == {};
    }
  }

  lemma SameMembers(edges: seq<EdgeRow>, rows: seq<MemberRow>, root: int)
    requires forall e | e in edges && e.root == root :: MemberRow(e.descendant, e.depth) in rows
    requires forall t | t in rows :: EdgeRow(root, t.member, t.depth) in edges
    ensures (set e <- edges | e.root == root :: e.descendant) == (set t <- rows :: t.member)
    ensures (set e <- edges | e.root == root && e.depth == 1 :: e.descendant)
         == (set t <- rows | t.depth == 1 :: t.member)
  {
    forall t | t in rows
      ensures t.member in (set e <- edges | e.root == root :: e.descendant)
      ensures t.depth == 1 ==> t.member in (set e <- edges | e.root == root && e.depth == 1 :: e.descendant)
    {
      assert EdgeRow(root, t.member, t.depth) in edges;
    }
    forall e | e in edges && e.root == root
      ensures e.descendant in (set t <- rows :: t.member)
      ensures e.depth == 1 ==> e.descendant in (set t <- rows | t.depth == 1 :: t.member)
    {
      assert MemberRow(e.descendant, e.depth) in rows;
    }
  }
}
