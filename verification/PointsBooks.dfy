/**
 What the books say in every committed state, whatever the interleaving: no balance
 below zero, points only moved by gifts and only made by credits, two rows a gift
 that cancel out, and for each member a ledger that reads as a running account.
 */
module PointsBooks {
  import opened Wrappers
  import opened Points
  import opened PointsInterleaved

  // ---- reading the ledger ----

  /** The rows that reference one gift. */
  function GiftRows(ledger: seq<Entry>, gift: int): seq<Entry> {
    if ledger == [] then []
    else
      var rest, e := GiftRows(ledger[..|ledger| - 1], gift), ledger[|ledger| - 1];
      if e.gift == Some(gift) then rest + [e] else rest
  }

  /** One member's rows, oldest first. */
  function UserRows(ledger: seq<Entry>, user: int): seq<Entry> {
    if ledger == [] then []
    else
      var rest, e := UserRows(ledger[..|ledger| - 1], user), ledger[|ledger| - 1];
      if e.user == user then rest + [e] else rest
  }

  function Sum(rows: seq<Entry>): int {
    if rows == [] then 0 else Sum(rows[..|rows| - 1]) + rows[|rows| - 1].amount
  }

  /** The balance column, read from the top, is what the amounts add up to. */
  ghost predicate RunningAccount(opening: int, rows: seq<Entry>) {
    forall k | 0 <= k < |rows| :: rows[k].balance == opening + Sum(rows[..k + 1])
  }

  function Total(points: map<int, int>): int
    decreases |points|
  {
    if points == map[] then 0
    else
      assert 0 < |points.Keys|;
      var u := Least(points.Keys);
      points[u] + Total(points - {u})
  }

  /** The order in which a sum over members is taken; any would do, as TotalPick says. */
  function Least(s: set<int>): (m: int)
    requires s != {}
    ensures m in s && forall x | x in s :: m <= x
  {
    HasLeast(s);
    var m :| m in s && forall x | x in s :: m <= x;
    m
  }

  lemma {:induction false} HasLeast(s: set<int>)
    requires s != {}
    ensures exists m | m in s :: forall x | x in s :: m <= x
    decreases |s|
  {
    var y := SomeMember(s);
    var rest := s - {y};
    if rest == {} {
      assert s == {y};
      assert forall x | x in s :: y <= x;
    } else {
      HasLeast(rest);
      var m :| m in rest && forall x | x in rest :: m <= x;
      var least := if y <= m then y else m;
      forall x | x in s ensures least <= x {
        assert x == y || x in rest;
      }
      assert least in s;
    }
  }

  lemma {:induction false} TotalPick(points: map<int, int>, u: int)
    requires u in points
    ensures Total(points) == points[u] + Total(points - {u})
    decreases |points|
  {
    var m := Least(points.Keys);
    if u != m {
      TotalPick(points - {m}, u);
      TotalPick(points - {u}, m);
      assert points - {m} - {u} == points - {u} - {m};
    }
  }

  lemma TotalUpdate(points: map<int, int>, u: int, v: int)
    requires u in points
    ensures Total(points[u := v]) == Total(points) - points[u] + v
  {
    TotalPick(points, u);
    TotalPick(points[u := v], u);
    assert points[u := v] - {u} == points - {u};
  }

  lemma GiftRowsAppend(ledger: seq<Entry>, e: Entry, gift: int)
    ensures GiftRows(ledger + [e], gift) == GiftRows(ledger, gift) + (if e.gift == Some(gift) then [e] else [])
  {
    assert (ledger + [e])[..|ledger + [e]| - 1] == ledger;
  }

  lemma UserRowsAppend(ledger: seq<Entry>, e: Entry, user: int)
    ensures UserRows(ledger + [e], user) == UserRows(ledger, user) + (if e.user == user then [e] else [])
  {
    assert (ledger + [e])[..|ledger + [e]| - 1] == ledger;
  }

  // ---- one committed transaction ----

  /** Points handed out by the credits of a log. */
  function Credited(log: seq<Done>): int {
    if log == [] then 0
    else
      var tx := log[|log| - 1].tx;
      Credited(log[..|log| - 1]) + if tx.Credit? then tx.amount else 0
  }

  predicate NothingTaken(log: seq<Done>) {
    forall d | d in log :: d.tx.Credit? ==> d.tx.amount >= 0
  }

  ghost predicate NoDebts(points: map<int, int>) {
    forall u | u in points :: points[u] >= 0
  }

  /** What one row adds to every member's account. */
  lemma PostRow(opening: int, ledger: seq<Entry>, e: Entry, user: int, before: int)
    requires var rows := UserRows(ledger, user); RunningAccount(opening, rows) && before == opening + Sum(rows)
    requires e.user == user ==> e.balance == before + e.amount
    ensures var rows := UserRows(ledger + [e], user);
            && RunningAccount(opening, rows)
            && opening + Sum(rows) == if e.user == user then e.balance else before
  {
    UserRowsAppend(ledger, e, user);
    var rows := UserRows(ledger, user);
    if e.user == user {
      var more := rows + [e];
      assert more[..|rows|] == rows && more[..|more|] == more;
      forall k | 0 <= k < |more| ensures more[k].balance == opening + Sum(more[..k + 1]) {
        if k < |rows| {
          assert more[..k + 1] == rows[..k + 1];
        }
      }
    }
  }

  ghost predicate Account(opening: int, db: Db, user: int)
    requires user in db.points
  {
    var rows := UserRows(db.ledger, user);
    RunningAccount(opening, rows) && db.points[user] == opening + Sum(rows)
  }

  lemma ApplyKeepsAccount(opening: int, db: Db, tx: Tx, ids: Ids, user: int)
    requires Commits(db, tx) && Admissible(tx)
    requires user in db.points && Account(opening, db, user)
    ensures user in Applied(db, tx, ids).points && Account(opening, Applied(db, tx, ids), user)
  {
    var rows := Rows(db, tx, ids);
    PostRow(opening, db.ledger, rows[0], user, db.points[user]);
    if tx.Transfer? {
      var first := db.ledger + [rows[0]];
      PostRow(opening, first, rows[1], user, if user == tx.sender then rows[0].balance else db.points[user]);
      assert db.ledger + rows == first + [rows[1]];
    } else {
      assert rows == [rows[0]];
    }
  }

  /** The two rows a gift leaves: the debit, then the credit, equal and opposite. */
  ghost predicate TwoRows(db: Db, gift: int)
    requires gift in db.gifts
  {
    var g, rows := db.gifts[gift], GiftRows(db.ledger, gift);
    && |rows| == 2
    && rows[0].user == g.sender && rows[0].amount == -g.amount
    && rows[1].user == g.recipient && rows[1].amount == g.amount
    && g.sender != g.recipient && Sum(rows) == 0
  }

  ghost predicate GiftsBooked(db: Db) {
    && (forall g | g in db.gifts :: TwoRows(db, g))
    && (forall e | e in db.ledger && e.gift.Some? :: e.gift.value in db.gifts)
  }

  lemma {:induction false} NoRowsForUnknownGift(ledger: seq<Entry>, gift: int)
    requires forall e | e in ledger :: e.gift != Some(gift)
    ensures GiftRows(ledger, gift) == []
  {
    if ledger != [] {
      NoRowsForUnknownGift(ledger[..|ledger| - 1], gift);
    }
  }

  lemma GiftRowsAfter(db: Db, d: Done, gift: int)
    requires CanApply(db, d)
    ensures GiftRows(db.ledger + Rows(db, d.tx, d.ids), gift)
         == GiftRows(db.ledger, gift) + if d.tx.Transfer? && d.ids.gift == gift then Rows(db, d.tx, d.ids) else []
  {
    var rows := Rows(db, d.tx, d.ids);
    GiftRowsAppend(db.ledger, rows[0], gift);
    if d.tx.Transfer? {
      var first := db.ledger + [rows[0]];
      GiftRowsAppend(first, rows[1], gift);
      assert db.ledger + rows == first + [rows[1]];
      assert GiftRows(db.ledger, gift) + rows == GiftRows(db.ledger, gift) + [rows[0]] + [rows[1]];
    } else {
      assert rows == [rows[0]];
    }
  }

  lemma SumOfTwo(rows: seq<Entry>)
    requires |rows| == 2
    ensures Sum(rows) == rows[0].amount + rows[1].amount
  {
    var first := rows[..1];
    assert first[..0] == [];
    assert Sum(first) == Sum(first[..|first| - 1]) + first[0].amount;
  }

  lemma ApplyKeepsGifts(db: Db, d: Done)
    requires CanApply(db, d) && GiftsBooked(db)
    ensures GiftsBooked(Applied(db, d.tx, d.ids))
  {
    var db' := Applied(db, d.tx, d.ids);
    forall g | g in db'.gifts ensures TwoRows(db', g) {
      GiftRowsAfter(db, d, g);
      if g !in db.gifts {
        NoRowsForUnknownGift(db.ledger, g);
        var rows := Rows(db, d.tx, d.ids);
        SumOfTwo(rows);
        assert GiftRows(db'.ledger, g) == rows;
      } else {
        assert TwoRows(db, g);
        assert GiftRows(db'.ledger, g) == GiftRows(db.ledger, g);
      }
    }
  }

  lemma ApplyKeepsTotal(db: Db, d: Done)
    requires CanApply(db, d)
    ensures Total(Applied(db, d.tx, d.ids).points)
         == Total(db.points) + if d.tx.Credit? then d.tx.amount else 0
  {
    match d.tx
    case Credit(user, amount) =>
      TotalUpdate(db.points, user, db.points[user] + amount);
    case Transfer(sender, recipient, amount, _) =>
      TotalUpdate(db.points, sender, db.points[sender] - amount);
      TotalUpdate(db.points[sender := db.points[sender] - amount], recipient, db.points[recipient] + amount);
  }

  // ---- a whole log ----

  ghost predicate BooksAgree(opening: map<int, int>, db: Db) {
    && db.points.Keys == opening.Keys
    && GiftsBooked(db)
    && forall u | u in opening :: Account(opening[u], db, u)
  }

  lemma ApplyKeepsBooks(opening: map<int, int>, db: Db, d: Done)
    requires CanApply(db, d) && BooksAgree(opening, db)
    ensures BooksAgree(opening, Applied(db, d.tx, d.ids))
  {
    ApplyKeepsGifts(db, d);
    assert Moved(db, d.tx).Keys == db.points.Keys;
    forall u | u in opening ensures Account(opening[u], Applied(db, d.tx, d.ids), u) {
      assert u in db.points.Keys;
      ApplyKeepsAccount(opening[u], db, d.tx, d.ids, u);
    }
  }

  lemma {:induction false} ReplayKeepsBooks(db0: Db, log: seq<Done>)
    requires Replayable(db0, log) && db0.ledger == [] && db0.gifts == map[]
    ensures BooksAgree(db0.points, Replay(db0, log))
  {
    if log != [] {
      ReplayKeepsBooks(db0, log[..|log| - 1]);
      ApplyKeepsBooks(db0.points, Replay(db0, log[..|log| - 1]), log[|log| - 1]);
    }
  }

  lemma {:induction false} ReplayKeepsTotal(db0: Db, log: seq<Done>)
    requires Replayable(db0, log)
    ensures Total(Replay(db0, log).points) == Total(db0.points) + Credited(log)
  {
    if log != [] {
      var front, d := log[..|log| - 1], log[|log| - 1];
      ReplayKeepsTotal(db0, front);
      ApplyKeepsTotal(Replay(db0, front), d);
    }
  }

  lemma {:induction false} ReplayMakesNoDebts(db0: Db, log: seq<Done>)
    requires Replayable(db0, log) && NoDebts(db0.points) && NothingTaken(log)
    ensures NoDebts(Replay(db0, log).points)
  {
    if log != [] {
      assert log[|log| - 1] in log;
      ReplayMakesNoDebts(db0, log[..|log| - 1]);
    }
  }

  // ---- every run ----

  /** The payout never asks for a negative credit. */
  predicate PaysOut(run: seq<Step>) {
    forall step | step in run :: step.Begin? && step.tx.Credit? ==> step.tx.amount >= 0
  }

  ghost predicate OnlyPays(s: Sys) {
    && NothingTaken(s.log)
    && forall i | i in s.open :: s.open[i].tx.Credit? ==> s.open[i].tx.amount >= 0
  }

  lemma NextOnlyPays(s: Sys, step: Step)
    requires Enabled(s, step) && OnlyPays(s) && PaysOut([step])
    ensures OnlyPays(Next(s, step))
  {
    assert step in [step];
  }

  lemma {:induction false} RunOnlyPays(s: Sys, run: seq<Step>)
    requires ValidRun(s, run) && OnlyPays(s) && PaysOut(run)
    ensures OnlyPays(After(s, run))
    decreases run
  {
    if run != [] {
      assert run[0] in run;
      NextOnlyPays(s, run[0]);
      RunOnlyPays(Next(s, run[0]), run[1..]);
    }
  }

  /** Every committed state of every interleaving. */
  lemma BooksAlwaysAgree(db0: Db, run: seq<Step>)
    requires db0.ledger == [] && db0.gifts == map[] && ValidRun(Start(db0), run)
    ensures var s := After(Start(db0), run);
            && BooksAgree(db0.points, s.db)
            && Total(s.db.points) == Total(db0.points) + Credited(s.log)
    ensures NoDebts(db0.points) && PaysOut(run) ==> NoDebts(After(Start(db0), run).db.points)
  {
    CommittedStateIsSerial(db0, run);
    var s := After(Start(db0), run);
    ReplayKeepsBooks(db0, s.log);
    ReplayKeepsTotal(db0, s.log);
    if NoDebts(db0.points) && PaysOut(run) {
      RunOnlyPays(Start(db0), run);
      ReplayMakesNoDebts(db0, s.log);
    }
  }

  /** The guard is in the gift's debit alone: a negative credit would leave a debt. */
  lemma CreditsCarryNoGuard(user: int, ids: Ids)
    ensures var db := Db(map[user := 0], [], map[]);
            && CanApply(db, Done(Credit(user, -1), ids))
            && !NoDebts(Applied(db, Credit(user, -1), ids).points)
  {
    assert Applied(Db(map[user := 0], [], map[]), Credit(user, -1), ids).points[user] == -1;
  }
}
