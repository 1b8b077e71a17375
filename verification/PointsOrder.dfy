/**
 The order of a member's ledger rows. Rows get their ids when they are inserted, and
 transactions commit in another order than they insert in; the lock each holds on the
 balances it moves still makes every member's ids rise in commit order. Reading one
 member's history by id is therefore reading it in the order the balances moved.
 */
module PointsOrder {
  import opened Wrappers
  import opened Points
  import opened PointsInterleaved
  import opened PointsBooks

  ghost predicate Rising(ledger: seq<Entry>) {
    forall i, j | 0 <= i < j < |ledger| && ledger[i].user == ledger[j].user :: ledger[i].id < ledger[j].id
  }

  /** Every id so far has been drawn from the sequence. */
  ghost predicate Drawn(rows: seq<Entry>, next: int) {
    forall e | e in rows :: e.id < next
  }

  /** What a member has in the ledger is older than what is being added to it. */
  ghost predicate Newer(rows: seq<Entry>, ledger: seq<Entry>) {
    forall e, r | e in ledger && r in rows && e.user == r.user :: e.id < r.id
  }

  /** A transaction writes rows only for the balances it holds, each once. */
  ghost predicate RowsOfHeld(o: Open) {
    && (forall r | r in o.rows :: r.user in o.writes)
    && forall i, j | 0 <= i < j < |o.rows| :: o.rows[i].user != o.rows[j].user
  }

  ghost predicate InOrder(s: Sys) {
    && Rising(s.db.ledger) && Drawn(s.db.ledger, s.nextEntry)
    && forall i | i in s.open ::
         RowsOfHeld(s.open[i]) && Drawn(s.open[i].rows, s.nextEntry) && Newer(s.open[i].rows, s.db.ledger)
  }

  lemma InsertInOrder(s: Sys, id: nat, row: Entry, ids: Ids)
    requires InOrder(s) && id in s.open && row.id == s.nextEntry && row.user in s.open[id].writes
    requires forall r | r in s.open[id].rows :: r.user != row.user
    ensures InOrder(InsertRow(s, id, row, ids))
  {
  }

  /** The ledger after a commit. */
  lemma AppendRises(ledger: seq<Entry>, o: Open)
    requires Rising(ledger) && RowsOfHeld(o) && Newer(o.rows, ledger)
    ensures Rising(ledger + o.rows)
  {
    var all := ledger + o.rows;
    forall i, j | |ledger| <= i < j < |all| ensures all[i].user != all[j].user {
      assert all[i] == o.rows[i - |ledger|] && all[j] == o.rows[j - |ledger|];
    }
    forall i, j | 0 <= i < j < |all| && all[i].user == all[j].user ensures all[i].id < all[j].id {
      if i < |ledger| <= j {
        assert all[i] in ledger && all[j] in o.rows;
      }
    }
  }

  /** What the others are adding is newer than what this one has added: they hold other rows. */
  lemma StillNewer(ledger: seq<Entry>, o: Open, other: Open)
    requires RowsOfHeld(o) && RowsOfHeld(other) && o.writes.Keys !! other.writes.Keys
    requires Newer(other.rows, ledger)
    ensures Newer(other.rows, ledger + o.rows)
  {
    forall e, r | e in o.rows && r in other.rows ensures e.user != r.user {
      assert e.user in o.writes.Keys && r.user in other.writes.Keys;
    }
  }

  lemma CommitInOrder(s: Sys, id: nat)
    requires InOrder(s) && LocksHeld(s) && id in s.open
    ensures InOrder(Commit(s, id))
  {
    var o, s' := s.open[id], Commit(s, id);
    AppendRises(s.db.ledger, o);
    forall i | i in s'.open ensures Newer(s'.open[i].rows, s'.db.ledger) {
      StillNewer(s.db.ledger, o, s.open[i]);
    }
  }

  lemma PostCreditInOrder(s: Sys, id: nat)
    requires InOrder(s) && id in s.open && OnTrack(s.db, s.open[id]) && s.open[id].tx.Credit? && s.open[id].pc == 1
    ensures InOrder(Next(s, Statement(id)))
  {
    var o := s.open[id];
    var user, amount := o.tx.user, o.tx.amount;
    InsertInOrder(s, id, Entry(s.nextEntry, user, amount, o.writes[user], None), o.ids.(first := s.nextEntry));
  }

  lemma PostDebitInOrder(s: Sys, id: nat)
    requires InOrder(s) && id in s.open && OnTrack(s.db, s.open[id]) && s.open[id].tx.Transfer? && s.open[id].pc == 3
    ensures InOrder(Next(s, Statement(id)))
  {
    var o := s.open[id];
    var sender, amount := o.tx.sender, o.tx.amount;
    InsertInOrder(s, id, Entry(s.nextEntry, sender, -amount, o.writes[sender], Some(o.ids.gift)),
                  o.ids.(first := s.nextEntry));
  }

  lemma PostReceiptInOrder(s: Sys, id: nat)
    requires InOrder(s) && id in s.open && OnTrack(s.db, s.open[id]) && s.open[id].tx.Transfer? && s.open[id].pc == 4
    ensures InOrder(Next(s, Statement(id)))
  {
    var o := s.open[id];
    var recipient, amount := o.tx.recipient, o.tx.amount;
    assert o.rows == [Rows(s.db, o.tx, o.ids)[0]];
    InsertInOrder(s, id, Entry(s.nextEntry, recipient, amount, o.writes[recipient], Some(o.ids.gift)),
                  o.ids.(second := s.nextEntry));
  }

  lemma StatementInOrder(db0: Db, s: Sys, id: nat)
    requires Serial(db0, s) && InOrder(s) && Enabled(s, Statement(id)) && Updates(s.open[id]).None?
    ensures InOrder(Next(s, Statement(id)))
  {
    var o := s.open[id];
    assert OnTrack(s.db, o);
    if Ready(o) {
      CommitInOrder(s, id);
    } else if o.tx.Credit? {
      PostCreditInOrder(s, id);
    } else if o.pc == 3 {
      PostDebitInOrder(s, id);
    } else if o.pc == 4 {
      PostReceiptInOrder(s, id);
    }
  }

  lemma NextInOrder(db0: Db, s: Sys, step: Step)
    requires Serial(db0, s) && InOrder(s) && Enabled(s, step)
    ensures InOrder(Next(s, step))
  {
    match step
    case Begin(id, tx) =>
    case Rollback(id) =>
    case Statement(id) =>
      if Updates(s.open[id]).None? {
        StatementInOrder(db0, s, id);
      }
  }

  lemma {:induction false} RunInOrder(db0: Db, s: Sys, run: seq<Step>)
    requires Serial(db0, s) && InOrder(s) && ValidRun(s, run)
    ensures InOrder(After(s, run))
    decreases run
  {
    if run != [] {
      NextSerial(db0, s, run[0]);
      NextInOrder(db0, s, run[0]);
      RunInOrder(db0, Next(s, run[0]), run[1..]);
    }
  }

  lemma {:induction false} UserRowsAreInTheLedger(ledger: seq<Entry>, user: int)
    ensures forall e | e in UserRows(ledger, user) :: e in ledger && e.user == user
  {
    if ledger != [] {
      UserRowsAreInTheLedger(ledger[..|ledger| - 1], user);
    }
  }

  lemma {:induction false} UserRowsRise(ledger: seq<Entry>, user: int)
    requires Rising(ledger)
    ensures forall i, j | 0 <= i < j < |UserRows(ledger, user)| ::
              UserRows(ledger, user)[i].id < UserRows(ledger, user)[j].id
  {
    if ledger != [] {
      var front := ledger[..|ledger| - 1];
      UserRowsRise(front, user);
      UserRowsAreInTheLedger(front, user);
    }
  }

  /** A member's history in id order is the running account of their balance, in every committed state
      of every interleaving. */
  lemma HistoryReadsAsTheAccount(db0: Db, run: seq<Step>, user: int)
    requires db0.ledger == [] && db0.gifts == map[] && user in db0.points && ValidRun(Start(db0), run)
    ensures var db := After(Start(db0), run).db;
            var rows := UserRows(db.ledger, user);
            && (forall i, j | 0 <= i < j < |rows| :: rows[i].id < rows[j].id)
            && RunningAccount(db0.points[user], rows)
            && user in db.points && db.points[user] == db0.points[user] + Sum(rows)
  {
    RunInOrder(db0, Start(db0), run);
    BooksAlwaysAgree(db0, run);
    var db := After(Start(db0), run).db;
    UserRowsRise(db.ledger, user);
    assert user in db.points.Keys;
    assert Account(db0.points[user], db, user);
  }
}
