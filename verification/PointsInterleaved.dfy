/**
 Transfers and credits interleaved statement by statement. An UPDATE takes its row's
 lock and holds it to the end of the transaction; another UPDATE of that row waits.
 What a transaction has written is its own until it commits. Any transaction may be
 rolled back between any two statements: a failed statement, a lost connection, a
 deadlock the database breaks.
 */
module PointsInterleaved {
  import opened Wrappers
  import opened Points

  /** A transaction under way: the next statement, the rows it has updated and so locked, and what
      it has inserted. */
  datatype Open = Open(tx: Tx, pc: nat, writes: map<int, int>, ids: Ids, rows: seq<Entry>)

  datatype Done = Done(tx: Tx, ids: Ids)

  /** `log` lists the committed transactions in commit order. */
  datatype Sys = Sys(db: Db, open: map<nat, Open>, nextGift: int, nextEntry: int, log: seq<Done>)

  datatype Step = Begin(id: nat, tx: Tx) | Statement(id: nat) | Rollback(id: nat)

  function Start(db: Db): Sys {
    Sys(db, map[], 1, 1, [])
  }

  predicate LockedByOther(s: Sys, id: nat, user: int) {
    exists other | other in s.open :: other != id && user in s.open[other].writes
  }

  /** The row the next statement updates, if it is an UPDATE. */
  function Updates(o: Open): Option<int> {
    match o.tx
    case Transfer(sender, recipient, _, _) =>
      if o.pc == 0 then Some(sender) else if o.pc == 1 then Some(recipient) else None
    case Credit(user, _) => if o.pc == 0 then Some(user) else None
  }

  predicate Enabled(s: Sys, step: Step) {
    match step
    case Begin(id, tx) => id !in s.open && Admissible(tx)
    case Statement(id) =>
      && id in s.open
      && (Updates(s.open[id]).Some? ==> !LockedByOther(s, id, Updates(s.open[id]).value))
    case Rollback(id) => id in s.open
  }

  function Without(s: Sys, id: nat): Sys {
    s.(open := s.open - {id})
  }

  /** UPDATE ... RETURNING points: the new balance, or no row. */
  function UpdateRow(db: Db, o: Open): Option<int> {
    match o.tx
    case Transfer(sender, recipient, amount, _) =>
      if o.pc == 0
      then (if sender in db.points && db.points[sender] - amount >= 0 then Some(db.points[sender] - amount) else None)
      else (if recipient in db.points then Some(db.points[recipient] + amount) else None)
    case Credit(user, amount) => if user in db.points then Some(db.points[user] + amount) else None
  }

  function DoUpdate(s: Sys, id: nat, user: int): Sys
    requires id in s.open
  {
    var o := s.open[id];
    var balance := UpdateRow(s.db, o);
    if balance.None? then Without(s, id)
    else s.(open := s.open[id := o.(pc := o.pc + 1, writes := o.writes[user := balance.value])])
  }

  function InsertRow(s: Sys, id: nat, row: Entry, ids: Ids): Sys
    requires id in s.open
  {
    var o := s.open[id];
    s.(nextEntry := s.nextEntry + 1, open := s.open[id := o.(pc := o.pc + 1, ids := ids, rows := o.rows + [row])])
  }

  function Commit(s: Sys, id: nat): Sys
    requires id in s.open
  {
    var o := s.open[id];
    var gifts := if o.tx.Transfer?
                 then s.db.gifts[o.ids.gift := Gift(o.tx.sender, o.tx.recipient, o.tx.amount, o.tx.note)]
                 else s.db.gifts;
    Sys(Db(s.db.points + o.writes, s.db.ledger + o.rows, gifts), s.open - {id},
        s.nextGift, s.nextEntry, s.log + [Done(o.tx, o.ids)])
  }

  function Next(s: Sys, step: Step): Sys
    requires Enabled(s, step)
  {
    match step
    case Begin(id, tx) => s.(open := s.open[id := Open(tx, 0, map[], Ids(0, 0, 0), [])])
    case Rollback(id) => Without(s, id)
    case Statement(id) =>
      var o := s.open[id];
      if Updates(o).Some? then DoUpdate(s, id, Updates(o).value)
      else match o.tx
        case Transfer(sender, recipient, amount, _) =>
          if o.pc == 2 then
            s.(nextGift := s.nextGift + 1, open := s.open[id := o.(pc := 3, ids := o.ids.(gift := s.nextGift))])
          else if o.pc == 3 && sender in o.writes then
            InsertRow(s, id, Entry(s.nextEntry, sender, -amount, o.writes[sender], Some(o.ids.gift)),
                      o.ids.(first := s.nextEntry))
          else if o.pc == 4 && recipient in o.writes then
            InsertRow(s, id, Entry(s.nextEntry, recipient, amount, o.writes[recipient], Some(o.ids.gift)),
                      o.ids.(second := s.nextEntry))
          else Commit(s, id)
        case Credit(user, amount) =>
          if o.pc == 1 && user in o.writes then
            InsertRow(s, id, Entry(s.nextEntry, user, amount, o.writes[user], None), o.ids.(first := s.nextEntry))
          else Commit(s, id)
  }

  predicate ValidRun(s: Sys, run: seq<Step>)
    decreases run
  {
    run == [] || (Enabled(s, run[0]) && ValidRun(Next(s, run[0]), run[1..]))
  }

  function After(s: Sys, run: seq<Step>): Sys
    requires ValidRun(s, run)
    decreases run
  {
    if run == [] then s else After(Next(s, run[0]), run[1..])
  }

  // ---- what is true of a transaction under way ----

  /** Its writes are what the committed balances call for, its rows what it will have posted. */
  predicate OnTrack(db: Db, o: Open) {
    && Admissible(o.tx)
    && match o.tx
       case Transfer(sender, recipient, amount, _) =>
         && o.pc <= 5
         && (o.pc == 0 ==> o.writes == map[])
         && (o.pc >= 1 ==> sender in db.points && db.points[sender] - amount >= 0)
         && (o.pc == 1 ==> o.writes == map[sender := db.points[sender] - amount])
         && (o.pc >= 2 ==>
               && recipient in db.points
               && o.writes == map[sender := db.points[sender] - amount, recipient := db.points[recipient] + amount]
               && (o.pc >= 4 ==> o.rows == Rows(db, o.tx, o.ids)[..o.pc - 3]))
         && (o.pc <= 3 ==> o.rows == [])
       case Credit(user, amount) =>
         && o.pc <= 2
         && (o.pc == 0 ==> o.writes == map[])
         && (o.pc >= 1 ==> user in db.points && o.writes == map[user := db.points[user] + amount])
         && (o.pc == 2 ==> o.rows == Rows(db, o.tx, o.ids))
         && (o.pc <= 1 ==> o.rows == [])
  }

  /** Two transactions under way never hold the same row. */
  ghost predicate LocksHeld(s: Sys) {
    forall i, j | i in s.open && j in s.open && i != j :: s.open[i].writes.Keys !! s.open[j].writes.Keys
  }

  predicate HasGift(o: Open) {
    o.tx.Transfer? && o.pc >= 3
  }

  ghost predicate GiftsFresh(s: Sys) {
    && (forall g | g in s.db.gifts :: g < s.nextGift)
    && (forall i | i in s.open && HasGift(s.open[i]) ::
          s.open[i].ids.gift < s.nextGift && s.open[i].ids.gift !in s.db.gifts)
    && (forall i, j | i in s.open && j in s.open && i != j && HasGift(s.open[i]) && HasGift(s.open[j]) ::
          s.open[i].ids.gift != s.open[j].ids.gift)
  }

  // ---- running the committed transactions one after the other ----

  predicate CanApply(db: Db, d: Done) {
    Admissible(d.tx) && Commits(db, d.tx) && (d.tx.Transfer? ==> d.ids.gift !in db.gifts)
  }

  predicate Replayable(db: Db, log: seq<Done>)
    decreases log, 0
  {
    log == [] || (
      var front := log[..|log| - 1];
      Replayable(db, front) && CanApply(Replay(db, front), log[|log| - 1]))
  }

  function Replay(db: Db, log: seq<Done>): Db
    requires Replayable(db, log)
    decreases log, 1
  {
    if log == [] then db
    else
      var d := log[|log| - 1];
      Applied(Replay(db, log[..|log| - 1]), d.tx, d.ids)
  }

  lemma ReplayOneMore(db: Db, log: seq<Done>, d: Done)
    requires Replayable(db, log) && CanApply(Replay(db, log), d)
    ensures Replayable(db, log + [d]) && Replay(db, log + [d]) == Applied(Replay(db, log), d.tx, d.ids)
  {
    assert (log + [d])[..|log + [d]| - 1] == log;
  }

  ghost predicate Serial(db0: Db, s: Sys) {
    && (forall i | i in s.open :: OnTrack(s.db, s.open[i]))
    && LocksHeld(s) && GiftsFresh(s)
    && Replayable(db0, s.log) && s.db == Replay(db0, s.log)
  }

  // ---- every step keeps it ----

  lemma OnTrackFrame(db: Db, db': Db, o: Open)
    requires OnTrack(db, o)
    requires forall u | u in o.writes && u in db.points :: u in db'.points && db'.points[u] == db.points[u]
    ensures OnTrack(db', o)
  {
  }

  lemma UpdateOnTrack(db: Db, o: Open)
    requires OnTrack(db, o) && Updates(o).Some? && UpdateRow(db, o).Some?
    ensures OnTrack(db, o.(pc := o.pc + 1, writes := o.writes[Updates(o).value := UpdateRow(db, o).value]))
  {
  }

  /** A transaction that is rolled back leaves the others as they were. */
  lemma WithoutSerial(db0: Db, s: Sys, id: nat)
    requires Serial(db0, s)
    ensures Serial(db0, Without(s, id))
  {
  }

  lemma LocksStayApart(s: Sys, id: nat, user: int, o': Open)
    requires LocksHeld(s) && id in s.open && !LockedByOther(s, id, user)
    requires o'.writes.Keys == s.open[id].writes.Keys + {user}
    ensures LocksHeld(s.(open := s.open[id := o']))
  {
    forall other | other in s.open && other != id ensures user !in s.open[other].writes.Keys {
    }
  }

  lemma DoUpdateSerial(db0: Db, s: Sys, id: nat)
    requires Serial(db0, s) && id in s.open && Updates(s.open[id]).Some?
    requires !LockedByOther(s, id, Updates(s.open[id]).value)
    ensures Serial(db0, DoUpdate(s, id, Updates(s.open[id]).value))
  {
    var o, user := s.open[id], Updates(s.open[id]).value;
    if UpdateRow(s.db, o).None? {
      WithoutSerial(db0, s, id);
    } else {
      UpdateOnTrack(s.db, o);
      LocksStayApart(s, id, user, o.(pc := o.pc + 1, writes := o.writes[user := UpdateRow(s.db, o).value]));
    }
  }

  /** A step that changes only what one open transaction has inserted. */
  lemma ReplaceOpen(db0: Db, s: Sys, s': Sys, id: nat, o': Open)
    requires Serial(db0, s) && id in s.open && OnTrack(s.db, o') && o'.writes == s.open[id].writes
    requires s' == s.(open := s.open[id := o'], nextGift := s'.nextGift, nextEntry := s'.nextEntry)
    requires s.nextGift <= s'.nextGift
    requires HasGift(o') ==>
      || (HasGift(s.open[id]) && o'.ids.gift == s.open[id].ids.gift)
      || (o'.ids.gift == s.nextGift < s'.nextGift)
    ensures Serial(db0, s')
  {
  }

  lemma InsertOnTrack(db: Db, o: Open, row: Entry, ids: Ids)
    requires OnTrack(db, o)
    requires match o.tx
      case Transfer(sender, recipient, amount, _) =>
        || (o.pc == 3 && ids == o.ids.(first := row.id) && sender in o.writes
            && row == Entry(row.id, sender, -amount, o.writes[sender], Some(o.ids.gift)))
        || (o.pc == 4 && ids == o.ids.(second := row.id) && recipient in o.writes
            && row == Entry(row.id, recipient, amount, o.writes[recipient], Some(o.ids.gift)))
      case Credit(user, amount) =>
        o.pc == 1 && ids == o.ids.(first := row.id) && user in o.writes
        && row == Entry(row.id, user, amount, o.writes[user], None)
    ensures OnTrack(db, o.(pc := o.pc + 1, ids := ids, rows := o.rows + [row]))
  {
    var rows := Rows(db, o.tx, ids);
    if o.tx.Transfer? {
      if o.pc == 3 {
        assert rows[..1] == [row];
      } else {
        assert rows[..2] == [rows[0]] + [row];
        assert Rows(db, o.tx, o.ids)[..1] == [rows[0]];
      }
    }
  }

  lemma InsertRowSerial(db0: Db, s: Sys, id: nat, row: Entry, ids: Ids)
    requires Serial(db0, s) && id in s.open && ids.gift == s.open[id].ids.gift
    requires OnTrack(s.db, s.open[id].(pc := s.open[id].pc + 1, ids := ids, rows := s.open[id].rows + [row]))
    requires HasGift(s.open[id].(pc := s.open[id].pc + 1)) ==> HasGift(s.open[id])
    ensures Serial(db0, InsertRow(s, id, row, ids))
  {
    var o' := s.open[id].(pc := s.open[id].pc + 1, ids := ids, rows := s.open[id].rows + [row]);
    ReplaceOpen(db0, s, InsertRow(s, id, row, ids), id, o');
  }

  /** Has the transaction run every statement but the commit? */
  predicate Ready(o: Open) {
    o.pc == if o.tx.Transfer? then 5 else 2
  }

  /** Committing is applying the whole transaction to what is committed at that moment. */
  lemma CommitApplies(s: Sys, id: nat)
    requires id in s.open && OnTrack(s.db, s.open[id]) && Ready(s.open[id])
    ensures var o := s.open[id];
            Commits(s.db, o.tx) && Commit(s, id).db == Applied(s.db, o.tx, o.ids)
  {
    var o := s.open[id];
    assert s.db.points + o.writes == Moved(s.db, o.tx);
    assert o.rows == Rows(s.db, o.tx, o.ids);
  }

  lemma CommitSerial(db0: Db, s: Sys, id: nat)
    requires Serial(db0, s) && id in s.open && Ready(s.open[id])
    ensures Serial(db0, Commit(s, id))
  {
    var o, s' := s.open[id], Commit(s, id);
    CommitApplies(s, id);
    ReplayOneMore(db0, s.log, Done(o.tx, o.ids));
    forall i | i in s'.open ensures OnTrack(s'.db, s'.open[i]) {
      OnTrackFrame(s.db, s'.db, s.open[i]);
    }
  }

  lemma StatementSerial(db0: Db, s: Sys, id: nat)
    requires Serial(db0, s) && Enabled(s, Statement(id)) && Updates(s.open[id]).None?
    ensures Serial(db0, Next(s, Statement(id)))
  {
    var o, s' := s.open[id], Next(s, Statement(id));
    if Ready(o) {
      CommitSerial(db0, s, id);
    } else if o.tx.Transfer? && o.pc == 2 {
      ReplaceOpen(db0, s, s', id, s'.open[id]);
    } else {
      var user := if o.tx.Credit? then o.tx.user else if o.pc == 3 then o.tx.sender else o.tx.recipient;
      var amount := if o.tx.Transfer? && o.pc == 3 then -o.tx.amount else o.tx.amount;
      var gift := if o.tx.Transfer? then Some(o.ids.gift) else None;
      var row := Entry(s.nextEntry, user, amount, o.writes[user], gift);
      var ids := if o.tx.Transfer? && o.pc == 4 then o.ids.(second := s.nextEntry) else o.ids.(first := s.nextEntry);
      InsertOnTrack(s.db, o, row, ids);
      InsertRowSerial(db0, s, id, row, ids);
    }
  }

  lemma NextSerial(db0: Db, s: Sys, step: Step)
    requires Serial(db0, s) && Enabled(s, step)
    ensures Serial(db0, Next(s, step))
  {
    match step
    case Begin(id, tx) =>
    case Rollback(id) =>
    case Statement(id) =>
      if Updates(s.open[id]).Some? {
        DoUpdateSerial(db0, s, id);
      } else {
        StatementSerial(db0, s, id);
      }
  }

  lemma {:induction false} RunSerial(db0: Db, s: Sys, run: seq<Step>)
    requires Serial(db0, s) && ValidRun(s, run)
    ensures Serial(db0, After(s, run))
    decreases run
  {
    if run != [] {
      NextSerial(db0, s, run[0]);
      RunSerial(db0, Next(s, run[0]), run[1..]);
    }
  }

  /** Serialisable, and atomic: whatever the interleaving, what is committed is what the committed
      transactions leave when run whole, one after the other, in commit order. A transaction that
      failed or was rolled back is not among them, and has left nothing. */
  lemma CommittedStateIsSerial(db0: Db, run: seq<Step>)
    requires db0.gifts == map[] && ValidRun(Start(db0), run)
    ensures var s := After(Start(db0), run);
            Replayable(db0, s.log) && s.db == Replay(db0, s.log)
  {
    RunSerial(db0, Start(db0), run);
  }
}
