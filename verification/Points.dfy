/**
 Moving points: gifts between members and seeding credits, each one database
 transaction over the balances and the ledger (internal/storage/gifts.go,
 internal/storage/seedpoints.go).

 This file has the committed state, what one transaction does to it when nothing
 runs beside it, and the methods that run it; PointsInterleaved has the statements
 interleaved under row locks.
 */
module Points {
  import opened Wrappers

  const GIFT_MIN := 1
  const GIFT_MAX := 100000
  const GIFT_NOTE_MAX := 200

  datatype Gift = Gift(sender: int, recipient: int, amount: int, note: string)

  /** A ledger row. `gift` is reference_id; ids are drawn when the row is inserted. */
  datatype Entry = Entry(id: int, user: int, amount: int, balance: int, gift: Option<int>)

  /** `points` has a key for every account that exists. */
  datatype Db = Db(points: map<int, int>, ledger: seq<Entry>, gifts: map<int, Gift>)

  datatype Tx =
    | Transfer(sender: int, recipient: int, amount: int, note: string)
    | Credit(user: int, amount: int)

  datatype Refusal = GiftToSelf | TooSmall | TooLarge | NotEnoughPoints | NoSuchMember | CouldNotSend

  /** The checks made before any transaction begins. */
  function Refused(sender: int, recipient: int, amount: int): Option<Refusal> {
    if sender == recipient then Some(GiftToSelf)
    else if amount < GIFT_MIN then Some(TooSmall)
    else if amount > GIFT_MAX then Some(TooLarge)
    else None
  }

  predicate Admissible(tx: Tx) {
    tx.Transfer? ==> Refused(tx.sender, tx.recipient, tx.amount).None?
  }

  /** Does every statement of the transaction find its row, and the debit its balance? */
  predicate Commits(db: Db, tx: Tx) {
    match tx
    case Transfer(sender, recipient, amount, _) =>
      sender in db.points && db.points[sender] - amount >= 0 && recipient in db.points
    case Credit(user, _) => user in db.points
  }

  /** The ids a committed transaction drew: its gift's, and its ledger rows'. */
  datatype Ids = Ids(gift: int, first: int, second: int)

  function Rows(db: Db, tx: Tx, ids: Ids): seq<Entry>
    requires Commits(db, tx) && Admissible(tx)
  {
    match tx
    case Transfer(sender, recipient, amount, _) =>
      [Entry(ids.first, sender, -amount, db.points[sender] - amount, Some(ids.gift)),
       Entry(ids.second, recipient, amount, db.points[recipient] + amount, Some(ids.gift))]
    case Credit(user, amount) => [Entry(ids.first, user, amount, db.points[user] + amount, None)]
  }

  function Moved(db: Db, tx: Tx): map<int, int>
    requires Commits(db, tx) && Admissible(tx)
  {
    match tx
    case Transfer(sender, recipient, amount, _) =>
      db.points[sender := db.points[sender] - amount][recipient := db.points[recipient] + amount]
    case Credit(user, amount) => db.points[user := db.points[user] + amount]
  }

  /** The transaction run alone, to its commit. */
  function Applied(db: Db, tx: Tx, ids: Ids): Db
    requires Commits(db, tx) && Admissible(tx)
  {
    Db(Moved(db, tx), db.ledger + Rows(db, tx, ids),
       if tx.Transfer? then db.gifts[ids.gift := Gift(tx.sender, tx.recipient, tx.amount, tx.note)] else db.gifts)
  }

  /** A note is cut to GIFT_NOTE_MAX characters. */
  function CutNote(note: string): string {
    if |note| > GIFT_NOTE_MAX then note[..GIFT_NOTE_MAX] else note
  }

  class PointsStore {
    var db: Db
    var nextGift: int
    var nextEntry: int

    constructor (points: map<int, int>)
      ensures db == Db(points, [], map[]) && nextGift == 1 && nextEntry == 1
    {
      db, nextGift, nextEntry := Db(points, [], map[]), 1, 1;
    }

    /** `faultAt` is the call on the database that fails, counted from 0: begin, debit, credit, gift,
        the two ledger rows, commit. */
    method TransferPoints(sender: int, recipient: int, amount: int, note: string, faultAt: Option<nat>)
      returns (refusal: Option<Refusal>)
      modifies this
      ensures refusal.Some? ==> db == old(db)
      ensures refusal.None? ==>
        var tx := Transfer(sender, recipient, amount, CutNote(note));
        && Admissible(tx) && Commits(old(db), tx)
        && db == Applied(old(db), tx, Ids(old(nextGift), old(nextEntry), old(nextEntry) + 1))
      ensures refusal.None? ==>
        && sender in old(db).points && recipient in old(db).points && amount <= old(db).points[sender]
        && db.points == old(db).points[sender := old(db).points[sender] - amount]
                                      [recipient := old(db).points[recipient] + amount]
        && db.gifts == old(db).gifts[old(nextGift) :=
             Gift(sender, recipient, amount, if |note| <= 200 then note else note[..200])]
        && db.ledger == old(db).ledger
             + [Entry(old(nextEntry), sender, -amount, db.points[sender], Some(old(nextGift))),
                Entry(old(nextEntry) + 1, recipient, amount, db.points[recipient], Some(old(nextGift)))]
      ensures refusal == Some(GiftToSelf) <==> sender == recipient
      ensures refusal == Some(TooSmall) <==> sender != recipient && amount < 1
      ensures refusal == Some(TooLarge) <==> sender != recipient && 100000 < amount
      ensures sender != recipient && 1 <= amount <= 100000 && faultAt.None? ==>
        && (refusal == Some(NotEnoughPoints) <==> !(sender in old(db).points && amount <= old(db).points[sender]))
        && (refusal == Some(NoSuchMember)
            <==> sender in old(db).points && amount <= old(db).points[sender] && recipient !in old(db).points)
        && refusal != Some(CouldNotSend)
      ensures refusal.None? ==> !(faultAt.Some? && faultAt.value <= 6)
      ensures nextGift >= old(nextGift) && nextEntry >= old(nextEntry)
    {
      if sender == recipient {
        return Some(GiftToSelf);
      } else if amount < GIFT_MIN {
        return Some(TooSmall);
      } else if amount > GIFT_MAX {
        return Some(TooLarge);
      }
      var text := note;
      if |text| > GIFT_NOTE_MAX {
        text := text[..GIFT_NOTE_MAX];
      }
      if faultAt == Some(0) {
        return Some(CouldNotSend);
      }
      var before := db; // what a rollback goes back to
      if faultAt == Some(1) {
        return Some(CouldNotSend);
      }
      if sender !in db.points || db.points[sender] - amount < 0 {
        return Some(NotEnoughPoints);
      }
      var senderBalance := db.points[sender] - amount;
      db := db.(points := db.points[sender := senderBalance]);
      if recipient !in db.points || faultAt == Some(2) {
        db := before;
        return Some(NoSuchMember);
      }
      var recipientBalance := db.points[recipient] + amount;
      db := db.(points := db.points[recipient := recipientBalance]);
      if faultAt == Some(3) {
        db := before;
        return Some(CouldNotSend);
      }
      var giftId := nextGift;
      nextGift := nextGift + 1;
      db := db.(gifts := db.gifts[giftId := Gift(sender, recipient, amount, text)]);
      var posts := [(sender, -amount, senderBalance), (recipient, amount, recipientBalance)];
      ghost var reached := db;
      ghost var rows := Rows(before, Transfer(sender, recipient, amount, text),
                             Ids(giftId, nextEntry, nextEntry + 1));
      for k := 0 to 2
        invariant nextEntry == old(nextEntry) + k && nextGift == old(nextGift) + 1
        invariant db == reached.(ledger := reached.ledger + rows[..k])
        invariant !(faultAt.Some? && faultAt.value < 4 + k)
      {
        if faultAt == Some(4 + k) {
          db := before;
          return Some(CouldNotSend);
        }
        assert rows[..k + 1] == rows[..k] + [rows[k]];
        db := db.(ledger := db.ledger + [Entry(nextEntry, posts[k].0, posts[k].1, posts[k].2, Some(giftId))]);
        nextEntry := nextEntry + 1;
      }
      if faultAt == Some(6) {
        db := before;
        return Some(CouldNotSend);
      }
      assert rows[..2] == rows;
      return None;
    }

    method CreditSeedPoints(user: int, amount: int, faultAt: Option<nat>) returns (ok: bool)
      modifies this
      ensures !ok ==> db == old(db)
      ensures ok ==>
        && Commits(old(db), Credit(user, amount))
        && db == Applied(old(db), Credit(user, amount), Ids(0, old(nextEntry), 0))
      ensures ok ==>
        && user in old(db).points && db.gifts == old(db).gifts
        && db.points == old(db).points[user := old(db).points[user] + amount]
        && db.ledger == old(db).ledger + [Entry(old(nextEntry), user, amount, db.points[user], None)]
      ensures ok <==> user in old(db).points && faultAt.None?
    {
      var before := db;
      if user !in db.points || faultAt == Some(0) {
        return false;
      }
      var balance := db.points[user] + amount;
      db := db.(points := db.points[user := balance]);
      if faultAt.Some? {
        db := before;
        return false;
      }
      db := db.(ledger := db.ledger + [Entry(nextEntry, user, amount, balance, None)]);
      nextEntry := nextEntry + 1;
      return true;
    }
  }
}
