/**
 Who may do what to an invite (internal/storage/invites.go): each column of a row goes back to the one
 step that wrote it, and each statement's answer says what the steps' own words entitle the caller to.
 Everything here speaks of rows and steps alone.
 */
module InviteMarks {
  import opened Wrappers
  import opened Ascii
  import opened InviteLedger
  import opened InviteRuns

  /** The step, aimed at this code. */
  predicate Names(typed: string, code: string) {
    typed != "" && StoredForm(code) == TypedForm(typed)
  }

  /** The step made the code. */
  predicate Made(e: Event, code: string, r: Invite) {
    && (if e.step.Mint? then e.step.user == r.createdBy && e.step.code == code
        else e.step.MintUncharged? && e.step.issuer == r.createdBy && e.step.code == code)
    && r.createdAt == e.at && r.expiresAt == e.at + e.step.ttl
    && r.email == Lower(Trim(e.step.email)) && r.message == Trim(e.step.message)
  }

  /** Redeemed by an account of its own, in time. */
  predicate Used(e: Event, code: string, r: Invite) {
    && e.step.Redeem? && Names(e.step.typed, code) && 0 < e.step.user
    && r.usedBy == Some(e.step.user) && r.usedAt == Some(e.at) && e.at < r.expiresAt
  }

  /** Revoked by who issued it, or by staff. */
  predicate Revoked(e: Event, code: string, r: Invite) {
    && e.step.Revoke? && Names(e.step.typed, code) && 0 < e.step.actor
    && r.revokedBy == Some(e.step.actor) && r.revokedAt == Some(e.at)
    && (e.step.staffOverride || r.createdBy == e.step.actor)
  }

  /** Hidden by who issued it, staff or not. */
  predicate Hidden(e: Event, code: string, r: Invite) {
    && e.step.SoftDelete? && Names(e.step.typed, code) && 0 < e.step.owner
    && e.step.owner == r.createdBy && r.deletedAt == Some(e.at)
  }

  predicate Mailed(e: Event, code: string, r: Invite) {
    e.step.Sent? && StoredForm(code) == TypedForm(e.step.typed) && r.sentAt == Some(e.at)
  }

  /** The columns set when the code is made. */
  predicate SameOrigin(r: Invite, r': Invite) {
    && r'.createdBy == r.createdBy && r'.createdAt == r.createdAt && r'.expiresAt == r.expiresAt
    && r'.email == r.email && r'.message == r.message
  }

  /** Every column of r' reads as it did in r, or tells of this step. */
  predicate Tells(r: Invite, r': Invite, code: string, e: Event) {
    && SameOrigin(r, r')
    && ((r'.usedBy == r.usedBy && r'.usedAt == r.usedAt) || (Used(e, code, r') && r.usedBy.None? && r.revokedAt.None?))
    && ((r'.revokedBy == r.revokedBy && r'.revokedAt == r.revokedAt)
        || (Revoked(e, code, r') && r.usedBy.None? && r.revokedAt.None?))
    && (r'.deletedAt == r.deletedAt || (Hidden(e, code, r') && r.deletedAt.None?))
    && (r'.sentAt == r.sentAt || Mailed(e, code, r'))
  }

  lemma StepTells(s: Ledger, e: Event, c: string)
    requires c in s.codes
    ensures c in Next(s, e).codes && Tells(s.codes[c], Next(s, e).codes[c], c, e)
  {
    match e.step
    case Mint(_, _, _, _, _) =>
    case MintUncharged(_, _, _, _, _) =>
    case Redeem(typed, user) => RedeemTells(s.codes, typed, user, e.at, c);
    case Revoke(typed, actor, staffOverride) => RevokeTells(s.codes, typed, actor, staffOverride, e.at, c);
    case SoftDelete(typed, owner) => HideTells(s.codes, typed, owner, e.at, c);
    case Sent(typed) => SentTells(s.codes, typed, e.at, c);
    case Refund(_) =>
  }

  lemma RedeemTells(codes: Codes, typed: string, user: int, at: int, c: string)
    requires c in codes
    ensures Tells(codes[c], RedeemRows(codes, typed, user, at)[c], c, Event(at, Redeem(typed, user)))
  {
  }

  lemma RevokeTells(codes: Codes, typed: string, actor: int, staffOverride: bool, at: int, c: string)
    requires c in codes
    ensures Tells(codes[c], RevokeRows(codes, typed, actor, staffOverride, at)[c], c,
                  Event(at, Revoke(typed, actor, staffOverride)))
  {
  }

  lemma HideTells(codes: Codes, typed: string, owner: int, at: int, c: string)
    requires c in codes
    ensures Tells(codes[c], HideRows(codes, typed, owner, at)[c], c, Event(at, SoftDelete(typed, owner)))
  {
  }

  lemma SentTells(codes: Codes, typed: string, at: int, c: string)
    requires c in codes
    ensures Tells(codes[c], MarkSent(codes, Matches(codes, typed), at)[c], c, Event(at, Sent(typed)))
  {
  }

  /** A new row's columns tell of the step that made it, and nothing has happened to it. */
  lemma NewRowTells(s: Ledger, e: Event, c: string)
    requires c !in s.codes && c in Next(s, e).codes
    ensures Made(e, c, Next(s, e).codes[c]) && Untouched(Next(s, e).codes[c])
    ensures e.step.Mint? ==> e.step.user in s.balances && 0 < s.balances[e.step.user]
  {
  }

  /** Each mark on a row is one it had before the run, or some step of the run put it there. */
  ghost predicate MarksHaveSteps(r: Invite, r': Invite, code: string, run: seq<Event>) {
    && SameOrigin(r, r')
    && ((r'.usedBy == r.usedBy && r'.usedAt == r.usedAt) || exists e <- run :: Used(e, code, r'))
    && ((r'.revokedBy == r.revokedBy && r'.revokedAt == r.revokedAt) || exists e <- run :: Revoked(e, code, r'))
    && (r'.deletedAt == r.deletedAt || exists e <- run :: Hidden(e, code, r'))
    && (r'.sentAt == r.sentAt || exists e <- run :: Mailed(e, code, r'))
  }

  lemma MarksAddUp(r: Invite, m: Invite, r': Invite, code: string, run: seq<Event>)
    requires run != [] && Tells(r, m, code, run[0]) && MarksHaveSteps(m, r', code, run[1..])
    ensures MarksHaveSteps(r, r', code, run)
  {
    assert run[0] in run && forall e <- run[1..] :: e in run;
  }

  /** Over any run, who used a code redeemed it before it ran out, who revoked it issued it or was staff,
      and who hid it issued it. */
  lemma {:induction false} EveryMarkHasItsStep(s: Ledger, run: seq<Event>, c: string)
    requires c in s.codes
    ensures c in After(s, run).codes && MarksHaveSteps(s.codes[c], After(s, run).codes[c], c, run)
    decreases run
  {
    if run != [] {
      StepTells(s, run[0], c);
      EveryMarkHasItsStep(Next(s, run[0]), run[1..], c);
      MarksAddUp(s.codes[c], Next(s, run[0]).codes[c], After(s, run).codes[c], c, run);
    }
  }

  /** And a code that was not there before tells of the step that made it. */
  lemma {:induction false} EveryCodeHasItsMint(s: Ledger, run: seq<Event>, c: string)
    requires c !in s.codes && c in After(s, run).codes
    ensures exists e <- run :: Made(e, c, After(s, run).codes[c])
    ensures exists r :: Untouched(r) && MarksHaveSteps(r, After(s, run).codes[c], c, run)
    decreases run
  {
    var e, s', rest := run[0], Next(s, run[0]), run[1..];
    assert forall e' <- rest :: e' in run;
    if c in s'.codes {
      NewRowTells(s, e, c);
      EveryMarkHasItsStep(s', rest, c);
      assert Made(e, c, After(s, run).codes[c]);
      assert MarksHaveSteps(s'.codes[c], After(s, run).codes[c], c, run);
    } else {
      EveryCodeHasItsMint(s', rest, c);
      var r :| Untouched(r) && MarksHaveSteps(r, After(s', rest).codes[c], c, rest);
      assert MarksHaveSteps(r, After(s, run).codes[c], c, run);
    }
  }

  /** So the ledger of a site can be read back to the steps it came from: every code has its mint, every
      use, revocation, hiding and mailing the step that did it, and that step was entitled to. */
  lemma LedgerTellsItsHistory(balances: Balances, run: seq<Event>, c: string)
    requires c in After(Ledger(map[], balances), run).codes
    ensures var r := After(Ledger(map[], balances), run).codes[c];
            && (exists e <- run :: Made(e, c, r))
            && (r.usedBy.Some? ==> exists e <- run :: Used(e, c, r))
            && (r.revokedBy.Some? ==> exists e <- run :: Revoked(e, c, r))
            && (r.deletedAt.Some? ==> exists e <- run :: Hidden(e, c, r))
            && (r.sentAt.Some? ==> exists e <- run :: Mailed(e, c, r))
  {
    EveryCodeHasItsMint(Ledger(map[], balances), run, c);
    var r := After(Ledger(map[], balances), run).codes[c];
    var unmarked :| Untouched(unmarked) && MarksHaveSteps(unmarked, r, c, run);
  }

  // ---- what each answer means ----

  lemma OnlyOne(hit: set<string>, c: string)
    requires c in hit && forall d <- hit :: d == c
    ensures |hit| == 1
  {
    assert hit == {c};
  }

  /** A member's revoke aimed at somebody else's code is refused, and nothing moves. */
  lemma StrangersRevokeNothing(s: Ledger, e: Event)
    requires e.step.Revoke? && !e.step.staffOverride
    requires forall c | c in s.codes && Names(e.step.typed, c) :: s.codes[c].createdBy != e.step.actor
    ensures ReplyTo(s, e) == Done(false) && Next(s, e) == s
  {
    if e.step.typed != "" && 0 < e.step.actor {
      assert Revocable(s.codes, e.step.typed, e.step.actor) == {};
      assert Next(s, e).codes == s.codes;
    }
  }

  /** A revoke succeeds exactly when it names a code that is neither used nor revoked and that the caller
      issued or has staff's leave to touch; running out does not stop it. */
  lemma RevokeAnswers(s: Ledger, e: Event)
    requires DistinctCodes(s.codes) && e.step.Revoke?
    ensures ReplyTo(s, e) == Done(true) <==>
            && 0 < e.step.actor
            && exists c | c in s.codes :: && Names(e.step.typed, c) && s.codes[c].usedBy.None? && s.codes[c].revokedAt.None?
                                          && (e.step.staffOverride || s.codes[c].createdBy == e.step.actor)
  {
    var hit := Revocable(s.codes, e.step.typed, RevokeOwner(e.step.actor, e.step.staffOverride));
    if c :| c in s.codes && Names(e.step.typed, c) && s.codes[c].usedBy.None? && s.codes[c].revokedAt.None?
            && (e.step.staffOverride || s.codes[c].createdBy == e.step.actor)
    {
      OnlyOne(hit, c);
    }
    if ReplyTo(s, e) == Done(true) {
      var c := SomeMember(hit);
      assert c in s.codes && Names(e.step.typed, c);
    }
  }

  /** A redemption succeeds exactly when it names a code that is neither used nor revoked nor run out. */
  lemma RedeemAnswers(s: Ledger, e: Event)
    requires DistinctCodes(s.codes) && e.step.Redeem?
    ensures ReplyTo(s, e) == Done(true) <==>
            && 0 < e.step.user
            && exists c | c in s.codes :: && Names(e.step.typed, c) && s.codes[c].usedBy.None? && s.codes[c].revokedAt.None?
                                          && e.at < s.codes[c].expiresAt
  {
    var hit := LiveMatches(s.codes, e.step.typed, e.at);
    if c :| c in s.codes && Names(e.step.typed, c) && s.codes[c].usedBy.None? && s.codes[c].revokedAt.None?
            && e.at < s.codes[c].expiresAt
    {
      OnlyOne(hit, c);
    }
    if ReplyTo(s, e) == Done(true) {
      var c := SomeMember(hit);
      assert c in s.codes && Names(e.step.typed, c);
    }
  }

  /** What succeeded is done: the row the caller named, and no other, bears the caller's mark. */
  lemma SuccessMarksTheRow(s: Ledger, e: Event, c: string)
    requires DistinctCodes(s.codes) && c in s.codes
    requires (e.step.Revoke? || e.step.Redeem?) && Names(e.step.typed, c) && ReplyTo(s, e) == Done(true)
    ensures var r := s.codes[c];
            && Next(s, e).balances == s.balances
            && Next(s, e).codes == s.codes[c :=
                 if e.step.Redeem? then r.(usedBy := Some(e.step.user), usedAt := Some(e.at))
                 else r.(revokedAt := Some(e.at), revokedBy := Some(e.step.actor))]
  {
    var hit := if e.step.Redeem? then LiveMatches(s.codes, e.step.typed, e.at)
               else Revocable(s.codes, e.step.typed, RevokeOwner(e.step.actor, e.step.staffOverride));
    var d := SomeMember(hit);
    assert d == c;
    assert hit == {c};
  }

  /** Each step of a run is one call of the store. */
  method Perform(store: InviteStore, e: Event) returns (reply: Reply)
    requires Sound(store.codes, store.balances)
    modifies store
    ensures Sound(store.codes, store.balances)
    ensures Ledger(store.codes, store.balances) == Next(Ledger(old(store.codes), old(store.balances)), e)
    ensures reply == ReplyTo(Ledger(old(store.codes), old(store.balances)), e)
  {
    reply := Silent;
    match e.step
    case Mint(user, code, ttl, email, message) =>
      var res := store.MintInviteCode(user, code, ttl, email, message, e.at, false);
      reply := Done(res == Ok(true));
    case MintUncharged(issuer, code, ttl, email, message) =>
      var ok := store.MintInviteUncharged(issuer, code, ttl, email, message, e.at);
      reply := Done(ok);
    case Redeem(typed, user) =>
      var ok := store.RedeemInviteCode(typed, user, e.at);
      reply := Done(ok);
    case Revoke(typed, actor, staffOverride) =>
      var ok := store.RevokeInviteCode(typed, actor, staffOverride, e.at);
      reply := Done(ok);
    case SoftDelete(typed, owner) =>
      var ok := store.SoftDeleteInviteCode(typed, owner, e.at);
    case Sent(typed) => store.MarkInviteSent(typed, e.at);
    case Refund(user) => store.RefundInvite(user);
  }
}
