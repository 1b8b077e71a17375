/** The invite ledger over whole runs of its statements. */
module InviteRuns {
  import opened Ascii
  import opened InviteLedger

  datatype Step =
    | Mint(user: int, code: string, ttl: int, email: string, message: string)
    | MintUncharged(issuer: int, code: string, ttl: int, email: string, message: string)
    | Redeem(typed: string, user: int)
    | Revoke(typed: string, actor: int, staffOverride: bool)
    | SoftDelete(typed: string, owner: int)
    | Sent(typed: string)
    | Refund(user: int)

  datatype Event = Event(at: int, step: Step)
  datatype Ledger = Ledger(codes: Codes, balances: Balances)

  /** MintInviteCode answers true: the balance covers it and the insert goes through. */
  predicate Charges(s: Ledger, e: Event) {
    && e.step.Mint?
    && e.step.user in s.balances && 0 < s.balances[e.step.user]
    && e.step.code !in s.codes
  }

  predicate Issues(s: Ledger, e: Event) {
    e.step.MintUncharged? && e.step.code != "" && e.step.code !in s.codes
  }

  function Next(s: Ledger, e: Event): Ledger {
    match e.step
    case Mint(user, code, ttl, email, message) =>
      if Charges(s, e) then Ledger(s.codes[code := NewInvite(user, e.at, ttl, email, message)],
                                   s.balances[user := s.balances[user] - 1])
      else s
    case MintUncharged(issuer, code, ttl, email, message) =>
      if Issues(s, e) then s.(codes := s.codes[code := NewInvite(issuer, e.at, ttl, email, message)]) else s
    case Redeem(typed, user) => s.(codes := RedeemRows(s.codes, typed, user, e.at))
    case Revoke(typed, actor, staffOverride) => s.(codes := RevokeRows(s.codes, typed, actor, staffOverride, e.at))
    case SoftDelete(typed, owner) => s.(codes := HideRows(s.codes, typed, owner, e.at))
    case Sent(typed) => s.(codes := MarkSent(s.codes, Matches(s.codes, typed), e.at))
    case Refund(user) =>
      if 0 < user && user in s.balances then s.(balances := s.balances[user := s.balances[user] + 1]) else s
  }

  function After(s: Ledger, run: seq<Event>): Ledger
    decreases run
  {
    if run == [] then s else After(Next(s, run[0]), run[1..])
  }

  // ---- what holds of every code, for good ----

  /** What may happen to a row: a live one is used or revoked once, and neither is ever undone. */
  predicate Follows(r: Invite, r': Invite) {
    && r'.createdBy == r.createdBy && r'.expiresAt == r.expiresAt && r'.email == r.email
    && (r.usedBy.Some? ==> r'.usedBy == r.usedBy && r'.usedAt == r.usedAt && r'.revokedAt.None?)
    && (r.revokedAt.Some? ==> r'.revokedAt == r.revokedAt && r'.revokedBy == r.revokedBy && r'.usedBy.None?)
    && (r.deletedAt.Some? ==> r'.deletedAt == r.deletedAt)
  }

  ghost predicate AllFollow(codes: Codes, codes': Codes) {
    forall c | c in codes :: c in codes' && Follows(codes[c], codes'[c])
  }

  lemma RedeemFollows(codes: Codes, typed: string, user: int, now: int, c: string)
    requires c in codes && SoundRow(codes[c])
    ensures var codes' := RedeemRows(codes, typed, user, now);
            c in codes' && Follows(codes[c], codes'[c]) && SoundRow(codes'[c])
  {
  }

  lemma RevokeFollows(codes: Codes, typed: string, actor: int, staffOverride: bool, now: int, c: string)
    requires c in codes && SoundRow(codes[c])
    ensures var codes' := RevokeRows(codes, typed, actor, staffOverride, now);
            c in codes' && Follows(codes[c], codes'[c]) && SoundRow(codes'[c])
  {
  }

  lemma HideFollows(codes: Codes, typed: string, owner: int, now: int, c: string)
    requires c in codes && SoundRow(codes[c])
    ensures var codes' := HideRows(codes, typed, owner, now);
            c in codes' && Follows(codes[c], codes'[c]) && SoundRow(codes'[c])
  {
  }

  lemma SentFollows(codes: Codes, typed: string, now: int, c: string)
    requires c in codes && SoundRow(codes[c])
    ensures var codes' := MarkSent(codes, Matches(codes, typed), now);
            c in codes' && Follows(codes[c], codes'[c]) && SoundRow(codes'[c])
  {
  }

  lemma RowFollows(s: Ledger, e: Event, c: string)
    requires c in s.codes && SoundRow(s.codes[c])
    ensures c in Next(s, e).codes
    ensures Follows(s.codes[c], Next(s, e).codes[c]) && SoundRow(Next(s, e).codes[c])
  {
    match e.step
    case Mint(_, _, _, _, _) =>
    case MintUncharged(_, _, _, _, _) =>
    case Redeem(typed, user) => RedeemFollows(s.codes, typed, user, e.at, c);
    case Revoke(typed, actor, staffOverride) => RevokeFollows(s.codes, typed, actor, staffOverride, e.at, c);
    case SoftDelete(typed, owner) => HideFollows(s.codes, typed, owner, e.at, c);
    case Sent(typed) => SentFollows(s.codes, typed, e.at, c);
    case Refund(_) =>
  }

  lemma OnlyMintsAddRows(s: Ledger, e: Event, c: string)
    requires c in Next(s, e).codes && c !in s.codes
    ensures (Charges(s, e) || Issues(s, e)) && c == e.step.code
    ensures SoundRow(Next(s, e).codes[c])
  {
  }

  lemma NextSound(s: Ledger, e: Event)
    requires Sound(s.codes, s.balances)
    ensures Sound(Next(s, e).codes, Next(s, e).balances)
    ensures AllFollow(s.codes, Next(s, e).codes)
  {
    var s' := Next(s, e);
    forall c | c in s.codes ensures c in s'.codes && Follows(s.codes[c], s'.codes[c]) {
      RowFollows(s, e, c);
    }
    forall c | c in s'.codes ensures SoundRow(s'.codes[c]) {
      if c in s.codes { RowFollows(s, e, c); } else { OnlyMintsAddRows(s, e, c); }
    }
    NextBalances(s, e);
  }

  lemma NextBalances(s: Ledger, e: Event)
    requires forall u | u in s.balances :: 0 <= s.balances[u]
    ensures forall u | u in Next(s, e).balances :: 0 <= Next(s, e).balances[u]
  {
  }

  /** From any sound ledger, whatever happens: no code is ever both used and revoked, no balance is
      negative, no code disappears, and who used or revoked a code never changes. */
  lemma {:induction false} LedgerIsAppendOnly(s: Ledger, run: seq<Event>)
    requires Sound(s.codes, s.balances)
    ensures Sound(After(s, run).codes, After(s, run).balances)
    ensures AllFollow(s.codes, After(s, run).codes)
    decreases run
  {
    if run != [] {
      NextSound(s, run[0]);
      LedgerIsAppendOnly(Next(s, run[0]), run[1..]);
    }
  }

  lemma NextKeepsNormalEmails(s: Ledger, e: Event)
    requires NormalEmails(s.codes)
    ensures NormalEmails(Next(s, e).codes)
  {
    var codes' := Next(s, e).codes;
    forall c | c in codes' ensures NormaliseEmail(codes'[c].email) == codes'[c].email {
      if c in s.codes {
        EmailsStay(s, e, c);
      } else {
        NewEmailsAreNormal(s, e, c);
      }
    }
  }

  lemma EmailsStay(s: Ledger, e: Event, c: string)
    requires c in s.codes
    ensures c in Next(s, e).codes && Next(s, e).codes[c].email == s.codes[c].email
  {
  }

  lemma NewEmailsAreNormal(s: Ledger, e: Event, c: string)
    requires c in Next(s, e).codes && c !in s.codes
    ensures NormaliseEmail(Next(s, e).codes[c].email) == Next(s, e).codes[c].email
  {
    NormaliseEmailIsIdempotent(if e.step.Mint? then e.step.email else if e.step.MintUncharged? then e.step.email else "");
  }

  lemma {:induction false} RunKeepsNormalEmails(s: Ledger, run: seq<Event>)
    requires NormalEmails(s.codes)
    ensures NormalEmails(After(s, run).codes)
    decreases run
  {
    if run != [] {
      NextKeepsNormalEmails(s, run[0]);
      RunKeepsNormalEmails(Next(s, run[0]), run[1..]);
    }
  }

  /** In every ledger a site can reach, the address check holds for a typed address exactly when it has
      something in it and some live code was issued to it, however either was typed. */
  lemma AddressCheckInEveryRun(balances: Balances, run: seq<Event>, typed: string, now: int)
    ensures var codes := After(Ledger(map[], balances), run).codes;
            InviteEmailPending(codes, typed, now) <==>
            && NormaliseEmail(typed) != ""
            && exists c | c in codes :: Live(codes[c], now) && NormaliseEmail(codes[c].email) == NormaliseEmail(typed)
  {
    RunKeepsNormalEmails(Ledger(map[], balances), run);
    AddressCheckFindsLiveCodes(After(Ledger(map[], balances), run).codes, typed, now);
  }

  // ---- balances ----

  function CodesBy(codes: Codes, user: int): set<string> {
    set c | c in codes && codes[c].createdBy == user
  }

  function Charged(s: Ledger, run: seq<Event>, user: int): nat
    decreases run
  {
    if run == [] then 0
    else (if Charges(s, run[0]) && run[0].step.user == user then 1 else 0) + Charged(Next(s, run[0]), run[1..], user)
  }

  function Issued(s: Ledger, run: seq<Event>, user: int): nat
    decreases run
  {
    if run == [] then 0
    else (if Issues(s, run[0]) && run[0].step.issuer == user then 1 else 0) + Issued(Next(s, run[0]), run[1..], user)
  }

  function Refunds(run: seq<Event>, user: int): nat {
    if run == [] then 0 else (if run[0].step == Refund(user) then 1 else 0) + Refunds(run[1..], user)
  }

  ghost predicate SameCreators(codes: Codes, codes': Codes) {
    forall c | c in codes :: c in codes' && codes'[c].createdBy == codes[c].createdBy
  }

  lemma CreatorsStay(s: Ledger, e: Event)
    ensures SameCreators(s.codes, Next(s, e).codes)
  {
  }

  lemma OneMoreCode(codes: Codes, codes': Codes, code: string, user: int)
    requires SameCreators(codes, codes') && code !in codes && codes'.Keys == codes.Keys + {code}
    ensures |CodesBy(codes', user)| == |CodesBy(codes, user)| + (if codes'[code].createdBy == user then 1 else 0)
  {
    if codes'[code].createdBy == user {
      assert CodesBy(codes', user) == CodesBy(codes, user) + {code};
    } else {
      assert CodesBy(codes', user) == CodesBy(codes, user);
    }
  }

  lemma NextCodesBy(s: Ledger, e: Event, user: int)
    ensures var minted := (Charges(s, e) && e.step.user == user) || (Issues(s, e) && e.step.issuer == user);
            |CodesBy(Next(s, e).codes, user)| == |CodesBy(s.codes, user)| + (if minted then 1 else 0)
  {
    CreatorsStay(s, e);
    var codes' := Next(s, e).codes;
    if Charges(s, e) || Issues(s, e) {
      OneMoreCode(s.codes, codes', e.step.code, user);
    } else {
      assert codes'.Keys == s.codes.Keys;
      assert CodesBy(codes', user) == CodesBy(s.codes, user);
    }
  }

  /** A member's balance falls by exactly one for each code they were charged for and rises only by
      refunds, and the codes in their name are exactly those charged or issued to them. */
  lemma {:induction false} BalancesAccountForCodes(s: Ledger, run: seq<Event>, user: int)
    requires user in s.balances && 0 < user
    ensures user in After(s, run).balances
    ensures After(s, run).balances[user] == s.balances[user] + Refunds(run, user) - Charged(s, run, user)
    ensures |CodesBy(After(s, run).codes, user)|
         == |CodesBy(s.codes, user)| + Charged(s, run, user) + Issued(s, run, user)
    decreases run
  {
    if run != [] {
      NextCodesBy(s, run[0], user);
      BalancesAccountForCodes(Next(s, run[0]), run[1..], user);
    }
  }

  // ---- soft delete hides, and does nothing else ----

  /** The same ledger but for which rows are hidden. */
  ghost predicate SameButHidden(s: Ledger, t: Ledger) {
    s.balances == t.balances && SameRows(s.codes, t.codes)
  }

  ghost predicate SameRows(codes: Codes, codes': Codes) {
    && codes.Keys == codes'.Keys
    && forall c | c in codes :: SameRow(codes[c], codes'[c])
  }

  /** Equal in every column but deleted_at. */
  predicate SameRow(r: Invite, r': Invite) {
    && r.createdBy == r'.createdBy && r.createdAt == r'.createdAt && r.expiresAt == r'.expiresAt
    && r.email == r'.email && r.message == r'.message && r.sentAt == r'.sentAt
    && r.usedBy == r'.usedBy && r.usedAt == r'.usedAt
    && r.revokedAt == r'.revokedAt && r.revokedBy == r'.revokedBy
  }

  /** What the statement answers its caller. */
  datatype Reply = Done(ok: bool) | Silent

  function ReplyTo(s: Ledger, e: Event): Reply {
    match e.step
    case Mint(_, _, _, _, _) => Done(Charges(s, e))
    case MintUncharged(_, _, _, _, _) => Done(Issues(s, e))
    case Redeem(typed, user) => Done(RedeemOk(s.codes, typed, user, e.at))
    case Revoke(typed, actor, staffOverride) => Done(RevokeOk(s.codes, typed, actor, staffOverride))
    case SoftDelete(_, _) => Silent
    case Sent(_) => Silent
    case Refund(_) => Silent
  }

  function Replies(s: Ledger, run: seq<Event>): seq<Reply>
    decreases run
  {
    if run == [] then []
    else (if run[0].step.SoftDelete? then [] else [ReplyTo(s, run[0])]) + Replies(Next(s, run[0]), run[1..])
  }

  function WithoutDeletes(run: seq<Event>): seq<Event> {
    if run == [] then [] else (if run[0].step.SoftDelete? then [] else [run[0]]) + WithoutDeletes(run[1..])
  }

  lemma SameMatches(codes: Codes, codes': Codes, typed: string, owner: int, now: int)
    requires SameRows(codes, codes')
    ensures Matches(codes, typed) == Matches(codes', typed)
    ensures LiveMatches(codes, typed, now) == LiveMatches(codes', typed, now)
    ensures Revocable(codes, typed, owner) == Revocable(codes', typed, owner)
  {
    assert Matches(codes, typed) == Matches(codes', typed);
    forall c | c in codes ensures Live(codes[c], now) == Live(codes'[c], now) {
      assert SameRow(codes[c], codes'[c]);
    }
  }

  /** The caps, the address check and the registration form read the same ledger whatever is hidden. */
  lemma HiddenReadsSame(codes: Codes, codes': Codes, owner: int, email: string, now: int)
    requires SameRows(codes, codes')
    ensures PendingCodes(codes, owner, now) == PendingCodes(codes', owner, now)
    ensures PendingForEmail(codes, email, now) == PendingForEmail(codes', email, now)
    ensures InviteEmailPending(codes, email, now) <==> InviteEmailPending(codes', email, now)
    ensures forall typed :: InviteCodeValid(codes, typed, now) <==> InviteCodeValid(codes', typed, now)
    ensures forall c | c in codes :: LookupRow(codes[c], now) == LookupRow(codes'[c], now)
  {
    forall c | c in codes
      ensures LookupRow(codes[c], now) == LookupRow(codes'[c], now)
      ensures codes[c].createdBy == codes'[c].createdBy && codes[c].email == codes'[c].email
      ensures Live(codes[c], now) == Live(codes'[c], now)
    {
      assert SameRow(codes[c], codes'[c]);
    }
    assert PendingForEmail(codes, NormaliseEmail(email), now) == PendingForEmail(codes', NormaliseEmail(email), now);
    forall typed ensures Matches(codes, typed) == Matches(codes', typed) {
    }
  }

  lemma SameRowsUsed(codes: Codes, codes': Codes, hit: set<string>, user: int, now: int)
    requires SameRows(codes, codes')
    ensures SameRows(MarkUsed(codes, hit, user, now), MarkUsed(codes', hit, user, now))
  {
  }

  lemma SameRowsRevoked(codes: Codes, codes': Codes, hit: set<string>, user: int, now: int)
    requires SameRows(codes, codes')
    ensures SameRows(MarkRevoked(codes, hit, user, now), MarkRevoked(codes', hit, user, now))
  {
  }

  lemma SameRowsMarked(codes: Codes, codes': Codes, hit: set<string>, user: int, now: int)
    requires SameRows(codes, codes')
    ensures SameRows(MarkUsed(codes, hit, user, now), MarkUsed(codes', hit, user, now))
    ensures SameRows(MarkRevoked(codes, hit, user, now), MarkRevoked(codes', hit, user, now))
    ensures SameRows(MarkSent(codes, hit, now), MarkSent(codes', hit, now))
    ensures SameRows(MarkHidden(codes, hit, now), codes')
  {
    SameRowsUsed(codes, codes', hit, user, now);
    SameRowsRevoked(codes, codes', hit, user, now);
  }

  lemma HiddenMint(s: Ledger, t: Ledger, e: Event)
    requires SameButHidden(s, t) && (e.step.Mint? || e.step.MintUncharged?)
    ensures SameButHidden(Next(s, e), Next(t, e)) && ReplyTo(s, e) == ReplyTo(t, e)
  {
    assert Charges(s, e) == Charges(t, e) && Issues(s, e) == Issues(t, e);
  }

  lemma HiddenRevoke(codes: Codes, codes': Codes, typed: string, actor: int, staffOverride: bool, now: int)
    requires SameRows(codes, codes')
    ensures RevokeOk(codes, typed, actor, staffOverride) == RevokeOk(codes', typed, actor, staffOverride)
    ensures SameRows(RevokeRows(codes, typed, actor, staffOverride, now), RevokeRows(codes', typed, actor, staffOverride, now))
  {
    var owner := RevokeOwner(actor, staffOverride);
    SameMatches(codes, codes', typed, owner, now);
    SameRowsMarked(codes, codes', Revocable(codes, typed, owner), actor, now);
  }

  lemma HiddenRedeem(codes: Codes, codes': Codes, typed: string, user: int, now: int)
    requires SameRows(codes, codes')
    ensures RedeemOk(codes, typed, user, now) == RedeemOk(codes', typed, user, now)
    ensures SameRows(RedeemRows(codes, typed, user, now), RedeemRows(codes', typed, user, now))
  {
    SameMatches(codes, codes', typed, 0, now);
    SameRowsMarked(codes, codes', LiveMatches(codes, typed, now), user, now);
  }

  lemma HiddenStep(s: Ledger, t: Ledger, e: Event)
    requires SameButHidden(s, t)
    ensures e.step.SoftDelete? ==> SameButHidden(Next(s, e), t)
    ensures !e.step.SoftDelete? ==> SameButHidden(Next(s, e), Next(t, e)) && ReplyTo(s, e) == ReplyTo(t, e)
  {
    if e.step.Mint? || e.step.MintUncharged? {
      HiddenMint(s, t, e);
    } else if e.step.Redeem? {
      HiddenRedeem(s.codes, t.codes, e.step.typed, e.step.user, e.at);
    } else if e.step.Revoke? {
      HiddenRevoke(s.codes, t.codes, e.step.typed, e.step.actor, e.step.staffOverride, e.at);
    } else if e.step.Sent? {
      SameMatches(s.codes, t.codes, e.step.typed, 0, e.at);
      SameRowsMarked(s.codes, t.codes, Matches(s.codes, e.step.typed), 0, e.at);
    } else if e.step.SoftDelete? {
      SameRowsMarked(s.codes, t.codes, Hideable(s.codes, e.step.typed, e.step.owner), 0, e.at);
    }
  }

  /** Erase every soft delete from a run and nothing but the owners' lists can tell: every other
      statement gives the same answer, and the codes and balances end up the same. */
  lemma {:induction false} SoftDeletesAreInvisible(s: Ledger, t: Ledger, run: seq<Event>)
    requires SameButHidden(s, t)
    ensures Replies(s, run) == Replies(t, WithoutDeletes(run))
    ensures SameButHidden(After(s, run), After(t, WithoutDeletes(run)))
    decreases run
  {
    if run != [] {
      var e, rest := run[0], WithoutDeletes(run[1..]);
      HiddenStep(s, t, e);
      if e.step.SoftDelete? {
        assert WithoutDeletes(run) == rest;
        SoftDeletesAreInvisible(Next(s, e), t, run[1..]);
      } else {
        assert WithoutDeletes(run) == [e] + rest && ([e] + rest)[1..] == rest;
        SoftDeletesAreInvisible(Next(s, e), Next(t, e), run[1..]);
      }
    }
  }

  /** What a soft delete does do: the row, if it was shown, leaves its owner's list; it was on nobody
      else's, and no other list changes. */
  lemma SoftDeleteHidesOneRow(codes: Codes, code: string, owner: int, other: int, now: int)
    requires DistinctCodes(codes) && code in codes && Trim(code) == code && codes[code].createdBy == owner && 0 < owner && code != ""
    requires other != owner
    ensures ListedCodes(HideRows(codes, code, owner, now), owner) == ListedCodes(codes, owner) - {code}
    ensures code in ListedCodes(codes, owner) <==> codes[code].deletedAt.None?
    ensures code !in ListedCodes(codes, other)
    ensures ListedCodes(HideRows(codes, code, owner, now), other) == ListedCodes(codes, other)
  {
    TypedAsStored(code);
    assert Matches(codes, code) == {code};
  }
}
