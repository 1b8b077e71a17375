/**
 The invite ledger: codes from mint to redemption (internal/storage/invites.go).

 `invite_codes` is a map from the raw code to its row and `users.invites` a map from
 user id to balance. An UPDATE is modelled as it runs: it changes every row its WHERE
 clause matches, and the Go code then asks whether that was exactly one.
 */
module InviteLedger {
  import opened Ascii
  import opened Wrappers

  datatype Invite = Invite(
    createdBy: int,
    createdAt: int,
    expiresAt: int,
    email: string,
    message: string,
    usedBy: Option<int>,
    usedAt: Option<int>,
    sentAt: Option<int>,
    revokedAt: Option<int>,
    revokedBy: Option<int>,
    deletedAt: Option<int>
  )

  type Codes = map<string, Invite>
  type Balances = map<int, int>

  // ---- how codes and addresses are compared ----

  function NoDashes(s: string): string {
    if s == "" then "" else (if s[0] == '-' then "" else [s[0]]) + NoDashes(s[1..])
  }

  /** The column side: replace(upper(code), '-', ''). */
  function StoredForm(code: string): string {
    NoDashes(Upper(code))
  }

  /** The typed side: NormaliseInviteCode. */
  function TypedForm(s: string): string {
    Upper(NoDashes(Trim(s)))
  }

  function NormaliseEmail(s: string): string {
    Lower(Trim(s))
  }

  lemma {:induction false} UpperKeepsDashes(s: string)
    ensures NoDashes(Upper(s)) == Upper(NoDashes(s))
  {
    if s != "" {
      UpperKeepsDashes(s[1..]);
      assert Upper(s)[1..] == Upper(s[1..]);
      assert UpperChar(s[0]) == '-' <==> s[0] == '-';
      if s[0] == '-' {
        assert NoDashes(s) == NoDashes(s[1..]);
      } else {
        assert NoDashes(s) == [s[0]] + NoDashes(s[1..]);
        assert NoDashes(s)[1..] == NoDashes(s[1..]);
      }
    }
  }

  /** A code without blanks around it, typed as it is stored, finds its own row. */
  lemma TypedAsStored(code: string)
    requires Trim(code) == code
    ensures TypedForm(code) == StoredForm(code)
  {
    UpperKeepsDashes(code);
  }

  // ---- a code is the same code however it is typed ----

  lemma {:induction false} UpperOfLower(s: string)
    ensures Upper(Lower(s)) == Upper(s)
  {
    if s != "" {
      UpperOfLower(s[1..]);
      assert Lower(s)[1..] == Lower(s[1..]);
    }
  }

  lemma {:induction false} LowerKeepsDashes(s: string)
    ensures NoDashes(Lower(s)) == Lower(NoDashes(s))
  {
    if s != "" {
      LowerKeepsDashes(s[1..]);
      assert Lower(s)[1..] == Lower(s[1..]);
      assert LowerChar(s[0]) == '-' <==> s[0] == '-';
      if s[0] == '-' {
        assert NoDashes(s) == NoDashes(s[1..]);
      } else {
        assert NoDashes(s) == [s[0]] + NoDashes(s[1..]);
        assert NoDashes(s)[1..] == NoDashes(s[1..]);
      }
    }
  }

  lemma {:induction false} DashesDrop(a: string, b: string)
    ensures NoDashes(a + "-" + b) == NoDashes(a + b)
  {
    if a == "" {
      assert "" + "-" + b == ['-'] + b && (['-'] + b)[1..] == b && "" + b == b;
    } else {
      assert (a + "-" + b)[1..] == a[1..] + "-" + b && (a + b)[1..] == a[1..] + b;
      DashesDrop(a[1..], b);
    }
  }

  lemma TrimmedIsItself(s: string)
    requires Trimmed(s)
    ensures Trim(s) == s
  {
  }

  /** Case, dashes anywhere in the code and blanks around it make no difference to what is typed. */
  lemma TypingIsForgiving(s: string, a: string, b: string, blank: char)
    requires IsSpace(blank) && Trimmed(a + b)
    ensures TypedForm(Lower(s)) == TypedForm(s)
    ensures TypedForm([blank] + s) == TypedForm(s) && TypedForm(s + [blank]) == TypedForm(s)
    ensures TypedForm(a + "-" + b) == TypedForm(a + b)
  {
    TrimLeftLower(s);
    TrimRightLower(TrimLeft(s));
    LowerKeepsDashes(Trim(s));
    UpperOfLower(NoDashes(Trim(s)));
    TrimIgnoresBlanks(s, blank);
    DashesDrop(a, b);
    DashedIsTrimmed(a, b);
    TrimmedIsItself(a + b);
    TrimmedIsItself(a + "-" + b);
  }

  lemma DashedIsTrimmed(a: string, b: string)
    requires Trimmed(a + b)
    ensures Trimmed(a + "-" + b)
  {
    var s, t := a + b, a + "-" + b;
    assert t[0] == (if a == "" then '-' else a[0]);
    assert t[|t| - 1] == (if b == "" then '-' else b[|b| - 1]);
    if a != "" { assert s[0] == a[0]; }
    if b != "" { assert s[|s| - 1] == b[|b| - 1]; }
  }

  /** A code of capitals and digits reads as itself, and no two of them read alike. */
  lemma {:induction false} PlainCodesReadAsThemselves(code: string)
    requires forall i | 0 <= i < |code| :: 'A' <= code[i] <= 'Z' || '0' <= code[i] <= '9'
    ensures StoredForm(code) == code
  {
    if code != "" {
      PlainCodesReadAsThemselves(code[1..]);
      assert Upper(code)[1..] == Upper(code[1..]);
    }
  }

  // ---- what a row says ----

  /** Redeemable right now: the WHERE clause of RedeemInviteCode. */
  predicate Live(r: Invite, now: int) {
    r.usedBy.None? && r.revokedAt.None? && now < r.expiresAt
  }

  function Matches(codes: Codes, typed: string): set<string> {
    set c | c in codes && StoredForm(c) == TypedForm(typed)
  }

  function LiveMatches(codes: Codes, typed: string, now: int): set<string> {
    set c | c in Matches(codes, typed) && Live(codes[c], now)
  }

  datatype Reason = Redeemable | WasUsed | WasRevoked | WasExpired
  datatype Lookup = Lookup(found: bool, email: string, reason: Reason)

  function LookupRow(r: Invite, now: int): Lookup {
    Lookup(true, r.email,
           if r.usedBy.Some? then WasUsed
           else if r.revokedAt.Some? then WasRevoked
           else if r.expiresAt <= now then WasExpired
           else Redeemable)
  }

  /** A row as its owner's list shows it. */
  datatype OwnerRow = OwnerRow(spent: bool, wasRevoked: bool, expired: bool) {
    predicate Pending() { !spent && !wasRevoked && !expired }
  }

  function ShownAs(r: Invite, now: int): OwnerRow {
    OwnerRow(r.usedBy.Some?, r.revokedAt.Some?, r.usedBy.None? && r.revokedAt.None? && r.expiresAt <= now)
  }

  function ListedCodes(codes: Codes, owner: int): set<string> {
    if owner <= 0 then {} else set c | c in codes && codes[c].createdBy == owner && codes[c].deletedAt.None?
  }

  function PendingCodes(codes: Codes, owner: int, now: int): set<string> {
    set c | c in codes && codes[c].createdBy == owner && codes[c].usedBy.None?
            && codes[c].revokedAt.None? && codes[c].expiresAt > now
  }

  /** The WHERE clause of InviteEmailPending, over the stored column. */
  function PendingForEmail(codes: Codes, email: string, now: int): set<string> {
    set c | c in codes && codes[c].email == email && codes[c].usedBy.None?
            && codes[c].revokedAt.None? && codes[c].expiresAt > now
  }

  // ---- the statements ----

  function NewInvite(issuer: int, now: int, ttl: int, email: string, message: string): Invite {
    Invite(issuer, now, now + ttl, NormaliseEmail(email), Trim(message), None, None, None, None, None, None)
  }

  function MarkUsed(codes: Codes, hit: set<string>, user: int, now: int): Codes {
    map c | c in codes :: if c in hit then codes[c].(usedBy := Some(user), usedAt := Some(now)) else codes[c]
  }

  function MarkRevoked(codes: Codes, hit: set<string>, actor: int, now: int): Codes {
    map c | c in codes :: if c in hit then codes[c].(revokedAt := Some(now), revokedBy := Some(actor)) else codes[c]
  }

  function MarkHidden(codes: Codes, hit: set<string>, now: int): Codes {
    map c | c in codes :: if c in hit then codes[c].(deletedAt := Some(now)) else codes[c]
  }

  function MarkSent(codes: Codes, hit: set<string>, now: int): Codes {
    map c | c in codes :: if c in hit then codes[c].(sentAt := Some(now)) else codes[c]
  }

  function Revocable(codes: Codes, typed: string, owner: int): set<string> {
    set c | c in Matches(codes, typed) && codes[c].usedBy.None? && codes[c].revokedAt.None?
            && (owner == 0 || codes[c].createdBy == owner)
  }

  function Hideable(codes: Codes, typed: string, owner: int): set<string> {
    set c | c in Matches(codes, typed) && codes[c].createdBy == owner && codes[c].deletedAt.None?
  }

  // Each statement with its guard: what it answers, and the rows after it.

  predicate RedeemOk(codes: Codes, typed: string, user: int, now: int) {
    typed != "" && 0 < user && |LiveMatches(codes, typed, now)| == 1
  }

  function RedeemRows(codes: Codes, typed: string, user: int, now: int): Codes {
    if typed == "" || user <= 0 then codes else MarkUsed(codes, LiveMatches(codes, typed, now), user, now)
  }

  /** Staff may revoke anybody's code; owner 0 stands for any owner. */
  function RevokeOwner(actor: int, staffOverride: bool): int {
    if staffOverride then 0 else actor
  }

  predicate RevokeOk(codes: Codes, typed: string, actor: int, staffOverride: bool) {
    typed != "" && 0 < actor && |Revocable(codes, typed, RevokeOwner(actor, staffOverride))| == 1
  }

  function RevokeRows(codes: Codes, typed: string, actor: int, staffOverride: bool, now: int): Codes {
    if typed == "" || actor <= 0 then codes
    else MarkRevoked(codes, Revocable(codes, typed, RevokeOwner(actor, staffOverride)), actor, now)
  }

  function HideRows(codes: Codes, typed: string, owner: int, now: int): Codes {
    if typed == "" || owner <= 0 then codes else MarkHidden(codes, Hideable(codes, typed, owner), now)
  }

  /** No two codes read the same once case and dashes are ignored. The table's key does not
      enforce this; the code generator is expected to. */
  ghost predicate DistinctCodes(codes: Codes) {
    forall c, d | c in codes && d in codes && StoredForm(c) == StoredForm(d) :: c == d
  }

  predicate SoundRow(r: Invite) {
    && !(r.usedBy.Some? && r.revokedAt.Some?)
    && (r.usedBy.Some? <==> r.usedAt.Some?)
    && (r.revokedAt.Some? <==> r.revokedBy.Some?)
  }

  /** What every statement keeps. */
  ghost predicate Sound(codes: Codes, balances: Balances) {
    && (forall c | c in codes :: SoundRow(codes[c]))
    && (forall u | u in balances :: 0 <= balances[u])
  }

  /** Nobody has used, revoked, hidden or mailed it. */
  predicate Untouched(r: Invite) {
    r.usedBy.None? && r.usedAt.None? && r.sentAt.None? && r.revokedAt.None? && r.revokedBy.None? && r.deletedAt.None?
  }

  /** The rows a statement made different. */
  ghost function Changed(before: Codes, after: Codes): set<string>
    requires before.Keys == after.Keys
  {
    set c | c in after && after[c] != before[c]
  }

  class InviteStore {
    var codes: Codes
    var balances: Balances

    constructor (balances: Balances)
      requires forall u | u in balances :: 0 <= balances[u]
      ensures codes == map[] && this.balances == balances && Sound(codes, balances)
    {
      codes, this.balances := map[], balances;
    }

    /** `fault` stands for an insert or commit the database refuses for its own reasons. */
    method MintInviteCode(user: int, code: string, ttl: int, email: string, message: string, now: int, fault: bool)
      returns (res: Result<bool, string>)
      requires Sound(codes, balances)
      modifies this
      ensures Sound(codes, balances)
      ensures res == Ok(true) <==>
        user in old(balances) && 0 < old(balances)[user] && code !in old(codes) && !fault
      ensures res == Ok(false) <==> !(user in old(balances) && 0 < old(balances)[user])
      ensures res == Ok(true) ==>
        && codes == old(codes)[code := NewInvite(user, now, ttl, email, message)]
        && balances == old(balances)[user := old(balances)[user] - 1]
      ensures res == Ok(true) ==>
        && codes[code].createdBy == user && codes[code].createdAt == now && codes[code].expiresAt == now + ttl
        && codes[code].email == Lower(Trim(email)) && codes[code].message == Trim(message) && Untouched(codes[code])
      ensures res != Ok(true) ==> codes == old(codes) && balances == old(balances)
    {
      var before := balances;
      if user !in balances || balances[user] <= 0 {
        return Ok(false);
      }
      balances := balances[user := balances[user] - 1];
      if code in codes || fault {
        balances := before; // the deferred rollback
        return Err("mint invite");
      }
      codes := codes[code := NewInvite(user, now, ttl, email, message)];
      return Ok(true);
    }

    method MintInviteUncharged(issuer: int, code: string, ttl: int, email: string, message: string, now: int)
      returns (ok: bool)
      requires Sound(codes, balances)
      modifies this`codes
      ensures Sound(codes, balances)
      ensures ok <==> code != "" && code !in old(codes)
      ensures codes == if ok then old(codes)[code := NewInvite(issuer, now, ttl, email, message)] else old(codes)
      ensures ok ==>
        && codes[code].createdBy == issuer && codes[code].createdAt == now && codes[code].expiresAt == now + ttl
        && codes[code].email == Lower(Trim(email)) && codes[code].message == Trim(message) && Untouched(codes[code])
    {
      if code == "" || code in codes {
        return false;
      }
      codes := codes[code := NewInvite(issuer, now, ttl, email, message)];
      return true;
    }

    method LookupInviteCode(typed: string, now: int) returns (found: Lookup)
      ensures found.found <==> typed != "" && Matches(codes, typed) != {}
      ensures found.found ==> exists c ::
        && c in codes && StoredForm(c) == TypedForm(typed) && found.email == codes[c].email
        && (found.reason == WasUsed <==> codes[c].usedBy.Some?)
        && (found.reason == WasRevoked <==> codes[c].usedBy.None? && codes[c].revokedAt.Some?)
        && (found.reason == WasExpired
            <==> codes[c].usedBy.None? && codes[c].revokedAt.None? && codes[c].expiresAt <= now)
      ensures !found.found ==> found.email == "" && (typed == "" || forall c | c in codes :: StoredForm(c) != TypedForm(typed))
    {
      assert forall c | c in codes && StoredForm(c) == TypedForm(typed) :: c in Matches(codes, typed);
      if typed == "" || Matches(codes, typed) == {} {
        return Lookup(false, "", Redeemable);
      }
      ghost var some := SomeMember(Matches(codes, typed));
      var c :| c in Matches(codes, typed);
      return LookupRow(codes[c], now);
    }

    /** True exactly when one live row matched. Every live row that matched is the user's either way. */
    method RedeemInviteCode(typed: string, user: int, now: int) returns (ok: bool)
      requires Sound(codes, balances)
      modifies this`codes
      ensures Sound(codes, balances)
      ensures ok <==> RedeemOk(old(codes), typed, user, now)
      ensures codes == RedeemRows(old(codes), typed, user, now)
      ensures codes.Keys == old(codes).Keys && forall c | c in codes ::
        codes[c] == if typed != "" && 0 < user && StoredForm(c) == TypedForm(typed) && old(codes)[c].usedBy.None?
                       && old(codes)[c].revokedAt.None? && now < old(codes)[c].expiresAt
                    then old(codes)[c].(usedBy := Some(user), usedAt := Some(now)) else old(codes)[c]
      ensures ok <==> |Changed(old(codes), codes)| == 1
    {
      if typed == "" || user <= 0 {
        return false;
      }
      var affected := |LiveMatches(codes, typed, now)|;
      ghost var before := codes;
      codes := MarkUsed(codes, LiveMatches(codes, typed, now), user, now);
      assert Changed(before, codes) == LiveMatches(before, typed, now);
      return affected == 1;
    }

    method RevokeInviteCode(typed: string, actor: int, staffOverride: bool, now: int) returns (ok: bool)
      requires Sound(codes, balances)
      modifies this`codes
      ensures Sound(codes, balances)
      ensures ok <==> RevokeOk(old(codes), typed, actor, staffOverride)
      ensures codes == RevokeRows(old(codes), typed, actor, staffOverride, now)
      ensures codes.Keys == old(codes).Keys && forall c | c in codes ::
        codes[c] == if typed != "" && 0 < actor && StoredForm(c) == TypedForm(typed) && old(codes)[c].usedBy.None?
                       && old(codes)[c].revokedAt.None? && (staffOverride || old(codes)[c].createdBy == actor)
                    then old(codes)[c].(revokedAt := Some(now), revokedBy := Some(actor)) else old(codes)[c]
      ensures ok <==> |Changed(old(codes), codes)| == 1
    {
      if typed == "" || actor <= 0 {
        return false;
      }
      var owner := actor;
      if staffOverride {
        owner := 0;
      }
      var affected := |Revocable(codes, typed, owner)|;
      ghost var before := codes;
      codes := MarkRevoked(codes, Revocable(codes, typed, owner), actor, now);
      assert Changed(before, codes) == Revocable(before, typed, owner);
      return affected == 1;
    }

    method SoftDeleteInviteCode(typed: string, owner: int, now: int) returns (ok: bool)
      requires Sound(codes, balances)
      modifies this`codes
      ensures Sound(codes, balances)
      ensures ok <==> typed != "" && 0 < owner && |Hideable(old(codes), typed, owner)| == 1
      ensures codes == HideRows(old(codes), typed, owner, now)
      ensures codes.Keys == old(codes).Keys && forall c | c in codes ::
        codes[c] == if typed != "" && 0 < owner && StoredForm(c) == TypedForm(typed)
                       && old(codes)[c].createdBy == owner && old(codes)[c].deletedAt.None?
                    then old(codes)[c].(deletedAt := Some(now)) else old(codes)[c]
      ensures ok <==> |Changed(old(codes), codes)| == 1
    {
      if typed == "" || owner <= 0 {
        return false;
      }
      var affected := |Hideable(codes, typed, owner)|;
      ghost var before := codes;
      codes := MarkHidden(codes, Hideable(codes, typed, owner), now);
      assert Changed(before, codes) == Hideable(before, typed, owner);
      return affected == 1;
    }

    method MarkInviteSent(typed: string, now: int)
      requires Sound(codes, balances)
      modifies this`codes
      ensures Sound(codes, balances)
      ensures codes == MarkSent(old(codes), Matches(old(codes), typed), now)
      ensures codes.Keys == old(codes).Keys
      ensures forall c | c in codes && StoredForm(c) == TypedForm(typed) ::
                codes[c].sentAt == Some(now) && codes[c].(sentAt := None) == old(codes)[c].(sentAt := None)
      ensures forall c | c in codes && StoredForm(c) != TypedForm(typed) :: codes[c] == old(codes)[c]
    {
      codes := MarkSent(codes, Matches(codes, typed), now);
    }

    method RefundInvite(user: int)
      requires Sound(codes, balances)
      modifies this`balances
      ensures Sound(codes, balances)
      ensures balances == if 0 < user && user in old(balances)
                          then old(balances)[user := old(balances)[user] + 1] else old(balances)
    {
      if user <= 0 || user !in balances {
        return;
      }
      balances := balances[user := balances[user] + 1];
    }
  }

  // ---- the liveness tests agree ----

  predicate InviteCodeValid(codes: Codes, typed: string, now: int) {
    typed != "" && exists c :: c in Matches(codes, typed) && LookupRow(codes[c], now).reason == Redeemable
  }

  /** InviteEmailPending: the address is normalised as it was when the code was minted, and an empty one
      is nobody's. */
  predicate InviteEmailPending(codes: Codes, email: string, now: int) {
    var address := NormaliseEmail(email);
    address != "" && PendingForEmail(codes, address, now) != {}
  }

  /** Five tests written apart, one meaning. For a code the ledger holds, typed as stored: the list
      calls it pending, the form calls it valid, redeeming it works, and it counts against its
      owner's cap and in the query on its address, all exactly when it is live. */
  lemma LivenessTestsAgree(codes: Codes, code: string, user: int, now: int)
    requires DistinctCodes(codes) && code in codes && code != "" && Trim(code) == code && 0 < user
    ensures ShownAs(codes[code], now).Pending() <==> Live(codes[code], now)
    ensures InviteCodeValid(codes, code, now) <==> Live(codes[code], now)
    ensures RedeemOk(codes, code, user, now) <==> Live(codes[code], now)
    ensures code in PendingCodes(codes, codes[code].createdBy, now) <==> Live(codes[code], now)
    ensures code in PendingForEmail(codes, codes[code].email, now) <==> Live(codes[code], now)
  {
    TypedAsStored(code);
    assert Matches(codes, code) == {code};
    if Live(codes[code], now) {
      assert LiveMatches(codes, code, now) == {code};
    } else {
      assert LiveMatches(codes, code, now) == {};
    }
  }

  /** The owner's list and the registration form tell the same story of a row, and exactly one story: it
      was used, it was revoked, its time ran out, or it is pending. */
  lemma ListAndFormAgree(r: Invite, now: int)
    requires SoundRow(r)
    ensures ShownAs(r, now).spent <==> LookupRow(r, now).reason == WasUsed
    ensures ShownAs(r, now).wasRevoked <==> LookupRow(r, now).reason == WasRevoked
    ensures ShownAs(r, now).expired <==> LookupRow(r, now).reason == WasExpired
    ensures ShownAs(r, now).Pending() <==> LookupRow(r, now).reason == Redeemable
    ensures ShownAs(r, now).spent <==> r.usedBy.Some?
    ensures ShownAs(r, now).wasRevoked <==> r.revokedBy.Some?
    ensures ShownAs(r, now).expired <==> r.usedBy.None? && r.revokedBy.None? && r.expiresAt <= now
  {
  }

  // ---- addresses ----

  /** An address in normal form is its own normal form: storing and asking agree. */
  lemma NormaliseEmailIsIdempotent(s: string)
    ensures NormaliseEmail(NormaliseEmail(s)) == NormaliseEmail(s)
  {
    var t := Trim(s);
    TrimLeftTrims(s);
    TrimRightTrims(TrimLeft(s));
    TrimLeftLower(t);
    TrimRightLower(t);
    assert Trim(t) == t;
    assert Trim(Lower(t)) == Lower(t);
    LowerTwice(t);
  }

  /** Every stored address is in normal form. */
  ghost predicate NormalEmails(codes: Codes) {
    forall c | c in codes :: NormaliseEmail(codes[c].email) == codes[c].email
  }

  /** The address check, however the address is typed: it has something in it, and some live code was
      issued to the same address. */
  lemma AddressCheckFindsLiveCodes(codes: Codes, typed: string, now: int)
    requires NormalEmails(codes)
    ensures InviteEmailPending(codes, typed, now) <==>
            && NormaliseEmail(typed) != ""
            && exists c | c in codes :: Live(codes[c], now) && NormaliseEmail(codes[c].email) == NormaliseEmail(typed)
  {
    var address := NormaliseEmail(typed);
    forall c | c in codes
      ensures c in PendingForEmail(codes, address, now)
              <==> Live(codes[c], now) && NormaliseEmail(codes[c].email) == address
    {
    }
    if c :| c in codes && Live(codes[c], now) && NormaliseEmail(codes[c].email) == address {
      assert c in PendingForEmail(codes, address, now);
    }
    if PendingForEmail(codes, address, now) != {} {
      var c := SomeMember(PendingForEmail(codes, address, now));
      assert Live(codes[c], now);
    }
  }

  /** One code's share in it: a live code blocks its own address exactly when it has one. An unlocked
      code, live or not, blocks nobody. */
  lemma LiveCodesBlockTheirAddress(codes: Codes, code: string, now: int)
    requires NormalEmails(codes) && code in codes && Live(codes[code], now)
    ensures InviteEmailPending(codes, codes[code].email, now) <==> codes[code].email != ""
  {
    AddressCheckFindsLiveCodes(codes, codes[code].email, now);
  }

  /** So liveness is not enough: an unlocked code just minted is live, and the address check says no. */
  lemma UnlockedCodesBlockNobody(user: int, code: string, ttl: int, message: string, now: int)
    requires 0 < ttl
    ensures var codes := map[code := NewInvite(user, now, ttl, "", message)];
            && Live(codes[code], now)
            && code in PendingForEmail(codes, codes[code].email, now)
            && !InviteEmailPending(codes, codes[code].email, now)
  {
    assert Trim("") == "" && NormaliseEmail("") == "";
  }

  /** However a code is typed, the form's answer is what redeeming it will do. */
  lemma ValidMeansRedeemable(codes: Codes, typed: string, user: int, now: int)
    requires DistinctCodes(codes) && 0 < user
    ensures InviteCodeValid(codes, typed, now) <==> RedeemOk(codes, typed, user, now)
  {
    var live := LiveMatches(codes, typed, now);
    if live != {} {
      var c := SomeMember(live);
      assert live == {c};
    }
    if InviteCodeValid(codes, typed, now) {
      var c :| c in Matches(codes, typed) && LookupRow(codes[c], now).reason == Redeemable;
      assert c in live;
    }
  }

  /** Two registrations racing on one code, each typing it its own way: whichever statement runs first,
      the second finds nothing. */
  lemma OneWinnerPerCode(codes: Codes, typed: string, first: int, now: int, again: string, second: int, later: int)
    requires RedeemOk(codes, typed, first, now) && now <= later && TypedForm(again) == TypedForm(typed)
    ensures !RedeemOk(RedeemRows(codes, typed, first, now), again, second, later)
  {
    var after := RedeemRows(codes, typed, first, now);
    forall c | c in Matches(after, again) ensures !Live(after[c], later) {
      assert c in Matches(codes, typed);
    }
    assert LiveMatches(after, again, later) == {};
  }

  /** Without DistinctCodes the ledger can lie: two codes that read alike are both spent by one
      redemption, and the answer is that it failed. */
  lemma LookalikeCodesAreBothSpent(row: Invite, now: int)
    requires Live(row, now)
    ensures var codes := map["a" := row, "A" := row];
            && !RedeemOk(codes, "A", 5, now)
            && RedeemRows(codes, "A", 5, now)["a"].usedBy == Some(5)
            && RedeemRows(codes, "A", 5, now)["A"].usedBy == Some(5)
  {
    OneLetter('a');
    OneLetter('A');
    assert LiveMatches(map["a" := row, "A" := row], "A", now) == {"a", "A"};
  }

  lemma OneLetter(c: char)
    requires c == 'a' || c == 'A'
    ensures StoredForm([c]) == "A" && TypedForm([c]) == "A"
  {
    assert [c][1..] == "";
    assert Upper([c]) == "A" && NoDashes("A") == "A" && NoDashes([c]) == [c];
  }
}
