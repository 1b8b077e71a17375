/**
 What a caller gets out of the in-process limiter over a run of takes, refunds and
 sweeps: how many requests pass, how long a refusal lasts, and what forgetting a
 bucket changes.
 */
module ThrottleBounds {
  import opened Wrappers
  import opened Throttle

  // ---- how many requests pass ----

  function AnswerTo(l: Limit, max: nat, t: Table, e: Event): Answer
    requires e.op.Take?
  {
    TakeAnswer(l, t, max, e.op.key, e.at)
  }

  function Admissions(l: Limit, max: nat, t: Table, run: seq<Event>, key: string): nat
    decreases run
  {
    if run == [] then 0
    else
      var passed := if run[0].op == Take(key) && AnswerTo(l, max, t, run[0]).allowed then 1 else 0;
      passed + Admissions(l, max, NextTable(l, max, t, run[0]), run[1..], key)
  }

  function Refunds(run: seq<Event>, key: string): nat {
    if run == [] then 0 else (if run[0].op == Give(key) then 1 else 0) + Refunds(run[1..], key)
  }

  function TableDrops(l: Limit, max: nat, t: Table, run: seq<Event>): nat
    decreases run
  {
    if run == [] then 0
    else (if Drops(max, t, run[0]) then 1 else 0) + TableDrops(l, max, NextTable(l, max, t, run[0]), run[1..])
  }

  /** The credit the run took out of one key's bucket, less what it put back. */
  function NetCharge(l: Limit, max: nat, t: Table, run: seq<Event>, key: string): int
    decreases run
  {
    if run == [] then 0
    else
      var e := run[0];
      var passed := if e.op == Take(key) && AnswerTo(l, max, t, e).allowed then l.every else 0;
      var refunded := if e.op == Give(key) then l.every else 0;
      var dropped := if Drops(max, t, e) then l.Full() else 0;
      passed - refunded - dropped + NetCharge(l, max, NextTable(l, max, t, e), run[1..], key)
  }

  /** Every token spent was in the bucket, came back with time, was refunded, or appeared when
      the table was dropped whole. */
  lemma {:induction false} CreditAccounts(l: Limit, max: nat, t: Table, run: seq<Event>, key: string, now: int)
    requires l.Configured() && Sane(l, t, now) && InOrder(now, run)
    ensures Sane(l, EndTable(l, max, t, run), EndTime(now, run)) && now <= EndTime(now, run)
    ensures NetCharge(l, max, t, run, key) + CreditAt(l, EndTable(l, max, t, run), key, EndTime(now, run))
         <= CreditAt(l, t, key, now) + (EndTime(now, run) - now)
    decreases run
  {
    if run != [] {
      var e, t' := run[0], NextTable(l, max, t, run[0]);
      FullHoldsAToken(l);
      TimePasses(l, t, key, now, e.at);
      TableRefinesBucket(l, max, t, e, key);
      CreditAccounts(l, max, t', run[1..], key, e.at);
    }
  }

  lemma OneMore(unit: int, n: int)
    ensures unit * (n + 1) == unit * n + unit
  {
  }

  lemma {:induction false} NetChargeCounts(l: Limit, max: nat, t: Table, run: seq<Event>, key: string)
    ensures NetCharge(l, max, t, run, key)
         == l.every * Admissions(l, max, t, run, key) - l.every * Refunds(run, key)
          - l.Full() * TableDrops(l, max, t, run)
    decreases run
  {
    if run != [] {
      var t' := NextTable(l, max, t, run[0]);
      NetChargeCounts(l, max, t', run[1..], key);
      OneMore(l.every, Admissions(l, max, t', run[1..], key));
      OneMore(l.every, Refunds(run[1..], key));
      OneMore(l.Full(), TableDrops(l, max, t', run[1..]));
    }
  }

  lemma Monotone(unit: int, m: int, n: int)
    requires 0 <= unit && m <= n
    ensures unit * m <= unit * n
  {
  }

  lemma DivideByEvery(every: int, burst: int, a: int, r: int, d: int, elapsed: int)
    requires 0 < every && 0 <= elapsed
    requires every * a - every * r - burst * every * d <= burst * every + elapsed
    ensures a <= burst * (1 + d) + elapsed / every + r
  {
    var x := burst * (1 + d) + r;
    assert every * x == burst * every + burst * every * d + every * r;
    assert every * (a - x) <= elapsed;
    var q := elapsed / every;
    assert elapsed < every * (q + 1);
    if q + 1 <= a - x {
      Monotone(every, q + 1, a - x);
    }
  }

  /** Over any window, from any state of the table, one key passes at most a burst for the window
      and one more per whole-table drop, a request per refill interval, and one per refund. */
  lemma WindowBound(l: Limit, max: nat, t: Table, run: seq<Event>, key: string, now: int)
    requires l.Configured() && Sane(l, t, now) && InOrder(now, run)
    ensures Admissions(l, max, t, run, key)
         <= l.burst * (1 + TableDrops(l, max, t, run)) + (EndTime(now, run) - now) / l.every + Refunds(run, key)
  {
    CreditAccounts(l, max, t, run, key, now);
    TimePasses(l, t, key, now, now);
    TimePasses(l, EndTable(l, max, t, run), key, EndTime(now, run), EndTime(now, run));
    NetChargeCounts(l, max, t, run, key);
    DivideByEvery(l.every, l.burst, Admissions(l, max, t, run, key), Refunds(run, key),
                  TableDrops(l, max, t, run), EndTime(now, run) - now);
  }

  // ---- the size of the table ----

  function Insertions(l: Limit, max: nat, t: Table, run: seq<Event>): nat
    decreases run
  {
    if run == [] then 0
    else
      var inserted := if run[0].op.Take? && run[0].op.key !in BeforeTake(t, max) then 1 else 0;
      inserted + Insertions(l, max, NextTable(l, max, t, run[0]), run[1..])
  }

  lemma NextSize(l: Limit, max: nat, t: Table, e: Event)
    ensures |NextTable(l, max, t, e)|
         <= (if Drops(max, t, e) then 0 else |t|) + (if e.op.Take? && e.op.key !in BeforeTake(t, max) then 1 else 0)
  {
    var t' := NextTable(l, max, t, e);
    match e.op {
      case Take(key) => assert t'.Keys == BeforeTake(t, max).Keys + {key};
      case Give(key) => assert t'.Keys == t.Keys;
      case Sweep => SubsetCard(t'.Keys, t.Keys);
    }
  }

  lemma {:induction false} TableNeverExceedsMax(l: Limit, max: nat, t: Table, run: seq<Event>)
    requires 1 <= max && |t| <= max
    ensures |EndTable(l, max, t, run)| <= max
    decreases run
  {
    if run != [] {
      NextSize(l, max, t, run[0]);
      TableNeverExceedsMax(l, max, NextTable(l, max, t, run[0]), run[1..]);
    }
  }

  lemma {:induction false} SizeBetweenDrops(l: Limit, max: nat, t: Table, run: seq<Event>)
    requires TableDrops(l, max, t, run) == 0
    ensures |EndTable(l, max, t, run)| <= |t| + Insertions(l, max, t, run)
    decreases run
  {
    if run != [] {
      NextSize(l, max, t, run[0]);
      SizeBetweenDrops(l, max, NextTable(l, max, t, run[0]), run[1..]);
    }
  }

  /** Between one drop and the next, at least max - 1 keys were inserted. */
  lemma DropsAreFarApart(l: Limit, max: nat, t: Table, first: Event, run: seq<Event>, second: Event)
    requires Drops(max, t, first)
    requires TableDrops(l, max, NextTable(l, max, t, first), run) == 0
    requires Drops(max, EndTable(l, max, NextTable(l, max, t, first), run), second)
    ensures max - 1 <= Insertions(l, max, NextTable(l, max, t, first), run)
  {
    NextSize(l, max, t, first);
    SizeBetweenDrops(l, max, NextTable(l, max, t, first), run);
  }

  // ---- forgetting ----

  function Answers(l: Limit, max: nat, t: Table, run: seq<Event>): seq<Answer>
    decreases run
  {
    if run == [] then []
    else
      var answer := if run[0].op.Take? then [AnswerTo(l, max, t, run[0])] else [];
      answer + Answers(l, max, NextTable(l, max, t, run[0]), run[1..])
  }

  function WithoutSweeps(run: seq<Event>): seq<Event> {
    if run == [] then []
    else (if run[0].op.Sweep? then [] else [run[0]]) + WithoutSweeps(run[1..])
  }

  /** The bisimulation: two tables no key can tell apart, the first with nothing the second has forgotten. */
  ghost predicate SameCredit(l: Limit, swept: Table, kept: Table, now: int) {
    && swept.Keys <= kept.Keys
    && forall key :: CreditAt(l, swept, key, now) == CreditAt(l, kept, key, now)
  }

  lemma SameCreditLater(l: Limit, swept: Table, kept: Table, now: int, later: int)
    requires l.Configured() && now <= later && Sane(l, swept, now) && Sane(l, kept, now)
    requires SameCredit(l, swept, kept, now)
    ensures SameCredit(l, swept, kept, later)
  {
    forall key ensures CreditAt(l, swept, key, later) == CreditAt(l, kept, key, later) {
      TimePasses(l, swept, key, now, later);
      TimePasses(l, kept, key, now, later);
    }
  }

  lemma SaneAfter(l: Limit, max: nat, t: Table, e: Event, now: int)
    requires l.Configured() && Sane(l, t, now) && now <= e.at
    ensures Sane(l, t, e.at) && Sane(l, NextTable(l, max, t, e), e.at)
  {
    TableRefinesBucket(l, max, t, e, "");
  }

  lemma SweepKeepsCredit(l: Limit, max: nat, swept: Table, kept: Table, e: Event)
    requires l.Configured() && Sane(l, swept, e.at) && SameCredit(l, swept, kept, e.at) && e.op.Sweep?
    ensures SameCredit(l, NextTable(l, max, swept, e), kept, e.at)
  {
    forall key ensures CreditAt(l, NextTable(l, max, swept, e), key, e.at) == CreditAt(l, swept, key, e.at) {
      TableRefinesBucket(l, max, swept, e, key);
    }
  }

  lemma SameCreditStep(l: Limit, max: nat, swept: Table, kept: Table, e: Event)
    requires l.Configured() && Sane(l, swept, e.at) && Sane(l, kept, e.at) && SameCredit(l, swept, kept, e.at)
    requires !Drops(max, kept, e) && !e.op.Sweep?
    ensures !Drops(max, swept, e)
    ensures SameCredit(l, NextTable(l, max, swept, e), NextTable(l, max, kept, e), e.at)
    ensures e.op.Take? ==> AnswerTo(l, max, swept, e) == AnswerTo(l, max, kept, e)
  {
    SubsetCard(swept.Keys, kept.Keys);
    forall key
      ensures CreditAt(l, NextTable(l, max, swept, e), key, e.at)
           == AbstractStep(l, CreditAt(l, swept, key, e.at), e.op, key)
      ensures CreditAt(l, NextTable(l, max, kept, e), key, e.at)
           == AbstractStep(l, CreditAt(l, kept, key, e.at), e.op, key)
    {
      TableRefinesBucket(l, max, swept, e, key);
      TableRefinesBucket(l, max, kept, e, key);
    }
  }

  /** Sweeps decide nothing: a run with sweeps anywhere gives every request the same answer, retry
      time included, as the run without them, provided the unswept table stays below its maximum. */
  lemma {:induction false} SweepsAreInvisible(l: Limit, max: nat, swept: Table, kept: Table, run: seq<Event>, now: int)
    requires l.Configured() && InOrder(now, run)
    requires Sane(l, swept, now) && Sane(l, kept, now) && SameCredit(l, swept, kept, now)
    requires TableDrops(l, max, kept, WithoutSweeps(run)) == 0
    ensures Answers(l, max, swept, run) == Answers(l, max, kept, WithoutSweeps(run))
    decreases run
  {
    if run != [] {
      var e, rest := run[0], WithoutSweeps(run[1..]);
      SameCreditLater(l, swept, kept, now, e.at);
      SaneAfter(l, max, swept, e, now);
      SaneAfter(l, max, kept, e, now);
      if e.op.Sweep? {
        assert WithoutSweeps(run) == rest;
        SweepKeepsCredit(l, max, swept, kept, e);
        SweepsAreInvisible(l, max, NextTable(l, max, swept, e), kept, run[1..], e.at);
      } else {
        assert WithoutSweeps(run) == [e] + rest && ([e] + rest)[1..] == rest;
        SameCreditStep(l, max, swept, kept, e);
        SweepsAreInvisible(l, max, NextTable(l, max, swept, e), NextTable(l, max, kept, e), run[1..], e.at);
      }
    }
  }

  // ---- how long a refusal lasts ----

  predicate NoRefund(run: seq<Event>, key: string) {
    forall e <- run :: e.op != Give(key)
  }

  /** Every take of the key in the run comes before `until`. */
  predicate TakesBefore(run: seq<Event>, key: string, until: int) {
    forall e <- run :: e.op == Take(key) ==> e.at < until
  }

  /** Refused attempts cost nothing: however often a key with too little credit asks before its
      wait is over, it is refused, and its credit grows as if it had not asked. */
  lemma {:induction false} RefusedAttemptsAreFree(l: Limit, max: nat, t: Table, run: seq<Event>, key: string, now: int)
    requires l.Configured() && Sane(l, t, now) && InOrder(now, run)
    requires NoRefund(run, key) && TableDrops(l, max, t, run) == 0
    requires TakesBefore(run, key, now + l.every - CreditAt(l, t, key, now))
    ensures Admissions(l, max, t, run, key) == 0
    ensures var end := EndTime(now, run);
            && now <= end && Sane(l, EndTable(l, max, t, run), end)
            && CreditAt(l, EndTable(l, max, t, run), key, end) == Grown(l, CreditAt(l, t, key, now), end - now)
    decreases run
  {
    FullHoldsAToken(l);
    TimePasses(l, t, key, now, now);
    if run != [] {
      var e, t' := run[0], NextTable(l, max, t, run[0]);
      assert e in run;
      TimePasses(l, t, key, now, e.at);
      TableRefinesBucket(l, max, t, e, key);
      TimePasses(l, t', key, e.at, e.at);
      forall other <- run[1..] | other.op == Take(key)
        ensures other.at < e.at + l.every - CreditAt(l, t', key, e.at)
      {
        assert other in run;
      }
      RefusedAttemptsAreFree(l, max, t', run[1..], key, e.at);
    }
  }

  /** The retry time of a refusal is exact: whatever other requests, refusals and sweeps come in
      between, the key's next attempt is allowed if and only if that much time has passed. */
  lemma RetryTimeIsExact(l: Limit, max: nat, t: Table, refused: Event, run: seq<Event>, again: Event, key: string)
    requires l.Configured() && Sane(l, t, refused.at) && refused.op == Take(key) && again.op == Take(key)
    requires !AnswerTo(l, max, t, refused).allowed
    requires var t' := NextTable(l, max, t, refused);
             && InOrder(refused.at, run + [again]) && NoRefund(run, key)
             && TableDrops(l, max, t', run) == 0 && !Drops(max, EndTable(l, max, t', run), again)
             && TakesBefore(run, key, refused.at + AnswerTo(l, max, t, refused).retry)
    ensures var t' := NextTable(l, max, t, refused);
            && Admissions(l, max, t', run, key) == 0
            && (AnswerTo(l, max, EndTable(l, max, t', run), again).allowed
                <==> again.at >= refused.at + AnswerTo(l, max, t, refused).retry)
  {
    var t' := NextTable(l, max, t, refused);
    FullHoldsAToken(l);
    TableRefinesBucket(l, max, t, refused, key);
    InOrderSplit(refused.at, run, again);
    RefusedAttemptsAreFree(l, max, t', run, key, refused.at);
    TimePasses(l, EndTable(l, max, t', run), key, EndTime(refused.at, run), again.at);
  }

  lemma {:induction false} InOrderSplit(now: int, run: seq<Event>, last: Event)
    requires InOrder(now, run + [last])
    ensures InOrder(now, run) && EndTime(now, run) <= last.at
    decreases run
  {
    if run != [] {
      assert (run + [last])[1..] == run[1..] + [last];
      InOrderSplit(run[0].at, run[1..], last);
    }
  }
}
