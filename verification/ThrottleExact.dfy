/**
 The limit, said without buckets: a request passes exactly when no window of time would
 then have let too many through. And a refund undoes the take it follows. Both are
 proved of one number that grows with time, and hold of every store that keeps one.
 */
module ThrottleExact {
  import opened Wrappers
  import opened Throttle
  import opened ThrottleBounds
  import opened ThrottleRedis

  // ---- one key's requests, on any store ----

  /** What the key has left after a run, starting from `credit` at `now`. */
  function KeyCredit(l: Limit, credit: int, now: int, run: seq<Event>, key: string): int
    decreases run
  {
    if run == [] then credit
    else
      var here := Grown(l, credit, run[0].at - now);
      KeyCredit(l, AbstractStep(l, here, run[0].op, key), run[0].at, run[1..], key)
  }

  /** The answers to the key's takes. */
  function KeyReplies(l: Limit, credit: int, now: int, run: seq<Event>, key: string): seq<Answer>
    decreases run
  {
    if run == [] then []
    else
      var here := Grown(l, credit, run[0].at - now);
      (if run[0].op == Take(key) then [SpendAnswer(l, here)] else [])
      + KeyReplies(l, AbstractStep(l, here, run[0].op, key), run[0].at, run[1..], key)
  }

  /** The in-process store's answers to the key. */
  function LocalReplies(l: Limit, max: nat, t: Table, run: seq<Event>, key: string): seq<Answer>
    decreases run
  {
    if run == [] then []
    else
      (if run[0].op == Take(key) then [AnswerTo(l, max, t, run[0])] else [])
      + LocalReplies(l, max, NextTable(l, max, t, run[0]), run[1..], key)
  }

  /** The scripts' answers to the key; the limit and the times of the run are in milliseconds. */
  function SharedReplies(l: Limit, keys: Keyspace, run: seq<Event>, key: string): seq<Answer>
    decreases run
  {
    if run == [] then []
    else
      (if run[0].op == Take(key) then [SpendAnswer(l, RedisCredit(l, keys, key, run[0].at))] else [])
      + SharedReplies(l, RedisNext(l, keys, run[0].op, run[0].at), run[1..], key)
  }

  function EndKeys(l: Limit, keys: Keyspace, run: seq<Event>): Keyspace
    decreases run
  {
    if run == [] then keys else EndKeys(l, RedisNext(l, keys, run[0].op, run[0].at), run[1..])
  }

  lemma {:induction false} LocalFollows(l: Limit, max: nat, t: Table, run: seq<Event>, key: string, now: int)
    requires l.Configured() && Sane(l, t, now) && InOrder(now, run) && TableDrops(l, max, t, run) == 0
    ensures LocalReplies(l, max, t, run, key) == KeyReplies(l, CreditAt(l, t, key, now), now, run, key)
    ensures now <= EndTime(now, run) && Sane(l, EndTable(l, max, t, run), EndTime(now, run))
    ensures CreditAt(l, EndTable(l, max, t, run), key, EndTime(now, run))
         == KeyCredit(l, CreditAt(l, t, key, now), now, run, key)
    decreases run
  {
    if run != [] {
      var e, t' := run[0], NextTable(l, max, t, run[0]);
      TimePasses(l, t, key, now, e.at);
      TableRefinesBucket(l, max, t, e, key);
      LocalFollows(l, max, t', run[1..], key, e.at);
    }
  }

  lemma {:induction false} SharedFollows(l: Limit, keys: Keyspace, run: seq<Event>, key: string, now: int)
    requires l.Configured() && RedisSane(l, keys, now) && InOrder(now, run)
    ensures SharedReplies(l, keys, run, key) == KeyReplies(l, RedisCredit(l, keys, key, now), now, run, key)
    ensures now <= EndTime(now, run) && RedisSane(l, EndKeys(l, keys, run), EndTime(now, run))
    ensures RedisCredit(l, EndKeys(l, keys, run), key, EndTime(now, run))
         == KeyCredit(l, RedisCredit(l, keys, key, now), now, run, key)
    decreases run
  {
    if run != [] {
      var e, keys' := run[0], RedisNext(l, keys, run[0].op, run[0].at);
      RedisTimePasses(l, keys, key, now, e.at);
      RedisRefinesBucket(l, keys, e.op, key, e.at);
      SharedFollows(l, keys', run[1..], key, e.at);
    }
  }

  // ---- no window too full ----

  /** What the window from the i-th admission on has left: a burst, what came back since, less what
      passed. */
  function Slack(l: Limit, passed: seq<int>, i: nat, now: int): int
    requires i < |passed|
  {
    l.Full() + (now - passed[i]) - l.every * (|passed| - i)
  }

  /** The credit is the least any window has left. */
  ghost predicate Tightest(l: Limit, credit: int, passed: seq<int>, now: int) {
    && credit <= l.Full()
    && (forall i | 0 <= i < |passed| :: passed[i] <= now && credit <= Slack(l, passed, i, now))
    && (credit == l.Full() || exists i | 0 <= i < |passed| :: credit == Slack(l, passed, i, now))
  }

  /** With one request more now, no window that ends now has let through more than a burst and one for
      each interval it lasted. */
  predicate Fits(burst: int, every: int, passed: seq<int>, now: int) {
    forall i | 0 <= i < |passed| :: every * (|passed| - i + 1) <= burst * every + (now - passed[i])
  }

  lemma TightestLater(l: Limit, credit: int, passed: seq<int>, now: int, later: int)
    requires Tightest(l, credit, passed, now) && now <= later
    ensures Tightest(l, Grown(l, credit, later - now), passed, later)
  {
    var grown := Grown(l, credit, later - now);
    forall i | 0 <= i < |passed| ensures Slack(l, passed, i, later) == Slack(l, passed, i, now) + (later - now) {
    }
    if grown != l.Full() {
      var i :| 0 <= i < |passed| && credit == Slack(l, passed, i, now);
      assert grown == Slack(l, passed, i, later);
    }
  }

  lemma SlackSpent(l: Limit, passed: seq<int>, i: nat, now: int)
    requires i < |passed|
    ensures Slack(l, passed + [now], i, now) == Slack(l, passed, i, now) - l.every
  {
    assert (passed + [now])[i] == passed[i];
    OneMore(l.every, |passed| - i);
  }

  lemma TightestSpent(l: Limit, credit: int, passed: seq<int>, now: int)
    requires l.Configured() && Tightest(l, credit, passed, now) && l.every <= credit
    ensures Tightest(l, credit - l.every, passed + [now], now)
  {
    var more := passed + [now];
    assert Slack(l, more, |passed|, now) == l.Full() - l.every;
    forall i | 0 <= i < |more| ensures more[i] <= now && credit - l.every <= Slack(l, more, i, now) {
      if i < |passed| {
        SlackSpent(l, passed, i, now);
        assert more[i] == passed[i];
      }
    }
    if credit == l.Full() {
      assert credit - l.every == Slack(l, more, |passed|, now);
    } else {
      var i :| 0 <= i < |passed| && credit == Slack(l, passed, i, now);
      SlackSpent(l, passed, i, now);
      assert credit - l.every == Slack(l, more, i, now);
    }
  }

  lemma TightestDecides(l: Limit, credit: int, passed: seq<int>, now: int)
    requires l.Configured() && Tightest(l, credit, passed, now)
    ensures SpendAnswer(l, credit).allowed <==> Fits(l.burst, l.every, passed, now)
  {
    FullHoldsAToken(l);
    forall i | 0 <= i < |passed|
      ensures l.every <= Slack(l, passed, i, now)
              <==> l.every * (|passed| - i + 1) <= l.burst * l.every + (now - passed[i])
    {
      OneMore(l.every, |passed| - i);
    }
    if !SpendAnswer(l, credit).allowed {
      var i :| 0 <= i < |passed| && credit == Slack(l, passed, i, now);
      assert !(l.every <= Slack(l, passed, i, now));
    }
  }

  /** The times of the key's takes that passed. */
  function PassedAt(run: seq<Event>, replies: seq<Answer>, key: string): seq<int>
    decreases run
  {
    if run == [] then []
    else if run[0].op != Take(key) || replies == [] then PassedAt(run[1..], replies, key)
    else (if replies[0].allowed then [run[0].at] else []) + PassedAt(run[1..], replies[1..], key)
  }

  lemma PassedLater(run: seq<Event>, l: Limit, credit: int, now: int, key: string)
    requires run != []
    ensures var here := Grown(l, credit, run[0].at - now);
            var rest := KeyReplies(l, AbstractStep(l, here, run[0].op, key), run[0].at, run[1..], key);
            PassedAt(run, KeyReplies(l, credit, now, run, key), key)
            == (if run[0].op == Take(key) && SpendAnswer(l, here).allowed then [run[0].at] else [])
               + PassedAt(run[1..], rest, key)
  {
    var here := Grown(l, credit, run[0].at - now);
    var rest := KeyReplies(l, AbstractStep(l, here, run[0].op, key), run[0].at, run[1..], key);
    if run[0].op == Take(key) {
      assert ([SpendAnswer(l, here)] + rest)[1..] == rest;
    } else {
      assert [] + rest == rest;
      assert [] + PassedAt(run[1..], rest, key) == PassedAt(run[1..], rest, key);
    }
  }

  lemma TightestStep(l: Limit, credit: int, passed: seq<int>, e: Event, key: string)
    requires l.Configured() && Tightest(l, credit, passed, e.at) && e.op != Give(key)
    ensures var admitted := if e.op == Take(key) && SpendAnswer(l, credit).allowed then [e.at] else [];
            Tightest(l, AbstractStep(l, credit, e.op, key), passed + admitted, e.at)
  {
    if e.op == Take(key) && SpendAnswer(l, credit).allowed {
      TightestSpent(l, credit, passed, e.at);
    } else {
      assert passed + [] == passed;
    }
  }

  lemma {:induction false} StaysTightest(l: Limit, credit: int, now: int, run: seq<Event>, key: string, passed: seq<int>)
    requires l.Configured() && Tightest(l, credit, passed, now) && InOrder(now, run) && NoRefund(run, key)
    ensures Tightest(l, KeyCredit(l, credit, now, run, key),
                     passed + PassedAt(run, KeyReplies(l, credit, now, run, key), key), EndTime(now, run))
    decreases run
  {
    if run == [] {
      assert passed + [] == passed;
    } else {
      var e := run[0];
      var here := Grown(l, credit, e.at - now);
      assert e in run && forall x <- run[1..] :: x in run;
      TightestLater(l, credit, passed, now, e.at);
      TightestStep(l, here, passed, e, key);
      var admitted := if e.op == Take(key) && SpendAnswer(l, here).allowed then [e.at] else [];
      StaysTightest(l, AbstractStep(l, here, e.op, key), e.at, run[1..], key, passed + admitted);
      PassedLater(run, l, credit, now, key);
      Regroup(passed, admitted,
              PassedAt(run[1..], KeyReplies(l, AbstractStep(l, here, e.op, key), e.at, run[1..], key), key));
    }
  }

  lemma {:induction false} LastReply(l: Limit, credit: int, now: int, run: seq<Event>, again: Event, key: string)
    requires InOrder(now, run + [again]) && again.op == Take(key)
    ensures InOrder(now, run) && EndTime(now, run) <= again.at
    ensures KeyReplies(l, credit, now, run + [again], key)
         == KeyReplies(l, credit, now, run, key)
          + [SpendAnswer(l, Grown(l, KeyCredit(l, credit, now, run, key), again.at - EndTime(now, run)))]
    decreases run
  {
    if run == [] {
      assert run + [again] == [again] && [again][1..] == [];
    } else {
      assert (run + [again])[0] == run[0] && (run + [again])[1..] == run[1..] + [again];
      LastReply(l, AbstractStep(l, Grown(l, credit, run[0].at - now), run[0].op, key), run[0].at, run[1..], again, key);
    }
  }

  /** The credit left at the end of the run decides. */
  lemma CreditDecides(l: Limit, credit: int, passed: seq<int>, end: int, at: int)
    requires l.Configured() && Tightest(l, credit, passed, end) && end <= at
    ensures SpendAnswer(l, Grown(l, credit, at - end)).allowed <==> Fits(l.burst, l.every, passed, at)
  {
    TightestLater(l, credit, passed, end, at);
    TightestDecides(l, Grown(l, credit, at - end), passed, at);
  }

  lemma FullIsTightest(l: Limit, now: int, run: seq<Event>, key: string)
    requires l.Configured() && InOrder(now, run) && NoRefund(run, key)
    ensures Tightest(l, KeyCredit(l, l.Full(), now, run, key),
                     PassedAt(run, KeyReplies(l, l.Full(), now, run, key), key), EndTime(now, run))
  {
    var passed := PassedAt(run, KeyReplies(l, l.Full(), now, run, key), key);
    StaysTightest(l, l.Full(), now, run, key, []);
    assert [] + passed == passed;
  }

  lemma FullBucketIsExact(l: Limit, now: int, run: seq<Event>, again: Event, key: string)
    requires l.Configured() && InOrder(now, run + [again]) && again.op == Take(key) && NoRefund(run, key)
    ensures var replies := KeyReplies(l, l.Full(), now, run + [again], key);
            && replies != []
            && (replies[|replies| - 1].allowed
                <==> Fits(l.burst, l.every, PassedAt(run, KeyReplies(l, l.Full(), now, run, key), key), again.at))
  {
    LastReply(l, l.Full(), now, run, again, key);
    FullIsTightest(l, now, run, key);
    var passed := PassedAt(run, KeyReplies(l, l.Full(), now, run, key), key);
    CreditDecides(l, KeyCredit(l, l.Full(), now, run, key), passed, EndTime(now, run), again.at);
  }

  /** The in-process limiter, from a key it does not know: after any run without a refund to the key and
      without a drop, its next request passes if and only if it fits into every window. Not one request
      is refused that the limit allows. */
  lemma LimitIsExact(l: Limit, max: nat, t: Table, now: int, run: seq<Event>, again: Event, key: string)
    requires l.Configured() && Sane(l, t, now) && key !in t
    requires InOrder(now, run + [again]) && again.op == Take(key) && NoRefund(run, key)
    requires TableDrops(l, max, t, run + [again]) == 0
    ensures TableDrops(l, max, t, run) == 0
    ensures var replies := LocalReplies(l, max, t, run + [again], key);
            && replies != []
            && (replies[|replies| - 1].allowed
                <==> Fits(l.burst, l.every, PassedAt(run, LocalReplies(l, max, t, run, key), key), again.at))
  {
    NoDropsBefore(l, max, t, run, again);
    LastReply(l, l.Full(), now, run, again, key);
    LocalFollows(l, max, t, run + [again], key, now);
    LocalFollows(l, max, t, run, key, now);
    FullBucketIsExact(l, now, run, again, key);
  }

  lemma {:induction false} NoDropsBefore(l: Limit, max: nat, t: Table, run: seq<Event>, last: Event)
    requires TableDrops(l, max, t, run + [last]) == 0
    ensures TableDrops(l, max, t, run) == 0
    decreases run
  {
    if run != [] {
      assert (run + [last])[0] == run[0] && (run + [last])[1..] == run[1..] + [last];
      NoDropsBefore(l, max, NextTable(l, max, t, run[0]), run[1..], last);
    }
  }

  /** The same of the scripts, from a key that is not there. */
  lemma SharedLimitIsExact(l: Limit, keys: Keyspace, now: int, run: seq<Event>, again: Event, key: string)
    requires l.Configured() && RedisSane(l, keys, now) && key !in keys
    requires InOrder(now, run + [again]) && again.op == Take(key) && NoRefund(run, key)
    ensures var replies := SharedReplies(l, keys, run + [again], key);
            && replies != []
            && (replies[|replies| - 1].allowed
                <==> Fits(l.burst, l.every, PassedAt(run, SharedReplies(l, keys, run, key), key), again.at))
  {
    LastReply(l, l.Full(), now, run, again, key);
    SharedFollows(l, keys, run + [again], key, now);
    SharedFollows(l, keys, run, key, now);
    FullBucketIsExact(l, now, run, again, key);
  }

  // ---- refunds ----

  /** Nothing in the run is about the key. */
  predicate Elsewhere(run: seq<Event>, key: string) {
    forall e <- run :: e.op != Take(key) && e.op != Give(key)
  }

  lemma {:induction false} ElsewhereOnlyTimePasses(l: Limit, credit: int, now: int, run: seq<Event>, key: string)
    requires l.Configured() && 0 <= credit <= l.Full() && InOrder(now, run) && Elsewhere(run, key)
    ensures now <= EndTime(now, run)
    ensures KeyCredit(l, credit, now, run, key) == Grown(l, credit, EndTime(now, run) - now)
    ensures KeyReplies(l, credit, now, run, key) == []
    decreases run
  {
    if run != [] {
      assert run[0] in run && forall x <- run[1..] :: x in run;
      ElsewhereOnlyTimePasses(l, Grown(l, credit, run[0].at - now), run[0].at, run[1..], key);
    }
  }

  lemma {:induction false} RunsCompose(l: Limit, credit: int, now: int, a: seq<Event>, b: seq<Event>, key: string)
    ensures KeyReplies(l, credit, now, a + b, key)
         == KeyReplies(l, credit, now, a, key)
          + KeyReplies(l, KeyCredit(l, credit, now, a, key), EndTime(now, a), b, key)
    ensures KeyCredit(l, credit, now, a + b, key)
         == KeyCredit(l, KeyCredit(l, credit, now, a, key), EndTime(now, a), b, key)
    ensures EndTime(now, a + b) == EndTime(EndTime(now, a), b)
    decreases a
  {
    if a == [] {
      assert a + b == b;
    } else {
      assert (a + b)[0] == a[0] && (a + b)[1..] == a[1..] + b;
      RunsCompose(l, AbstractStep(l, Grown(l, credit, a[0].at - now), a[0].op, key), a[0].at, a[1..], b, key);
    }
  }

  lemma {:induction false} OrderSplits(now: int, a: seq<Event>, b: seq<Event>)
    ensures InOrder(now, a + b) <==> InOrder(now, a) && InOrder(EndTime(now, a), b)
    decreases a
  {
    if a == [] {
      assert a + b == b;
    } else {
      assert (a + b)[0] == a[0] && (a + b)[1..] == a[1..] + b;
      OrderSplits(a[0].at, a[1..], b);
    }
  }

  /** A take, what others do meanwhile, and the take's refund. */
  function Returned(at: int, meanwhile: seq<Event>, back: int, key: string): seq<Event> {
    [Event(at, Take(key))] + meanwhile + [Event(back, Give(key))]
  }

  lemma OneEvent(l: Limit, credit: int, now: int, e: Event, key: string)
    ensures KeyCredit(l, credit, now, [e], key) == AbstractStep(l, Grown(l, credit, e.at - now), e.op, key)
    ensures KeyReplies(l, credit, now, [e], key)
         == if e.op == Take(key) then [SpendAnswer(l, Grown(l, credit, e.at - now))] else []
    ensures EndTime(now, [e]) == e.at
  {
    assert [e][1..] == [];
  }

  /** However long the token was out, once it is back the key has what it would have had. */
  lemma ReturnedIsAsBefore(l: Limit, credit: int, now: int, at: int, meanwhile: seq<Event>, back: int, key: string)
    requires l.Configured() && 0 <= credit <= l.Full() && Elsewhere(meanwhile, key)
    requires InOrder(now, Returned(at, meanwhile, back, key)) && l.every <= Grown(l, credit, at - now)
    ensures EndTime(now, Returned(at, meanwhile, back, key)) == back >= now
    ensures KeyCredit(l, credit, now, Returned(at, meanwhile, back, key), key) == Grown(l, credit, back - now)
    ensures KeyReplies(l, credit, now, Returned(at, meanwhile, back, key), key) == [Answer(true, 0)]
  {
    var take, give := Event(at, Take(key)), Event(back, Give(key));
    var here := Grown(l, credit, at - now);
    FullHoldsAToken(l);
    OrderSplits(now, [take] + meanwhile, [give]);
    OrderSplits(now, [take], meanwhile);
    OneEvent(l, credit, now, take, key);
    RunsCompose(l, credit, now, [take] + meanwhile, [give], key);
    RunsCompose(l, credit, now, [take], meanwhile, key);
    ElsewhereOnlyTimePasses(l, here - l.every, at, meanwhile, key);
    OneEvent(l, Grown(l, here - l.every, EndTime(at, meanwhile) - at), EndTime(at, meanwhile), give, key);
  }

  /** What happens to the key from then on: the run with the pair against the run without it. */
  lemma PairCancels(l: Limit, credit: int, now: int, at: int, meanwhile: seq<Event>, back: int, rest: seq<Event>, key: string)
    requires l.Configured() && 0 <= credit <= l.Full() && Elsewhere(meanwhile, key)
    requires InOrder(now, Returned(at, meanwhile, back, key) + rest) && l.every <= Grown(l, credit, at - now)
    ensures InOrder(now, meanwhile + rest)
    ensures KeyReplies(l, credit, now, Returned(at, meanwhile, back, key) + rest, key)
         == [Answer(true, 0)] + KeyReplies(l, credit, now, meanwhile + rest, key)
  {
    var pair := Returned(at, meanwhile, back, key);
    OrderSplits(now, pair, rest);
    ReturnedIsAsBefore(l, credit, now, at, meanwhile, back, key);
    RunsCompose(l, credit, now, pair, rest, key);
    WithoutThePair(now, at, meanwhile, back, rest, key);
    ElsewhereOnlyTimePasses(l, credit, now, meanwhile, key);
    RunsCompose(l, credit, now, meanwhile, rest, key);
    var credit' := Grown(l, credit, EndTime(now, meanwhile) - now);
    StartsLater(l, credit', EndTime(now, meanwhile), back, rest, key);
    assert [] + KeyReplies(l, credit', EndTime(now, meanwhile), rest, key)
        == KeyReplies(l, credit', EndTime(now, meanwhile), rest, key);
  }

  lemma WithoutThePair(now: int, at: int, meanwhile: seq<Event>, back: int, rest: seq<Event>, key: string)
    requires InOrder(now, Returned(at, meanwhile, back, key) + rest)
    ensures InOrder(now, meanwhile + rest) && InOrder(now, meanwhile) && EndTime(now, meanwhile) <= back
    ensures InOrder(back, rest)
  {
    var pair, take, give := Returned(at, meanwhile, back, key), Event(at, Take(key)), Event(back, Give(key));
    OrderSplits(now, pair, rest);
    OrderSplits(now, [take] + meanwhile, [give]);
    OrderSplits(now, [take], meanwhile);
    assert [take][1..] == [] && [give][1..] == [];
    assert EndTime(now, [take]) == at;
    EndsLater(now, [take] + meanwhile, [give]);
    EndsLater(now, [take], meanwhile);
    EarlierStart(now, at, meanwhile);
    if rest != [] { OrderSplits(now, meanwhile, rest); } else { assert meanwhile + rest == meanwhile; }
  }

  lemma {:induction false} EndsLater(now: int, a: seq<Event>, b: seq<Event>)
    ensures EndTime(now, a + b) == EndTime(EndTime(now, a), b)
    decreases a
  {
    if a == [] {
      assert a + b == b;
    } else {
      assert (a + b)[0] == a[0] && (a + b)[1..] == a[1..] + b;
      EndsLater(a[0].at, a[1..], b);
    }
  }

  lemma EarlierStart(now: int, at: int, run: seq<Event>)
    requires now <= at && InOrder(at, run)
    ensures InOrder(now, run) && EndTime(now, run) <= EndTime(at, run)
  {
  }

  /** Letting time pass before a run is starting it later. */
  lemma StartsLater(l: Limit, credit: int, now: int, later: int, run: seq<Event>, key: string)
    requires l.Configured() && 0 <= credit <= l.Full() && now <= later && InOrder(later, run)
    ensures KeyReplies(l, Grown(l, credit, later - now), later, run, key) == KeyReplies(l, credit, now, run, key)
  {
    if run != [] {
      assert Grown(l, Grown(l, credit, later - now), run[0].at - later) == Grown(l, credit, run[0].at - now);
    }
  }

  /** On the in-process store: an admitted take and its refund, whatever other keys did in between, leave
      every later answer to the key, retry times included, as if neither had happened. */
  lemma RefundUndoesTheTake(l: Limit, max: nat, t: Table, now: int, at: int, meanwhile: seq<Event>, back: int,
                            rest: seq<Event>, key: string)
    requires l.Configured() && Sane(l, t, now) && Elsewhere(meanwhile, key)
    requires var run := Returned(at, meanwhile, back, key) + rest;
             InOrder(now, run) && TableDrops(l, max, t, run) == 0 && TableDrops(l, max, t, meanwhile + rest) == 0
    requires AnswerTo(l, max, t, Event(at, Take(key))).allowed
    ensures LocalReplies(l, max, t, Returned(at, meanwhile, back, key) + rest, key)
         == [Answer(true, 0)] + LocalReplies(l, max, t, meanwhile + rest, key)
  {
    var run, take := Returned(at, meanwhile, back, key) + rest, Event(at, Take(key));
    assert run[0] == take && !Drops(max, t, take);
    TimePasses(l, t, key, now, now);
    TimePasses(l, t, key, now, at);
    PairCancels(l, CreditAt(l, t, key, now), now, at, meanwhile, back, rest, key);
    LocalFollows(l, max, t, run, key, now);
    LocalFollows(l, max, t, meanwhile + rest, key, now);
  }

  /** On the shared store. */
  lemma SharedRefundUndoesTheTake(l: Limit, keys: Keyspace, now: int, at: int, meanwhile: seq<Event>, back: int,
                                  rest: seq<Event>, key: string)
    requires l.Configured() && RedisSane(l, keys, now) && Elsewhere(meanwhile, key)
    requires InOrder(now, Returned(at, meanwhile, back, key) + rest)
    requires SpendAnswer(l, RedisCredit(l, keys, key, at)).allowed
    ensures SharedReplies(l, keys, Returned(at, meanwhile, back, key) + rest, key)
         == [Answer(true, 0)] + SharedReplies(l, keys, meanwhile + rest, key)
  {
    var run := Returned(at, meanwhile, back, key) + rest;
    assert run[0].at == at;
    RedisTimePasses(l, keys, key, now, now);
    RedisTimePasses(l, keys, key, now, at);
    PairCancels(l, RedisCredit(l, keys, key, now), now, at, meanwhile, back, rest, key);
    SharedFollows(l, keys, run, key, now);
    SharedFollows(l, keys, meanwhile + rest, key, now);
  }

  /** A refund to a key the table knows buys the next request. */
  lemma RefundBuysARequest(l: Limit, max: nat, t: Table, now: int, key: string)
    requires l.Configured() && Sane(l, t, now) && key in t && !DropsTable(t, max)
    ensures AnswerTo(l, max, NextTable(l, max, t, Event(now, Give(key))), Event(now, Take(key))).allowed
  {
    FullHoldsAToken(l);
    var t' := NextTable(l, max, t, Event(now, Give(key)));
    TimePasses(l, t, key, now, now);
    TableRefinesBucket(l, max, t, Event(now, Give(key)), key);
    assert t'.Keys == t.Keys;
    assert |t'| == |t'.Keys| == |t.Keys| == |t|;
  }

  lemma SharedRefundBuysARequest(l: Limit, keys: Keyspace, now: int, key: string)
    requires l.Configured() && RedisSane(l, keys, now)
    ensures SpendAnswer(l, RedisCredit(l, RedisNext(l, keys, Give(key), now), key, now)).allowed
  {
    FullHoldsAToken(l);
    RedisTimePasses(l, keys, key, now, now);
    RedisRefinesBucket(l, keys, Give(key), key, now);
  }

  /** Every take of the key is followed by its refund before the key's next take. */
  predicate Paired(run: seq<Event>, key: string, out: bool)
    decreases run
  {
    if run == [] then true
    else if run[0].op == Take(key) then !out && Paired(run[1..], key, true)
    else if run[0].op == Give(key) then out && Paired(run[1..], key, false)
    else Paired(run[1..], key, out)
  }

  lemma {:induction false} PairedTakesPass(l: Limit, credit: int, now: int, run: seq<Event>, key: string, out: bool)
    requires l.Configured() && (if out then 0 else l.every) <= credit <= l.Full()
    requires InOrder(now, run) && Paired(run, key, out)
    ensures forall a <- KeyReplies(l, credit, now, run, key) :: a.allowed
    decreases run
  {
    FullHoldsAToken(l);
    if run != [] {
      var here := Grown(l, credit, run[0].at - now);
      var out' := if run[0].op == Take(key) then true else if run[0].op == Give(key) then false else out;
      PairedTakesPass(l, AbstractStep(l, here, run[0].op, key), run[0].at, run[1..], key, out');
    }
  }

  /** A caller who gets every token back is never refused: with one token to start with, a run in which the
      key's takes and refunds alternate has all its takes admitted. */
  lemma RefundedCallersAlwaysPass(l: Limit, max: nat, t: Table, now: int, run: seq<Event>, key: string)
    requires l.Configured() && Sane(l, t, now) && InOrder(now, run) && TableDrops(l, max, t, run) == 0
    requires SpendAnswer(l, CreditAt(l, t, key, now)).allowed && Paired(run, key, false)
    ensures forall a <- LocalReplies(l, max, t, run, key) :: a.allowed
  {
    TimePasses(l, t, key, now, now);
    PairedTakesPass(l, CreditAt(l, t, key, now), now, run, key, false);
    LocalFollows(l, max, t, run, key, now);
  }

  lemma SharedRefundedCallersAlwaysPass(l: Limit, keys: Keyspace, now: int, run: seq<Event>, key: string)
    requires l.Configured() && RedisSane(l, keys, now) && InOrder(now, run)
    requires SpendAnswer(l, RedisCredit(l, keys, key, now)).allowed && Paired(run, key, false)
    ensures forall a <- SharedReplies(l, keys, run, key) :: a.allowed
  {
    RedisTimePasses(l, keys, key, now, now);
    PairedTakesPass(l, RedisCredit(l, keys, key, now), now, run, key, false);
    SharedFollows(l, keys, run, key, now);
  }
}
