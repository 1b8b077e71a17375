/**
 The token bucket shared through Redis, with a local table to fall back on
 (internal/middleware/throttle_redis.go).

 The two Lua scripts run atomically on the server, so each is one method of
 `RedisServer`. Credit on the server is counted in milliseconds, with the limit's
 Every cut to whole milliseconds as the client sends it.
 */
module ThrottleRedis {
  import opened Wrappers
  import opened Throttle

  const MS := 1_000_000

  function InMillis(l: Limit): Limit {
    Limit(l.burst, l.every / MS)
  }

  predicate WholeMillis(l: Limit) {
    l.Configured() && l.every % MS == 0
  }

  datatype RedisBucket = RedisBucket(credit: int, seen: int, expires: int)
  type Keyspace = map<string, RedisBucket>

  predicate Live(keys: Keyspace, key: string, now: int) {
    key in keys && now < keys[key].expires
  }

  function RedisCredit(l: Limit, keys: Keyspace, key: string, now: int): int {
    if Live(keys, key, now) then Grown(l, keys[key].credit, now - keys[key].seen) else l.Full()
  }

  /** A key outlives its last touch by at least a full refill. */
  ghost predicate RedisSane(l: Limit, keys: Keyspace, now: int) {
    forall key | key in keys ::
      && 0 <= keys[key].credit <= l.Full()
      && keys[key].seen <= now
      && keys[key].seen + l.Full() <= keys[key].expires
  }

  function RedisTake(l: Limit, keys: Keyspace, key: string, now: int): Keyspace {
    keys[key := RedisBucket(Spent(l, RedisCredit(l, keys, key, now)), now, now + l.Full() + 1000)]
  }

  function RedisGive(l: Limit, keys: Keyspace, key: string, now: int): Keyspace {
    if Live(keys, key, now)
    then keys[key := keys[key].(credit := Refunded(l, keys[key].credit))]
    else keys
  }

  class RedisServer {
    var keys: Keyspace

    constructor ()
      ensures keys == map[]
    {
      keys := map[];
    }

    /** throttleLua. `micros` is what TIME answers; the limit is in milliseconds. */
    method RunThrottle(key: string, l: Limit, micros: int) returns (answer: Answer)
      requires l.Configured() && RedisSane(l, keys, micros / 1000)
      modifies this
      ensures keys == RedisTake(l, old(keys), key, micros / 1000)
      ensures answer == SpendAnswer(l, RedisCredit(l, old(keys), key, micros / 1000))
      ensures key in keys && keys[key].expires == micros / 1000 + l.burst * l.every + 1000
      ensures RedisSane(l, keys, micros / 1000)
    {
      FullHoldsAToken(l);
      var now := micros / 1000;
      var tokens, seen := l.burst * l.every, now;
      if key in keys && now < keys[key].expires {
        tokens, seen := keys[key].credit, keys[key].seen;
      }
      if now > seen {
        tokens := Min(l.burst * l.every, tokens + (now - seen));
        seen := now;
      }
      if tokens >= l.every {
        tokens := tokens - l.every;
        answer := Answer(true, 0);
      } else {
        answer := Answer(false, l.every - tokens);
      }
      keys := keys[key := RedisBucket(tokens, seen, now + l.burst * l.every + 1000)];
    }

    /** refundLua. A missing key is a full bucket; an existing one keeps its expiry. */
    method RunRefund(key: string, l: Limit, micros: int)
      requires l.Configured() && RedisSane(l, keys, micros / 1000)
      modifies this
      ensures keys == RedisGive(l, old(keys), key, micros / 1000)
      ensures key in old(keys) && micros / 1000 < old(keys)[key].expires ==>
        var b := old(keys)[key];
        && key in keys && keys[key].seen == b.seen && keys[key].expires == b.expires
        && keys[key].credit == if b.credit + l.every <= l.burst * l.every then b.credit + l.every else l.burst * l.every
      ensures RedisSane(l, keys, micros / 1000)
    {
      if key !in keys || keys[key].expires <= micros / 1000 {
        return;
      }
      var b := keys[key];
      keys := keys[key := b.(credit := Min(l.burst * l.every, b.credit + l.every))];
    }
  }

  /** A call that errors may or may not have run on the server. */
  datatype Delivery = Answered | LostAfterRun | LostBeforeRun

  class RedisStore {
    const server: RedisServer
    const fallen: MemStore
    var down: bool
    /** What OnState was called with, oldest first. */
    var reports: seq<bool>

    constructor (server: RedisServer, fallen: MemStore)
      ensures this.server == server && this.fallen == fallen && !down && reports == []
      ensures Heard(reports, down, [])
    {
      this.server, this.fallen := server, fallen;
      down, reports := false, [];
    }

    method Note(up: bool)
      modifies this
      ensures down == !up
      ensures reports == old(reports) + Noted(old(down), [up])
      ensures forall ups | Heard(old(reports), old(down), ups) :: Heard(reports, down, ups + [up])
    {
      forall ups | Heard(reports, down, ups)
        ensures Heard(reports + Noted(down, [up]), !up, ups + [up])
      {
        CallsAreHeardInOrder(reports, down, ups, [up]);
      }
      if down == !up {
        return;
      }
      down := !up;
      reports := reports + [up];
    }

    method Take(key: string, l: Limit, now: int, micros: int, delivery: Delivery) returns (answer: Answer)
      requires WholeMillis(l)
      requires Sane(l, fallen.buckets, now) && RedisSane(InMillis(l), server.keys, micros / 1000)
      modifies this, server, fallen
      ensures server.keys == if delivery == LostBeforeRun then old(server.keys)
                             else RedisTake(InMillis(l), old(server.keys), key, micros / 1000)
      ensures fallen.buckets == if delivery == Answered then old(fallen.buckets)
                                else TakeTable(l, old(fallen.buckets), fallen.max, key, now)
      ensures delivery != Answered ==> answer == TakeAnswer(l, old(fallen.buckets), fallen.max, key, now)
      ensures delivery == Answered ==>
        var millis := SpendAnswer(InMillis(l), RedisCredit(InMillis(l), old(server.keys), key, micros / 1000));
        answer == Answer(millis.allowed, millis.retry * MS)
      ensures down == (delivery != Answered)
      ensures reports == old(reports) + Noted(old(down), [delivery == Answered])
      ensures forall ups | Heard(old(reports), old(down), ups) :: Heard(reports, down, ups + [delivery == Answered])
    {
      MillisScale(l);
      var reply;
      if delivery != LostBeforeRun {
        reply := server.RunThrottle(key, InMillis(l), micros);
      }
      if delivery != Answered {
        Note(false);
        answer := fallen.Take(key, l, now);
        return;
      }
      Note(true);
      answer := Answer(reply.allowed, reply.retry * MS);
    }

    method Give(key: string, l: Limit, ghost now: int, micros: int, delivery: Delivery)
      requires WholeMillis(l)
      requires Sane(l, fallen.buckets, now) && RedisSane(InMillis(l), server.keys, micros / 1000)
      modifies this, server, fallen
      ensures server.keys == if delivery == LostBeforeRun then old(server.keys)
                             else RedisGive(InMillis(l), old(server.keys), key, micros / 1000)
      ensures fallen.buckets == if delivery == Answered then old(fallen.buckets)
                                else GiveTable(l, old(fallen.buckets), key)
      ensures down == (old(down) || delivery != Answered)
      ensures reports == old(reports) + (if delivery == Answered then [] else Noted(old(down), [false]))
      ensures forall ups | Heard(old(reports), old(down), ups) ::
                Heard(reports, down, if delivery == Answered then ups else ups + [false])
    {
      MillisScale(l);
      if delivery != LostBeforeRun {
        server.RunRefund(key, InMillis(l), micros);
      }
      if delivery != Answered {
        Note(false);
        fallen.Give(key, l, now);
      }
    }
  }

  // ---- health reports ----

  function Noted(down: bool, ups: seq<bool>): seq<bool>
    decreases ups
  {
    if ups == [] then [] else (if ups[0] == down then [ups[0]] else []) + Noted(!ups[0], ups[1..])
  }

  /** However many calls succeed or fail, OnState hears transitions only: the reports alternate,
      the first one differs from the state before, and the last one is the state after. */
  lemma {:induction false} OnlyTransitionsAreReported(down: bool, ups: seq<bool>)
    ensures var log := Noted(down, ups);
            && (forall i | 0 < i < |log| :: log[i] != log[i - 1])
            && (log != [] ==> log[0] == down)
            && (ups != [] ==> (if log == [] then !down else log[|log| - 1]) == ups[|ups| - 1])
    decreases ups
  {
    if ups != [] {
      OnlyTransitionsAreReported(!ups[0], ups[1..]);
    }
  }

  /** The flag after a sequence of calls. */
  function DownAfter(down: bool, ups: seq<bool>): bool {
    if ups == [] then down else !ups[|ups| - 1]
  }

  lemma {:induction false} NotedAppend(down: bool, a: seq<bool>, b: seq<bool>)
    ensures Noted(down, a + b) == Noted(down, a) + Noted(DownAfter(down, a), b)
    decreases a
  {
    if a == [] {
      assert a + b == b;
    } else {
      assert (a + b)[0] == a[0] && (a + b)[1..] == a[1..] + b;
      NotedAppend(!a[0], a[1..], b);
      assert DownAfter(!a[0], a[1..]) == DownAfter(down, a);
      Regroup(if a[0] == down then [a[0]] else [], Noted(!a[0], a[1..]), Noted(DownAfter(down, a), b));
    }
  }

  /** What the store's fields say after calls that noted `ups`, one after the other, since it was new. */
  predicate Heard(reports: seq<bool>, down: bool, ups: seq<bool>) {
    reports == Noted(false, ups) && down == DownAfter(false, ups)
  }

  /** Every call of a store keeps this: a take notes how it went, a refund notes a failure, and the reports
      so far are always those of one sequence of notes. With OnlyTransitionsAreReported, whatever calls are
      made, the hook hears the transitions and nothing else. */
  lemma CallsAreHeardInOrder(reports: seq<bool>, down: bool, ups: seq<bool>, noted: seq<bool>)
    requires Heard(reports, down, ups)
    ensures Heard(reports + Noted(down, noted), DownAfter(down, noted), ups + noted)
  {
    NotedAppend(false, ups, noted);
    if noted == [] {
      assert ups + noted == ups;
    }
  }

  // ---- the tiers ----

  /** Every tier of the site can be shared through Redis: its Every is whole milliseconds. */
  lemma TiersAreWholeMillis()
    ensures WholeMillis(LIMIT_BROWSE) && WholeMillis(LIMIT_WORK) && WholeMillis(LIMIT_AUTH)
  {
  }

  // ---- the shared bucket is the same bucket ----

  lemma MillisScale(l: Limit)
    requires WholeMillis(l)
    ensures InMillis(l).Configured() && l.every == MS * InMillis(l).every
    ensures l.Full() == MS * InMillis(l).Full()
  {
    var m := l.every / MS;
    assert l.every == MS * m;
    assert l.burst * (MS * m) == MS * (l.burst * m);
  }

  lemma RedisTimePasses(l: Limit, keys: Keyspace, key: string, now: int, later: int)
    requires l.Configured() && RedisSane(l, keys, now) && now <= later
    ensures RedisCredit(l, keys, key, later) == Grown(l, RedisCredit(l, keys, key, now), later - now)
    ensures RedisSane(l, keys, later)
    ensures 0 <= RedisCredit(l, keys, key, now) <= l.Full()
  {
    FullHoldsAToken(l);
  }

  function RedisNext(l: Limit, keys: Keyspace, op: Op, now: int): Keyspace {
    match op
    case Take(key) => RedisTake(l, keys, key, now)
    case Give(key) => RedisGive(l, keys, key, now)
    case Sweep => keys
  }

  /** The scripts move each key's credit as the abstract bucket says; expiry moves nothing, since
      a key that has expired would be full. */
  lemma RedisRefinesBucket(l: Limit, keys: Keyspace, op: Op, key: string, now: int)
    requires l.Configured() && RedisSane(l, keys, now)
    ensures RedisSane(l, RedisNext(l, keys, op, now), now)
    ensures RedisCredit(l, RedisNext(l, keys, op, now), key, now)
         == AbstractStep(l, RedisCredit(l, keys, key, now), op, key)
  {
    FullHoldsAToken(l);
  }

  /** The two stores hold the same credit for every key. */
  ghost predicate Twins(l: Limit, t: Table, keys: Keyspace, millis: int) {
    forall key :: CreditAt(l, t, key, millis * MS) == MS * RedisCredit(InMillis(l), keys, key, millis)
  }

  lemma TwinsLater(l: Limit, t: Table, keys: Keyspace, now: int, later: int)
    requires WholeMillis(l) && now <= later
    requires Sane(l, t, now * MS) && RedisSane(InMillis(l), keys, now) && Twins(l, t, keys, now)
    ensures Twins(l, t, keys, later) && Sane(l, t, later * MS) && RedisSane(InMillis(l), keys, later)
  {
    MillisScale(l);
    forall key ensures CreditAt(l, t, key, later * MS) == MS * RedisCredit(InMillis(l), keys, key, later) {
      TimePasses(l, t, key, now * MS, later * MS);
      RedisTimePasses(InMillis(l), keys, key, now, later);
    }
    TimePasses(l, t, "", now * MS, later * MS);
    RedisTimePasses(InMillis(l), keys, "", now, later);
  }

  lemma TwinsStep(l: Limit, max: nat, t: Table, keys: Keyspace, op: Op, now: int)
    requires WholeMillis(l) && Sane(l, t, now * MS) && RedisSane(InMillis(l), keys, now) && Twins(l, t, keys, now)
    requires !Drops(max, t, Event(now * MS, op))
    ensures var t', keys' := NextTable(l, max, t, Event(now * MS, op)), RedisNext(InMillis(l), keys, op, now);
            Sane(l, t', now * MS) && RedisSane(InMillis(l), keys', now) && Twins(l, t', keys', now)
  {
    MillisScale(l);
    var e := Event(now * MS, op);
    TableRefinesBucket(l, max, t, e, "");
    RedisRefinesBucket(InMillis(l), keys, op, "", now);
    forall key
      ensures CreditAt(l, NextTable(l, max, t, e), key, now * MS)
           == MS * RedisCredit(InMillis(l), RedisNext(InMillis(l), keys, op, now), key, now)
    {
      TableRefinesBucket(l, max, t, e, key);
      RedisRefinesBucket(InMillis(l), keys, op, key, now);
    }
  }

  /** A run timed in whole milliseconds. */
  datatype Tick = Tick(millis: int, op: Op)

  predicate TicksInOrder(now: int, run: seq<Tick>)
    decreases run
  {
    run == [] || (now <= run[0].millis && TicksInOrder(run[0].millis, run[1..]))
  }

  function LocalAnswers(l: Limit, max: nat, t: Table, run: seq<Tick>): seq<Answer>
    decreases run
  {
    if run == [] then []
    else
      var e := Event(run[0].millis * MS, run[0].op);
      var answer := if e.op.Take? then [TakeAnswer(l, t, max, e.op.key, e.at)] else [];
      answer + LocalAnswers(l, max, NextTable(l, max, t, e), run[1..])
  }

  function SharedAnswers(l: Limit, keys: Keyspace, run: seq<Tick>): seq<Answer>
    decreases run
  {
    if run == [] then []
    else
      var m, now := InMillis(l), run[0].millis;
      var millis := if run[0].op.Take? then SpendAnswer(m, RedisCredit(m, keys, run[0].op.key, now)) else Answer(false, 0);
      var answer := if run[0].op.Take? then [Answer(millis.allowed, millis.retry * MS)] else [];
      answer + SharedAnswers(l, RedisNext(m, keys, run[0].op, now), run[1..])
  }

  predicate NeverDrops(l: Limit, max: nat, t: Table, run: seq<Tick>)
    decreases run
  {
    run == [] || (
      var e := Event(run[0].millis * MS, run[0].op);
      !Drops(max, t, e) && NeverDrops(l, max, NextTable(l, max, t, e), run[1..]))
  }

  /** Both stores give the same answer, retry time included, to every request of the same run:
      sweeps on one side and key expiry on the other decide nothing. */
  lemma {:induction false} RedisAndMemoryAgree(l: Limit, max: nat, t: Table, keys: Keyspace, run: seq<Tick>, now: int)
    requires WholeMillis(l) && TicksInOrder(now, run) && NeverDrops(l, max, t, run)
    requires Sane(l, t, now * MS) && RedisSane(InMillis(l), keys, now) && Twins(l, t, keys, now)
    ensures LocalAnswers(l, max, t, run) == SharedAnswers(l, keys, run)
    decreases run
  {
    if run != [] {
      var at, op := run[0].millis, run[0].op;
      TwinsLater(l, t, keys, now, at);
      TwinsStep(l, max, t, keys, op, at);
      MillisScale(l);
      RedisAndMemoryAgree(l, max, NextTable(l, max, t, Event(at * MS, op)), RedisNext(InMillis(l), keys, op, at), run[1..], at);
    }
  }

  lemma EmptyStoresAreTwins(l: Limit, now: int)
    requires WholeMillis(l)
    ensures Sane(l, map[], now * MS) && RedisSane(InMillis(l), map[], now) && Twins(l, map[], map[], now)
  {
    MillisScale(l);
  }

  /** Redis reads its clock in milliseconds, rounding down. Waiting the full retry always suffices;
      waiting a whole millisecond less never does. */
  lemma RedisRetryIsSufficient(l: Limit, keys: Keyspace, key: string, micros: int, later: int)
    requires l.Configured() && RedisSane(l, keys, micros / 1000) && micros <= later
    requires RedisCredit(l, keys, key, micros / 1000) < l.every
    ensures var retry := SpendAnswer(l, RedisCredit(l, keys, key, micros / 1000)).retry;
            var keys' := RedisTake(l, keys, key, micros / 1000);
            var again := SpendAnswer(l, RedisCredit(l, keys', key, later / 1000)).allowed;
            && (micros + retry * 1000 <= later ==> again)
            && (later <= micros + (retry - 1) * 1000 ==> !again)
  {
    FullHoldsAToken(l);
    RedisRefinesBucket(l, keys, Take(key), key, micros / 1000);
    RedisTimePasses(l, RedisTake(l, keys, key, micros / 1000), key, micros / 1000, later / 1000);
  }
}
