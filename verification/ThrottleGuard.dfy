/**
 The middleware around a limiter: who is charged, who is refused, and what a refusal
 says. A tier keeps its buckets in this process or shares them through Redis.
 */
module ThrottleGuard {
  import opened Wrappers
  import opened Throttle
  import opened ThrottleBounds
  import opened ThrottleRedis

  /** The headers a response carries about the limit. */
  datatype RateHeaders = RateHeaders(retryAfter: int, limit: int, remaining: int)

  datatype Verdict = Verdict(admitted: bool, headers: Option<RateHeaders>)

  /** int(retry.Seconds()), and at least 1. */
  function RetryAfterSecs(retry: int): int {
    if retry / SECOND < 1 then 1 else retry / SECOND
  }

  datatype Store = Local(mem: MemStore) | Shared(redis: RedisStore)

  /** One request as the store sees it: the process's clock, the server's, and how a call to Redis goes. */
  datatype Moment = Moment(now: int, micros: int, delivery: Delivery)

  class Throttler {
    const limit: Limit
    const store: Store

    constructor (limit: Limit, store: Store)
      ensures this.limit == limit && this.store == store
    {
      this.limit, this.store := limit, store;
    }

    ghost function Repr(): set<object> {
      match store
      case Local(mem) => {mem}
      case Shared(redis) => {redis, redis.server, redis.fallen}
    }

    ghost predicate Ready(at: Moment)
      reads Repr()
    {
      limit.Configured() ==>
        match store
        case Local(mem) => Sane(limit, mem.buckets, at.now)
        case Shared(redis) =>
          && WholeMillis(limit) && Sane(limit, redis.fallen.buckets, at.now)
          && RedisSane(InMillis(limit), redis.server.keys, at.micros / 1000)
    }

    /** What the tier answers to a take of the key now. An unconfigured tier lets everything through. */
    ghost function AnswerNow(key: string, at: Moment): Answer
      reads Repr()
    {
      if !limit.Configured() then Answer(true, 0)
      else
        match store
        case Local(mem) => TakeAnswer(limit, mem.buckets, mem.max, key, at.now)
        case Shared(redis) =>
          if at.delivery != Answered then TakeAnswer(limit, redis.fallen.buckets, redis.fallen.max, key, at.now)
          else
            var m := InMillis(limit);
            var millis := SpendAnswer(m, RedisCredit(m, redis.server.keys, key, at.micros / 1000));
            Answer(millis.allowed, millis.retry * MS)
    }

    /** The key has been charged once, wherever the call reached; an unconfigured tier charges nobody. */
    twostate predicate Charged(key: string, at: Moment)
      reads Repr()
    {
      match store
      case Local(mem) =>
        mem.buckets == if limit.Configured() then TakeTable(limit, old(mem.buckets), mem.max, key, at.now)
                       else old(mem.buckets)
      case Shared(redis) =>
        && redis.server.keys == (if !limit.Configured() || at.delivery == LostBeforeRun then old(redis.server.keys)
                                 else RedisTake(InMillis(limit), old(redis.server.keys), key, at.micros / 1000))
        && redis.fallen.buckets == (if !limit.Configured() || at.delivery == Answered then old(redis.fallen.buckets)
                                    else TakeTable(limit, old(redis.fallen.buckets), redis.fallen.max, key, at.now))
    }

    /** One token has gone back to the key's bucket, wherever the call reached. */
    twostate predicate Returned(key: string, at: Moment)
      reads Repr()
    {
      match store
      case Local(mem) =>
        mem.buckets == if limit.Configured() then GiveTable(limit, old(mem.buckets), key) else old(mem.buckets)
      case Shared(redis) =>
        && redis.server.keys == (if !limit.Configured() || at.delivery == LostBeforeRun then old(redis.server.keys)
                                 else RedisGive(InMillis(limit), old(redis.server.keys), key, at.micros / 1000))
        && redis.fallen.buckets == (if !limit.Configured() || at.delivery == Answered then old(redis.fallen.buckets)
                                    else GiveTable(limit, old(redis.fallen.buckets), key))
    }

    twostate predicate Untouched()
      reads Repr()
    {
      match store
      case Local(mem) => mem.buckets == old(mem.buckets)
      case Shared(redis) =>
        && redis.server.keys == old(redis.server.keys) && redis.fallen.buckets == old(redis.fallen.buckets)
        && redis.down == old(redis.down) && redis.reports == old(redis.reports)
    }

    method Allow(key: string, at: Moment) returns (answer: Answer)
      requires Ready(at)
      modifies Repr()
      ensures Ready(at)
      ensures answer == old(AnswerNow(key, at)) && Charged(key, at)
      ensures limit.burst <= 0 || limit.every <= 0 ==> answer == Answer(true, 0) && Untouched()
    {
      if limit.burst <= 0 || limit.every <= 0 {
        return Answer(true, 0);
      }
      match store
      case Local(mem) =>
        answer := mem.Take(key, limit, at.now);
      case Shared(redis) =>
        answer := redis.Take(key, limit, at.now, at.micros, at.delivery);
    }

    /** A tier that was never set up has nothing to give back. */
    static method Refund(t: Throttler?, key: string, at: Moment)
      requires t != null ==> t.Ready(at)
      modifies if t == null then {} else t.Repr()
      ensures t != null ==> t.Ready(at) && t.Returned(key, at)
      ensures t != null && (t.limit.burst <= 0 || t.limit.every <= 0) ==> t.Untouched()
    {
      if t == null || t.limit.burst <= 0 || t.limit.every <= 0 {
        return;
      }
      match t.store
      case Local(mem) =>
        mem.Give(key, t.limit, at.now);
      case Shared(redis) =>
        redis.Give(key, t.limit, at.now, at.micros, at.delivery);
    }

    /** `skip` and `exempt` are what the hooks would answer; a tier may have no Exempt. `asked` says
        whether Exempt was consulted. */
    method Guard(key: string, at: Moment, skip: bool, exempt: Option<bool>) returns (verdict: Verdict, asked: bool)
      requires Ready(at)
      modifies Repr()
      ensures Ready(at)
      ensures skip ==> verdict.admitted && !asked && Untouched()
      ensures !skip ==> Charged(key, at)
      ensures limit.burst <= 0 || limit.every <= 0 ==> verdict.admitted && Untouched()
      ensures asked <==> !skip && !old(AnswerNow(key, at)).allowed && exempt.Some?
      ensures !verdict.admitted <==> !skip && !old(AnswerNow(key, at)).allowed && exempt != Some(true)
      ensures verdict.headers.Some? <==> !verdict.admitted
      ensures !verdict.admitted ==>
        verdict.headers.value == RateHeaders(RetryAfterSecs(old(AnswerNow(key, at)).retry), limit.burst, 0)
    {
      asked := false;
      if skip {
        return Verdict(true, None), false;
      }
      var answer := Allow(key, at);
      var ok := answer.allowed;
      if !ok && exempt.Some? {
        asked := true;
        if exempt.value {
          ok := true;
        }
      }
      if ok {
        return Verdict(true, None), asked;
      }
      var secs := answer.retry / SECOND;
      if secs < 1 {
        secs := 1;
      }
      return Verdict(false, Some(RateHeaders(secs, limit.burst, 0))), asked;
    }
  }

  /** Retry-After is a second, or at most the real wait, rounded down: it is short by less than a second,
      and not at all when the wait was a whole number of seconds or under one. */
  lemma RetryAfterIsShortByUnderASecond(retry: int)
    requires 0 < retry
    ensures RetryAfterSecs(retry) == 1 || (1 < RetryAfterSecs(retry) && RetryAfterSecs(retry) * SECOND <= retry)
    ensures retry - RetryAfterSecs(retry) * SECOND < SECOND
    ensures RetryAfterSecs(retry) * SECOND >= retry <==> retry <= SECOND || retry % SECOND == 0
  {
  }

  /** A client that comes back exactly when Retry-After said, with nobody else spending from its
      bucket, passes if and only if the wait was at most a second or a whole number of seconds. */
  lemma ComingBackOnTime(l: Limit, max: nat, t: Table, refused: Event, key: string)
    requires l.Configured() && Sane(l, t, refused.at) && refused.op == Take(key)
    requires !AnswerTo(l, max, t, refused).allowed
    requires !DropsTable(NextTable(l, max, t, refused), max)
    ensures var retry := AnswerTo(l, max, t, refused).retry;
            var back := Event(refused.at + RetryAfterSecs(retry) * SECOND, Take(key));
            AnswerTo(l, max, NextTable(l, max, t, refused), back).allowed
            <==> retry <= SECOND || retry % SECOND == 0
  {
    var retry := AnswerTo(l, max, t, refused).retry;
    FullHoldsAToken(l);
    TableRefinesBucket(l, max, t, refused, key);
    TimePasses(l, t, key, refused.at, refused.at);
    RetryAfterIsShortByUnderASecond(retry);
    var back := Event(refused.at + RetryAfterSecs(retry) * SECOND, Take(key));
    assert [back][0] == back && [back][1..] == [];
    assert [] + [back] == [back];
    RetryTimeIsExact(l, max, t, refused, [], back, key);
  }

  /** Whole seconds against whole milliseconds: the named wait reaches the true one, or misses it by at
      least a millisecond. */
  lemma SecondsAgainstMillis(retry: int)
    requires 0 < retry
    ensures var secs := RetryAfterSecs(retry * MS);
            if retry <= 1000 || retry % 1000 == 0 then retry <= secs * 1000 else secs * 1000 <= retry - 1
  {
    assert retry * MS / SECOND == retry / 1000;
  }

  /** The same on a tier shared through Redis, its two calls answered: a client that comes back when
      Retry-After said passes if and only if the wait, in the script's milliseconds, was at most a second
      or whole seconds. */
  lemma ComingBackOnTimeToRedis(l: Limit, keys: Keyspace, key: string, micros: int)
    requires WholeMillis(l) && RedisSane(InMillis(l), keys, micros / 1000)
    requires RedisCredit(InMillis(l), keys, key, micros / 1000) < InMillis(l).every
    ensures var m := InMillis(l);
            var retry := SpendAnswer(m, RedisCredit(m, keys, key, micros / 1000)).retry;
            var keys' := RedisTake(m, keys, key, micros / 1000);
            var back := micros + RetryAfterSecs(retry * MS) * 1_000_000;
            SpendAnswer(m, RedisCredit(m, keys', key, back / 1000)).allowed
            <==> retry * MS <= SECOND || retry * MS % SECOND == 0
  {
    MillisScale(l);
    var m := InMillis(l);
    var retry := SpendAnswer(m, RedisCredit(m, keys, key, micros / 1000)).retry;
    SecondsAgainstMillis(retry);
    RedisRetryIsSufficient(m, keys, key, micros, micros + RetryAfterSecs(retry * MS) * 1_000_000);
    WholeSeconds(retry);
  }

  lemma WholeSeconds(retry: int)
    ensures retry * MS % SECOND == 0 <==> retry % 1000 == 0
    ensures retry * MS <= SECOND <==> retry <= 1000
  {
    var q, r := retry / 1000, retry % 1000;
    assert retry * MS == q * SECOND + r * MS;
    assert 0 <= r * MS < SECOND;
  }

  /** On the work tier, a client refused half a second after its burst is told to wait one second,
      needs one and a half, and is refused again when it obeys. */
  lemma RetryAfterCanBeShort()
    ensures var l, key := LIMIT_WORK, "u:1";
            var empty := map[key := Bucket(0, 0)];
            var refused := TakeAnswer(l, empty, 50000, key, SECOND / 2);
            && refused == Answer(false, 3 * SECOND / 2) && RetryAfterSecs(refused.retry) == 1
            && !TakeAnswer(l, TakeTable(l, empty, 50000, key, SECOND / 2), 50000, key, SECOND / 2 + SECOND).allowed
  {
    var empty := map["u:1" := Bucket(0, 0)];
    assert |empty| == 1;
    var later := TakeTable(LIMIT_WORK, empty, 50000, "u:1", SECOND / 2);
    assert later == map["u:1" := Bucket(SECOND / 2, SECOND / 2)];
    assert |later| == 1;
  }
}
