/**
 The token bucket of the rate limiter, kept in this process
 (internal/middleware/throttle.go).

 A bucket's `tokens * Every` is counted as `credit`, in nanoseconds: a full bucket
 holds Burst * Every, a token costs Every, and a refill adds the time that passed.
 In this unit every quantity the source computes in floating point is a whole
 number, so nothing is rounded. The clock never runs backwards.
 */
module Throttle {
  import opened Wrappers

  datatype Limit = Limit(burst: int, every: int) {
    predicate Configured() { 0 < burst && 0 < every }

    function Full(): int { burst * every }
  }

  const SECOND := 1_000_000_000
  const LIMIT_BROWSE := Limit(240, 50_000_000)
  const LIMIT_WORK := Limit(15, 2 * SECOND)
  const LIMIT_AUTH := Limit(8, 12 * SECOND)

  lemma FullHoldsAToken(l: Limit)
    requires l.Configured()
    ensures 0 < l.every <= l.Full()
  {
    assert (l.burst - 1) * l.every >= 0;
  }

  /** `retry` is how long until one token is free; 0 when the request was allowed. */
  datatype Answer = Answer(allowed: bool, retry: int)

  // ---- the abstract bucket: one number that grows with time ----

  function Grown(l: Limit, credit: int, elapsed: int): int {
    Min(l.Full(), credit + elapsed)
  }

  function Spent(l: Limit, credit: int): int {
    if credit < l.every then credit else credit - l.every
  }

  function SpendAnswer(l: Limit, credit: int): Answer {
    if credit < l.every then Answer(false, l.every - credit) else Answer(true, 0)
  }

  function Refunded(l: Limit, credit: int): int {
    Min(l.Full(), credit + l.every)
  }

  // ---- the table ----

  datatype Bucket = Bucket(credit: int, last: int)
  type Table = map<string, Bucket>

  /** What a key may spend at `now`. A key the table has never seen, or has forgotten, is full. */
  function CreditAt(l: Limit, t: Table, key: string, now: int): int {
    if key in t then Grown(l, t[key].credit, now - t[key].last) else l.Full()
  }

  ghost predicate Sane(l: Limit, t: Table, now: int) {
    forall key | key in t :: 0 <= t[key].credit <= l.Full() && t[key].last <= now
  }

  predicate DropsTable(t: Table, max: nat) {
    |t| >= max
  }

  function BeforeTake(t: Table, max: nat): Table {
    if DropsTable(t, max) then map[] else t
  }

  function TakeTable(l: Limit, t: Table, max: nat, key: string, now: int): Table {
    var base := BeforeTake(t, max);
    base[key := Bucket(Spent(l, CreditAt(l, base, key, now)), now)]
  }

  function TakeAnswer(l: Limit, t: Table, max: nat, key: string, now: int): Answer {
    SpendAnswer(l, CreditAt(l, BeforeTake(t, max), key, now))
  }

  function GiveTable(l: Limit, t: Table, key: string): Table {
    if key in t then t[key := t[key].(credit := Refunded(l, t[key].credit))] else t
  }

  /** How long a bucket must lie untouched before a sweep forgets it; at least a minute. */
  function IdleTime(l: Limit): int {
    var idle := l.Full() * 2;
    if idle < 60 * SECOND then 60 * SECOND else idle
  }

  function SweepTable(l: Limit, t: Table, now: int): Table {
    map key | key in t && now - t[key].last <= IdleTime(l) :: t[key]
  }

  /** A take is about one key, unless the table is full: then the others are forgotten. */
  lemma TakeTouchesOneKey(l: Limit, t: Table, max: nat, key: string, now: int)
    ensures var t' := TakeTable(l, t, max, key, now);
            && t'.Keys == (if |t| >= max then {} else t.Keys) + {key}
            && forall k | k in t' && k != key :: t'[k] == t[k]
  {
  }

  class MemStore {
    var buckets: Table
    const max: nat

    constructor (max: nat := 50000)
      ensures buckets == map[] && this.max == max
    {
      buckets := map[];
      this.max := max;
    }

    method Take(key: string, l: Limit, now: int) returns (answer: Answer)
      requires l.Configured() && Sane(l, buckets, now)
      modifies this
      ensures buckets == TakeTable(l, old(buckets), max, key, now)
      ensures answer == TakeAnswer(l, old(buckets), max, key, now)
      ensures Sane(l, buckets, now)
    {
      FullHoldsAToken(l);
      if |buckets| >= max {
        buckets := map[];
      }
      if key !in buckets {
        buckets := buckets[key := Bucket(l.burst * l.every, now)];
      }
      var b := buckets[key];
      var d := now - b.last;
      if d > 0 {
        b := b.(credit := b.credit + d);
        if b.credit > l.burst * l.every {
          b := b.(credit := l.burst * l.every);
        }
        b := b.(last := now);
      }
      assert b == Bucket(CreditAt(l, BeforeTake(old(buckets), max), key, now), now);
      if b.credit < l.every {
        buckets := buckets[key := b];
        return Answer(false, l.every - b.credit);
      }
      b := b.(credit := b.credit - l.every);
      buckets := buckets[key := b];
      return Answer(true, 0);
    }

    method Give(key: string, l: Limit, ghost now: int)
      requires l.Configured() && Sane(l, buckets, now)
      modifies this
      ensures buckets == GiveTable(l, old(buckets), key)
      ensures buckets.Keys == old(buckets).Keys
      ensures forall k | k in buckets && k != key :: buckets[k] == old(buckets)[k]
      ensures key in buckets ==>
        var b := old(buckets)[key];
        buckets[key].last == b.last
        && buckets[key].credit == if b.credit + l.every <= l.burst * l.every then b.credit + l.every else l.burst * l.every
      ensures Sane(l, buckets, now)
    {
      if key !in buckets {
        return;
      }
      var b := buckets[key];
      b := b.(credit := b.credit + l.every);
      if b.credit > l.burst * l.every {
        b := b.(credit := l.burst * l.every);
      }
      buckets := buckets[key := b];
    }

    method Sweep(l: Limit, now: int)
      requires Sane(l, buckets, now)
      modifies this
      ensures buckets == SweepTable(l, old(buckets), now)
      ensures forall key | key in old(buckets) ::
        var idle := now - old(buckets)[key].last;
        if idle <= 2 * (l.burst * l.every) || idle <= 60 * SECOND then key in buckets && buckets[key] == old(buckets)[key]
        else key !in buckets
      ensures Sane(l, buckets, now)
    {
      var idle := l.burst * l.every * 2;
      if idle < 60 * SECOND {
        idle := 60 * SECOND;
      }
      var left := buckets.Keys;
      ghost var before := buckets;
      while left != {}
        invariant left <= before.Keys
        invariant buckets == map key | key in before && (key in left || now - before[key].last <= idle) :: before[key]
        decreases left
      {
        ghost var some := SomeMember(left);
        var key :| key in left;
        if now - buckets[key].last > idle {
          buckets := buckets - {key};
        }
        left := left - {key};
      }
    }
  }

  // ---- runs of one store ----

  datatype Op = Take(key: string) | Give(key: string) | Sweep
  datatype Event = Event(at: int, op: Op)

  predicate InOrder(now: int, run: seq<Event>)
    decreases run
  {
    run == [] || (now <= run[0].at && InOrder(run[0].at, run[1..]))
  }

  function EndTime(now: int, run: seq<Event>): int
    decreases run
  {
    if run == [] then now else EndTime(run[0].at, run[1..])
  }

  function NextTable(l: Limit, max: nat, t: Table, e: Event): Table {
    match e.op
    case Take(key) => TakeTable(l, t, max, key, e.at)
    case Give(key) => GiveTable(l, t, key)
    case Sweep => SweepTable(l, t, e.at)
  }

  function EndTable(l: Limit, max: nat, t: Table, run: seq<Event>): Table
    decreases run
  {
    if run == [] then t else EndTable(l, max, NextTable(l, max, t, run[0]), run[1..])
  }

  predicate Drops(max: nat, t: Table, e: Event) {
    e.op.Take? && DropsTable(t, max)
  }

  function AbstractStep(l: Limit, credit: int, op: Op, key: string): int {
    if op == Take(key) then Spent(l, credit)
    else if op == Give(key) then Refunded(l, credit)
    else credit
  }

  lemma TimePasses(l: Limit, t: Table, key: string, now: int, later: int)
    requires l.Configured() && Sane(l, t, now) && now <= later
    ensures CreditAt(l, t, key, later) == Grown(l, CreditAt(l, t, key, now), later - now)
    ensures Sane(l, t, later)
    ensures 0 <= CreditAt(l, t, key, now) <= l.Full()
  {
    FullHoldsAToken(l);
  }

  /** Every operation of the table moves each key's credit as the abstract bucket says; a drop
      first makes it full. A sweep moves nothing: what it forgets is full by then. */
  lemma TableRefinesBucket(l: Limit, max: nat, t: Table, e: Event, key: string)
    requires l.Configured() && Sane(l, t, e.at)
    ensures Sane(l, NextTable(l, max, t, e), e.at)
    ensures CreditAt(l, NextTable(l, max, t, e), key, e.at)
         == AbstractStep(l, if Drops(max, t, e) then l.Full() else CreditAt(l, t, key, e.at), e.op, key)
  {
    FullHoldsAToken(l);
  }
}
