/**
 Several replicas, one Redis, and calls that may fail: how many requests a key gets
 through altogether. Each replica falls back to its own table whenever its call
 errors, and an errored call may still have spent a token on the server.
 */
module ThrottleCluster {
  import opened Wrappers
  import opened Throttle
  import opened ThrottleBounds
  import opened ThrottleRedis

  datatype Call =
    | TakeCall(replica: nat, key: string, delivery: Delivery)
    | GiveCall(replica: nat, key: string, delivery: Delivery)
    | SweepCall(replica: nat)

  /** `at` is in nanoseconds; the server reads it in whole milliseconds. */
  datatype CallEvent = CallEvent(at: int, call: Call)

  datatype Cluster = Cluster(keys: Keyspace, fallen: seq<Table>)

  predicate CallsInOrder(n: nat, now: int, run: seq<CallEvent>)
    decreases run
  {
    run == [] || (now <= run[0].at && run[0].call.replica < n && CallsInOrder(n, run[0].at, run[1..]))
  }

  function LastTime(now: int, run: seq<CallEvent>): int
    decreases run
  {
    if run == [] then now else LastTime(run[0].at, run[1..])
  }

  /** What the call does on the server, if it runs there. */
  function ServerNext(l: Limit, keys: Keyspace, e: CallEvent): Keyspace {
    var now := e.at / MS;
    match e.call
    case TakeCall(_, key, d) => if d == LostBeforeRun then keys else RedisTake(InMillis(l), keys, key, now)
    case GiveCall(_, key, d) => if d == LostBeforeRun then keys else RedisGive(InMillis(l), keys, key, now)
    case SweepCall(_) => keys
  }

  /** What the call does to its replica's own table, if it falls back to it. */
  function LocalOp(e: CallEvent): Option<Event> {
    match e.call
    case TakeCall(_, key, d) => if d == Answered then None else Some(Event(e.at, Take(key)))
    case GiveCall(_, key, d) => if d == Answered then None else Some(Event(e.at, Give(key)))
    case SweepCall(_) => Some(Event(e.at, Sweep))
  }

  function LocalNext(l: Limit, max: nat, t: Table, e: CallEvent): Table {
    if LocalOp(e).Some? then NextTable(l, max, t, LocalOp(e).value) else t
  }

  function NextCluster(l: Limit, max: nat, c: Cluster, e: CallEvent): Cluster
    requires e.call.replica < |c.fallen|
  {
    var i := e.call.replica;
    Cluster(ServerNext(l, c.keys, e), c.fallen[i := LocalNext(l, max, c.fallen[i], e)])
  }

  /** Does the caller get through? */
  predicate Passes(l: Limit, max: nat, c: Cluster, e: CallEvent)
    requires e.call.replica < |c.fallen|
  {
    && e.call.TakeCall?
    && if e.call.delivery == Answered
       then SpendAnswer(InMillis(l), RedisCredit(InMillis(l), c.keys, e.call.key, e.at / MS)).allowed
       else TakeAnswer(l, c.fallen[e.call.replica], max, e.call.key, e.at).allowed
  }

  /** How many buckets a refund of the key reached: one, or two when the call errored after it ran. */
  function RefundsReached(e: CallEvent, key: string): nat {
    if e.call.GiveCall? && e.call.key == key then (if e.call.delivery == LostAfterRun then 2 else 1) else 0
  }

  predicate LocalDrop(max: nat, c: Cluster, e: CallEvent)
    requires e.call.replica < |c.fallen|
  {
    LocalOp(e).Some? && Drops(max, c.fallen[e.call.replica], LocalOp(e).value)
  }

  function Passed(l: Limit, max: nat, c: Cluster, run: seq<CallEvent>, now: int, key: string): nat
    requires CallsInOrder(|c.fallen|, now, run)
    decreases run
  {
    if run == [] then 0
    else
      var passed := if Passes(l, max, c, run[0]) && run[0].call.key == key then 1 else 0;
      passed + Passed(l, max, NextCluster(l, max, c, run[0]), run[1..], run[0].at, key)
  }

  function Reached(run: seq<CallEvent>, key: string): nat {
    if run == [] then 0 else RefundsReached(run[0], key) + Reached(run[1..], key)
  }

  function LocalDrops(l: Limit, max: nat, c: Cluster, run: seq<CallEvent>, now: int): nat
    requires CallsInOrder(|c.fallen|, now, run)
    decreases run
  {
    if run == [] then 0
    else
      var dropped := if LocalDrop(max, c, run[0]) then 1 else 0;
      dropped + LocalDrops(l, max, NextCluster(l, max, c, run[0]), run[1..], run[0].at)
  }

  // ---- the credit of all buckets together ----

  function SumCredit(l: Limit, tables: seq<Table>, key: string, now: int): int {
    if tables == [] then 0 else CreditAt(l, tables[0], key, now) + SumCredit(l, tables[1..], key, now)
  }

  function TotalCredit(l: Limit, c: Cluster, key: string, now: int): int {
    MS * RedisCredit(InMillis(l), c.keys, key, now / MS) + SumCredit(l, c.fallen, key, now)
  }

  ghost predicate ClusterSane(l: Limit, c: Cluster, now: int) {
    && RedisSane(InMillis(l), c.keys, now / MS)
    && forall i | 0 <= i < |c.fallen| :: Sane(l, c.fallen[i], now)
  }

  lemma AddTerm(unit: int, n: int, sum: int, x: int)
    requires sum <= (n - 1) * unit && x <= unit
    ensures x + sum <= n * unit
  {
  }

  lemma {:induction false} SumGrows(l: Limit, tables: seq<Table>, key: string, now: int, later: int)
    requires l.Configured() && now <= later && (forall i | 0 <= i < |tables| :: Sane(l, tables[i], now))
    ensures SumCredit(l, tables, key, later) - SumCredit(l, tables, key, now) <= |tables| * (later - now)
  {
    if tables != [] {
      var t, rest := tables[0], tables[1..];
      TimePasses(l, t, key, now, later);
      SumGrows(l, rest, key, now, later);
      AddTerm(later - now, |tables|, SumCredit(l, rest, key, later) - SumCredit(l, rest, key, now),
              CreditAt(l, t, key, later) - CreditAt(l, t, key, now));
    }
  }

  lemma {:induction false} SumBounds(l: Limit, tables: seq<Table>, key: string, now: int, full: int)
    requires l.Configured() && (forall i | 0 <= i < |tables| :: Sane(l, tables[i], now))
    requires full == l.Full()
    ensures 0 <= SumCredit(l, tables, key, now) <= |tables| * full
  {
    if tables != [] {
      TimePasses(l, tables[0], key, now, now);
      SumBounds(l, tables[1..], key, now, full);
      AddTerm(full, |tables|, SumCredit(l, tables[1..], key, now), CreditAt(l, tables[0], key, now));
    }
  }

  lemma {:induction false} SumUpdate(l: Limit, tables: seq<Table>, i: nat, t: Table, key: string, now: int)
    requires i < |tables|
    ensures SumCredit(l, tables[i := t], key, now)
         == SumCredit(l, tables, key, now) - CreditAt(l, tables[i], key, now) + CreditAt(l, t, key, now)
  {
    if i > 0 {
      assert tables[i := t][1..] == tables[1..][i - 1 := t];
      SumUpdate(l, tables[1..], i - 1, t, key, now);
    }
  }

  lemma TotalPasses(l: Limit, c: Cluster, key: string, now: int, later: int)
    requires WholeMillis(l) && ClusterSane(l, c, now) && now <= later
    ensures ClusterSane(l, c, later)
    ensures TotalCredit(l, c, key, later)
         <= TotalCredit(l, c, key, now) + |c.fallen| * (later - now) + MS * (later / MS - now / MS)
    ensures 0 <= TotalCredit(l, c, key, now) <= (|c.fallen| + 1) * l.Full()
  {
    MillisScale(l);
    SumGrows(l, c.fallen, key, now, later);
    SumBounds(l, c.fallen, key, now, l.Full());
    RedisTimePasses(InMillis(l), c.keys, key, now / MS, later / MS);
    OneMore(l.Full(), |c.fallen|);
  }

  /** What one call costs: an admission paid for somewhere, less refunds and drops. */
  function CallCharge(l: Limit, max: nat, c: Cluster, e: CallEvent, key: string): int
    requires e.call.replica < |c.fallen|
  {
    var passed := if Passes(l, max, c, e) && e.call.key == key then l.every else 0;
    var dropped := if LocalDrop(max, c, e) then l.Full() else 0;
    passed - l.every * RefundsReached(e, key) - dropped
  }

  lemma ServerCharge(l: Limit, keys: Keyspace, e: CallEvent, key: string)
    requires WholeMillis(l) && RedisSane(InMillis(l), keys, e.at / MS)
    ensures RedisSane(InMillis(l), ServerNext(l, keys, e), e.at / MS)
    ensures var before := MS * RedisCredit(InMillis(l), keys, key, e.at / MS);
            var after := MS * RedisCredit(InMillis(l), ServerNext(l, keys, e), key, e.at / MS);
            var passes := e.call.TakeCall? && e.call.key == key && e.call.delivery == Answered
                          && SpendAnswer(InMillis(l), RedisCredit(InMillis(l), keys, key, e.at / MS)).allowed;
            && (passes ==> after == before - l.every)
            && (e.call.GiveCall? && e.call.key == key && e.call.delivery != LostBeforeRun ==> after <= before + l.every)
            && (!(e.call.GiveCall? && e.call.key == key && e.call.delivery != LostBeforeRun) ==> after <= before)
  {
    MillisScale(l);
    if !e.call.SweepCall? {
      RedisRefinesBucket(InMillis(l), keys, if e.call.TakeCall? then Take(e.call.key) else Give(e.call.key), key, e.at / MS);
    }
  }

  lemma LocalCharge(l: Limit, max: nat, t: Table, e: CallEvent, key: string)
    requires l.Configured() && Sane(l, t, e.at)
    ensures Sane(l, LocalNext(l, max, t, e), e.at)
    ensures var before, after := CreditAt(l, t, key, e.at), CreditAt(l, LocalNext(l, max, t, e), key, e.at);
            var dropped := if LocalOp(e).Some? && Drops(max, t, LocalOp(e).value) then l.Full() else 0;
            var passes := e.call.TakeCall? && e.call.key == key && e.call.delivery != Answered
                          && TakeAnswer(l, t, max, key, e.at).allowed;
            && (passes ==> after <= before - l.every + dropped)
            && (e.call.GiveCall? && e.call.key == key && e.call.delivery != Answered ==> after <= before + l.every)
            && (!(e.call.GiveCall? && e.call.key == key && e.call.delivery != Answered) ==> after <= before + dropped)
  {
    TimePasses(l, t, key, e.at, e.at);
    if LocalOp(e).Some? {
      TableRefinesBucket(l, max, t, LocalOp(e).value, key);
    }
  }

  lemma CallIsPaidFor(l: Limit, max: nat, c: Cluster, e: CallEvent, key: string)
    requires WholeMillis(l) && ClusterSane(l, c, e.at) && e.call.replica < |c.fallen|
    ensures ClusterSane(l, NextCluster(l, max, c, e), e.at)
    ensures CallCharge(l, max, c, e, key) + TotalCredit(l, NextCluster(l, max, c, e), key, e.at)
         <= TotalCredit(l, c, key, e.at)
  {
    var i := e.call.replica;
    ServerCharge(l, c.keys, e, key);
    LocalCharge(l, max, c.fallen[i], e, key);
    SumUpdate(l, c.fallen, i, LocalNext(l, max, c.fallen[i], e), key, e.at);
  }

  /** Summed over the run. */
  function RunCharge(l: Limit, max: nat, c: Cluster, run: seq<CallEvent>, now: int, key: string): int
    requires CallsInOrder(|c.fallen|, now, run)
    decreases run
  {
    if run == [] then 0
    else CallCharge(l, max, c, run[0], key)
         + RunCharge(l, max, NextCluster(l, max, c, run[0]), run[1..], run[0].at, key)
  }

  lemma {:induction false} RunIsPaidFor(l: Limit, max: nat, c: Cluster, run: seq<CallEvent>, now: int, key: string)
    requires WholeMillis(l) && ClusterSane(l, c, now) && CallsInOrder(|c.fallen|, now, run)
    ensures var end := LastTime(now, run);
            && now <= end
            && RunCharge(l, max, c, run, now, key)
               <= TotalCredit(l, c, key, now) + |c.fallen| * (end - now) + MS * (end / MS - now / MS)
    decreases run
  {
    TotalPasses(l, c, key, now, now);
    if run != [] {
      var e := run[0];
      TotalPasses(l, c, key, now, e.at);
      CallIsPaidFor(l, max, c, e, key);
      RunIsPaidFor(l, max, NextCluster(l, max, c, e), run[1..], e.at, key);
      Split(|c.fallen|, LastTime(now, run), e.at, now);
    }
  }

  lemma Split(n: int, a: int, b: int, c: int)
    ensures n * (a - c) == n * (a - b) + n * (b - c)
  {
  }

  lemma {:induction false} RunChargeCounts(l: Limit, max: nat, c: Cluster, run: seq<CallEvent>, now: int, key: string)
    requires CallsInOrder(|c.fallen|, now, run)
    ensures RunCharge(l, max, c, run, now, key)
         == l.every * Passed(l, max, c, run, now, key) - l.every * Reached(run, key)
          - l.Full() * LocalDrops(l, max, c, run, now)
    decreases run
  {
    if run != [] {
      var c' := NextCluster(l, max, c, run[0]);
      RunChargeCounts(l, max, c', run[1..], run[0].at, key);
      OneMore(l.every, Passed(l, max, c', run[1..], run[0].at, key));
      OneMore(l.Full(), LocalDrops(l, max, c', run[1..], run[0].at));
      Split(l.every, RefundsReached(run[0], key) + Reached(run[1..], key), Reached(run[1..], key), 0);
    }
  }

  /** The time that passed on the server's clock, which counts whole milliseconds. */
  function ServerElapsed(now: int, end: int): int {
    MS * (end / MS - now / MS)
  }

  /** With n replicas, any pattern of outages, and errored calls that may have run: a key gets
      through at most what n + 1 full buckets and their refills allow, n on the replicas' clock and
      one on the server's (ClocksAgree), plus one request for each bucket a refund reached and a burst for each
      fallback table dropped whole. */
  lemma OutagesCostAtMostOneBucketEach(l: Limit, max: nat, c: Cluster, run: seq<CallEvent>, now: int, key: string)
    requires WholeMillis(l) && ClusterSane(l, c, now) && CallsInOrder(|c.fallen|, now, run)
    ensures var n, end := |c.fallen|, LastTime(now, run);
            && Passed(l, max, c, run, now, key)
               <= l.burst * (n + 1 + LocalDrops(l, max, c, run, now))
                  + (n * (end - now) + ServerElapsed(now, end)) / l.every + Reached(run, key)
  {
    var n, end := |c.fallen|, LastTime(now, run);
    RunChargeBound(l, max, c, run, now, key);
    RunChargeCounts(l, max, c, run, now, key);
    ShareOut(l, n, n * (end - now) + ServerElapsed(now, end), Passed(l, max, c, run, now, key), Reached(run, key),
             LocalDrops(l, max, c, run, now), RunCharge(l, max, c, run, now, key), TotalCredit(l, c, key, now));
  }

  lemma RunChargeBound(l: Limit, max: nat, c: Cluster, run: seq<CallEvent>, now: int, key: string)
    requires WholeMillis(l) && ClusterSane(l, c, now) && CallsInOrder(|c.fallen|, now, run)
    ensures var n, end := |c.fallen|, LastTime(now, run);
            && 0 <= n * (end - now) + ServerElapsed(now, end)
            && RunCharge(l, max, c, run, now, key)
               <= TotalCredit(l, c, key, now) + n * (end - now) + ServerElapsed(now, end)
    ensures TotalCredit(l, c, key, now) <= (|c.fallen| + 1) * l.Full()
  {
    RunIsPaidFor(l, max, c, run, now, key);
    TotalPasses(l, c, key, now, now);
    ClocksAgree(|c.fallen|, now, LastTime(now, run));
  }

  /** The two clocks differ by less than a millisecond, and between whole milliseconds not at all. */
  lemma ClocksAgree(n: nat, now: int, end: int)
    requires now <= end
    ensures 0 <= ServerElapsed(now, end) < end - now + MS && 0 <= n * (end - now)
    ensures now % MS == 0 && end % MS == 0 ==> n * (end - now) + ServerElapsed(now, end) == (n + 1) * (end - now)
  {
    Monotone(end - now, 0, n);
    Distribute(n, end - now);
  }

  lemma ShareOut(l: Limit, n: nat, grown: int, passed: int, reached: int, drops: int, charge: int, total: int)
    requires l.Configured() && 0 <= grown
    requires charge == l.every * passed - l.every * reached - l.Full() * drops
    requires charge <= total + grown && total <= (n + 1) * l.Full()
    ensures passed <= l.burst * (n + 1 + drops) + grown / l.every + reached
  {
    Distribute(n, l.Full());
    WholeBuckets(l, n, drops);
    DivideByEvery(l.every, l.burst, passed, reached, n + drops, grown);
  }

  lemma Distribute(n: int, a: int)
    ensures (n + 1) * a == n * a + a
  {
  }

  lemma WholeBuckets(l: Limit, n: int, drops: int)
    ensures (n + 1) * l.Full() + l.Full() * drops == l.burst * l.every + l.burst * l.every * (n + drops)
  {
    var f := l.burst * l.every;
    assert f * (n + drops) == f * n + f * drops;
  }
}
