/**
 The bound of TaskFleet is the true one: for every cap n and every number k of polls an
 agent keeps open, some run leaves it holding n + k - 1 leases. So the cap itself is kept
 exactly by agents that poll once at a time.

 The run: enqueue n + k - 1 offers, let n - 1 polls take a row each, one after the other,
 then open k polls, count all of them, and only then let them take.
 */
module TaskCap {
  import opened Wrappers
  import opened TaskQueue
  import opened TaskFleet

  /** One agent, polling with cap n and never more than k polls open. */
  datatype Plan = Plan(agent: int, k: nat, n: nat, now: int, offers: seq<Offer>) {
    predicate Sized() {
      1 <= k && 1 <= n && |offers| == n + k - 1
    }

    predicate ToldApart() {
      forall i, j | 0 <= i < j < |offers| :: offers[i].infoHash != offers[j].infoHash
    }
  }

  function Range(lo: nat, hi: nat): (r: set<int>)
    requires lo <= hi
    ensures forall i :: i in r <==> lo <= i < hi
    ensures |r| == hi - lo
    decreases hi
  {
    if lo == hi then {} else Range(lo, hi - 1) + {hi - 1}
  }

  /** The first `queued` offers are in the table, and of those the first `taken` are leased. */
  function Table(p: Plan, queued: nat, taken: nat): (rows: Rows)
    requires queued <= |p.offers|
    ensures forall id :: id in rows <==> 1 <= id <= queued
    ensures forall id | id in rows :: rows[id] == RowAt(p, id, taken)
  {
    if queued == 0 then map[] else Table(p, queued - 1, taken)[queued := RowAt(p, queued, taken)]
  }

  function RowAt(p: Plan, id: int, taken: nat): Task
    requires 1 <= id <= |p.offers|
  {
    var t := NewTask(p.offers[id - 1], p.now);
    if id <= taken then LeasedRow(t, p.agent, p.now) else t
  }

  lemma RowFacts(p: Plan, id: int, taken: nat)
    requires 1 <= id <= |p.offers|
    ensures RowAt(p, id, taken).HeldBy(p.agent) <==> id <= taken
    ensures RowAt(p, id, taken).state == Queued <==> taken < id
    ensures !RowAt(p, id, taken).Stale(p.now)
    ensures RowAt(p, id, taken).offer == p.offers[id - 1]
    ensures RowAt(p, id, id) == LeasedRow(RowAt(p, id, id - 1), p.agent, p.now)
  {
  }

  /** Polls lo to hi - 1 are open, those below `counted` past their count. */
  function Polls(p: Plan, lo: nat, counted: nat, hi: nat): (polls: map<nat, Poll>)
    requires lo <= hi
    ensures forall i: nat :: i in polls <==> lo <= i < hi
    ensures forall i | i in polls :: polls[i] == OpenPoll(p, i < counted)
    decreases hi - lo
  {
    if lo == hi then map[] else Polls(p, lo + 1, counted, hi)[lo := OpenPoll(p, lo < counted)]
  }

  function OpenPoll(p: Plan, counted: bool): Poll {
    Poll(p.agent, p.n, if counted then Some(p.now) else None)
  }

  function State(p: Plan, taken: nat, lo: nat, counted: nat, hi: nat): Fleet
    requires p.Sized() && lo <= hi
  {
    Fleet(Table(p, |p.offers|, taken), |p.offers| + 1, Polls(p, lo, counted, hi), p.now)
  }

  lemma HeldInTable(p: Plan, taken: nat)
    requires p.Sized() && taken <= |p.offers|
    ensures |HeldIds(Table(p, |p.offers|, taken), p.agent)| == taken
  {
    var held := HeldIds(Table(p, |p.offers|, taken), p.agent);
    forall id ensures id in held <==> 1 <= id <= taken {
      if 1 <= id <= |p.offers| { RowFacts(p, id, taken); }
    }
    assert held == Range(1, taken + 1);
  }

  // ---- putting runs together, last step first ----

  ghost predicate Leads(p: Plan, s: Fleet, run: seq<Event>) {
    && ValidRun(s, run) && PollsAtMost(s, run, p.agent, p.k, p.n)
    && |HeldIds(After(s, run).rows, p.agent)| == p.n + p.k - 1
  }

  lemma Back(p: Plan, s: Fleet, step: Step, s': Fleet, run: seq<Event>) returns (longer: seq<Event>)
    requires p.Sized() && Enabled(s, Event(p.now, step)) && Next(s, Event(p.now, step)) == s' && Leads(p, s', run)
    requires forall i | i in s.polls :: i < p.k
    requires step.PollReclaim? ==> step.maxConcurrent == p.n
    ensures Leads(p, s, longer)
  {
    longer := [Event(p.now, step)] + run;
    assert longer[1..] == run;
    SubsetCard<int>(InFlight(s, p.agent), Range(0, p.k));
  }

  lemma TakeRow(p: Plan, j: nat)
    requires p.Sized() && j < |p.offers|
    ensures var rows := Table(p, |p.offers|, j);
            && j + 1 in rows && rows[j + 1].state == Queued
            && rows[j + 1 := LeasedRow(rows[j + 1], p.agent, p.now)] == Table(p, |p.offers|, j + 1)
  {
    var rows, rows' := Table(p, |p.offers|, j), Table(p, |p.offers|, j + 1);
    RowFacts(p, j + 1, j);
    RowFacts(p, j + 1, j + 1);
    var leased := rows[j + 1 := RowAt(p, j + 1, j + 1)];
    forall id | id in rows' ensures leased[id] == rows'[id] {
      if id != j + 1 { RestUntouched(p, id, j); }
    }
    assert leased == rows';
  }

  lemma RestUntouched(p: Plan, id: int, j: nat)
    requires 1 <= id <= |p.offers| && id != j + 1
    ensures RowAt(p, id, j) == RowAt(p, id, j + 1)
  {
  }

  lemma PollsTaken(p: Plan, lo: nat, hi: nat)
    requires lo < hi
    ensures Polls(p, lo, hi, hi) - {lo} == Polls(p, lo + 1, hi, hi)
  {
  }

  /** Poll i takes the next row. */
  lemma TakeNext(p: Plan, taken: nat, i: nat, hi: nat)
    requires p.Sized() && taken < |p.offers| && i < hi
    ensures var s, e := State(p, taken, i, hi, hi), Event(p.now, PollTake(i, Some(taken + 1)));
            Enabled(s, e) && Next(s, e) == State(p, taken + 1, i + 1, hi, hi)
  {
    TakeRow(p, taken);
    PollsTaken(p, i, hi);
    var s := State(p, taken, i, hi, hi);
    assert s.polls[i] == OpenPoll(p, true);
    assert taken + 1 in QueuedIds(s.rows);
  }

  lemma PollsCounted(p: Plan, i: nat, hi: nat)
    requires i < hi
    ensures i in Polls(p, 0, i, hi) && Polls(p, 0, i, hi)[i := OpenPoll(p, true)] == Polls(p, 0, i + 1, hi)
  {
  }

  /** Poll i is counted: the agent holds fewer rows than its cap. */
  lemma CountNext(p: Plan, taken: nat, i: nat, hi: nat)
    requires p.Sized() && taken < p.n && i < hi
    ensures var s, e := State(p, taken, 0, i, hi), Event(p.now, PollCount(i));
            Enabled(s, e) && Next(s, e) == State(p, taken, 0, i + 1, hi)
  {
    HeldInTable(p, taken);
    var s := State(p, taken, 0, i, hi);
    PollsCounted(p, i, hi);
    assert s.polls[i] == OpenPoll(p, false);
  }

  lemma NothingIsStale(p: Plan, queued: nat, taken: nat)
    requires queued <= |p.offers|
    ensures Reclaimed(Table(p, queued, taken), p.now) == Table(p, queued, taken)
  {
    forall id: int | 1 <= id <= queued ensures !RowAt(p, id, taken).Stale(p.now) {
      RowFacts(p, id, taken);
    }
  }

  lemma PollsOpened(p: Plan, hi: nat)
    ensures hi !in Polls(p, 0, 0, hi) && Polls(p, 0, 0, hi)[hi := OpenPoll(p, false)] == Polls(p, 0, 0, hi + 1)
  {
  }

  /** A further poll opens. */
  lemma OpenNext(p: Plan, taken: nat, hi: nat)
    requires p.Sized() && taken <= |p.offers|
    ensures var s, e := State(p, taken, 0, 0, hi), Event(p.now, PollReclaim(hi, p.agent, p.n));
            Enabled(s, e) && Next(s, e) == State(p, taken, 0, 0, hi + 1)
  {
    NothingIsStale(p, |p.offers|, taken);
    PollsOpened(p, hi);
  }

  function Enqueued(p: Plan, j: nat): Fleet
    requires j <= |p.offers|
  {
    Fleet(Table(p, j, 0), j + 1, map[], p.now)
  }

  lemma EnqueueNext(p: Plan, j: nat)
    requires p.Sized() && p.ToldApart() && j < |p.offers|
    ensures Next(Enqueued(p, j), Event(p.now, Enqueue(p.offers[j]))) == Enqueued(p, j + 1)
  {
    var rows := Table(p, j, 0);
    forall id | id in rows ensures rows[id].offer.infoHash != p.offers[j].infoHash {
      RowFacts(p, id, 0);
    }
    assert Table(p, j + 1, 0) == rows[j + 1 := RowAt(p, j + 1, 0)];
  }

  // ---- the run ----

  lemma TakeStep(p: Plan, taken: nat, i: nat, hi: nat, run: seq<Event>) returns (longer: seq<Event>)
    requires p.Sized() && taken < |p.offers| && i < hi <= p.k
    requires Leads(p, State(p, taken + 1, i + 1, hi, hi), run)
    ensures Leads(p, State(p, taken, i, hi, hi), longer)
  {
    TakeNext(p, taken, i, hi);
    longer := Back(p, State(p, taken, i, hi, hi), PollTake(i, Some(taken + 1)), State(p, taken + 1, i + 1, hi, hi), run);
  }

  lemma CountStep(p: Plan, taken: nat, i: nat, hi: nat, run: seq<Event>) returns (longer: seq<Event>)
    requires p.Sized() && taken < p.n && i < hi <= p.k
    requires Leads(p, State(p, taken, 0, i + 1, hi), run)
    ensures Leads(p, State(p, taken, 0, i, hi), longer)
  {
    CountNext(p, taken, i, hi);
    longer := Back(p, State(p, taken, 0, i, hi), PollCount(i), State(p, taken, 0, i + 1, hi), run);
  }

  lemma OpenStep(p: Plan, taken: nat, hi: nat, run: seq<Event>) returns (longer: seq<Event>)
    requires p.Sized() && taken <= |p.offers| && hi < p.k
    requires Leads(p, State(p, taken, 0, 0, hi + 1), run)
    ensures Leads(p, State(p, taken, 0, 0, hi), longer)
  {
    OpenNext(p, taken, hi);
    longer := Back(p, State(p, taken, 0, 0, hi), PollReclaim(hi, p.agent, p.n), State(p, taken, 0, 0, hi + 1), run);
  }

  lemma EnqueueStep(p: Plan, j: nat, run: seq<Event>) returns (longer: seq<Event>)
    requires p.Sized() && p.ToldApart() && j < |p.offers| && Leads(p, Enqueued(p, j + 1), run)
    ensures Leads(p, Enqueued(p, j), longer)
  {
    EnqueueNext(p, j);
    longer := Back(p, Enqueued(p, j), Enqueue(p.offers[j]), Enqueued(p, j + 1), run);
  }

  lemma {:induction false} TakeRest(p: Plan, i: nat) returns (run: seq<Event>)
    requires p.Sized() && i <= p.k
    ensures Leads(p, State(p, p.n - 1 + i, i, p.k, p.k), run)
    decreases p.k - i
  {
    if i == p.k {
      run := AllTaken(p);
    } else {
      run := TakeRest(p, i + 1);
      run := TakeStep(p, p.n - 1 + i, i, p.k, run);
    }
  }

  lemma AllTaken(p: Plan) returns (run: seq<Event>)
    requires p.Sized()
    ensures Leads(p, State(p, p.n - 1 + p.k, p.k, p.k, p.k), run)
  {
    run := [];
    HeldInTable(p, p.n - 1 + p.k);
    assert InFlight(State(p, p.n - 1 + p.k, p.k, p.k, p.k), p.agent) == {};
  }

  lemma {:induction false} CountRest(p: Plan, i: nat) returns (run: seq<Event>)
    requires p.Sized() && i <= p.k
    ensures Leads(p, State(p, p.n - 1, 0, i, p.k), run)
    decreases p.k - i
  {
    if i == p.k {
      run := TakeRest(p, 0);
    } else {
      run := CountRest(p, i + 1);
      run := CountStep(p, p.n - 1, i, p.k, run);
    }
  }

  lemma {:induction false} OpenRest(p: Plan, i: nat) returns (run: seq<Event>)
    requires p.Sized() && i <= p.k
    ensures Leads(p, State(p, p.n - 1, 0, 0, i), run)
    decreases p.k - i
  {
    if i == p.k {
      run := CountRest(p, 0);
    } else {
      run := OpenRest(p, i + 1);
      run := OpenStep(p, p.n - 1, i, run);
    }
  }

  /** One poll run to its end: the agent holds j rows, fewer than its cap, and takes the next. */
  lemma OnePoll(p: Plan, j: nat, run: seq<Event>) returns (longer: seq<Event>)
    requires p.Sized() && j < p.n && Leads(p, State(p, j + 1, 1, 1, 1), run)
    ensures Leads(p, State(p, j, 0, 0, 0), longer)
  {
    longer := TakeStep(p, j, 0, 1, run);
    longer := CountStep(p, j, 0, 1, longer);
    longer := OpenStep(p, j, 0, longer);
  }

  /** n - 1 polls one after the other, from the j-th on. */
  lemma {:induction false} PollRest(p: Plan, j: nat) returns (run: seq<Event>)
    requires p.Sized() && j < p.n
    ensures Leads(p, State(p, j, 0, 0, 0), run)
    decreases p.n - j
  {
    if j == p.n - 1 {
      run := OpenRest(p, 0);
    } else {
      run := PollRest(p, j + 1);
      assert State(p, j + 1, 0, 0, 0) == State(p, j + 1, 1, 1, 1);
      run := OnePoll(p, j, run);
    }
  }

  lemma {:induction false} EnqueueRest(p: Plan, j: nat) returns (run: seq<Event>)
    requires p.Sized() && p.ToldApart() && j <= |p.offers|
    ensures Leads(p, Enqueued(p, j), run)
    decreases |p.offers| - j
  {
    if j == |p.offers| {
      run := PollRest(p, 0);
      assert Enqueued(p, j) == State(p, 0, 0, 0, 0);
    } else {
      run := EnqueueRest(p, j + 1);
      run := EnqueueStep(p, j, run);
    }
  }

  /** For every cap, every number of open polls, every agent and any offers told apart by their hashes:
      a run within the discipline of LeasesStayUnderTheCap that ends at its bound. */
  lemma OpenPollsReachTheBound(p: Plan) returns (run: seq<Event>)
    requires p.Sized() && p.ToldApart()
    ensures ValidRun(Start(p.now), run) && PollsAtMost(Start(p.now), run, p.agent, p.k, p.n)
    ensures |HeldIds(After(Start(p.now), run).rows, p.agent)| == p.n + p.k - 1
  {
    run := EnqueueRest(p, 0);
    assert Enqueued(p, 0) == Start(p.now);
  }

  // ---- exactly when the cap is kept ----

  /** As many offers as wanted, told apart by the lengths of their hashes. */
  function ManyOffers(m: nat): (offers: seq<Offer>)
    ensures |offers| == m && forall i | 0 <= i < m :: |offers[i].infoHash| == i
  {
    if m == 0 then [] else ManyOffers(m - 1) + [Offer(seq(m - 1, (i: nat) => 'a'), "", 0)]
  }

  lemma {:induction false} FewerPolls(s: Fleet, run: seq<Event>, agent: int, k: nat, more: nat, n: nat)
    requires ValidRun(s, run) && PollsAtMost(s, run, agent, k, n) && k <= more
    ensures PollsAtMost(s, run, agent, more, n)
    decreases run
  {
    if run != [] { FewerPolls(Next(s, run[0]), run[1..], agent, k, more, n); }
  }

  /** In every interleaving the agent's leases stay within its cap. */
  ghost predicate CapHolds(now: int, agent: int, k: nat, n: nat) {
    forall run | ValidRun(Start(now), run) && PollsAtMost(Start(now), run, agent, k, n) ::
      |HeldIds(After(Start(now), run).rows, agent)| <= n
  }

  /** A poll's cap is at least 1, so an agent with no cap above 0 never polls. */
  lemma {:induction false} NoCapNoPolls(s: Fleet, run: seq<Event>, agent: int, k: nat)
    requires ValidRun(s, run) && PollsAtMost(s, run, agent, k, 0) && InFlight(s, agent) == {}
    ensures PollsAtMost(s, run, agent, 1, 0)
    decreases run
  {
    if run != [] {
      assert InFlight(Next(s, run[0]), agent) == {} by {
        forall p | p in Next(s, run[0]).polls ensures Next(s, run[0]).polls[p].agent != agent {
          assert p in s.polls ==> p !in InFlight(s, agent);
        }
      }
      NoCapNoPolls(Next(s, run[0]), run[1..], agent, k);
    }
  }

  /** The cap is kept if and only if the agent never has two polls open, or never polls at all. */
  lemma CapHoldsExactlyForOnePoll(now: int, agent: int, k: nat, n: nat)
    ensures CapHolds(now, agent, k, n) <==> k <= 1 || n == 0
  {
    if n == 0 {
      forall run | ValidRun(Start(now), run) && PollsAtMost(Start(now), run, agent, k, 0)
        ensures |HeldIds(After(Start(now), run).rows, agent)| <= 0
      {
        assert InFlight(Start(now), agent) == {};
        NoCapNoPolls(Start(now), run, agent, k);
        LeasesStayUnderTheCap(now, run, agent, 1, 0);
      }
    } else if k <= 1 {
      forall run | ValidRun(Start(now), run) && PollsAtMost(Start(now), run, agent, k, n)
        ensures |HeldIds(After(Start(now), run).rows, agent)| <= n
      {
        FewerPolls(Start(now), run, agent, k, 1, n);
        LeasesStayUnderTheCap(now, run, agent, 1, n);
      }
    } else {
      var p := Plan(agent, k, n, now, ManyOffers(n + k - 1));
      var run := OpenPollsReachTheBound(p);
      assert |HeldIds(After(Start(now), run).rows, agent)| > n;
    }
  }
}
