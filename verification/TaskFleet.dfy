/**
 Many agents against one queue: every statement of TaskQueue as a step, in any
 interleaving.

 A poll is three steps, because LeaseNextTask runs two statements and the second
 one reads the held count from its own snapshot before it takes a row: reclaim,
 count, take. A poll may also die between any two of them. SKIP LOCKED lets a take
 pass over rows another statement has locked, so a take may pick any queued row,
 or none.
 */
module TaskFleet {
  import opened Wrappers
  import opened TaskQueue

  /** `admitted` is the start time of the lease statement once its count came in under the cap. */
  datatype Poll = Poll(agent: int, cap: int, admitted: Option<int>)

  datatype Step =
    | Enqueue(offer: Offer)
    | PollReclaim(poll: nat, agent: int, maxConcurrent: int)
    | PollCount(poll: nat)
    | PollTake(poll: nat, row: Option<int>)
    | PollAbandon(poll: nat)
    | Renew(agent: int)
    | Progress(agent: int, task: int, line: string)
    | Close(agent: int, task: int, completed: bool, reason: string)
    | Delete(task: int)

  datatype Event = Event(at: int, step: Step)

  datatype Fleet = Fleet(rows: Rows, nextId: int, polls: map<nat, Poll>, now: int)

  function Start(now: int): Fleet {
    Fleet(map[], 1, map[], now)
  }

  predicate Enabled(s: Fleet, e: Event) {
    && s.now <= e.at
    && match e.step
       case PollReclaim(p, _, _) => p !in s.polls
       case PollCount(p) => p in s.polls && s.polls[p].admitted.None?
       case PollTake(p, row) =>
         && p in s.polls && s.polls[p].admitted.Some?
         && (row.Some? ==> row.value in QueuedIds(s.rows))
       case PollAbandon(p) => p in s.polls
       case _ => true
  }

  function Next(s: Fleet, e: Event): Fleet
    requires Enabled(s, e)
  {
    var s := s.(now := e.at);
    match e.step
    case Enqueue(offer) =>
      s.(nextId := s.nextId + 1,
         rows := if exists id :: id in s.rows && s.rows[id].offer.infoHash == offer.infoHash then s.rows
                 else s.rows[s.nextId := NewTask(offer, e.at)])
    case PollReclaim(p, agent, maxConcurrent) =>
      s.(rows := Reclaimed(s.rows, e.at),
         polls := s.polls[p := Poll(agent, EffectiveCap(maxConcurrent), None)])
    case PollCount(p) =>
      var poll := s.polls[p];
      s.(polls := if |HeldIds(s.rows, poll.agent)| < poll.cap
                  then s.polls[p := poll.(admitted := Some(e.at))]
                  else s.polls - {p})
    case PollTake(p, row) =>
      var poll := s.polls[p];
      s.(polls := s.polls - {p},
         rows := if row.Some?
                 then s.rows[row.value := LeasedRow(s.rows[row.value], poll.agent, poll.admitted.value)]
                 else s.rows)
    case PollAbandon(p) => s.(polls := s.polls - {p})
    case Renew(agent) => s.(rows := Renewed(s.rows, agent, e.at))
    case Progress(agent, task, line) => s.(rows := WithProgress(s.rows, agent, task, line))
    case Close(agent, task, completed, reason) =>
      s.(rows := WithClosed(s.rows, agent, task, completed, reason, e.at))
    case Delete(task) => s.(rows := s.rows - {task})
  }

  predicate ValidRun(s: Fleet, run: seq<Event>)
    decreases run
  {
    run == [] || (Enabled(s, run[0]) && ValidRun(Next(s, run[0]), run[1..]))
  }

  function After(s: Fleet, run: seq<Event>): Fleet
    requires ValidRun(s, run)
    decreases run
  {
    if run == [] then s else After(Next(s, run[0]), run[1..])
  }

  ghost predicate Consistent(s: Fleet) {
    0 < s.nextId && WellFormed(s.rows, s.nextId)
  }

  lemma EnqueueConsistent(s: Fleet, e: Event)
    requires Consistent(s) && Enabled(s, e) && e.step.Enqueue?
    ensures Consistent(Next(s, e))
  {
  }

  lemma ReclaimConsistent(rows: Rows, nextId: int, now: int)
    requires WellFormed(rows, nextId)
    ensures WellFormed(Reclaimed(rows, now), nextId)
  {
  }

  /** A row changed in place, in a way its own columns allow. */
  lemma ChangeConsistent(rows: Rows, nextId: int, id: int, t: Task)
    requires WellFormed(rows, nextId) && id in rows && t.offer == rows[id].offer
    requires t.state == Leased ==> t.leasedAgent.Some? && t.leasedAt.Some?
    requires t.state == Queued ==> t.leasedAgent.None? && t.leasedAt.None?
    requires t.Finished() <==> t.completedAt.Some?
    ensures WellFormed(rows[id := t], nextId)
  {
  }

  lemma TakeConsistent(s: Fleet, e: Event)
    requires Consistent(s) && Enabled(s, e) && e.step.PollTake? && e.step.row.Some?
    ensures Consistent(Next(s, e))
  {
    var id, poll := e.step.row.value, s.polls[e.step.poll];
    assert !s.rows[id].Finished();
    ChangeConsistent(s.rows, s.nextId, id, LeasedRow(s.rows[id], poll.agent, poll.admitted.value));
  }

  lemma RenewConsistent(rows: Rows, nextId: int, agent: int, now: int)
    requires WellFormed(rows, nextId)
    ensures WellFormed(Renewed(rows, agent, now), nextId)
  {
  }

  lemma ProgressConsistent(rows: Rows, nextId: int, agent: int, task: int, line: string)
    requires WellFormed(rows, nextId)
    ensures WellFormed(WithProgress(rows, agent, task, line), nextId)
  {
    if task in rows && rows[task].HeldBy(agent) {
      ChangeConsistent(rows, nextId, task, rows[task].(progress := NullIfEmpty(line)));
    }
  }

  lemma CloseConsistent(rows: Rows, nextId: int, agent: int, task: int, completed: bool, reason: string, now: int)
    requires WellFormed(rows, nextId)
    ensures WellFormed(WithClosed(rows, agent, task, completed, reason, now), nextId)
  {
    if task in rows && rows[task].HeldBy(agent) {
      ChangeConsistent(rows, nextId, task, ClosedRow(rows[task], completed, reason, now));
    }
  }

  lemma NextConsistent(s: Fleet, e: Event)
    requires Consistent(s) && Enabled(s, e)
    ensures Consistent(Next(s, e))
  {
    match e.step
    case Enqueue(_) => EnqueueConsistent(s, e);
    case PollReclaim(_, _, _) => ReclaimConsistent(s.rows, s.nextId, e.at);
    case PollCount(_) =>
    case PollTake(_, row) => if row.Some? { TakeConsistent(s, e); }
    case PollAbandon(_) =>
    case Renew(agent) => RenewConsistent(s.rows, s.nextId, agent, e.at);
    case Progress(agent, task, line) => ProgressConsistent(s.rows, s.nextId, agent, task, line);
    case Close(agent, task, completed, reason) =>
      CloseConsistent(s.rows, s.nextId, agent, task, completed, reason, e.at);
    case Delete(_) =>
  }

  lemma {:induction false} RunConsistent(s: Fleet, run: seq<Event>)
    requires Consistent(s) && ValidRun(s, run)
    ensures Consistent(After(s, run))
    ensures s.nextId <= After(s, run).nextId
    decreases run
  {
    if run != [] {
      NextConsistent(s, run[0]);
      RunConsistent(Next(s, run[0]), run[1..]);
    }
  }

  // ---- the concurrency cap ----

  function InFlight(s: Fleet, agent: int): set<nat> {
    set p | p in s.polls && s.polls[p].agent == agent
  }

  function Admitted(s: Fleet, agent: int): set<nat> {
    set p | p in s.polls && s.polls[p].agent == agent && s.polls[p].admitted.Some?
  }

  /** What the agent does, checked at every point of the run: never more than k polls
      open, never a cap above n. */
  predicate PollsAtMost(s: Fleet, run: seq<Event>, agent: int, k: nat, n: nat)
    requires ValidRun(s, run)
    decreases run
  {
    && |InFlight(s, agent)| <= k
    && (run != [] ==>
          && (run[0].step.PollReclaim? && run[0].step.agent == agent ==> EffectiveCap(run[0].step.maxConcurrent) <= n)
          && PollsAtMost(Next(s, run[0]), run[1..], agent, k, n))
  }

  /** Leases held plus polls already past their count. */
  ghost predicate CapKept(s: Fleet, agent: int, k: nat, n: nat) {
    && |HeldIds(s.rows, agent)| + |Admitted(s, agent)| <= n + k - 1
    && (forall p | p in InFlight(s, agent) :: s.polls[p].cap <= n)
  }

  lemma CountKeepsCap(s: Fleet, e: Event, agent: int, k: nat, n: nat)
    requires Enabled(s, e) && e.step.PollCount? && CapKept(s, agent, k, n)
    requires |InFlight(s, agent)| <= k
    ensures CapKept(Next(s, e), agent, k, n)
  {
    var s' := Next(s, e);
    var p := e.step.poll;
    assert HeldIds(s'.rows, agent) == HeldIds(s.rows, agent);
    if s.polls[p].agent == agent && p in s'.polls {
      assert Admitted(s', agent) == Admitted(s, agent) + {p};
      SubsetCard(Admitted(s', agent), InFlight(s, agent));
    } else {
      assert Admitted(s', agent) == Admitted(s, agent);
    }
  }

  lemma HeldAfterLease(rows: Rows, id: int, holder: int, at: int, agent: int)
    requires id in rows
    ensures holder == agent ==> HeldIds(rows[id := LeasedRow(rows[id], holder, at)], agent) <= HeldIds(rows, agent) + {id}
    ensures holder != agent ==> HeldIds(rows[id := LeasedRow(rows[id], holder, at)], agent) <= HeldIds(rows, agent)
  {
  }

  lemma TakeAddsAtMostOne(s: Fleet, e: Event, agent: int)
    requires Enabled(s, e) && e.step.PollTake?
    ensures |HeldIds(Next(s, e).rows, agent)|
         <= |HeldIds(s.rows, agent)| + (if s.polls[e.step.poll].agent == agent then 1 else 0)
  {
    var row, poll := e.step.row, s.polls[e.step.poll];
    if row.Some? {
      HeldAfterLease(s.rows, row.value, poll.agent, poll.admitted.value, agent);
      var mine := if poll.agent == agent then {row.value} else {};
      SubsetCard(HeldIds(Next(s, e).rows, agent), HeldIds(s.rows, agent) + mine);
    }
  }

  lemma TakeEndsThePoll(s: Fleet, e: Event, agent: int)
    requires Enabled(s, e) && e.step.PollTake?
    ensures |Admitted(Next(s, e), agent)|
         == |Admitted(s, agent)| - (if s.polls[e.step.poll].agent == agent then 1 else 0)
  {
    var p := e.step.poll;
    if s.polls[p].agent == agent {
      assert Admitted(Next(s, e), agent) == Admitted(s, agent) - {p};
    } else {
      assert Admitted(Next(s, e), agent) == Admitted(s, agent);
    }
  }

  lemma TakeKeepsCap(s: Fleet, e: Event, agent: int, k: nat, n: nat)
    requires Enabled(s, e) && e.step.PollTake? && CapKept(s, agent, k, n)
    ensures CapKept(Next(s, e), agent, k, n)
  {
    TakeAddsAtMostOne(s, e, agent);
    TakeEndsThePoll(s, e, agent);
  }

  /** No step but a take gives an agent a row. */
  lemma OnlyTakesLease(s: Fleet, e: Event, agent: int)
    requires Enabled(s, e) && !e.step.PollTake?
    ensures HeldIds(Next(s, e).rows, agent) <= HeldIds(s.rows, agent)
  {
    var rows' := Next(s, e).rows;
    forall id | id in rows' && rows'[id].HeldBy(agent) ensures id in s.rows && s.rows[id].HeldBy(agent) {
      match e.step
      case Enqueue(offer) => assert rows' == s.rows || rows' == s.rows[s.nextId := NewTask(offer, e.at)];
      case _ =>
    }
  }

  lemma NextKeepsCap(s: Fleet, e: Event, agent: int, k: nat, n: nat)
    requires Enabled(s, e) && CapKept(s, agent, k, n) && |InFlight(s, agent)| <= k
    requires e.step.PollReclaim? && e.step.agent == agent ==> EffectiveCap(e.step.maxConcurrent) <= n
    ensures CapKept(Next(s, e), agent, k, n)
  {
    if e.step.PollCount? {
      CountKeepsCap(s, e, agent, k, n);
    } else if e.step.PollTake? {
      TakeKeepsCap(s, e, agent, k, n);
    } else {
      var s' := Next(s, e);
      OnlyTakesLease(s, e, agent);
      SubsetCard(HeldIds(s'.rows, agent), HeldIds(s.rows, agent));
      SubsetCard(Admitted(s', agent), Admitted(s, agent));
    }
  }

  lemma {:induction false} RunKeepsCap(s: Fleet, run: seq<Event>, agent: int, k: nat, n: nat)
    requires ValidRun(s, run) && PollsAtMost(s, run, agent, k, n) && CapKept(s, agent, k, n)
    ensures CapKept(After(s, run), agent, k, n)
    decreases run
  {
    if run != [] {
      NextKeepsCap(s, run[0], agent, k, n);
      RunKeepsCap(Next(s, run[0]), run[1..], agent, k, n);
    }
  }

  /** An agent with at most k polls open and no cap above n never holds more than n + k - 1
      leases, whatever the interleaving. One poll at a time gives the configured cap; TaskCap shows the
      bound is reached for every k and n. */
  lemma LeasesStayUnderTheCap(now: int, run: seq<Event>, agent: int, k: nat, n: nat)
    requires 1 <= k
    requires ValidRun(Start(now), run) && PollsAtMost(Start(now), run, agent, k, n)
    ensures |HeldIds(After(Start(now), run).rows, agent)| <= n + k - 1
  {
    assert HeldIds(Start(now).rows, agent) == {} && Admitted(Start(now), agent) == {};
    RunKeepsCap(Start(now), run, agent, k, n);
  }
}
