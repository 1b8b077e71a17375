/**
 What a queue row goes through over a whole run: who may hold it and for how long,
 which reports still reach it, and how rows are counted.
 */
module TaskLife {
  import opened Wrappers
  import opened TaskQueue
  import opened TaskFleet

  // ---- keeping a lease ----

  /** The last time the agent renewed, starting from the time on its lease. */
  function LastSpoke(run: seq<Event>, agent: int, spoke: int): int {
    if run == [] then spoke
    else LastSpoke(run[1..], agent, if run[0].step == Renew(agent) then run[0].at else spoke)
  }

  /** No reclaim of the run comes more than the TTL after the agent's last renewal before it. */
  predicate Attentive(run: seq<Event>, agent: int, spoke: int) {
    run == [] || (
      && (run[0].step.PollReclaim? ==> run[0].at - spoke <= TASK_LEASE_TTL)
      && Attentive(run[1..], agent, if run[0].step == Renew(agent) then run[0].at else spoke))
  }

  /** The agent holds the task under a lease last stamped at `spoke`. */
  predicate Holds(s: Fleet, agent: int, id: int, spoke: int) {
    id in s.rows && s.rows[id].HeldBy(agent) && s.rows[id].leasedAt == Some(spoke)
  }

  /** The task is over for everyone: closed, or deleted (ids are never drawn twice). */
  predicate Over(s: Fleet, id: int) {
    if id in s.rows then s.rows[id].Finished() else 0 < id < s.nextId
  }

  lemma OverStays(s: Fleet, e: Event, id: int)
    requires Consistent(s) && Enabled(s, e) && Over(s, id)
    ensures Over(Next(s, e), id)
    ensures id in Next(s, e).rows ==> id in s.rows && Next(s, e).rows[id] == s.rows[id]
  {
  }

  lemma HoldsStep(s: Fleet, e: Event, agent: int, id: int, spoke: int)
    requires Consistent(s) && Enabled(s, e) && Holds(s, agent, id, spoke)
    ensures var s' := Next(s, e);
            if e.step == Delete(id) || (e.step.Close? && e.step.agent == agent && e.step.task == id) then Over(s', id)
            else if e.step.PollReclaim? && spoke < e.at - TASK_LEASE_TTL then id in QueuedIds(s'.rows)
            else Holds(s', agent, id, if e.step == Renew(agent) then e.at else spoke)
  {
  }

  /** An agent whose renewals never leave a reclaim more than the TTL behind keeps the lease,
      stamped with its last renewal, until the task is closed or deleted. */
  lemma {:induction false} AttentiveAgentKeepsItsLease(s: Fleet, run: seq<Event>, agent: int, id: int, spoke: int)
    requires Consistent(s) && ValidRun(s, run) && Attentive(run, agent, spoke)
    requires Holds(s, agent, id, spoke) || Over(s, id)
    ensures Holds(After(s, run), agent, id, LastSpoke(run, agent, spoke)) || Over(After(s, run), id)
    ensures id in After(s, run).rows && Over(s, id) ==> id in s.rows && After(s, run).rows[id] == s.rows[id]
    decreases run
  {
    if run != [] {
      var spoke' := if run[0].step == Renew(agent) then run[0].at else spoke;
      NextConsistent(s, run[0]);
      if Over(s, id) {
        OverStays(s, run[0], id);
      } else {
        HoldsStep(s, run[0], agent, id, spoke);
      }
      AttentiveAgentKeepsItsLease(Next(s, run[0]), run[1..], agent, id, spoke');
    }
  }

  /** The bound is exact: after such a run, the next reclaim takes the lease away if and only if
      the agent has been silent for more than the TTL. */
  lemma ReclaimTakesExactlySilentLeases(s: Fleet, run: seq<Event>, agent: int, id: int, spoke: int, e: Event)
    requires Consistent(s) && ValidRun(s, run) && Attentive(run, agent, spoke) && Holds(s, agent, id, spoke)
    requires Enabled(After(s, run), e) && e.step.PollReclaim?
    requires !Over(After(s, run), id)
    ensures var after := Next(After(s, run), e).rows;
            && id in after
            && (after[id].state == Queued <==> e.at - LastSpoke(run, agent, spoke) > TASK_LEASE_TTL)
            && (after[id].HeldBy(agent) <==> e.at - LastSpoke(run, agent, spoke) <= TASK_LEASE_TTL)
  {
    AttentiveAgentKeepsItsLease(s, run, agent, id, spoke);
  }

  /** A task held by one agent is later held by another only if some reclaim found the first one
      silent for more than the TTL. */
  lemma HandoverNeedsSilence(s: Fleet, run: seq<Event>, agent: int, id: int, spoke: int, other: int)
    requires Consistent(s) && ValidRun(s, run) && Holds(s, agent, id, spoke)
    requires id in After(s, run).rows && After(s, run).rows[id].HeldBy(other) && other != agent
    ensures !Attentive(run, agent, spoke)
  {
    if Attentive(run, agent, spoke) {
      AttentiveAgentKeepsItsLease(s, run, agent, id, spoke);
    }
  }

  // ---- the fence ----

  /** Some take of the run leases the task to the agent. */
  predicate LeasedAgain(s: Fleet, run: seq<Event>, agent: int, id: int)
    requires ValidRun(s, run)
    decreases run
  {
    run != [] && (
      || (&& run[0].step.PollTake? && run[0].step.row == Some(id)
          && s.polls[run[0].step.poll].agent == agent)
      || LeasedAgain(Next(s, run[0]), run[1..], agent, id))
  }

  /** Once a task is not the agent's, its reports about the task change nothing, however the run
      goes on, until a take hands it that very task again. */
  lemma {:induction false} ReportsAfterHandoverChangeNothing(
      s: Fleet, run: seq<Event>, agent: int, id: int, line: string, completed: bool, reason: string, at: int)
    requires ValidRun(s, run) && !(id in s.rows && s.rows[id].HeldBy(agent))
    requires !LeasedAgain(s, run, agent, id)
    ensures var rows := After(s, run).rows;
            && !(id in rows && rows[id].HeldBy(agent))
            && WithProgress(rows, agent, id, line) == rows
            && WithClosed(rows, agent, id, completed, reason, at) == rows
    decreases run
  {
    if run != [] {
      var s' := Next(s, run[0]);
      assert !(id in s'.rows && s'.rows[id].HeldBy(agent)) by {
        if !run[0].step.PollTake? {
          OnlyTakesLease(s, run[0], agent);
          assert id !in HeldIds(s.rows, agent) && id !in HeldIds(s'.rows, agent);
        }
      }
      ReportsAfterHandoverChangeNothing(s', run[1..], agent, id, line, completed, reason, at);
    }
  }

  /** A poll of the agent, run through, that comes back with the task. */
  function PollFor(at: int, poll: nat, agent: int, maxConcurrent: int, id: int): seq<Event> {
    [Event(at, PollReclaim(poll, agent, maxConcurrent)), Event(at, PollCount(poll)), Event(at, PollTake(poll, Some(id)))]
  }

  lemma RunOfOne(s: Fleet, a: Event)
    requires Enabled(s, a)
    ensures ValidRun(s, [a]) && After(s, [a]) == Next(s, a)
  {
    assert [a][1..] == [];
  }

  lemma RunOfThree(s: Fleet, a: Event, b: Event, c: Event)
    requires Enabled(s, a) && Enabled(Next(s, a), b) && Enabled(Next(Next(s, a), b), c)
    ensures ValidRun(s, [a, b, c]) && After(s, [a, b, c]) == Next(Next(Next(s, a), b), c)
  {
    RunOfOne(Next(Next(s, a), b), c);
    assert [a, b, c][1..] == [b, c] && [b, c][1..] == [c];
    assert ValidRun(Next(s, a), [b, c]);
  }

  /** The fence is the agent id and nothing finer. Whatever run came before, when an agent's lease has gone
      stale its own next poll takes it away, when its report would change nothing, and may lease it the
      same task again: a report left over from the first lease then closes the second. */
  lemma LeasesCarryNoEpoch(start: int, past: seq<Event>, agent: int, id: int, spoke: int, poll: nat,
                           maxConcurrent: int, at: int)
    requires ValidRun(Start(start), past)
    requires var s := After(Start(start), past);
             && Holds(s, agent, id, spoke) && s.now <= at && TASK_LEASE_TTL < at - spoke && poll !in s.polls
             && |HeldIds(Reclaimed(s.rows, at), agent)| < EffectiveCap(maxConcurrent)
    ensures var s, run := After(Start(start), past), PollFor(at, poll, agent, maxConcurrent, id);
            && Enabled(s, run[0]) && ValidRun(s, run)
            && WithClosed(Next(s, run[0]).rows, agent, id, true, "", at) == Next(s, run[0]).rows
            && Holds(After(s, run), agent, id, at)
            && WithClosed(After(s, run).rows, agent, id, true, "", at)[id].state == Completed
  {
    var s, run := After(Start(start), past), PollFor(at, poll, agent, maxConcurrent, id);
    assert Reclaimed(s.rows, at)[id].state == Queued;
    RunOfThree(s, run[0], run[1], run[2]);
  }

  // ---- the life of a row ----

  predicate Follows(t: Task, t': Task) {
    && t'.offer == t.offer && t'.createdAt == t.createdAt
    && (t'.state != t.state ==>
          || (t.state == Queued && t'.state == Leased)
          || (t.state == Leased && t'.state != Leased))
    && (t.Finished() ==> t' == t)
  }

  lemma RowsFollow(s: Fleet, e: Event, id: int)
    requires Enabled(s, e) && id in s.rows
    ensures id in Next(s, e).rows <==> e.step != Delete(id)
    ensures id in Next(s, e).rows && id < s.nextId ==> Follows(s.rows[id], Next(s, e).rows[id])
  {
  }

  predicate Deletes(run: seq<Event>, id: int) {
    exists e :: e in run && e.step == Delete(id)
  }

  /** An accepted info hash keeps its one row until an operator deletes that row, and until then
      every later offer of it is refused. */
  lemma {:induction false} AcceptedHashBlocksUntilDeleted(s: Fleet, run: seq<Event>, id: int, offer: Offer, at: int)
    requires Consistent(s) && ValidRun(s, run) && id in s.rows && !Deletes(run, id)
    requires offer.infoHash == s.rows[id].offer.infoHash && After(s, run).now <= at
    ensures var end := After(s, run);
            && id in end.rows && end.rows[id].offer == s.rows[id].offer
            && (forall other | other in end.rows && end.rows[other].offer.infoHash == offer.infoHash :: other == id)
            && Next(end, Event(at, Enqueue(offer))).rows == end.rows
    decreases run
  {
    if run == [] {
    } else {
      assert run[0] in run;
      NextConsistent(s, run[0]);
      RowsFollow(s, run[0], id);
      AcceptedHashBlocksUntilDeleted(Next(s, run[0]), run[1..], id, offer, at);
    }
  }

  /** CloseTask's answer to the event: did it close the task? */
  predicate Closes(s: Fleet, e: Event, id: int) {
    e.step.Close? && e.step.task == id && id in s.rows && s.rows[id].HeldBy(e.step.agent)
  }

  function TimesClosed(s: Fleet, run: seq<Event>, id: int): nat
    requires ValidRun(s, run)
    decreases run
  {
    if run == [] then 0
    else (if Closes(s, run[0], id) then 1 else 0) + TimesClosed(Next(s, run[0]), run[1..], id)
  }

  /** A row is closed at most once, and what a finished row says never changes again. */
  lemma {:induction false} ClosedOnceForGood(s: Fleet, run: seq<Event>, id: int)
    requires Consistent(s) && ValidRun(s, run)
    ensures TimesClosed(s, run, id) <= if Over(s, id) then 0 else 1
    ensures Over(s, id) ==> Over(After(s, run), id)
    ensures Over(s, id) && id in After(s, run).rows ==> id in s.rows && After(s, run).rows[id] == s.rows[id]
    decreases run
  {
    if run != [] {
      NextConsistent(s, run[0]);
      if Over(s, id) {
        OverStays(s, run[0], id);
      }
      ClosedOnceForGood(Next(s, run[0]), run[1..], id);
    }
  }

  /** Only the holder's close finishes a row. */
  lemma OnlyAClosingFinishes(s: Fleet, e: Event, id: int)
    requires Enabled(s, e) && id in s.rows && !s.rows[id].Finished() && id < s.nextId
    ensures id in Next(s, e).rows ==> (Next(s, e).rows[id].Finished() <==> Closes(s, e, id))
  {
  }

  /** Over any run, an open row that is still in the table at the end is finished if and only if some agent
      closed it while holding it, once. */
  lemma {:induction false} FinishedMeansClosedOnce(s: Fleet, run: seq<Event>, id: int)
    requires Consistent(s) && ValidRun(s, run) && id in s.rows && !s.rows[id].Finished()
    ensures id in After(s, run).rows ==> (After(s, run).rows[id].Finished() <==> TimesClosed(s, run, id) == 1)
    decreases run
  {
    if run != [] {
      var s' := Next(s, run[0]);
      NextConsistent(s, run[0]);
      OnlyAClosingFinishes(s, run[0], id);
      RowsFollow(s, run[0], id);
      if id in s'.rows && !s'.rows[id].Finished() {
        FinishedMeansClosedOnce(s', run[1..], id);
      } else {
        GoneOrDone(s, run[0], id);
        ClosedOnceForGood(s', run[1..], id);
      }
    }
  }

  lemma GoneOrDone(s: Fleet, e: Event, id: int)
    requires Consistent(s) && Enabled(s, e) && id in s.rows
    requires id !in Next(s, e).rows || Next(s, e).rows[id].Finished()
    ensures Over(Next(s, e), id)
  {
  }

  /** The event of the run that closed the task, if one did. */
  function Closing(s: Fleet, run: seq<Event>, id: int): Option<Event>
    requires ValidRun(s, run)
    decreases run
  {
    if run == [] then None
    else if Closes(s, run[0], id) then Some(run[0])
    else Closing(Next(s, run[0]), run[1..], id)
  }

  /** What a finished row says of the report that finished it. */
  predicate Tells(t: Task, closing: Event)
    requires closing.step.Close?
  {
    && t.state == (if closing.step.completed then Completed else Failed)
    && t.failReason == (if closing.step.reason == "" then None else Some(closing.step.reason))
    && t.completedAt == Some(closing.at)
  }

  lemma ClosingTells(s: Fleet, e: Event, id: int)
    requires Enabled(s, e) && Closes(s, e, id)
    ensures id in Next(s, e).rows && Tells(Next(s, e).rows[id], e)
  {
  }

  /** Over any run an open row still in the table at the end is completed exactly when its one closing
      reported success, failed exactly when it reported failure, and carries that report's reason and time. */
  lemma {:induction false} RowsTellOfTheirClosing(s: Fleet, run: seq<Event>, id: int)
    requires Consistent(s) && ValidRun(s, run) && id in s.rows && !s.rows[id].Finished()
    ensures Closing(s, run, id).Some? ==> Closing(s, run, id).value.step.Close?
    ensures id in After(s, run).rows ==>
              var t, closing := After(s, run).rows[id], Closing(s, run, id);
              && (t.state == Completed <==> closing.Some? && closing.value.step.completed)
              && (t.state == Failed <==> closing.Some? && !closing.value.step.completed)
              && (closing.Some? ==> Tells(t, closing.value))
    decreases run
  {
    if run != [] {
      var s' := Next(s, run[0]);
      NextConsistent(s, run[0]);
      OnlyAClosingFinishes(s, run[0], id);
      RowsFollow(s, run[0], id);
      if Closes(s, run[0], id) {
        ClosingTells(s, run[0], id);
        GoneOrDone(s, run[0], id);
        ClosedOnceForGood(s', run[1..], id);
      } else if id in s'.rows {
        RowsTellOfTheirClosing(s', run[1..], id);
      } else {
        GoneOrDone(s, run[0], id);
        GoneIsNotClosed(s', run[1..], id);
        ClosedOnceForGood(s', run[1..], id);
      }
    }
  }

  lemma {:induction false} GoneIsNotClosed(s: Fleet, run: seq<Event>, id: int)
    requires Consistent(s) && ValidRun(s, run) && Over(s, id)
    ensures Closing(s, run, id).None?
    decreases run
  {
    if run != [] {
      NextConsistent(s, run[0]);
      OverStays(s, run[0], id);
      GoneIsNotClosed(Next(s, run[0]), run[1..], id);
    }
  }

  // ---- who writes what ----

  /** Each column of a row has one kind of writer: the holder's progress report, the holder's close, and
      for the lease a reclaim of a stale one, a take, or the holder's renewal. */
  lemma ColumnsHaveTheirWriters(s: Fleet, e: Event, id: int)
    requires Enabled(s, e) && id in s.rows && id in Next(s, e).rows && id < s.nextId
    ensures var t, t' := s.rows[id], Next(s, e).rows[id];
            && (t'.progress != t.progress ==> e.step.Progress? && e.step.task == id && t.HeldBy(e.step.agent))
            && (t'.failReason != t.failReason || t'.completedAt != t.completedAt ==> Closes(s, e, id))
            && (t'.leasedAgent != t.leasedAgent ==>
                  || (e.step.PollReclaim? && t.Stale(e.at)) || (e.step.PollTake? && e.step.row == Some(id)))
            && (t'.leasedAt != t.leasedAt ==>
                  || (e.step.PollReclaim? && t.Stale(e.at)) || (e.step.PollTake? && e.step.row == Some(id))
                  || (e.step.Renew? && t.HeldBy(e.step.agent) && t'.leasedAt == Some(e.at)))
    ensures e.step.Progress? && e.step.task == id && s.rows[id].HeldBy(e.step.agent) ==>
              Next(s, e).rows[id].progress == if e.step.line == "" then None else Some(e.step.line)
    ensures e.step.PollTake? && e.step.row == Some(id) ==>
              Next(s, e).rows[id].HeldBy(s.polls[e.step.poll].agent)
              && Next(s, e).rows[id].leasedAt == s.polls[e.step.poll].admitted
  {
  }

  // ---- first accepted, first served ----

  /** The event that put the row in the table. */
  ghost function Accepting(s: Fleet, run: seq<Event>, id: int): Option<Event>
    requires ValidRun(s, run)
    decreases run
  {
    if run == [] then None
    else if TakesOffer(s, run[0]) && id == s.nextId then Some(run[0])
    else Accepting(Next(s, run[0]), run[1..], id)
  }

  lemma AcceptedRow(s: Fleet, e: Event)
    requires Consistent(s) && Enabled(s, e) && TakesOffer(s, e)
    ensures s.nextId in Next(s, e).rows && s.nextId !in s.rows
    ensures Next(s, e).rows[s.nextId].createdAt == e.at && Next(s, e).rows[s.nextId].offer == e.step.offer
  {
  }

  lemma OnlyAcceptedRowsAppear(s: Fleet, e: Event, id: int)
    requires Enabled(s, e) && id !in s.rows && id in Next(s, e).rows
    ensures TakesOffer(s, e) && id == s.nextId
  {
  }

  /** A row keeps what it was accepted with, as long as it is there. */
  lemma {:induction false} RowsKeepTheirOrigin(s: Fleet, run: seq<Event>, id: int)
    requires Consistent(s) && ValidRun(s, run) && id in s.rows && id in After(s, run).rows
    ensures After(s, run).rows[id].createdAt == s.rows[id].createdAt
    ensures After(s, run).rows[id].offer == s.rows[id].offer
    decreases run
  {
    if run != [] {
      NextConsistent(s, run[0]);
      RowsFollow(s, run[0], id);
      if id in Next(s, run[0]).rows {
        RowsKeepTheirOrigin(Next(s, run[0]), run[1..], id);
      } else {
        GoneStaysGone(Next(s, run[0]), run[1..], id);
      }
    }
  }

  lemma {:induction false} GoneStaysGone(s: Fleet, run: seq<Event>, id: int)
    requires Consistent(s) && ValidRun(s, run) && id !in s.rows && id < s.nextId
    ensures id !in After(s, run).rows
    decreases run
  {
    if run != [] {
      NextConsistent(s, run[0]);
      if id in Next(s, run[0]).rows {
        OnlyAcceptedRowsAppear(s, run[0], id);
      }
      GoneStaysGone(Next(s, run[0]), run[1..], id);
    }
  }

  /** Every row the run added is stamped with the time it was accepted and carries the offer accepted. */
  lemma {:induction false} RowsRememberTheirAcceptance(s: Fleet, run: seq<Event>, id: int)
    requires Consistent(s) && ValidRun(s, run) && id !in s.rows && id in After(s, run).rows
    ensures var e := Accepting(s, run, id);
            && e.Some? && e.value.step.Enqueue?
            && After(s, run).rows[id].createdAt == e.value.at && After(s, run).rows[id].offer == e.value.step.offer
    decreases run
  {
    if run != [] {
      var s' := Next(s, run[0]);
      NextConsistent(s, run[0]);
      if id in s'.rows {
        OnlyAcceptedRowsAppear(s, run[0], id);
        AcceptedRow(s, run[0]);
        RowsKeepTheirOrigin(s', run[1..], id);
      } else {
        if TakesOffer(s, run[0]) { AcceptedRow(s, run[0]); }
        RowsRememberTheirAcceptance(s', run[1..], id);
      }
    }
  }

  /** After any run, the row a lone poll may lease is one that no queued offer was accepted before. */
  lemma FirstAcceptedFirstServed(start: int, run: seq<Event>, id: int, other: int)
    requires ValidRun(Start(start), run)
    requires var rows := After(Start(start), run).rows; IsOldestQueued(rows, id) && other in QueuedIds(rows)
    ensures var first, second := Accepting(Start(start), run, id), Accepting(Start(start), run, other);
            first.Some? && second.Some? && first.value.at <= second.value.at
  {
    RowsRememberTheirAcceptance(Start(start), run, id);
    RowsRememberTheirAcceptance(Start(start), run, other);
  }

  // ---- counting ----

  /** EnqueueTask's answer to the event: was the offer new? */
  ghost predicate TakesOffer(s: Fleet, e: Event) {
    e.step.Enqueue? && !KnownHash(s.rows, e.step.offer.infoHash)
  }

  predicate DropsRow(s: Fleet, e: Event) {
    e.step.Delete? && e.step.task in s.rows
  }

  ghost function Accepted(s: Fleet, run: seq<Event>): nat
    requires ValidRun(s, run)
    decreases run
  {
    if run == [] then 0
    else (if TakesOffer(s, run[0]) then 1 else 0) + Accepted(Next(s, run[0]), run[1..])
  }

  ghost function Deleted(s: Fleet, run: seq<Event>): nat
    requires ValidRun(s, run)
    decreases run
  {
    if run == [] then 0
    else (if DropsRow(s, run[0]) then 1 else 0) + Deleted(Next(s, run[0]), run[1..])
  }

  lemma RowIds(s: Fleet, e: Event)
    requires Enabled(s, e)
    ensures Next(s, e).rows.Keys
         == (if TakesOffer(s, e) then s.rows.Keys + {s.nextId}
             else if e.step.Delete? then s.rows.Keys - {e.step.task}
             else s.rows.Keys)
  {
  }

  lemma TableSize(s: Fleet, e: Event)
    requires Consistent(s) && Enabled(s, e)
    ensures |Next(s, e).rows.Keys|
         == |s.rows.Keys| + (if TakesOffer(s, e) then 1 else 0) - (if DropsRow(s, e) then 1 else 0)
  {
    RowIds(s, e);
  }

  /** The four counts the roster shows always add up to the offers accepted minus the rows deleted. */
  lemma {:induction false} CountsAddUp(s: Fleet, run: seq<Event>)
    requires Consistent(s) && ValidRun(s, run)
    ensures CountsOf(After(s, run).rows).Total() + Deleted(s, run) == |s.rows.Keys| + Accepted(s, run)
    decreases run
  {
    if run == [] {
      CountsCoverTheTable(s.rows);
      assert |s.rows| == |s.rows.Keys|;
    } else {
      NextConsistent(s, run[0]);
      TableSize(s, run[0]);
      CountsAddUp(Next(s, run[0]), run[1..]);
    }
  }
}
