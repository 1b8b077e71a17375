/**
 The fleet's work queue: one table of torrents to fetch, and the SQL statements
 that run against it (internal/storage/agenttasks.go).

 The table is a map from row id to row. Each statement is one pure function from
 the rows before to the rows after; `AgentTaskStore` holds the rows in a field and
 its methods replace it, one statement at a time.
 */
module TaskQueue {
  import opened Wrappers

  /** TIMESTAMPTZ has microsecond resolution, so that is the unit of every time here. */
  const TASK_LEASE_TTL := 15 * 60 * 1_000_000

  datatype TaskState = Queued | Leased | Completed | Failed

  /** What the dispatcher offers. The info hash is the deduplication key. */
  datatype Offer = Offer(infoHash: string, title: string, requestId: int)

  datatype Task = Task(
    offer: Offer,
    state: TaskState,
    leasedAgent: Option<int>,
    leasedAt: Option<int>,
    progress: Option<string>,
    failReason: Option<string>,
    createdAt: int,
    completedAt: Option<int>
  ) {
    /** The WHERE clause every agent report is fenced by. */
    predicate HeldBy(agent: int) {
      state == Leased && leasedAgent == Some(agent)
    }

    predicate Stale(now: int) {
      state == Leased && leasedAt.Some? && leasedAt.value < now - TASK_LEASE_TTL
    }

    predicate Finished() {
      state == Completed || state == Failed
    }
  }

  type Rows = map<int, Task>

  /** The request id a task is served as; the row's own id stands in when nobody asked for it. */
  function WireRequestId(id: int, t: Task): (wire: int)
    requires 0 < id
    ensures 0 < wire
    ensures wire == t.offer.requestId || (wire == id && t.offer.requestId <= 0)
  {
    if t.offer.requestId > 0 then t.offer.requestId else id
  }

  // ---- the statements ----

  function NewTask(offer: Offer, now: int): Task {
    Task(offer, Queued, None, None, None, None, now, None)
  }

  ghost predicate KnownHash(rows: Rows, hash: string) {
    exists id :: id in rows && rows[id].offer.infoHash == hash
  }

  function Reclaimed(rows: Rows, now: int): Rows {
    map id | id in rows ::
      if rows[id].Stale(now) then rows[id].(state := Queued, leasedAgent := None, leasedAt := None)
      else rows[id]
  }

  function HeldIds(rows: Rows, agent: int): set<int> {
    set id | id in rows && rows[id].HeldBy(agent)
  }

  function QueuedIds(rows: Rows): set<int> {
    set id | id in rows && rows[id].state == Queued
  }

  predicate IsOldestQueued(rows: Rows, id: int) {
    && id in QueuedIds(rows)
    && forall other | other in QueuedIds(rows) :: rows[id].createdAt <= rows[other].createdAt
  }

  function LeasedRow(t: Task, agent: int, now: int): Task {
    t.(state := Leased, leasedAgent := Some(agent), leasedAt := Some(now))
  }

  function EffectiveCap(maxConcurrent: int): (cap: int)
    ensures 1 <= cap && maxConcurrent <= cap && (cap == 1 || cap == maxConcurrent)
  {
    if maxConcurrent < 1 then 1 else maxConcurrent
  }

  function Renewed(rows: Rows, agent: int, now: int): Rows {
    map id | id in rows ::
      if rows[id].HeldBy(agent) then rows[id].(leasedAt := Some(now)) else rows[id]
  }

  lemma RenewingHandsNothingOver(rows: Rows, agent: int, now: int)
    ensures HeldIds(Renewed(rows, agent, now), agent) == HeldIds(rows, agent)
  {
    forall id ensures id in HeldIds(Renewed(rows, agent, now), agent) <==> id in HeldIds(rows, agent) {
      if id in rows && rows[id].HeldBy(agent) {
        assert Renewed(rows, agent, now)[id].HeldBy(agent);
      }
    }
  }

  /** SQL's NULLIF(text, ''). */
  function NullIfEmpty(text: string): Option<string> {
    if text == "" then None else Some(text)
  }

  function WithProgress(rows: Rows, agent: int, task: int, line: string): Rows {
    if task in rows && rows[task].HeldBy(agent)
    then rows[task := rows[task].(progress := NullIfEmpty(line))]
    else rows
  }

  function ClosedRow(t: Task, completed: bool, reason: string, now: int): Task {
    t.(state := if completed then Completed else Failed,
       failReason := NullIfEmpty(reason),
       completedAt := Some(now))
  }

  function WithClosed(rows: Rows, agent: int, task: int, completed: bool, reason: string, now: int): Rows {
    if task in rows && rows[task].HeldBy(agent)
    then rows[task := ClosedRow(rows[task], completed, reason, now)]
    else rows
  }

  function IdsIn(rows: Rows, state: TaskState): set<int> {
    set id | id in rows && rows[id].state == state
  }

  datatype TaskCounts = TaskCounts(queued: nat, leased: nat, completed: nat, failed: nat) {
    function Total(): nat { queued + leased + completed + failed }
  }

  function CountsOf(rows: Rows): TaskCounts {
    TaskCounts(|IdsIn(rows, Queued)|, |IdsIn(rows, Leased)|,
               |IdsIn(rows, Completed)|, |IdsIn(rows, Failed)|)
  }

  /** The four states partition the table. */
  lemma CountsCoverTheTable(rows: Rows)
    ensures CountsOf(rows).Total() == |rows|
  {
    var q, l := IdsIn(rows, Queued), IdsIn(rows, Leased);
    var c, f := IdsIn(rows, Completed), IdsIn(rows, Failed);
    assert rows.Keys == (q + l) + (c + f) by {
      forall id | id in rows ensures id in (q + l) + (c + f) {
        match rows[id].state { case Queued => case Leased => case Completed => case Failed => }
      }
    }
    DisjointCards(q, l);
    DisjointCards(c, f);
    DisjointCards(q + l, c + f);
  }

  ghost predicate NoneOlder(rows: Rows, id: int, candidates: set<int>)
    requires id in rows && candidates <= rows.Keys
  {
    forall other | other in candidates :: rows[id].createdAt <= rows[other].createdAt
  }

  /** ORDER BY created_at LIMIT 1 has an answer whenever something is queued. */
  lemma {:induction false} OldestExists(rows: Rows, candidates: set<int>) returns (oldest: int)
    requires 0 < |candidates| && candidates <= rows.Keys
    ensures oldest in candidates && NoneOlder(rows, oldest, candidates)
    decreases |candidates|
  {
    var first := SomeMember(candidates);
    var rest := candidates - {first};
    assert candidates == rest + {first};
    if |rest| == 0 {
      oldest := first;
    } else {
      var second := OldestExists(rows, rest);
      oldest := if rows[first].createdAt <= rows[second].createdAt then first else second;
    }
  }

  /** What every statement keeps of a table it did not create. */
  ghost predicate WellFormed(rows: Rows, nextId: int) {
    && (forall id | id in rows :: 0 < id < nextId)
    && (forall i, j | i in rows && j in rows && rows[i].offer.infoHash == rows[j].offer.infoHash :: i == j)
    && (forall id | id in rows && rows[id].state == Leased :: rows[id].leasedAgent.Some? && rows[id].leasedAt.Some?)
    && (forall id | id in rows && rows[id].state == Queued :: rows[id].leasedAgent.None? && rows[id].leasedAt.None?)
    && (forall id | id in rows :: rows[id].Finished() <==> rows[id].completedAt.Some?)
  }

  class AgentTaskStore {
    var rows: Rows
    /** The BIGSERIAL sequence. Postgres draws from it before it notices a conflict. */
    var nextId: int

    ghost predicate Valid()
      reads this
    {
      0 < nextId && WellFormed(rows, nextId)
    }

    constructor ()
      ensures Valid() && rows == map[]
    {
      rows, nextId := map[], 1;
    }

    method EnqueueTask(offer: Offer, now: int) returns (id: int, queued: bool)
      requires Valid()
      modifies this
      ensures Valid()
      ensures queued <==> !old(KnownHash(rows, offer.infoHash))
      ensures queued ==> id !in old(rows) && 0 < id && rows == old(rows)[id := NewTask(offer, now)]
      ensures !queued ==> id == 0 && rows == old(rows)
      ensures queued ==> id in rows && rows[id].offer == offer && rows[id].state == Queued && rows[id].createdAt == now
      ensures queued ==> rows[id].progress.None? && rows[id].failReason.None? && rows - {id} == old(rows)
    {
      var drawn := nextId;
      nextId := nextId + 1;
      if exists known :: known in rows && rows[known].offer.infoHash == offer.infoHash {
        return 0, false;
      }
      rows := rows[drawn := NewTask(offer, now)];
      return drawn, true;
    }

    /** The reclaim statement: exactly the leases silent for more than the TTL go back. */
    method ReclaimStale(now: int)
      requires Valid()
      modifies this`rows
      ensures Valid()
      ensures rows == Reclaimed(old(rows), now)
      ensures rows.Keys == old(rows).Keys
      ensures forall id | id in rows && old(rows)[id].Stale(now) ::
                rows[id].state == Queued && rows[id].leasedAgent.None? && rows[id].leasedAt.None?
      ensures forall id | id in rows :: !old(rows)[id].Stale(now) ==> rows[id] == old(rows)[id]
    {
      rows := Reclaimed(rows, now);
    }

    /** A poll nobody interleaves with: reclaim, then lease the oldest row under the cap. */
    method LeaseNextTask(agent: int, maxConcurrent: int, now: int) returns (leased: Option<int>)
      requires Valid()
      modifies this`rows
      ensures Valid()
      ensures var open := Reclaimed(old(rows), now);
              && (leased.None? <==> QueuedIds(open) == {} || |HeldIds(open, agent)| >= EffectiveCap(maxConcurrent))
              && (leased.None? ==> rows == open)
              && (leased.Some? ==> (
                  && IsOldestQueued(open, leased.value)
                  && rows == open[leased.value := LeasedRow(open[leased.value], agent, now)]))
      ensures leased.Some? ==>
        var t := rows[leased.value];
        t.HeldBy(agent) && t.leasedAt == Some(now) && t.progress == old(rows)[leased.value].progress
    {
      var cap := if maxConcurrent < 1 then 1 else maxConcurrent;
      ReclaimStale(now);
      var waiting := QueuedIds(rows);
      if |waiting| == 0 || |HeldIds(rows, agent)| >= cap {
        return None;
      }
      ghost var oldest := OldestExists(rows, waiting);
      var id :| id in waiting && IsOldestQueued(rows, id);
      assert !rows[id].Finished();
      rows := rows[id := LeasedRow(rows[id], agent, now)];
      return Some(id);
    }

    method RenewAgentLeases(agent: int, now: int)
      requires Valid()
      modifies this`rows
      ensures Valid()
      ensures rows == Renewed(old(rows), agent, now)
      ensures rows.Keys == old(rows).Keys && HeldIds(rows, agent) == HeldIds(old(rows), agent)
      ensures forall id | id in HeldIds(rows, agent) :: rows[id].leasedAt == Some(now)
      ensures forall id | id in rows :: !old(rows)[id].HeldBy(agent) ==> rows[id] == old(rows)[id]
    {
      RenewingHandsNothingOver(rows, agent, now);
      rows := Renewed(rows, agent, now);
    }

    method RecordTaskProgress(agent: int, task: int, line: string)
      requires Valid()
      modifies this`rows
      ensures Valid()
      ensures rows == WithProgress(old(rows), agent, task, line)
      ensures rows.Keys == old(rows).Keys && forall id | id in rows ::
                if id == task && old(rows)[id].HeldBy(agent)
                then rows[id].progress == (if line == "" then None else Some(line))
                     && rows[id].(progress := None) == old(rows)[id].(progress := None)
                else rows[id] == old(rows)[id]
    {
      if task in rows && rows[task].HeldBy(agent) {
        rows := rows[task := rows[task].(progress := NullIfEmpty(line))];
      }
    }

    /** `ok` is false exactly when the task is not this agent's to close, and then nothing changed. */
    method CloseTask(agent: int, task: int, completed: bool, reason: string, now: int) returns (ok: bool)
      requires Valid()
      modifies this`rows
      ensures Valid()
      ensures ok <==> task in old(rows) && old(rows)[task].HeldBy(agent)
      ensures ok ==> rows == old(rows)[task := ClosedRow(old(rows)[task], completed, reason, now)]
      ensures !ok ==> rows == old(rows)
      ensures ok ==>
        && rows[task].state == (if completed then Completed else Failed)
        && rows[task].failReason == (if reason == "" then None else Some(reason))
        && rows[task].completedAt == Some(now)
        && rows[task].progress == old(rows)[task].progress && rows[task].offer == old(rows)[task].offer
    {
      ok := task in rows && rows[task].HeldBy(agent);
      if ok {
        rows := rows[task := ClosedRow(rows[task], completed, reason, now)];
      }
    }

    method CountTasks() returns (counts: TaskCounts)
      requires Valid()
      ensures counts == CountsOf(rows) && counts.Total() == |rows|
      ensures counts.queued == |set id | id in rows && rows[id].state == Queued|
      ensures counts.leased == |set id | id in rows && rows[id].state == Leased|
      ensures counts.completed == |set id | id in rows && rows[id].state == Completed|
      ensures counts.failed == |set id | id in rows && rows[id].state == Failed|
    {
      CountsCoverTheTable(rows);
      counts := CountsOf(rows);
    }

    method DeleteTask(task: int)
      requires Valid()
      modifies this`rows
      ensures Valid()
      ensures rows == old(rows) - {task}
      ensures task !in rows && forall id | id in old(rows) && id != task :: id in rows && rows[id] == old(rows)[id]
    {
      rows := rows - {task};
    }
  }
}
