/** The playbook_executions table: one execution row per id, and the guarded UPDATEs that move it. */
module PlaybookStore {
  import opened Common
  import opened Text

  datatype Status = Pending | Running | AwaitingApproval | Success | Failed | Abandoned | PermanentlyFailed | NotActioned {
    predicate Terminal() {
      !Pending? && !Running? && !AwaitingApproval?
    }

    /** The statuses mark_playbook_execution_permanently_failed accepts. */
    predicate PermanentFailEligible() {
      Running? || Failed? || AwaitingApproval?
    }
  }

  datatype Execution = Execution(
    playbookId: string,
    alertId: Option<int>,
    status: Status,
    createdAt: int,
    startedAt: Option<int>,
    completedAt: Option<int>,
    stepsLog: seq<string>,
    lastCompletedStep: Option<int>,
    attemptCount: int,
    maxAttempts: int,
    failureReason: Option<string>,
    leaseOwner: Option<string>,
    leaseAcquiredAt: Option<int>,
    leaseHeartbeatAt: Option<int>,
    leaseExpiresAt: Option<int>,
    recoveryCount: int)

  type Table = map<int, Execution>
  type Returned = Option<Execution>

  const DEFAULT_MAX_ATTEMPTS := 3

  /** A row as INSERT leaves it, with the column defaults. */
  function NewExecution(playbookId: string, alertId: Option<int>, createdAt: int): Execution {
    Execution(playbookId, alertId, Pending, createdAt, None, None, [], None, 0, DEFAULT_MAX_ATTEMPTS, None, None, None, None, None, 0)
  }

  /** What a lease-aware worker write stores in the row it is allowed to touch. */
  datatype Write =
    | StepLog
    | Finish(status: Status, at: int)
    | Pause

  /** The columns of the partial unique index over active executions; a NULL alert never clashes. */
  predicate SamePair(a: Execution, b: Execution) {
    a.alertId.Some? && a.alertId == b.alertId && a.playbookId == b.playbookId
  }

  predicate PairTaken(table: Table, playbookId: string, alertId: Option<int>) {
    alertId.Some? && exists id | id in table :: table[id].alertId == alertId && table[id].playbookId == playbookId && !table[id].status.Terminal()
  }

  /** Another execution of the same playbook and alert is active. */
  predicate ActiveElsewhere(table: Table, id: int)
    requires id in table
  {
    exists other | other in table :: other != id && SamePair(table[id], table[other]) && !table[other].status.Terminal()
  }

  const DUPLICATE := "active execution already exists for playbook and alert"

  predicate ValidWrite(write: Write) {
    write.Finish? ==> write.status.Success? || write.status.Failed? || write.status.NotActioned?
  }

  predicate LeaseIsActive(leaseExpiresAt: Option<int>, now: int) {
    leaseExpiresAt.Some? && leaseExpiresAt.value > now
  }

  predicate IsStale(row: Execution, now: int) {
    row.status == Running && row.leaseExpiresAt.Some? && row.leaseExpiresAt.value <= now
  }

  function Unleased(row: Execution): Execution {
    row.(leaseOwner := None, leaseAcquiredAt := None, leaseHeartbeatAt := None, leaseExpiresAt := None)
  }

  function Leased(row: Execution, owner: string, at: int, duration: int): Execution {
    row.(status := Running,
         startedAt := Coalesce(row.startedAt, Some(at)),
         leaseOwner := Some(owner),
         leaseAcquiredAt := Some(at),
         leaseHeartbeatAt := Some(at),
         leaseExpiresAt := Some(at + duration))
  }

  function Resumed(row: Execution, owner: string, log: seq<string>, last: Option<int>, at: int, duration: int): Execution {
    row.(status := Running,
         startedAt := Coalesce(row.startedAt, Some(at)),
         completedAt := None,
         stepsLog := log,
         lastCompletedStep := last,
         leaseOwner := Some(owner),
         leaseAcquiredAt := Some(at),
         leaseHeartbeatAt := Some(at),
         leaseExpiresAt := Some(at + duration))
  }

  function Beaten(row: Execution, at: int, duration: int): Execution {
    row.(leaseHeartbeatAt := Some(at), leaseExpiresAt := Some(at + duration))
  }

  function Recovered(row: Execution, now: int, reason: string): Execution {
    var retry := row.attemptCount < row.maxAttempts;
    Unleased(row).(
      status := if retry then Pending else Failed,
      completedAt := if retry then None else Some(now),
      failureReason := Some(if reason != "" then reason
                            else if retry then "stale lease recovered for retry"
                            else "stale lease exceeded max attempts"),
      attemptCount := row.attemptCount + (if retry then 1 else 0),
      recoveryCount := row.recoveryCount + 1)
  }

  function Written(row: Execution, write: Write, log: seq<string>, last: Option<int>): Execution {
    var logged := row.(stepsLog := log, lastCompletedStep := last);
    match write
    case StepLog => logged
    case Finish(status, at) => logged.(status := status, completedAt := Some(at))
    case Pause => logged.(status := AwaitingApproval, completedAt := None)
  }

  /** The two argument checks every leasing call makes before it touches the table. */
  function LeaseArguments(leaseOwner: string, duration: int): Result<string> {
    var owner := Strip(leaseOwner);
    if owner == "" then Err("lease_owner is required")
    else if duration < 1 then Err("lease_duration_seconds must be at least 1")
    else Ok(owner)
  }

  /** UPDATE ... RETURNING that matched the row, and one that matched none. */
  function Updated(table: Table, id: int, row: Execution): (Table, Returned) {
    (table[id := row], Some(row))
  }

  function Unmatched(table: Table): (Table, Returned) {
    (table, None)
  }

  predicate CanClaim(row: Execution, now: int) {
    row.status == Pending && !LeaseIsActive(row.leaseExpiresAt, now)
  }

  predicate CanResume(row: Execution, now: int) {
    row.status == AwaitingApproval && !LeaseIsActive(row.leaseExpiresAt, now)
  }

  predicate CanBeat(row: Execution, owner: string, now: int) {
    row.status == Running && row.leaseOwner == Some(owner) && LeaseIsActive(row.leaseExpiresAt, now)
  }

  /** The guard of a worker's write checks the owner alone; a blank owner is no guard at all. */
  predicate OwnerAllows(row: Execution, owner: string) {
    owner == "" || row.leaseOwner == Some(owner)
  }

  // The calls below take the owner and the reason as the store has stripped them.

  function Acquire(table: Table, id: int, owner: string, duration: int, now: int): (Table, Returned) {
    if id in table && CanClaim(table[id], now) then Updated(table, id, Leased(table[id], owner, now, duration)) else Unmatched(table)
  }

  function Resume(table: Table, id: int, owner: string, log: seq<string>, last: Option<int>, duration: int, now: int): (Table, Returned) {
    if id in table && CanResume(table[id], now) then Updated(table, id, Resumed(table[id], owner, log, last, now, duration))
    else Unmatched(table)
  }

  function Heartbeat(table: Table, id: int, owner: string, duration: int, now: int): (Table, Returned) {
    if id in table && CanBeat(table[id], owner, now) then Updated(table, id, Beaten(table[id], now, duration)) else Unmatched(table)
  }

  function Release(table: Table, id: int, owner: string): (Table, Returned) {
    if id in table && table[id].leaseOwner == Some(owner) then Updated(table, id, Unleased(table[id])) else Unmatched(table)
  }

  function Recover(table: Table, id: int, reason: string, now: int): (Table, Returned) {
    if id in table && IsStale(table[id], now) then Updated(table, id, Recovered(table[id], now, reason)) else Unmatched(table)
  }

  /** A pause may make a terminal row active again, so the unique index can refuse it. */
  function GuardedWrite(table: Table, id: int, write: Write, log: seq<string>, last: Option<int>, owner: string): (Table, Result<Returned>) {
    if id !in table || !OwnerAllows(table[id], owner) then (table, Ok(None))
    else if write.Pause? && ActiveElsewhere(table, id) then (table, Err(DUPLICATE))
    else (table[id := Written(table[id], write, log, last)], Ok(Some(Written(table[id], write, log, last))))
  }

  /** INSERT of a pending execution under a fresh id; refused while the pair has an active one. */
  function Insert(table: Table, id: int, playbookId: string, alertId: Option<int>, createdAt: int): Table {
    if id in table || PairTaken(table, playbookId, alertId) then table else table[id := NewExecution(playbookId, alertId, createdAt)]
  }

  datatype AbandonOutcome = Abandoned_ | AlreadyAbandoned | NotFound | NotAbandonable(status: Status)

  function AbandonedRow(row: Execution, now: int): Execution {
    row.(status := Abandoned, completedAt := Some(now))
  }

  function Abandon(table: Table, id: int, now: int): (Table, AbandonOutcome) {
    if id !in table then (table, NotFound)
    else if !table[id].status.Terminal() then (table[id := AbandonedRow(table[id], now)], Abandoned_)
    else if table[id].status == Abandoned then (table, AlreadyAbandoned)
    else (table, NotAbandonable(table[id].status))
  }

  function DeadLettered(row: Execution, reason: string, now: int): Execution {
    row.(status := PermanentlyFailed, completedAt := Some(now), failureReason := Some(reason))
  }

  function PermanentlyFail(table: Table, id: int, reason: string, now: int): (Table, Result<Returned>) {
    if id !in table then (table, Ok(None))
    else if table[id].status == PermanentlyFailed then (table, Ok(Some(table[id])))
    else if reason == "" then (table, Err("failure_reason is required"))
    else if table[id].status == Success || table[id].status == Abandoned || table[id].status == NotActioned then
      (table, Err("cannot mark execution as permanently_failed"))
    else if !table[id].status.PermanentFailEligible() then
      (table, Err("permanently_failed is only allowed from running, failed, or awaiting_approval"))
    else (table[id := DeadLettered(table[id], reason, now)], Ok(Some(DeadLettered(table[id], reason, now))))
  }

  /** ORDER BY created_at, id LIMIT 1 FOR UPDATE SKIP LOCKED over the pending rows. */
  ghost predicate IsNextPending(table: Table, locked: set<int>, id: int) {
    IsFirst(PendingIds(table, locked), CreatedAt(table), id)
  }

  function PendingIds(table: Table, locked: set<int>): set<int> {
    set id | id in table && table[id].status == Pending && id !in locked
  }

  function StaleIds(table: Table, locked: set<int>, now: int): set<int> {
    set id | id in table && IsStale(table[id], now) && id !in locked
  }

  function CreatedAt(table: Table): int -> int {
    id => if id in table then table[id].createdAt else 0
  }

  function ExpiresAt(table: Table): int -> int {
    id => if id in table && table[id].leaseExpiresAt.Some? then table[id].leaseExpiresAt.value else 0
  }

  /** The rows a stale sweep locks: the `limit` earliest expiries among the unlocked stale rows. */
  ghost predicate IsStaleBatch(table: Table, locked: set<int>, now: int, limit: nat, batch: seq<int>) {
    var stale := StaleIds(table, locked, now);
    && (forall i :: 0 <= i < |batch| ==> batch[i] in stale)
    && |batch| == Min(limit, |stale|)
    && (forall i, j :: 0 <= i < j < |batch| ==> Before((ExpiresAt(table)(batch[i]), batch[i]), (ExpiresAt(table)(batch[j]), batch[j])))
    && (forall i, id :: 0 <= i < |batch| && id in stale && id !in batch ==> Before((ExpiresAt(table)(batch[i]), batch[i]), (ExpiresAt(table)(id), id)))
  }

  class Store {
    var executions: Table

    constructor ()
      ensures executions == map[]
    {
      executions := map[];
    }

    /** A clash is the database's integrity error. */
    method CreatePlaybookExecution(id: int, playbookId: string, alertId: Option<int>, createdAt: int) returns (r: Result<int>)
      requires id !in executions
      modifies this
      ensures executions == Insert(old(executions), id, playbookId, alertId, createdAt)
      ensures r == if PairTaken(old(executions), playbookId, alertId) then Err(DUPLICATE) else Ok(id)
    {
      if PairTaken(executions, playbookId, alertId) { return Err(DUPLICATE); }
      executions := executions[id := Execution(playbookId, alertId, Pending, createdAt, None, None, [], None, 0, DEFAULT_MAX_ATTEMPTS,
                                               None, None, None, None, None, 0)];
      return Ok(id);
    }

    /** ON CONFLICT DO NOTHING. */
    method CreatePendingPlaybookExecutionOnce(id: int, playbookId: string, alertId: int, createdAt: int) returns (r: Option<int>)
      requires id !in executions
      modifies this
      ensures executions == Insert(old(executions), id, playbookId, Some(alertId), createdAt)
      ensures r == if PairTaken(old(executions), playbookId, Some(alertId)) then None else Some(id)
    {
      var created := CreatePlaybookExecution(id, playbookId, Some(alertId), createdAt);
      return if created.Ok? then Some(created.value) else None;
    }

    method AcquireExecutionLease(id: int, leaseOwner: string, duration: int, now: int) returns (r: Result<Returned>)
      modifies this
      ensures var a := LeaseArguments(leaseOwner, duration);
              if a.Err? then executions == old(executions) && r == Err(a.message)
              else r.Ok? && (executions, r.value) == Acquire(old(executions), id, a.value, duration, now)
    {
      var owner := Strip(leaseOwner);
      if owner == "" { return Err("lease_owner is required"); }
      if duration < 1 { return Err("lease_duration_seconds must be at least 1"); }
      if id !in executions { return Ok(None); }
      var row := executions[id];
      if row.status != Pending { return Ok(None); }
      if LeaseIsActive(row.leaseExpiresAt, now) { return Ok(None); }
      row := row.(status := Running, startedAt := Coalesce(row.startedAt, Some(now)),
                  leaseOwner := Some(owner), leaseAcquiredAt := Some(now), leaseHeartbeatAt := Some(now), leaseExpiresAt := Some(now + duration));
      executions := executions[id := row];
      return Ok(Some(row));
    }

    /** `locked` holds the rows other open transactions have locked. */
    method ClaimNextPendingWithLease(locked: set<int>, leaseOwner: string, duration: int, now: int) returns (r: Result<Returned>)
      modifies this
      ensures var a := LeaseArguments(leaseOwner, duration);
              if a.Err? then executions == old(executions) && r == Err(a.message)
              else if forall id :: id !in PendingIds(old(executions), locked) then executions == old(executions) && r == Ok(None)
              else r.Ok? && exists id :: IsNextPending(old(executions), locked, id)
                                         && (executions, r.value) == Acquire(old(executions), id, a.value, duration, now)
    {
      var owner := Strip(leaseOwner);
      if owner == "" { return Err("lease_owner is required"); }
      if duration < 1 { return Err("lease_duration_seconds must be at least 1"); }
      var candidates := PendingIds(executions, locked);
      if forall id | id in candidates :: false { return Ok(None); }
      FirstExists(candidates, CreatedAt(executions));
      var table := executions;
      var id :| id in candidates && forall other :: other in candidates && other != id ==> Before((table[id].createdAt, id), (table[other].createdAt, other));
      assert IsNextPending(old(executions), locked, id);
      r := AcquireExecutionLease(id, leaseOwner, duration, now);
    }

    method AcquireAwaitingApprovalResumeLease(id: int, leaseOwner: string, log: seq<string>, last: Option<int>, duration: int, now: int)
      returns (r: Result<Returned>)
      modifies this
      ensures var a := LeaseArguments(leaseOwner, duration);
              if a.Err? then executions == old(executions) && r == Err(a.message)
              else r.Ok? && (executions, r.value) == Resume(old(executions), id, a.value, log, last, duration, now)
    {
      var owner := Strip(leaseOwner);
      if owner == "" { return Err("lease_owner is required"); }
      if duration < 1 { return Err("lease_duration_seconds must be at least 1"); }
      if id !in executions { return Ok(None); }
      var row := executions[id];
      if row.status != AwaitingApproval { return Ok(None); }
      if LeaseIsActive(row.leaseExpiresAt, now) { return Ok(None); }
      row := row.(status := Running, startedAt := Coalesce(row.startedAt, Some(now)), completedAt := None,
                  stepsLog := log, lastCompletedStep := last,
                  leaseOwner := Some(owner), leaseAcquiredAt := Some(now), leaseHeartbeatAt := Some(now), leaseExpiresAt := Some(now + duration));
      executions := executions[id := row];
      return Ok(Some(row));
    }

    method HeartbeatExecutionLease(id: int, leaseOwner: string, duration: int, now: int) returns (r: Result<Returned>)
      modifies this
      ensures var a := LeaseArguments(leaseOwner, duration);
              if a.Err? then executions == old(executions) && r == Err(a.message)
              else r.Ok? && (executions, r.value) == Heartbeat(old(executions), id, a.value, duration, now)
    {
      var owner := Strip(leaseOwner);
      if owner == "" { return Err("lease_owner is required"); }
      if duration < 1 { return Err("lease_duration_seconds must be at least 1"); }
      if id in executions && executions[id].status == Running && executions[id].leaseOwner == Some(owner)
         && LeaseIsActive(executions[id].leaseExpiresAt, now) {
        executions := executions[id := executions[id].(leaseHeartbeatAt := Some(now), leaseExpiresAt := Some(now + duration))];
        return Ok(Some(executions[id]));
      }
      return Ok(None);
    }

    method ReleaseExecutionLease(id: int, leaseOwner: string) returns (r: Result<Returned>)
      modifies this
      ensures var owner := Strip(leaseOwner);
              if owner == "" then executions == old(executions) && r.Err?
              else r.Ok? && (executions, r.value) == Release(old(executions), id, owner)
    {
      var owner := Strip(leaseOwner);
      if owner == "" { return Err("lease_owner is required"); }
      if id in executions && executions[id].leaseOwner == Some(owner) {
        executions := executions[id := executions[id].(leaseOwner := None, leaseAcquiredAt := None, leaseHeartbeatAt := None, leaseExpiresAt := None)];
        return Ok(Some(executions[id]));
      }
      return Ok(None);
    }

    method MarkStaleExecutionForRecovery(id: int, reason: string, now: int) returns (r: Returned)
      modifies this
      ensures (executions, r) == Recover(old(executions), id, reason, now)
    {
      if id !in executions { return None; }
      var row := executions[id];
      if row.status != Running || row.leaseExpiresAt.None? { return None; }
      if row.leaseExpiresAt.value > now { return None; }
      if row.attemptCount < row.maxAttempts {
        row := row.(status := Pending, completedAt := None, attemptCount := row.attemptCount + 1,
                    failureReason := Some(if reason != "" then reason else "stale lease recovered for retry"));
      } else {
        row := row.(status := Failed, completedAt := Some(now),
                    failureReason := Some(if reason != "" then reason else "stale lease exceeded max attempts"));
      }
      row := row.(recoveryCount := row.recoveryCount + 1,
                  leaseOwner := None, leaseAcquiredAt := None, leaseHeartbeatAt := None, leaseExpiresAt := None);
      executions := executions[id := row];
      return Some(row);
    }

    /** update_playbook_execution_step_log and the four set_playbook_execution_* writes. */
    method WriteExecution(id: int, write: Write, log: seq<string>, last: Option<int>, leaseOwner: string) returns (r: Result<Returned>)
      requires ValidWrite(write)
      modifies this
      ensures (executions, r) == GuardedWrite(old(executions), id, write, log, last, Strip(leaseOwner))
    {
      if id !in executions { return Ok(None); }
      var row := executions[id];
      var owner := Strip(leaseOwner);
      if owner != "" && row.leaseOwner != Some(owner) { return Ok(None); }
      if write.Pause? && ActiveElsewhere(executions, id) { return Err(DUPLICATE); }
      row := row.(stepsLog := log, lastCompletedStep := last);
      match write {
        case StepLog =>
        case Finish(status, at) => row := row.(status := status, completedAt := Some(at));
        case Pause => row := row.(status := AwaitingApproval, completedAt := None);
      }
      executions := executions[id := row];
      return Ok(Some(row));
    }

    method AbandonPlaybookExecution(id: int, now: int) returns (outcome: AbandonOutcome)
      modifies this
      ensures (executions, outcome) == Abandon(old(executions), id, now)
    {
      if id in executions && !executions[id].status.Terminal() {
        executions := executions[id := executions[id].(status := Abandoned, completedAt := Some(now))];
        return Abandoned_;
      }
      if id !in executions { return NotFound; }
      if executions[id].status == Abandoned { return AlreadyAbandoned; }
      return NotAbandonable(executions[id].status);
    }

    method MarkPermanentlyFailed(id: int, failureReason: string, now: int) returns (r: Result<Returned>)
      modifies this
      ensures (executions, r) == PermanentlyFail(old(executions), id, Strip(failureReason), now)
    {
      if id !in executions { return Ok(None); }
      var row := executions[id];
      if row.status == PermanentlyFailed { return Ok(Some(row)); }
      var reason := Strip(failureReason);
      if reason == "" { return Err("failure_reason is required"); }
      if row.status == Success || row.status == Abandoned || row.status == NotActioned {
        return Err("cannot mark execution as permanently_failed");
      }
      if !row.status.PermanentFailEligible() {
        return Err("permanently_failed is only allowed from running, failed, or awaiting_approval");
      }
      row := row.(status := PermanentlyFailed, completedAt := Some(now), failureReason := Some(reason));
      executions := executions[id := row];
      return Ok(Some(row));
    }
  }
}
