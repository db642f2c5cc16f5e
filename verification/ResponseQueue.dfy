/** response_actions_queue: claims, approval parking, retries and stale recovery of queued response actions. */
module ResponseQueue {
  import opened Common
  import Approvals

  datatype Status = Pending | Running | AwaitingApproval | Success | Failed | Skipped

  datatype Row = Row(
    alertId: Option<int>,
    sourceIp: string,
    action: string,
    idempotencyKey: string,
    status: Status,
    retryCount: int,
    maxRetries: int,
    lastError: Option<string>,
    updatedAt: int)

  type Rows = map<int, Row>
  type Requests = map<int, Approvals.Request>

  const SWEEP_CAP := 100
  const EXHAUSTED := "stale running action exhausted retries"

  function NewRow(alertId: Option<int>, sourceIp: string, action: string, key: string, maxRetries: int, now: int): Row {
    Row(alertId, sourceIp, action, key, Pending, 0, maxRetries, None, now)
  }

  /** One guarded status change of one row. */
  function Transition(rows: Rows, id: int, from: Status, to: Status, lastError: Option<string>, now: int): (Rows, Result<Row>) {
    if id in rows && rows[id].status == from then
      (rows[id := MovedRow(rows[id], to, lastError, now)], Ok(MovedRow(rows[id], to, lastError, now)))
    else (rows, Err("queue action is not in the required status"))
  }

  function MovedRow(row: Row, to: Status, lastError: Option<string>, now: int): Row {
    row.(status := to, lastError := lastError, updatedAt := now)
  }

  function FailedRow(row: Row, message: string, now: int): Row {
    row.(status := Failed, retryCount := row.retryCount + 1, lastError := Some(message), updatedAt := now)
  }

  function Fail(rows: Rows, id: int, message: string, now: int): (Rows, Result<Row>) {
    if id in rows && rows[id].status == Running then (rows[id := FailedRow(rows[id], message, now)], Ok(FailedRow(rows[id], message, now)))
    else (rows, Err("queue action is not running"))
  }

  function Requeue(rows: Rows, id: int, now: int): (Rows, Result<Row>) {
    if id in rows && rows[id].status == Failed && rows[id].retryCount < rows[id].maxRetries then
      (rows[id := RequeuedRow(rows[id], now)], Ok(RequeuedRow(rows[id], now)))
    else (rows, Err("queue action is not retryable"))
  }

  function RequeuedRow(row: Row, now: int): Row {
    row.(status := Pending, updatedAt := now)
  }

  /** Fail, then requeue in the same transaction when the failure is retryable and budget remains. */
  function RecordFailure(rows: Rows, id: int, message: string, retryable: bool, now: int): (Rows, Result<Row>) {
    var (failed, r) := Fail(rows, id, message, now);
    if r.Ok? && retryable && r.value.retryCount < r.value.maxRetries then Requeue(failed, id, now) else (failed, r)
  }

  function ClaimedRow(row: Row, now: int): Row {
    row.(status := Running, updatedAt := now)
  }

  function ClaimedApprovedRow(row: Row, now: int): Row {
    row.(status := Running, lastError := None, updatedAt := now)
  }

  function SkippedRow(row: Row, reason: string, now: int): Row {
    row.(status := Skipped, lastError := Some(reason), updatedAt := now)
  }

  function RecoveredRow(row: Row, now: int): Row {
    if row.retryCount < row.maxRetries then row.(status := Pending, updatedAt := now)
    else row.(status := Failed, lastError := Coalesce(row.lastError, Some(EXHAUSTED)), updatedAt := now)
  }

  predicate HasApproved(requests: Requests, queueId: int, action: string) {
    exists id | id in requests :: Approvals.ForQueue(requests[id], queueId, action) && requests[id].status == Approvals.Approved
  }

  /** The status of the latest request for a queue row and action is `status`. */
  predicate LatestVerdict(requests: Requests, queueId: int, action: string, status: Approvals.Status) {
    exists id | id in requests ::
      Approvals.IsLatest(requests, Approvals.QueueRequests(requests, queueId, action), id) && requests[id].status == status
  }

  predicate Claimable(rows: Rows, requests: Requests, id: int) {
    id in rows && rows[id].status == AwaitingApproval && HasApproved(requests, id, rows[id].action)
  }

  predicate Skippable(rows: Rows, requests: Requests, id: int) {
    && id in rows && rows[id].status == AwaitingApproval
    && (LatestVerdict(requests, id, rows[id].action, Approvals.Denied) || LatestVerdict(requests, id, rows[id].action, Approvals.Expired))
  }

  function SkipReason(rows: Rows, requests: Requests, id: int): string
    requires id in rows
  {
    if LatestVerdict(requests, id, rows[id].action, Approvals.Denied) then "approval denied" else "approval expired"
  }

  predicate StaleRunning(row: Row, now: int, staleAfter: int) {
    row.status == Running && row.updatedAt <= now - staleAfter
  }

  function PendingIds(rows: Rows, locked: set<int>): set<int> {
    set id | id in rows && rows[id].status == Pending && id !in locked
  }

  function ClaimableIds(rows: Rows, requests: Requests, locked: set<int>): set<int> {
    set id | id in rows && Claimable(rows, requests, id) && id !in locked
  }

  function SkippableIds(rows: Rows, requests: Requests, locked: set<int>): set<int> {
    set id | id in rows && Skippable(rows, requests, id) && id !in locked
  }

  function StaleIds(rows: Rows, locked: set<int>, now: int, staleAfter: int): set<int> {
    set id | id in rows && StaleRunning(rows[id], now, staleAfter) && id !in locked
  }

  /** ORDER BY id LIMIT n; no limit when absent. */
  predicate IsLowest(ids: set<int>, limit: Option<int>, batch: set<int>) {
    && batch <= ids
    && |batch| == (if limit.Some? then Min(Max(0, limit.value), |ids|) else |ids|)
    && forall chosen, other :: chosen in batch && other in ids && other !in batch ==> chosen < other
  }

  function SkipBatch(rows: Rows, requests: Requests, batch: set<int>, now: int): Rows {
    map id | id in rows :: if id in batch then SkippedRow(rows[id], SkipReason(rows, requests, id), now) else rows[id]
  }

  function RecoverBatch(rows: Rows, batch: set<int>, now: int): Rows {
    map id | id in rows :: if id in batch then RecoveredRow(rows[id], now) else rows[id]
  }

  class Store {
    var rows: Rows
    var nextId: int

    constructor ()
      ensures rows == map[] && nextId == 1
    {
      rows, nextId := map[], 1;
    }

    /** INSERT ... ON CONFLICT (idempotency_key) DO NOTHING RETURNING id. */
    method InsertAction(alertId: Option<int>, sourceIp: string, action: string, key: string, maxRetries: int, now: int) returns (r: Option<int>)
      modifies this
      ensures if KeyTaken(old(rows), key) then rows == old(rows) && nextId == old(nextId) && r == None
              else rows == old(rows)[old(nextId) := NewRow(alertId, sourceIp, action, key, maxRetries, now)]
                   && nextId == old(nextId) + 1 && r == Some(old(nextId))
    {
      if exists id | id in rows :: rows[id].idempotencyKey == key { return None; }
      rows := rows[nextId := Row(alertId, sourceIp, action, key, Pending, 0, maxRetries, None, now)];
      r := Some(nextId);
      nextId := nextId + 1;
    }

    method ClaimNextPendingAction(locked: set<int>, now: int) returns (r: Option<Row>)
      modifies this`rows
      ensures if PendingIds(old(rows), locked) == {} then rows == old(rows) && r == None
              else exists id :: IsLeast(PendingIds(old(rows), locked), id)
                                && rows == old(rows)[id := ClaimedRow(old(rows)[id], now)] && r == Some(rows[id])
    {
      var candidates := PendingIds(rows, locked);
      if forall id | id in candidates :: false { return None; }
      LeastExists(candidates);
      var id :| IsLeast(candidates, id);
      rows := rows[id := rows[id].(status := Running, updatedAt := now)];
      r := Some(rows[id]);
    }

    method ClaimNextApprovedAwaitingAction(requests: Requests, locked: set<int>, now: int) returns (r: Option<Row>)
      modifies this`rows
      ensures if ClaimableIds(old(rows), requests, locked) == {} then rows == old(rows) && r == None
              else exists id :: IsLeast(ClaimableIds(old(rows), requests, locked), id)
                                && rows == old(rows)[id := ClaimedApprovedRow(old(rows)[id], now)] && r == Some(rows[id])
    {
      var candidates := ClaimableIds(rows, requests, locked);
      if forall id | id in candidates :: false { return None; }
      LeastExists(candidates);
      var id :| IsLeast(candidates, id);
      rows := rows[id := rows[id].(status := Running, lastError := None, updatedAt := now)];
      r := Some(rows[id]);
    }

    method SkipNextTerminalApprovalAction(requests: Requests, locked: set<int>, now: int) returns (r: Option<Row>)
      modifies this`rows
      ensures if SkippableIds(old(rows), requests, locked) == {} then rows == old(rows) && r == None
              else exists id :: IsLeast(SkippableIds(old(rows), requests, locked), id)
                                && rows == old(rows)[id := SkippedRow(old(rows)[id], SkipReason(old(rows), requests, id), now)]
                                && r == Some(rows[id])
    {
      var candidates := SkippableIds(rows, requests, locked);
      if forall id | id in candidates :: false { return None; }
      LeastExists(candidates);
      var id :| IsLeast(candidates, id);
      var reason := if LatestVerdict(requests, id, rows[id].action, Approvals.Denied) then "approval denied" else "approval expired";
      rows := rows[id := rows[id].(status := Skipped, lastError := Some(reason), updatedAt := now)];
      r := Some(rows[id]);
    }

    /** `batch` is the set the locking CTE selected: at most SWEEP_CAP rows, lowest ids first. */
    method SweepTerminalApprovalQueueRows(requests: Requests, locked: set<int>, limit: int, batch: set<int>, now: int)
      returns (swept: map<int, (Row, Approvals.Status)>)
      requires IsLowest(SkippableIds(rows, requests, locked), Some(Clamp(0, limit, SWEEP_CAP)), batch)
      modifies this`rows
      ensures rows == SkipBatch(old(rows), requests, batch, now)
      ensures swept.Keys == batch
      ensures forall id :: id in batch ==>
                swept[id] == (rows[id], if LatestVerdict(requests, id, rows[id].action, Approvals.Denied) then Approvals.Denied else Approvals.Expired)
    {
      rows := map id | id in rows ::
        if id !in batch then rows[id]
        else if LatestVerdict(requests, id, rows[id].action, Approvals.Denied) then SkippedRow(rows[id], "approval denied", now)
        else SkippedRow(rows[id], "approval expired", now);
      assert forall id :: id in rows ==> rows[id] == SkipBatch(old(rows), requests, batch, now)[id];
      swept := map id | id in batch ::
        (rows[id], if LatestVerdict(requests, id, rows[id].action, Approvals.Denied) then Approvals.Denied else Approvals.Expired);
    }

    method TransitionActionStatus(id: int, from: Status, to: Status, lastError: Option<string>, now: int) returns (r: Result<Row>)
      modifies this`rows
      ensures (rows, r) == Transition(old(rows), id, from, to, lastError, now)
    {
      if id !in rows || rows[id].status != from { return Err("queue action is not in the required status"); }
      rows := rows[id := rows[id].(status := to, lastError := lastError, updatedAt := now)];
      return Ok(rows[id]);
    }

    method MarkActionFailed(id: int, message: string, now: int) returns (r: Result<Row>)
      modifies this`rows
      ensures (rows, r) == Fail(old(rows), id, message, now)
    {
      if id !in rows || rows[id].status != Running { return Err("queue action is not running"); }
      rows := rows[id := rows[id].(status := Failed, retryCount := rows[id].retryCount + 1, lastError := Some(message), updatedAt := now)];
      return Ok(rows[id]);
    }

    method RequeueFailedAction(id: int, now: int) returns (r: Result<Row>)
      modifies this`rows
      ensures (rows, r) == Requeue(old(rows), id, now)
    {
      if id !in rows || rows[id].status != Failed || rows[id].retryCount >= rows[id].maxRetries { return Err("queue action is not retryable"); }
      rows := rows[id := rows[id].(status := Pending, updatedAt := now)];
      return Ok(rows[id]);
    }

    method RecordActionFailure(id: int, message: string, retryable: bool, now: int) returns (r: Result<Row>)
      modifies this`rows
      ensures (rows, r) == RecordFailure(old(rows), id, message, retryable, now)
    {
      r := MarkActionFailed(id, message, now);
      if r.Ok? && retryable && r.value.retryCount < r.value.maxRetries {
        r := RequeueFailedAction(id, now);
      }
    }

    /** `batch` is the set the locking CTE selected. */
    method RecoverStaleRunningActions(locked: set<int>, staleAfter: int, limit: Option<int>, batch: set<int>, now: int)
      returns (recovered: map<int, Row>)
      requires IsLowest(StaleIds(rows, locked, now, staleAfter), limit, batch)
      modifies this`rows
      ensures rows == RecoverBatch(old(rows), batch, now)
      ensures recovered.Keys == batch && forall id :: id in batch ==> recovered[id] == rows[id]
    {
      rows := map id | id in rows ::
        if id !in batch then rows[id]
        else if rows[id].retryCount < rows[id].maxRetries then rows[id].(status := Pending, updatedAt := now)
        else rows[id].(status := Failed, lastError := Coalesce(rows[id].lastError, Some(EXHAUSTED)), updatedAt := now);
      assert forall id :: id in rows ==> rows[id] == RecoverBatch(old(rows), batch, now)[id];
      recovered := map id | id in batch :: rows[id];
    }
  }

  predicate KeyTaken(rows: Rows, key: string) {
    exists id | id in rows :: rows[id].idempotencyKey == key
  }
}
