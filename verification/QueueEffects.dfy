/**
 What the queue store's calls leave in a row, value by value, which rows its queries select, and over whole runs how long a
 failure lasts.
 */
module QueueEffects {
  import opened Common
  import opened ResponseQueue
  import opened QueueProtocol
  import A = Approvals

  // ---------- one call ----------

  lemma InsertLeaves(alertId: Option<int>, sourceIp: string, action: string, key: string, maxRetries: int, now: int)
    ensures NewRow(alertId, sourceIp, action, key, maxRetries, now) == Row(alertId, sourceIp, action, key, Pending, 0, maxRetries, None, now)
  {
  }

  lemma TransitionLeaves(rows: Rows, id: int, from: Status, to: Status, lastError: Option<string>, now: int)
    ensures var (after, r) := Transition(rows, id, from, to, lastError, now);
            if id in rows && rows[id].status == from then
              after == rows[id := rows[id].(status := to, lastError := lastError, updatedAt := now)] && r == Ok(after[id])
            else after == rows && r == Err("queue action is not in the required status")
  {
  }

  lemma FailLeaves(rows: Rows, id: int, message: string, now: int)
    ensures var (after, r) := Fail(rows, id, message, now);
            if id in rows && rows[id].status == Running then
              && after == rows[id := rows[id].(status := Failed, retryCount := rows[id].retryCount + 1, lastError := Some(message), updatedAt := now)]
              && r == Ok(after[id])
            else after == rows && r == Err("queue action is not running")
  {
  }

  lemma RequeueLeaves(rows: Rows, id: int, now: int)
    ensures var (after, r) := Requeue(rows, id, now);
            if id in rows && rows[id].status == Failed && rows[id].retryCount < rows[id].maxRetries then
              after == rows[id := rows[id].(status := Pending, updatedAt := now)] && r == Ok(after[id])
            else after == rows && r == Err("queue action is not retryable")
  {
  }

  /** A failed running row waits for another try exactly when the failure is retryable and a retry is left. */
  lemma FailureLeaves(rows: Rows, id: int, message: string, retryable: bool, now: int)
    ensures var (after, r) := RecordFailure(rows, id, message, retryable, now);
            if id in rows && rows[id].status == Running then
              && after == rows[id := rows[id].(status := if retryable && rows[id].retryCount + 1 < rows[id].maxRetries then Pending else Failed,
                                               retryCount := rows[id].retryCount + 1, lastError := Some(message), updatedAt := now)]
              && r == Ok(after[id])
            else after == rows && r.Err?
  {
  }

  lemma ClaimsAndSkipsLeave(row: Row, reason: string, now: int)
    ensures ClaimedRow(row, now) == row.(status := Running, updatedAt := now)
    ensures ClaimedApprovedRow(row, now) == row.(status := Running, lastError := None, updatedAt := now)
    ensures SkippedRow(row, reason, now) == row.(status := Skipped, lastError := Some(reason), updatedAt := now)
  {
  }

  lemma RecoveryLeaves(row: Row, now: int)
    ensures RecoveredRow(row, now) ==
            if row.retryCount < row.maxRetries then row.(status := Pending, updatedAt := now)
            else row.(status := Failed, updatedAt := now,
                      lastError := if row.lastError.Some? then row.lastError else Some("stale running action exhausted retries"))
  {
  }

  // ---------- what the queries select ----------

  lemma PendingSelects(rows: Rows, locked: set<int>, id: int)
    ensures id in PendingIds(rows, locked) <==> id in rows && rows[id].status == Pending && id !in locked
  {
  }

  lemma StaleSelects(rows: Rows, locked: set<int>, now: int, staleAfter: int, id: int)
    ensures id in StaleIds(rows, locked, now, staleAfter) <==>
            id in rows && rows[id].status == Running && rows[id].updatedAt + staleAfter <= now && id !in locked
  {
  }

  /** A parked row with an approved request of its own id and action. */
  lemma ClaimSelects(rows: Rows, requests: Requests, locked: set<int>, id: int)
    ensures id in ClaimableIds(rows, requests, locked) <==>
            && id in rows && rows[id].status == AwaitingApproval && id !in locked
            && exists request :: request in requests && requests[request].queueId == Some(id) && requests[request].action == rows[id].action
                                 && requests[request].status == A.Approved
  {
    if id in rows && HasApproved(requests, id, rows[id].action) {
      var request :| request in requests && A.ForQueue(requests[request], id, rows[id].action) && requests[request].status == A.Approved;
      assert requests[request].queueId == Some(id);
    }
    if id in rows && exists request :: request in requests && requests[request].queueId == Some(id) && requests[request].action == rows[id].action
                                       && requests[request].status == A.Approved {
      var request :| request in requests && requests[request].queueId == Some(id) && requests[request].action == rows[id].action
                     && requests[request].status == A.Approved;
      assert A.ForQueue(requests[request], id, rows[id].action);
    }
  }

  /** The latest request of the row and action, by creation time and id. */
  ghost predicate Newest(requests: Requests, queueId: int, action: string, id: int) {
    && id in requests && requests[id].queueId == Some(queueId) && requests[id].action == action
    && forall other :: other in requests && requests[other].queueId == Some(queueId) && requests[other].action == action && other != id ==>
         requests[other].createdAt < requests[id].createdAt || (requests[other].createdAt == requests[id].createdAt && other < id)
  }

  /** A parked row is skipped exactly when its latest request is denied or expired, and the reason says which. */
  lemma SkipSelects(rows: Rows, requests: Requests, locked: set<int>, id: int, latest: int)
    requires id in rows && Newest(requests, id, rows[id].action, latest)
    ensures id in SkippableIds(rows, requests, locked) <==>
            && rows[id].status == AwaitingApproval && id !in locked
            && (requests[latest].status == A.Denied || requests[latest].status == A.Expired)
    ensures requests[latest].status == A.Denied ==> SkipReason(rows, requests, id) == "approval denied"
    ensures requests[latest].status == A.Expired ==> SkipReason(rows, requests, id) == "approval expired"
  {
    VerdictOfNewest(requests, id, rows[id].action, latest);
    hide LatestVerdict, Newest;
  }

  lemma VerdictOfNewest(requests: Requests, queueId: int, action: string, latest: int)
    requires Newest(requests, queueId, action, latest)
    ensures forall status :: LatestVerdict(requests, queueId, action, status) <==> status == requests[latest].status
  {
    var ids := A.QueueRequests(requests, queueId, action);
    assert A.IsLatest(requests, ids, latest);
    forall other | A.IsLatest(requests, ids, other)
      ensures other == latest
    {
      assert other in ids && latest in ids;
    }
  }

  /** Without any request of its action a parked row is never skipped. */
  lemma UnaskedIsNotSkipped(rows: Rows, requests: Requests, locked: set<int>, id: int)
    requires id in rows && forall request :: request in requests ==> requests[request].queueId != Some(id) || requests[request].action != rows[id].action
    ensures id !in SkippableIds(rows, requests, locked)
  {
  }

  /** The lowest ids, as many as the limit allows; sweeps take at most a hundred. */
  lemma LowestSelects(ids: set<int>, limit: Option<int>, batch: set<int>, id: int)
    requires IsLowest(ids, limit, batch)
    ensures id in batch ==> id in ids
    ensures limit.Some? ==> |batch| <= Max(0, limit.value)
    ensures id in ids && id !in batch ==> limit.Some? && |batch| == Max(0, limit.value) && forall chosen :: chosen in batch ==> chosen < id
    ensures Clamp(0, 1000, SWEEP_CAP) == 100
  {
    if id in ids && id !in batch {
      assert ids == batch + (ids - batch) && |ids| == |batch| + |ids - batch|;
      assert id in ids - batch;
    }
  }

  /** The query's batch always exists. */
  lemma LowestExists(ids: set<int>, limit: Option<int>)
    ensures exists batch :: IsLowest(ids, limit, batch)
  {
    var n := if limit.Some? then Min(Max(0, limit.value), |ids|) else |ids|;
    var listing := FirstsExist(ids, _ => 0, n);
    var batch := set id | id in listing;
    Distinct(listing, batch);
    forall chosen, other | chosen in batch && other in ids && other !in batch
      ensures chosen < other
    {
      var i :| 0 <= i < n && listing[i] == chosen;
      assert Before((0, listing[i]), (0, other));
    }
    assert IsLowest(ids, limit, batch);
  }

  lemma {:induction false} Distinct(listing: seq<int>, members: set<int>)
    requires members == set id | id in listing
    requires forall i, j :: 0 <= i < j < |listing| ==> listing[i] < listing[j]
    ensures |members| == |listing|
    decreases |listing|
  {
    if listing != [] {
      var last, front := listing[|listing| - 1], listing[..|listing| - 1];
      assert listing == front + [last];
      Distinct(front, members - {last});
    } else {
      assert members == {};
    }
  }

  // ---------- one step of the protocol ----------

  /** A parked row that nobody holds and that has an approved request of its own id and action. */
  ghost predicate MayRun(s: State, locked: set<int>, id: int) {
    && id in s.rows && id !in locked && s.rows[id].status == AwaitingApproval
    && exists request :: request in s.approvals.requests && s.approvals.requests[request].queueId == Some(id)
                         && s.approvals.requests[request].action == s.rows[id].action && s.approvals.requests[request].status == A.Approved
  }

  ghost predicate LatestIs(s: State, id: int, status: A.Status)
    requires id in s.rows
  {
    exists latest :: Newest(s.approvals.requests, id, s.rows[id].action, latest) && s.approvals.requests[latest].status == status
  }

  /** A parked row that nobody holds and whose latest request is denied or expired. */
  ghost predicate MayNotRun(s: State, locked: set<int>, id: int) {
    && id in s.rows && id !in locked && s.rows[id].status == AwaitingApproval
    && (LatestIs(s, id, A.Denied) || LatestIs(s, id, A.Expired))
  }

  /** What one step of the protocol makes of a row. */
  ghost function RowAfter(s: State, step: Step, id: int): Row
    requires id in s.rows
  {
    var row, now := s.rows[id], s.now;
    match step
    case ClaimPending(locked, i) =>
      if i == id && row.status == Pending && id !in locked
         && (forall other :: other in s.rows && s.rows[other].status == Pending && other !in locked ==> id <= other)
      then row.(status := Running, updatedAt := now) else row
    case ClaimApproved(locked, i) =>
      if i == id && MayRun(s, locked, id) && (forall other :: MayRun(s, locked, other) ==> id <= other)
      then row.(status := Running, lastError := None, updatedAt := now) else row
    case SkipTerminal(locked, i) =>
      if i == id && MayNotRun(s, locked, id) && (forall other :: MayNotRun(s, locked, other) ==> id <= other)
      then Skipping(s, id) else row
    case SweepTerminal(locked, cap, batch) =>
      if id in batch && IsLowest((set other | other in s.rows && MayNotRun(s, locked, other)), Some(Max(0, Min(cap, 100))), batch)
      then Skipping(s, id) else row
    case Park(i, reason) =>
      if i == id && row.status == Running then row.(status := AwaitingApproval, lastError := Some(reason), updatedAt := now) else row
    case SkipAwaiting(i, reason) =>
      if i == id && row.status == AwaitingApproval then row.(status := Skipped, lastError := Some(reason), updatedAt := now) else row
    case Succeed(i) => if i == id && row.status == Running then row.(status := Success, lastError := None, updatedAt := now) else row
    case SkipRunning(i, reason) =>
      if i == id && row.status == Running then row.(status := Skipped, lastError := Some(reason), updatedAt := now) else row
    case FailAction(i, message, retryable) =>
      if i == id && row.status == Running then
        row.(status := if retryable && row.retryCount + 1 < row.maxRetries then Pending else Failed,
             retryCount := row.retryCount + 1, lastError := Some(message), updatedAt := now)
      else row
    case RequeueAction(i) =>
      if i == id && row.status == Failed && row.retryCount < row.maxRetries then row.(status := Pending, updatedAt := now) else row
    case RecoverStale(locked, staleAfter, limit, batch) =>
      if id in batch && IsLowest((set other | other in s.rows && s.rows[other].status == Running && s.rows[other].updatedAt + staleAfter <= now && other !in locked),
                                 limit, batch) then
        if row.retryCount < row.maxRetries then row.(status := Pending, updatedAt := now)
        else row.(status := Failed, updatedAt := now,
                  lastError := if row.lastError.Some? then row.lastError else Some("stale running action exhausted retries"))
      else row
    case _ => row
  }

  ghost function Skipping(s: State, id: int): Row
    requires id in s.rows
  {
    s.rows[id].(status := Skipped, updatedAt := s.now, lastError := Some(if LatestIs(s, id, A.Denied) then "approval denied" else "approval expired"))
  }

  lemma VerdictExactly(s: State, id: int, status: A.Status)
    requires id in s.rows
    ensures LatestVerdict(s.approvals.requests, id, s.rows[id].action, status) <==> LatestIs(s, id, status)
  {
    var requests, action := s.approvals.requests, s.rows[id].action;
    var ids := A.QueueRequests(requests, id, action);
    if LatestVerdict(requests, id, action, status) {
      var latest :| latest in requests && A.IsLatest(requests, ids, latest) && requests[latest].status == status;
      assert Newest(requests, id, action, latest);
    }
    if LatestIs(s, id, status) {
      var latest :| Newest(requests, id, action, latest) && requests[latest].status == status;
      assert A.IsLatest(requests, ids, latest);
    }
  }

  lemma EligibleSets(s: State, locked: set<int>, staleAfter: int)
    ensures PendingIds(s.rows, locked) == set id | id in s.rows && s.rows[id].status == Pending && id !in locked
    ensures ClaimableIds(s.rows, s.approvals.requests, locked) == set id | id in s.rows && MayRun(s, locked, id)
    ensures SkippableIds(s.rows, s.approvals.requests, locked) == set id | id in s.rows && MayNotRun(s, locked, id)
    ensures forall id :: MayRun(s, locked, id) ==> id in ClaimableIds(s.rows, s.approvals.requests, locked)
    ensures forall id :: MayNotRun(s, locked, id) ==> id in SkippableIds(s.rows, s.approvals.requests, locked)
    ensures StaleIds(s.rows, locked, s.now, staleAfter) ==
            set id | id in s.rows && s.rows[id].status == Running && s.rows[id].updatedAt + staleAfter <= s.now && id !in locked
  {
    hide LatestVerdict, LatestIs, HasApproved;
    forall id | id in s.rows
      ensures id in ClaimableIds(s.rows, s.approvals.requests, locked) <==> MayRun(s, locked, id)
      ensures id in SkippableIds(s.rows, s.approvals.requests, locked) <==> MayNotRun(s, locked, id)
    {
      ClaimSelects(s.rows, s.approvals.requests, locked, id);
      VerdictExactly(s, id, A.Denied);
      VerdictExactly(s, id, A.Expired);
    }
    hide MayRun, MayNotRun, ClaimableIds, SkippableIds;
    forall id
      ensures id in StaleIds(s.rows, locked, s.now, staleAfter) <==>
              id in s.rows && s.rows[id].status == Running && s.rows[id].updatedAt + staleAfter <= s.now && id !in locked
    {
      StaleSelects(s.rows, locked, s.now, staleAfter, id);
    }
  }

  lemma PendingLeast(s: State, locked: set<int>, id: int)
    requires id in s.rows
    ensures IsLeast(PendingIds(s.rows, locked), id) <==>
            && s.rows[id].status == Pending && id !in locked
            && forall other :: other in s.rows && s.rows[other].status == Pending && other !in locked ==> id <= other
  {
    forall other
      ensures other in PendingIds(s.rows, locked) <==> other in s.rows && s.rows[other].status == Pending && other !in locked
    {
      PendingSelects(s.rows, locked, other);
    }
    hide PendingIds;
  }

  lemma ClaimableLeast(s: State, locked: set<int>, id: int)
    requires id in s.rows
    ensures IsLeast(ClaimableIds(s.rows, s.approvals.requests, locked), id) <==> MayRun(s, locked, id) && forall other :: MayRun(s, locked, other) ==> id <= other
  {
    EligibleSets(s, locked, 0);
    hide ClaimableIds, MayRun;
  }

  lemma SkippableLeast(s: State, locked: set<int>, id: int)
    requires id in s.rows
    ensures IsLeast(SkippableIds(s.rows, s.approvals.requests, locked), id) <==>
            MayNotRun(s, locked, id) && forall other :: MayNotRun(s, locked, other) ==> id <= other
  {
    EligibleSets(s, locked, 0);
    hide SkippableIds, MayNotRun;
  }

  lemma LeastIsRow(s: State, step: Step)
    ensures step.ClaimPending? && IsLeast(PendingIds(s.rows, step.locked), step.id) ==> step.id in s.rows
    ensures step.ClaimApproved? && IsLeast(ClaimableIds(s.rows, s.approvals.requests, step.locked), step.id) ==> step.id in s.rows
    ensures step.SkipTerminal? && IsLeast(SkippableIds(s.rows, s.approvals.requests, step.locked), step.id) ==> step.id in s.rows
  {
    hide HasApproved, LatestVerdict;
  }

  /** Every step moves a row as said, and no other row enters but the one enqueued. */
  lemma StepLeaves(s: State, step: Step, id: int)
    requires id in s.rows && id < s.nextId
    ensures id in Apply(s, step).rows && Apply(s, step).rows[id] == RowAfter(s, step, id)
  {
    hide LatestVerdict, LatestIs, HasApproved, MayRun, MayNotRun, IsLeast, IsLowest, PendingIds, ClaimableIds, SkippableIds, StaleIds, RecordFailure, Requeue;
    match step
    case ClaimPending(locked, i) => LeastIsRow(s, step); PendingLeast(s, locked, id);
    case ClaimApproved(locked, i) => LeastIsRow(s, step); ClaimableLeast(s, locked, id);
    case SkipTerminal(locked, i) => LeastIsRow(s, step); SkippableLeast(s, locked, id); VerdictExactly(s, id, A.Denied);
    case SweepTerminal(locked, _, _) => EligibleSets(s, locked, 0); VerdictExactly(s, id, A.Denied);
    case RecoverStale(locked, staleAfter, _, _) => EligibleSets(s, locked, staleAfter);
    case FailAction(i, message, retryable) => FailureLeaves(s.rows, i, message, retryable, s.now);
    case RequeueAction(i) => RequeueLeaves(s.rows, i, s.now);
    case _ =>
  }

  /** An enqueue adds one row, pending under the next id, exactly when no row has its key. */
  lemma EnqueueLeaves(s: State, alertId: Option<int>, sourceIp: string, action: string, key: string, maxRetries: nat)
    ensures var after := Apply(s, Enqueue(alertId, sourceIp, action, key, maxRetries));
            if exists id :: id in s.rows && s.rows[id].idempotencyKey == key then after == s
            else after == s.(rows := s.rows[s.nextId := Row(alertId, sourceIp, action, key, Pending, 0, maxRetries, None, s.now)], nextId := s.nextId + 1)
  {
  }

  ghost function RowOverRun(s: State, steps: seq<Step>, id: int, row: Row): Row
    decreases |steps|
  {
    if steps == [] then row else RowOverRun(Apply(s, steps[0]), steps[1..], id, if id in s.rows then RowAfter(s, steps[0], id) else row)
  }

  /** In every run a row is what the last step that landed on it left. */
  lemma {:induction false} RowShowsItsSteps(s: State, steps: seq<Step>, id: int)
    requires Invariant(s) && id in s.rows
    ensures id in Run(s, steps).rows && Run(s, steps).rows[id] == RowOverRun(s, steps, id, s.rows[id])
    decreases |steps|
  {
    assert id < s.nextId;
    hide Apply, Invariant, RowAfter;
    if steps != [] {
      StepLeaves(s, steps[0], id);
      StepKeeps(s, steps[0]);
      RowShowsItsSteps(Apply(s, steps[0]), steps[1..], id);
    }
  }

  // ---------- how long a failure lasts ----------

  /** A failed row changes only when it is requeued. */
  lemma FailedIsKept(s: State, step: Step, id: int)
    requires id in s.rows && s.rows[id].status == Failed && id < s.nextId
    requires step.RequeueAction? ==> step.id != id
    ensures id in Apply(s, step).rows && Apply(s, step).rows[id] == s.rows[id]
  {
    hide HasApproved, LatestVerdict, SkipReason;
    match step
    case ClaimPending(_, _) => FailedIsNotSelected(s, step, id);
    case ClaimApproved(_, _) => FailedIsNotSelected(s, step, id);
    case SkipTerminal(_, _) => FailedIsNotSelected(s, step, id);
    case SweepTerminal(_, _, _) => FailedIsNotSelected(s, step, id);
    case RecoverStale(_, _, _, _) => FailedIsNotSelected(s, step, id);
    case FailAction(i, message, retryable) => FailureLeaves(s.rows, i, message, retryable, s.now);
    case _ =>
  }

  lemma FailedIsNotSelected(s: State, step: Step, id: int)
    requires id in s.rows && s.rows[id].status == Failed
    requires step.ClaimPending? || step.ClaimApproved? || step.SkipTerminal? || step.SweepTerminal? || step.RecoverStale?
    ensures id in QueueRows(s, step) && QueueRows(s, step)[id] == s.rows[id]
  {
    hide HasApproved, LatestVerdict, SkipReason;
  }

  lemma {:induction false} FailedStays(s: State, steps: seq<Step>, id: int)
    requires Invariant(s) && id in s.rows && s.rows[id].status == Failed
    requires forall i :: 0 <= i < |steps| && steps[i].RequeueAction? ==> steps[i].id != id
    ensures id in Run(s, steps).rows && Run(s, steps).rows[id] == s.rows[id]
    decreases |steps|
  {
    assert id < s.nextId;
    hide Apply, Invariant;
    if steps != [] {
      FailedIsKept(s, steps[0], id);
      StepKeeps(s, steps[0]);
      FailedStays(Apply(s, steps[0]), steps[1..], id);
    }
  }

  lemma FailureLands(s: State, id: int, message: string, retryable: bool)
    requires Invariant(s) && id in s.rows && s.rows[id].status == Running
    requires !retryable || s.rows[id].retryCount + 1 >= s.rows[id].maxRetries
    ensures var after := Apply(s, FailAction(id, message, retryable));
            && Invariant(after) && id in after.rows
            && after.rows[id].status == Failed && after.rows[id].retryCount == s.rows[id].retryCount + 1 && after.rows[id].lastError == Some(message)
  {
    StepKeeps(s, FailAction(id, message, retryable));
    FailureLeaves(s.rows, id, message, retryable, s.now);
    hide Invariant, RecordFailure;
  }

  /**
   In every run, an action that fails for good while running, or with its retries used up, stays failed with its message and one
   retry more, whatever else runs, until somebody requeues it.
   */
  lemma PermanentFailureStays(s: State, before: seq<Step>, id: int, message: string, retryable: bool, after: seq<Step>)
    requires Initial(s)
    requires var e := Run(s, before);
             && id in e.rows && e.rows[id].status == Running && (!retryable || e.rows[id].retryCount + 1 >= e.rows[id].maxRetries)
    requires forall i :: 0 <= i < |after| && after[i].RequeueAction? ==> after[i].id != id
    ensures var row := Run(s, before).rows[id];
            var e := Run(Apply(Run(s, before), FailAction(id, message, retryable)), after);
            && id in e.rows && e.rows[id].status == Failed && e.rows[id].retryCount == row.retryCount + 1 && e.rows[id].lastError == Some(message)
  {
    RunKeeps(s, before);
    hide Invariant, Apply, Initial;
    FailureLands(Run(s, before), id, message, retryable);
    FailedStays(Apply(Run(s, before), FailAction(id, message, retryable)), after, id);
  }

  /** A retryable failure with a retry left waits for the next claim at once. */
  lemma RetryableFailureWaits(s: State, id: int, message: string)
    requires id in s.rows && s.rows[id].status == Running && s.rows[id].retryCount + 1 < s.rows[id].maxRetries
    ensures var row := Apply(s, FailAction(id, message, true)).rows[id];
            row.status == Pending && row.retryCount == s.rows[id].retryCount + 1 && row.lastError == Some(message)
  {
    FailureLeaves(s.rows, id, message, true, s.now);
  }

  /** A running row younger than the cutoff survives every sweep; an unlocked one at or past it is recovered by every sweep without a limit. */
  lemma StaleRecoveredExactlyWhen(s: State, locked: set<int>, staleAfter: int, batch: set<int>, id: int)
    requires id in s.rows && s.rows[id].status == Running && IsLowest(StaleIds(s.rows, locked, s.now, staleAfter), None, batch)
    ensures var row := Apply(s, RecoverStale(locked, staleAfter, None, batch)).rows[id];
            if s.rows[id].updatedAt + staleAfter <= s.now && id !in locked then row.status != Running else row == s.rows[id]
  {
    StaleSelects(s.rows, locked, s.now, staleAfter, id);
    LowestSelects(StaleIds(s.rows, locked, s.now, staleAfter), None, batch, id);
  }
}
