/** The response-action queue and the approval store run together: approval witness, retry budget, claim/skip exclusion. */
module QueueProtocol {
  import opened Common
  import opened ResponseQueue
  import A = Approvals
  import P = ApprovalProtocol

  /** `parked` remembers every row that was ever parked for approval. */
  datatype State = State(now: int, rows: Rows, nextId: int, approvals: A.Tables, parked: set<int>)

  datatype Step =
    | Tick(to: int)
    | ApprovalStep(step: P.Step)
    | Enqueue(alertId: Option<int>, sourceIp: string, action: string, key: string, maxRetries: nat)
    | ClaimPending(locked: set<int>, id: int)
    | ClaimApproved(locked: set<int>, id: int)
    | SkipTerminal(locked: set<int>, id: int)
    | SweepTerminal(locked: set<int>, cap: int, batch: set<int>)
    | Park(id: int, reason: string)
    | SkipAwaiting(id: int, reason: string)
    | Succeed(id: int)
    | SkipRunning(id: int, reason: string)
    | FailAction(id: int, message: string, retryable: bool)
    | RequeueAction(id: int)
    | RecoverStale(locked: set<int>, staleAfter: int, limit: Option<int>, batch: set<int>)

  ghost function Apply(s: State, step: Step): State {
    match step
    case Tick(to) => s.(now := Max(s.now, to))
    case ApprovalStep(inner) => s.(approvals := P.Apply(s.approvals, inner, s.now))
    case Enqueue(alertId, ip, action, key, max) =>
      if KeyTaken(s.rows, key) then s
      else s.(rows := s.rows[s.nextId := NewRow(alertId, ip, action, key, max, s.now)], nextId := s.nextId + 1)
    case Park(id, reason) =>
      s.(rows := Transition(s.rows, id, Running, AwaitingApproval, Some(reason), s.now).0,
         parked := if id in s.rows && s.rows[id].status == Running then s.parked + {id} else s.parked)
    case _ => s.(rows := QueueRows(s, step))
  }

  /** The steps that only move queue rows. */
  function QueueRows(s: State, step: Step): Rows {
    match step
    case ClaimPending(locked, id) =>
      if IsLeast(PendingIds(s.rows, locked), id) then s.rows[id := ClaimedRow(s.rows[id], s.now)] else s.rows
    case ClaimApproved(locked, id) =>
      if IsLeast(ClaimableIds(s.rows, s.approvals.requests, locked), id) then s.rows[id := ClaimedApprovedRow(s.rows[id], s.now)] else s.rows
    case SkipTerminal(locked, id) =>
      if IsLeast(SkippableIds(s.rows, s.approvals.requests, locked), id) then
        s.rows[id := SkippedRow(s.rows[id], SkipReason(s.rows, s.approvals.requests, id), s.now)]
      else s.rows
    case SweepTerminal(locked, cap, batch) =>
      if IsLowest(SkippableIds(s.rows, s.approvals.requests, locked), Some(Clamp(0, cap, SWEEP_CAP)), batch) then
        SkipBatch(s.rows, s.approvals.requests, batch, s.now)
      else s.rows
    case SkipAwaiting(id, reason) => Transition(s.rows, id, AwaitingApproval, Skipped, Some(reason), s.now).0
    case Succeed(id) => Transition(s.rows, id, Running, Success, None, s.now).0
    case SkipRunning(id, reason) => Transition(s.rows, id, Running, Skipped, Some(reason), s.now).0
    case FailAction(id, message, retryable) => RecordFailure(s.rows, id, message, retryable, s.now).0
    case RequeueAction(id) => Requeue(s.rows, id, s.now).0
    case RecoverStale(locked, staleAfter, limit, batch) =>
      if IsLowest(StaleIds(s.rows, locked, s.now, staleAfter), limit, batch) then RecoverBatch(s.rows, batch, s.now) else s.rows
    case _ => s.rows
  }

  ghost function Run(s: State, steps: seq<Step>): State
    decreases |steps|
  {
    if steps == [] then s else Run(Apply(s, steps[0]), steps[1..])
  }

  // ---------- what holds of each row ----------

  predicate Live(status: Status) {
    status == Pending || status == Running || status == AwaitingApproval
  }

  predicate BudgetInvariant(row: Row) {
    && 0 <= row.retryCount <= Max(1, row.maxRetries)
    && row.maxRetries >= 0
    && (Live(row.status) ==> row.retryCount < row.maxRetries || row.retryCount == row.maxRetries == 0)
  }

  /** A row that was ever parked and has left the parked and skipped states has an approved request of its own. */
  predicate WitnessInvariant(s: State, id: int)
    requires id in s.rows
  {
    && (s.rows[id].status == AwaitingApproval ==> id in s.parked)
    && (id in s.parked && s.rows[id].status != AwaitingApproval && s.rows[id].status != Skipped ==>
          HasApproved(s.approvals.requests, id, s.rows[id].action))
  }

  predicate Invariant(s: State) {
    && P.Invariant(s.approvals, s.now)
    && (forall id :: id in s.rows ==> id < s.nextId && BudgetInvariant(s.rows[id]) && WitnessInvariant(s, id))
    && (forall id :: id in s.parked ==> id < s.nextId)
  }

  predicate Initial(s: State) {
    s.rows == map[] && s.parked == {} && s.approvals == P.EMPTY
  }

  /** The moves one step can make a row take, with what each costs and needs. */
  predicate RowMove(s: State, step: Step, id: int, before: Row, after: Row) {
    && after.action == before.action && after.maxRetries == before.maxRetries && after.idempotencyKey == before.idempotencyKey
    && after.alertId == before.alertId && after.sourceIp == before.sourceIp
    && (|| (after.status == before.status && after.retryCount == before.retryCount)
        || (before.status == Pending && after.status == Running && after.retryCount == before.retryCount)
        || (before.status == AwaitingApproval && after.status == Skipped && after.retryCount == before.retryCount)
        || (before.status == AwaitingApproval && after.status == Running && after.retryCount == before.retryCount
            && HasApproved(s.approvals.requests, id, before.action))
        || (before.status == Failed && after.status == Pending && after.retryCount == before.retryCount < before.maxRetries)
        || (before.status == Running && Finishes(step, before, after)))
  }

  predicate Finishes(step: Step, before: Row, after: Row) {
    || (after.retryCount == before.retryCount && (after.status == Success || after.status == Skipped))
    || (after.retryCount == before.retryCount && after.status == AwaitingApproval && step.Park?)
    || (after.retryCount == before.retryCount && after.status == Pending && before.retryCount < before.maxRetries)
    || (after.retryCount == before.retryCount && after.status == Failed && before.retryCount >= before.maxRetries)
    || (after.retryCount == before.retryCount + 1 && after.status == Failed)
    || (after.retryCount == before.retryCount + 1 && after.status == Pending && after.retryCount < before.maxRetries)
  }

  lemma ClaimMoves(s: State, step: Step, id: int)
    requires id in s.rows && (step.ClaimPending? || step.ClaimApproved?)
    ensures QueueRows(s, step).Keys == s.rows.Keys && RowMove(s, step, id, s.rows[id], QueueRows(s, step)[id])
  {
  }

  lemma SkipMoves(s: State, step: Step, id: int)
    requires id in s.rows && (step.SkipTerminal? || step.SweepTerminal?)
    ensures QueueRows(s, step).Keys == s.rows.Keys && RowMove(s, step, id, s.rows[id], QueueRows(s, step)[id])
  {
    hide LatestVerdict, SkipReason, Finishes, HasApproved;
  }

  lemma RecoveryMoves(s: State, step: Step, id: int)
    requires id in s.rows && step.RecoverStale?
    ensures QueueRows(s, step).Keys == s.rows.Keys && RowMove(s, step, id, s.rows[id], QueueRows(s, step)[id])
  {
    hide HasApproved;
  }

  lemma TransitionMoves(s: State, step: Step, id: int)
    requires id in s.rows && (step.SkipAwaiting? || step.Succeed? || step.SkipRunning?)
    ensures QueueRows(s, step).Keys == s.rows.Keys && RowMove(s, step, id, s.rows[id], QueueRows(s, step)[id])
  {
    hide HasApproved;
  }

  lemma FailureMoves(s: State, step: Step, id: int)
    requires id in s.rows && (step.FailAction? || step.RequeueAction?)
    ensures QueueRows(s, step).Keys == s.rows.Keys && RowMove(s, step, id, s.rows[id], QueueRows(s, step)[id])
  {
    hide HasApproved;
    if step.FailAction? {
      assert Fail(s.rows, step.id, step.message, s.now).0.Keys == s.rows.Keys;
    }
  }

  lemma QueueRowsMove(s: State, step: Step, id: int)
    requires id in s.rows
    ensures QueueRows(s, step).Keys == s.rows.Keys
    ensures RowMove(s, step, id, s.rows[id], QueueRows(s, step)[id])
  {
    match step
    case ClaimPending(_, _) => ClaimMoves(s, step, id);
    case ClaimApproved(_, _) => ClaimMoves(s, step, id);
    case SkipTerminal(_, _) => SkipMoves(s, step, id);
    case SweepTerminal(_, _, _) => SkipMoves(s, step, id);
    case RecoverStale(_, _, _, _) => RecoveryMoves(s, step, id);
    case SkipAwaiting(_, _) => TransitionMoves(s, step, id);
    case Succeed(_) => TransitionMoves(s, step, id);
    case SkipRunning(_, _) => TransitionMoves(s, step, id);
    case FailAction(_, _, _) => FailureMoves(s, step, id);
    case RequeueAction(_) => FailureMoves(s, step, id);
    case _ =>
      hide Finishes, HasApproved;
  }

  lemma StepMovesRow(s: State, step: Step, id: int)
    requires id in s.rows && id < s.nextId
    ensures id in Apply(s, step).rows
    ensures RowMove(s, step, id, s.rows[id], Apply(s, step).rows[id])
    ensures id in Apply(s, step).parked <==> id in s.parked || (s.rows[id].status == Running && Apply(s, step).rows[id].status == AwaitingApproval)
  {
    QueueRowsMove(s, step, id);
  }

  /** Approved requests are never taken back. */
  lemma ApprovalStays(t: A.Tables, step: P.Step, now: int, queueId: int, action: string)
    requires P.Invariant(t, now) && HasApproved(t.requests, queueId, action)
    ensures HasApproved(P.Apply(t, step, now).requests, queueId, action)
  {
    var id :| id in t.requests && A.ForQueue(t.requests[id], queueId, action) && t.requests[id].status == A.Approved;
    P.DecidedIsKept(t, step, now, id);
    assert P.Apply(t, step, now).requests[id] == t.requests[id];
  }

  lemma StepKeeps(s: State, step: Step)
    requires Invariant(s)
    ensures Invariant(Apply(s, step))
  {
    var after := Apply(s, step);
    match step {
      case Tick(to) => P.LaterKeeps(s.approvals, s.now, after.now);
      case ApprovalStep(inner) => P.StepKeeps(s.approvals, inner, s.now);
      case _ =>
    }
    forall id | id in after.rows
      ensures id < after.nextId && BudgetInvariant(after.rows[id]) && WitnessInvariant(after, id)
    {
      if id in s.rows {
        StepMovesRow(s, step, id);
        if step.ApprovalStep? && HasApproved(s.approvals.requests, id, s.rows[id].action) {
          ApprovalStays(s.approvals, step.step, s.now, id, s.rows[id].action);
        }
      } else {
        NewRowsAreFresh(s, step, id);
      }
    }
  }

  lemma NewRowsAreFresh(s: State, step: Step, id: int)
    requires Invariant(s) && id !in s.rows && id in Apply(s, step).rows
    ensures step.Enqueue? && id == s.nextId && Apply(s, step).rows[id].retryCount == 0 && Apply(s, step).rows[id].status == Pending
  {
    if !step.Enqueue? && !step.Park? && !step.Tick? && !step.ApprovalStep? {
      forall other | other in s.rows ensures QueueRows(s, step).Keys == s.rows.Keys { QueueRowsMove(s, step, other); }
    }
  }

  lemma {:induction false} RunKeeps(s: State, steps: seq<Step>)
    requires Invariant(s)
    ensures Invariant(Run(s, steps))
    decreases |steps|
  {
    if steps != [] {
      StepKeeps(s, steps[0]);
      RunKeeps(Apply(s, steps[0]), steps[1..]);
    }
  }

  // ---------- guarantees over whole runs ----------

  /**
   Approval witness across both stores: a row that was ever parked for approval and is now pending,
   running, success or failed has an approved request for its own id and action.
   */
  lemma ParkedRowsRunOnlyApproved(s: State, steps: seq<Step>, id: int)
    requires Initial(s)
    requires var e := Run(s, steps); id in e.rows && id in e.parked && e.rows[id].status != AwaitingApproval && e.rows[id].status != Skipped
    ensures var e := Run(s, steps); HasApproved(e.approvals.requests, id, e.rows[id].action)
  {
    RunKeeps(s, steps);
    assert WitnessInvariant(Run(s, steps), id);
  }

  /** The witness outlives every later recovery, requeue and re-claim, and the row keeps its action. */
  lemma {:induction false} WitnessSurvives(s: State, steps: seq<Step>, id: int)
    requires Invariant(s) && id in s.rows && HasApproved(s.approvals.requests, id, s.rows[id].action)
    ensures var e := Run(s, steps);
            id in e.rows && e.rows[id].action == s.rows[id].action && HasApproved(e.approvals.requests, id, e.rows[id].action)
    decreases |steps|
  {
    if steps != [] {
      StepKeeps(s, steps[0]);
      StepMovesRow(s, steps[0], id);
      if steps[0].ApprovalStep? { ApprovalStays(s.approvals, steps[0].step, s.now, id, s.rows[id].action); }
      WitnessSurvives(Apply(s, steps[0]), steps[1..], id);
    }
  }

  /** Retry budget, and the exhausted branch of stale recovery: it needs max_retries = 0. */
  lemma RetryBudget(s: State, steps: seq<Step>, id: int)
    requires Initial(s)
    requires id in Run(s, steps).rows
    ensures var row := Run(s, steps).rows[id];
            && 0 <= row.retryCount <= Max(1, row.maxRetries)
            && (row.maxRetries >= 1 && Live(row.status) ==> row.retryCount < row.maxRetries)
            && (row.status == Running ==> forall now :: RecoveredRow(row, now).status == Failed <==> row.maxRetries == 0)
  {
    RunKeeps(s, steps);
    assert BudgetInvariant(Run(s, steps).rows[id]);
  }

  /** Success and skipped are final, and no other step of either store rewrites such a row's status. */
  lemma {:induction false} FinishedForever(s: State, steps: seq<Step>, id: int)
    requires Invariant(s) && id in s.rows && (s.rows[id].status == Success || s.rows[id].status == Skipped)
    ensures id in Run(s, steps).rows && Run(s, steps).rows[id].status == s.rows[id].status
    ensures Run(s, steps).rows[id].retryCount == s.rows[id].retryCount
    decreases |steps|
  {
    if steps != [] {
      StepKeeps(s, steps[0]);
      StepMovesRow(s, steps[0], id);
      FinishedForever(Apply(s, steps[0]), steps[1..], id);
    }
  }

  // ---------- claiming against skipping ----------

  /** While a row's approved request stands, every other request of its row and action is denied or expired, and older. */
  lemma ApprovedStandsAlone(t: A.Tables, now: int, approved: int)
    requires P.Invariant(t, now) && approved in t.requests && t.requests[approved].status == A.Approved
    ensures forall other :: other in t.requests && other != approved && P.SameQueueTarget(t.requests[approved], t.requests[other]) ==>
              other < approved && (t.requests[other].status == A.Denied || t.requests[other].status == A.Expired)
  {
    forall other | other in t.requests && other != approved && P.SameQueueTarget(t.requests[approved], t.requests[other])
      ensures other < approved && !t.requests[other].status.Active()
    {
      assert P.SameQueueTarget(t.requests[other], t.requests[approved]);
    }
  }

  /**
   The claim looks for any approved request and the skip at the latest one. In every reachable state a row that can be
   claimed through request `approved` can be skipped as well exactly when another request of its row and action is later
   by creation time: one whose transaction began after that of the approved request, though it was inserted before.
   */
  lemma ClaimableAndSkippableExactlyWhen(s: State, steps: seq<Step>, id: int, approved: int)
    requires Initial(s)
    requires var e := Run(s, steps);
             && id in e.rows && e.rows[id].status == AwaitingApproval && approved in e.approvals.requests
             && A.ForQueue(e.approvals.requests[approved], id, e.rows[id].action) && e.approvals.requests[approved].status == A.Approved
    ensures var e := Run(s, steps); var requests := e.approvals.requests;
            && Claimable(e.rows, requests, id)
            && (Skippable(e.rows, requests, id) <==>
                  exists other :: other in requests && A.ForQueue(requests[other], id, e.rows[id].action) && P.Later(requests, approved, other))
  {
    RunKeeps(s, steps);
    var e := Run(s, steps);
    var requests := e.approvals.requests;
    ApprovedStandsAlone(e.approvals, e.now, approved);
    SkipsPastApproved(requests, id, e.rows[id].action, approved);
  }

  lemma SkipsPastApproved(requests: Requests, queueId: int, action: string, approved: int)
    requires approved in requests && A.ForQueue(requests[approved], queueId, action) && requests[approved].status == A.Approved
    requires forall other :: other in requests && other != approved && A.ForQueue(requests[other], queueId, action) ==>
               requests[other].status == A.Denied || requests[other].status == A.Expired
    ensures LatestVerdict(requests, queueId, action, A.Denied) || LatestVerdict(requests, queueId, action, A.Expired) <==>
            exists other :: other in requests && A.ForQueue(requests[other], queueId, action) && P.Later(requests, approved, other)
  {
    var ids := A.QueueRequests(requests, queueId, action);
    assert approved in ids;
    P.LatestExists(requests, ids);
    var latest :| A.IsLatest(requests, ids, latest);
    if latest == approved {
      forall other | A.IsLatest(requests, ids, other)
        ensures other == approved
      {
        assert other in ids;
      }
    } else {
      assert P.Later(requests, approved, latest);
      assert LatestVerdict(requests, queueId, action, requests[latest].status);
    }
  }

  /** Requests are inserted in the order their transactions began. */
  ghost predicate CreatesInOrder(s: State, steps: seq<Step>)
    decreases |steps|
  {
    steps != [] ==>
      && (steps[0].ApprovalStep? && (steps[0].step.CreateRequest? || steps[0].step.CreateStepRequest?) ==>
            forall id :: id in s.approvals.requests ==> s.approvals.requests[id].createdAt <= steps[0].step.createdAt)
      && CreatesInOrder(Apply(s, steps[0]), steps[1..])
  }

  ghost predicate InIdOrder(requests: Requests) {
    forall a, b :: a in requests && b in requests && a < b ==> requests[a].createdAt <= requests[b].createdAt
  }

  lemma ApprovalStepKeepsOrder(t: A.Tables, step: P.Step, now: int)
    requires P.Invariant(t, now) && InIdOrder(t.requests)
    requires step.CreateRequest? || step.CreateStepRequest? ==> forall id :: id in t.requests ==> t.requests[id].createdAt <= step.createdAt
    ensures InIdOrder(P.Apply(t, step, now).requests)
  {
    assert forall id :: id in t.requests ==> id < t.nextId;
    hide P.Invariant, A.IsExpiryBatch, A.Create, A.Decide, A.ExpireAll, P.StepIsLive, InIdOrder;
    match step
    case CreateRequest(draft, action, createdAt) => CreationKeepsOrder(t, draft, action, now, createdAt);
    case CreateStepRequest(draft, action, createdAt) => CreationKeepsOrder(t, draft, action, now, createdAt);
    case DecideRequest(id, approve, actor, comment) => DecisionKeepsOrder(t, id, approve, actor, comment, now);
    case ExpireOverdue(id) => if id in t.requests { ExpiryKeepsOrder(t, id, now); }
    case SweepOverdue(locked, limit, batch) =>
      if A.IsExpiryBatch(t.requests, locked, now, limit, batch) {
        P.BatchIsOverdue(t, locked, limit, batch, now);
        SweepKeepsOrder(t, batch, now);
      }
  }

  lemma CreationKeepsOrder(t: A.Tables, draft: A.Draft, action: string, now: int, createdAt: int)
    requires InIdOrder(t.requests) && forall id :: id in t.requests ==> id < t.nextId && t.requests[id].createdAt <= createdAt
    ensures InIdOrder(A.Create(t, draft, action, now, createdAt).0.requests)
  {
    hide A.ClashesOnQueue, A.ClashesOnStep;
  }

  lemma DecisionKeepsOrder(t: A.Tables, id: int, approve: bool, actor: int, comment: Option<string>, now: int)
    requires InIdOrder(t.requests)
    ensures InIdOrder(A.Decide(t, id, approve, actor, comment, now).0.requests)
  {
  }

  lemma ExpiryKeepsOrder(t: A.Tables, id: int, now: int)
    requires InIdOrder(t.requests) && id in t.requests
    ensures InIdOrder(A.Expire(t, id, now).requests)
  {
  }

  lemma SweepKeepsOrder(t: A.Tables, batch: seq<int>, now: int)
    requires InIdOrder(t.requests) && forall i :: 0 <= i < |batch| ==> batch[i] in t.requests
    ensures InIdOrder(A.ExpireAll(t, batch, now).requests)
  {
    SweepKeepsCreation(t, batch, now);
  }

  lemma {:induction false} SweepKeepsCreation(t: A.Tables, batch: seq<int>, now: int)
    requires forall i :: 0 <= i < |batch| ==> batch[i] in t.requests
    ensures forall id :: id in t.requests ==> A.ExpireAll(t, batch, now).requests[id].createdAt == t.requests[id].createdAt
    decreases |batch|
  {
    if batch != [] {
      SweepKeepsCreation(t, batch[..|batch| - 1], now);
    }
  }

  lemma {:induction false} OrderedRun(s: State, steps: seq<Step>)
    requires Invariant(s) && InIdOrder(s.approvals.requests) && CreatesInOrder(s, steps)
    ensures InIdOrder(Run(s, steps).approvals.requests)
    decreases |steps|
  {
    if steps != [] {
      StepKeeps(s, steps[0]);
      if steps[0].ApprovalStep? { ApprovalStepKeepsOrder(s.approvals, steps[0].step, s.now); }
      OrderedRun(Apply(s, steps[0]), steps[1..]);
    }
  }

  /** An approved request has the greatest id, so in id order none of its row and action is later. */
  lemma NoneLaterInOrder(t: A.Tables, now: int, queueId: int, action: string, approved: int)
    requires P.Invariant(t, now) && InIdOrder(t.requests)
    requires approved in t.requests && A.ForQueue(t.requests[approved], queueId, action) && t.requests[approved].status == A.Approved
    ensures forall other :: other in t.requests && A.ForQueue(t.requests[other], queueId, action) ==> !P.Later(t.requests, approved, other)
  {
    ApprovedStandsAlone(t, now, approved);
    hide P.Invariant;
    forall other | other in t.requests && A.ForQueue(t.requests[other], queueId, action)
      ensures !P.Later(t.requests, approved, other)
    {
      assert other == approved || P.SameQueueTarget(t.requests[approved], t.requests[other]);
    }
  }

  /** So when requests are created in order no row can ever be both claimed and skipped. */
  lemma ClaimAndSkipExclude(s: State, steps: seq<Step>, id: int)
    requires Initial(s) && CreatesInOrder(s, steps)
    ensures var e := Run(s, steps); !(Claimable(e.rows, e.approvals.requests, id) && Skippable(e.rows, e.approvals.requests, id))
  {
    RunKeeps(s, steps);
    OrderedRun(s, steps);
    hide Run, CreatesInOrder, InIdOrder, P.Invariant, Skippable;
    var e := Run(s, steps);
    var requests := e.approvals.requests;
    if Claimable(e.rows, requests, id) {
      var approved :| approved in requests && A.ForQueue(requests[approved], id, e.rows[id].action) && requests[approved].status == A.Approved;
      NoneLaterInOrder(e.approvals, e.now, id, e.rows[id].action, approved);
      ClaimableAndSkippableExactlyWhen(s, steps, id, approved);
    }
  }

  // ---------- a run in which both can take the row ----------

  function QueueDraft(): A.Draft {
    A.Draft(None, Some(1), None, None, "block_ip", None, None, None, 60)
  }

  /** A request is created and denied; then one is created by a transaction that began earlier, and approved. */
  function LateInsertSteps(now: int, earlier: int): seq<Step> {
    [ApprovalStep(P.CreateRequest(QueueDraft(), "block_ip", now)),
     ApprovalStep(P.DecideRequest(1, false, 7, None)),
     ApprovalStep(P.CreateRequest(QueueDraft(), "block_ip", earlier)),
     ApprovalStep(P.DecideRequest(2, true, 7, None))]
  }

  function ParkSteps(): seq<Step> {
    [Enqueue(None, "192.0.2.1", "block_ip", "key", 3), ClaimPending({}, 1), Park(1, "approval required")]
  }

  lemma {:induction false} RunSplits(s: State, first: seq<Step>, rest: seq<Step>)
    ensures Run(s, first + rest) == Run(Run(s, first), rest)
    decreases |first|
  {
    if first == [] {
      assert [] + rest == rest;
    } else {
      assert (first + rest)[1..] == first[1..] + rest;
      RunSplits(Apply(s, first[0]), first[1..], rest);
    }
  }

  lemma ParkedRow(now: int)
    ensures var e := Run(State(now, map[], 1, P.EMPTY, {}), ParkSteps());
            && e.now == now && e.approvals == P.EMPTY
            && e.rows.Keys == {1} && e.rows[1].status == AwaitingApproval && e.rows[1].action == "block_ip"
  {
    var s := State(now, map[], 1, P.EMPTY, {});
    var steps := ParkSteps();
    var queued := Apply(s, steps[0]);
    assert queued.rows == map[1 := NewRow(None, "192.0.2.1", "block_ip", "key", 3, now)];
    assert IsLeast(PendingIds(queued.rows, {}), 1);
    var claimed := Apply(queued, steps[1]);
    var parked := Apply(claimed, steps[2]);
    assert steps[1..][1..] == [steps[2]] && [steps[2]][1..] == [];
    assert Run(s, steps) == Run(queued, steps[1..]) == Run(claimed, steps[1..][1..]) == Run(parked, []);
  }

  lemma FirstIsDenied(s: State)
    requires s.approvals == P.EMPTY
    ensures var e := Apply(Apply(s, LateInsertSteps(s.now, 0)[0]), LateInsertSteps(s.now, 0)[1]);
            && e.now == s.now && e.rows == s.rows && e.approvals.nextId == 2 && e.approvals.requests.Keys == {1}
            && A.ForQueue(e.approvals.requests[1], 1, "block_ip")
            && e.approvals.requests[1].createdAt == s.now && e.approvals.requests[1].status == A.Denied
  {
  }

  lemma SecondIsApproved(s: State, earlier: int)
    requires s.approvals.nextId == 2 && s.approvals.requests.Keys == {1} && s.approvals.requests[1].status == A.Denied && earlier < s.now
    ensures var e := Apply(Apply(s, LateInsertSteps(s.now, earlier)[2]), LateInsertSteps(s.now, earlier)[3]);
            && e.rows == s.rows && e.approvals.requests.Keys == {1, 2} && e.approvals.requests[1] == s.approvals.requests[1]
            && A.ForQueue(e.approvals.requests[2], 1, "block_ip")
            && e.approvals.requests[2].createdAt == earlier && e.approvals.requests[2].status == A.Approved
  {
  }

  lemma FourSteps(s: State, steps: seq<Step>)
    requires |steps| == 4
    ensures Run(s, steps) == Apply(Apply(Apply(Apply(s, steps[0]), steps[1]), steps[2]), steps[3])
  {
    hide Apply;
    var s1 := Apply(s, steps[0]);
    var s2 := Apply(s1, steps[1]);
    var s3 := Apply(s2, steps[2]);
    assert steps[1..][1..] == steps[2..] && steps[2..][1..] == steps[3..] && steps[3..][1..] == [];
    assert Run(s, steps) == Run(s1, steps[1..]);
    assert Run(s1, steps[1..]) == Run(s2, steps[2..]);
    assert Run(s2, steps[2..]) == Run(s3, steps[3..]);
    assert Run(s3, steps[3..]) == Run(Apply(s3, steps[3]), []);
  }

  lemma LateInsert(s: State, earlier: int)
    requires s.approvals == P.EMPTY && earlier < s.now
    ensures var e := Run(s, LateInsertSteps(s.now, earlier));
            && e.rows == s.rows
            && e.approvals.requests.Keys == {1, 2}
            && A.ForQueue(e.approvals.requests[1], 1, "block_ip") && e.approvals.requests[1].createdAt == s.now
            && A.ForQueue(e.approvals.requests[2], 1, "block_ip") && e.approvals.requests[2].createdAt == earlier
            && e.approvals.requests[2].status == A.Approved
  {
    var steps := LateInsertSteps(s.now, earlier);
    assert steps[0] == LateInsertSteps(s.now, 0)[0] && steps[1] == LateInsertSteps(s.now, 0)[1];
    hide Apply;
    FirstIsDenied(s);
    SecondIsApproved(Apply(Apply(s, steps[0]), steps[1]), earlier);
    FourSteps(s, steps);
  }

  /** The failing case is reached from the empty store, under both unique indexes and with every creation time at or before its insert. */
  lemma LateInsertAllowsBoth(now: int, earlier: int)
    requires earlier < now
    ensures var s := State(now, map[], 1, P.EMPTY, {});
            var e := Run(s, ParkSteps() + LateInsertSteps(now, earlier));
            Initial(s) && Claimable(e.rows, e.approvals.requests, 1) && Skippable(e.rows, e.approvals.requests, 1)
  {
    var s := State(now, map[], 1, P.EMPTY, {});
    ParkedRow(now);
    RunSplits(s, ParkSteps(), LateInsertSteps(now, earlier));
    LateInsert(Run(s, ParkSteps()), earlier);
    var e := Run(s, ParkSteps() + LateInsertSteps(now, earlier));
    assert P.Later(e.approvals.requests, 2, 1);
    ClaimableAndSkippableExactlyWhen(s, ParkSteps() + LateInsertSteps(now, earlier), 1, 2);
  }
}
