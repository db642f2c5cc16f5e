/** approval_requests and its event log: creation, decisions, and expiry that decisions materialise. */
module Approvals {
  import opened Common
  import opened Text

  datatype Status = Pending | Approved | Denied | Expired {
    predicate Active() {
      Pending? || Approved?
    }
  }

  datatype Request = Request(
    incidentId: Option<int>,
    queueId: Option<int>,
    executionId: Option<int>,
    stepIndex: Option<int>,
    action: string,
    requestedBy: Option<int>,
    requestReason: Option<string>,
    status: Status,
    approvedBy: Option<int>,
    decidedBy: Option<int>,
    decisionComment: Option<string>,
    createdAt: int,
    decidedAt: Option<int>,
    expiresAt: int)

  datatype EventKind = CreatedEvent | ApprovedEvent | DeniedEvent | ExpiredEvent

  datatype Event = Event(requestId: int, kind: EventKind, actor: Option<int>, previous: Option<Status>, next: Status, comment: Option<string>)

  /** The caller's half of a new request. */
  datatype Draft = Draft(
    incidentId: Option<int>,
    queueId: Option<int>,
    executionId: Option<int>,
    stepIndex: Option<int>,
    action: string,
    requestedBy: Option<int>,
    reason: Option<string>,
    expiresAt: Option<int>,
    ttlMinutes: int)

  /** The two tables and the id sequence. */
  datatype Tables = Tables(requests: map<int, Request>, events: seq<Event>, nextId: int)

  const EXPIRY_CAP := 100

  function NewRequest(draft: Draft, action: string, now: int, createdAt: int): Request {
    Request(draft.incidentId, draft.queueId, draft.executionId, draft.stepIndex, action, draft.requestedBy, draft.reason,
            Pending, None, None, None, createdAt, None,
            if draft.expiresAt.Some? then draft.expiresAt.value else now + 60 * draft.ttlMinutes)
  }

  /** The partial unique index: one pending or approved request per queue row and action. */
  predicate ClashesOnQueue(requests: map<int, Request>, queueId: Option<int>, action: string) {
    queueId.Some? && exists id | id in requests :: requests[id].queueId == queueId && requests[id].action == action && requests[id].status.Active()
  }

  /** The other partial unique index: one pending or approved request per playbook step. A NULL step index never clashes. */
  predicate ClashesOnStep(requests: map<int, Request>, executionId: Option<int>, stepIndex: Option<int>) {
    && executionId.Some? && stepIndex.Some?
    && exists id | id in requests :: requests[id].executionId == executionId && requests[id].stepIndex == stepIndex && requests[id].status.Active()
  }

  /**
   `action` is the draft's action as the store has stripped it. The expiry counts from `now`; `createdAt` is the
   column's default, the time the inserting transaction began.
   */
  function Create(t: Tables, draft: Draft, action: string, now: int, createdAt: int): (Tables, Result<int>) {
    if draft.incidentId.None? && draft.queueId.None? && draft.executionId.None? then (t, Err("approval request target required"))
    else if action == "" then (t, Err("action is required"))
    else if ClashesOnQueue(t.requests, draft.queueId, action) then (t, Err("duplicate active approval request"))
    else if ClashesOnStep(t.requests, draft.executionId, draft.stepIndex) then (t, Err("duplicate active approval request of the step"))
    else
      (t.(requests := t.requests[t.nextId := NewRequest(draft, action, now, createdAt)],
          events := t.events + [Event(t.nextId, CreatedEvent, draft.requestedBy, None, Pending, draft.reason)],
          nextId := t.nextId + 1),
       Ok(t.nextId))
  }

  function Decided(t: Tables, id: int, request: Request, event: Event): Tables {
    t.(requests := t.requests[id := request], events := t.events + [event])
  }

  function Expire(t: Tables, id: int, now: int): Tables
    requires id in t.requests
  {
    Decided(t, id, t.requests[id].(status := Expired, approvedBy := None, decidedBy := None, decidedAt := Some(now)),
            Event(id, ExpiredEvent, None, Some(Pending), Expired, Some("approval request expired")))
  }

  /** Approve and deny share every check; a decision that comes too late expires the request and fails. */
  function Decide(t: Tables, id: int, approve: bool, actor: int, comment: Option<string>, now: int): (Tables, Result<Request>) {
    if id !in t.requests then (t, Err("approval request not found"))
    else if t.requests[id].status != Pending then (t, Err("approval request is not pending"))
    else if t.requests[id].expiresAt <= now then (Expire(t, id, now), Err("approval request expired"))
    else
      var status := if approve then Approved else Denied;
      var request := t.requests[id].(status := status, approvedBy := if approve then Some(actor) else None,
                                     decidedBy := Some(actor), decidedAt := Some(now), decisionComment := comment);
      (Decided(t, id, request, Event(id, if approve then ApprovedEvent else DeniedEvent, Some(actor), Some(Pending), status, comment)), Ok(request))
  }

  predicate Overdue(request: Request, now: int) {
    request.status == Pending && request.expiresAt <= now
  }

  function OverdueIds(requests: map<int, Request>, locked: set<int>, now: int): set<int> {
    set id | id in requests && Overdue(requests[id], now) && id !in locked
  }

  function ExpiryKey(requests: map<int, Request>, id: int): (int, int) {
    (if id in requests then requests[id].expiresAt else 0, id)
  }

  /** ORDER BY expires_at, id LIMIT cap FOR UPDATE SKIP LOCKED over the overdue requests. */
  ghost predicate IsExpiryBatch(requests: map<int, Request>, locked: set<int>, now: int, limit: int, batch: seq<int>) {
    var overdue := OverdueIds(requests, locked, now);
    && |batch| == Min(Clamp(0, limit, EXPIRY_CAP), |overdue|)
    && (forall i :: 0 <= i < |batch| ==> batch[i] in overdue)
    && (forall i, j :: 0 <= i < j < |batch| ==> Before(ExpiryKey(requests, batch[i]), ExpiryKey(requests, batch[j])))
    && (forall i, id :: 0 <= i < |batch| && id in overdue && id !in batch ==> Before(ExpiryKey(requests, batch[i]), ExpiryKey(requests, id)))
  }

  lemma ExpireIsLocal(t: Tables, id: int, now: int)
    requires id in t.requests
    ensures Expire(t, id, now).requests.Keys == t.requests.Keys
    ensures forall other :: other in t.requests && other != id ==> Expire(t, id, now).requests[other] == t.requests[other]
  {
  }

  function ExpireAll(t: Tables, batch: seq<int>, now: int): (after: Tables)
    requires forall i :: 0 <= i < |batch| ==> batch[i] in t.requests
    ensures after.requests.Keys == t.requests.Keys && after.nextId == t.nextId
    decreases |batch|
  {
    if batch == [] then t else Expire(ExpireAll(t, batch[..|batch| - 1], now), batch[|batch| - 1], now)
  }

  // ---------- the latest request of a target ----------

  predicate ForQueue(request: Request, queueId: int, action: string) {
    request.queueId == Some(queueId) && request.action == action
  }

  predicate ForStep(request: Request, executionId: int, stepIndex: int) {
    request.executionId == Some(executionId) && request.stepIndex == Some(stepIndex)
  }

  function QueueRequests(requests: map<int, Request>, queueId: int, action: string): set<int> {
    set id | id in requests && ForQueue(requests[id], queueId, action)
  }

  function StepRequests(requests: map<int, Request>, executionId: int, stepIndex: int): set<int> {
    set id | id in requests && ForStep(requests[id], executionId, stepIndex)
  }

  /** ORDER BY created_at DESC, id DESC LIMIT 1. */
  predicate IsLatest(requests: map<int, Request>, ids: set<int>, id: int) {
    && id in ids && id in requests
    && forall other :: other in ids && other != id && other in requests ==>
         Before((requests[other].createdAt, other), (requests[id].createdAt, id))
  }

  class Store {
    var requests: map<int, Request>
    var events: seq<Event>
    var nextId: int

    ghost function View(): Tables
      reads this
    {
      Tables(requests, events, nextId)
    }

    constructor ()
      ensures View() == Tables(map[], [], 1)
    {
      requests, events, nextId := map[], [], 1;
    }

    method CreateApprovalRequest(draft: Draft, now: int, startedAt: int) returns (r: Result<int>)
      modifies this
      ensures (View(), r) == Create(old(View()), draft, Strip(draft.action), now, startedAt)
    {
      var action := Strip(draft.action);
      r := InsertRequest(draft, action, now, startedAt);
    }

    method InsertRequest(draft: Draft, action: string, now: int, startedAt: int) returns (r: Result<int>)
      modifies this
      ensures (View(), r) == Create(old(View()), draft, action, now, startedAt)
    {
      if draft.incidentId.None? && draft.queueId.None? && draft.executionId.None? {
        return Err("approval request target required");
      }
      if action == "" { return Err("action is required"); }
      var expiresAt := if draft.expiresAt.Some? then draft.expiresAt.value else now + 60 * draft.ttlMinutes;
      if ClashesOnQueue(requests, draft.queueId, action) { return Err("duplicate active approval request"); }
      if ClashesOnStep(requests, draft.executionId, draft.stepIndex) { return Err("duplicate active approval request of the step"); }
      var id := nextId;
      requests := requests[id := Request(draft.incidentId, draft.queueId, draft.executionId, draft.stepIndex, action, draft.requestedBy,
                                         draft.reason, Pending, None, None, None, startedAt, None, expiresAt)];
      nextId := id + 1;
      InsertEvent(id, CreatedEvent, draft.requestedBy, None, Pending, draft.reason);
      return Ok(id);
    }

    method InsertEvent(id: int, kind: EventKind, actor: Option<int>, previous: Option<Status>, next: Status, comment: Option<string>)
      modifies this`events
      ensures events == old(events) + [Event(id, kind, actor, previous, next, comment)]
    {
      events := events + [Event(id, kind, actor, previous, next, comment)];
    }

    /** `id` is a row the caller has read. */
    method MaterializeExpiration(id: int, now: int) returns (r: Result<Request>)
      requires id in requests
      modifies this`requests, this`events
      ensures if old(requests)[id].status != Pending then r == Err("approval request is not pending") && View() == old(View())
              else View() == Expire(old(View()), id, now) && r == Ok(requests[id])
    {
      if requests[id].status != Pending { return Err("approval request is not pending"); }
      requests := requests[id := requests[id].(status := Expired, approvedBy := None, decidedBy := None, decidedAt := Some(now))];
      InsertEvent(id, ExpiredEvent, None, Some(Pending), Expired, Some("approval request expired"));
      return Ok(requests[id]);
    }

    method ApproveRequest(id: int, actor: int, comment: Option<string>, now: int) returns (r: Result<Request>)
      modifies this
      ensures (View(), r) == Decide(old(View()), id, true, actor, comment, now)
    {
      if id !in requests { return Err("approval request not found"); }
      if requests[id].status != Pending { return Err("approval request is not pending"); }
      if requests[id].expiresAt <= now {
        var _ := MaterializeExpiration(id, now);
        return Err("approval request expired");
      }
      requests := requests[id := requests[id].(status := Approved, approvedBy := Some(actor), decidedBy := Some(actor),
                                               decidedAt := Some(now), decisionComment := comment)];
      InsertEvent(id, ApprovedEvent, Some(actor), Some(Pending), Approved, comment);
      return Ok(requests[id]);
    }

    method DenyRequest(id: int, actor: int, comment: Option<string>, now: int) returns (r: Result<Request>)
      modifies this
      ensures (View(), r) == Decide(old(View()), id, false, actor, comment, now)
    {
      if id !in requests { return Err("approval request not found"); }
      if requests[id].status != Pending { return Err("approval request is not pending"); }
      if requests[id].expiresAt <= now {
        var _ := MaterializeExpiration(id, now);
        return Err("approval request expired");
      }
      requests := requests[id := requests[id].(status := Denied, approvedBy := None, decidedBy := Some(actor),
                                               decidedAt := Some(now), decisionComment := comment)];
      InsertEvent(id, DeniedEvent, Some(actor), Some(Pending), Denied, comment);
      return Ok(requests[id]);
    }

    /** `rows` is the batch the locking query returned. */
    method ExpirePendingRequests(now: int, limit: int, ghost locked: set<int>, rows: seq<int>) returns (expired: seq<Request>)
      requires IsExpiryBatch(requests, locked, now, limit, rows)
      modifies this
      ensures View() == ExpireAll(old(View()), rows, now)
      ensures |expired| == |rows| && forall i :: 0 <= i < |rows| ==> expired[i] == requests[rows[i]]
    {
      forall i | 0 <= i < |rows|
        ensures rows[i] in requests && requests[rows[i]].status == Pending
      {
        assert Overdue(requests[rows[i]], now);
      }
      expired := ExpireRows(now, rows);
    }

    method ExpireRows(now: int, rows: seq<int>) returns (expired: seq<Request>)
      requires forall i :: 0 <= i < |rows| ==> rows[i] in requests && requests[rows[i]].status == Pending
      requires forall i, j :: 0 <= i < j < |rows| ==> rows[i] != rows[j]
      modifies this
      ensures View() == ExpireAll(old(View()), rows, now)
      ensures |expired| == |rows| && forall i :: 0 <= i < |rows| ==> expired[i] == requests[rows[i]]
    {
      hide Expire;
      expired := [];
      for i := 0 to |rows|
        invariant requests.Keys == old(requests.Keys)
        invariant forall j :: i <= j < |rows| ==> requests[rows[j]] == old(requests[rows[j]])
        invariant View() == ExpireAll(old(View()), rows[..i], now)
        invariant |expired| == i && forall j :: 0 <= j < i ==> expired[j] == requests[rows[j]]
      {
        ghost var before := View();
        var r := MaterializeExpiration(rows[i], now);
        ExpireIsLocal(before, rows[i], now);
        expired := expired + [r.value];
        assert rows[..i + 1][..i] == rows[..i];
      }
      assert rows[..|rows|] == rows;
    }

    /** `latest` is the row the ORDER BY ... LIMIT 1 query returned, if any. */
    method CreatePlaybookStepApprovalRequest(executionId: int, stepIndex: int, draft: Draft, latest: Option<int>, now: int, startedAt: int)
      returns (r: Result<int>)
      requires draft.executionId == Some(executionId) && draft.stepIndex == Some(stepIndex)
      requires if latest.Some? then IsLatest(requests, StepRequests(requests, executionId, stepIndex), latest.value)
               else StepRequests(requests, executionId, stepIndex) == {}
      modifies this
      ensures (View(), r) == if latest.Some? && old(requests)[latest.value].status.Active() then (old(View()), Ok(latest.value))
                             else Create(old(View()), draft, Strip(draft.action), now, startedAt)
    {
      if latest.Some? && (requests[latest.value].status == Pending || requests[latest.value].status == Approved) {
        return Ok(latest.value);
      }
      r := CreateApprovalRequest(draft, now, startedAt);
    }
  }
}
