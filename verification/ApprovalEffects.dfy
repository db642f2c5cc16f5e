/**
 What the approval store's calls leave in a request and its log, value by value, and over whole runs: who decided what and when,
 and what a request was created for.
 */
module ApprovalEffects {
  import opened Common
  import opened Approvals
  import opened ApprovalProtocol

  // ---------- one call ----------

  predicate Live(r: Request) {
    r.status == Pending || r.status == Approved
  }

  /** A pending or approved request for the same queue row and action, or for the same playbook step, exists. */
  predicate Taken(requests: map<int, Request>, draft: Draft, action: string) {
    exists id | id in requests :: Live(requests[id]) && SameTarget(requests[id], draft, action)
  }

  predicate SameTarget(r: Request, draft: Draft, action: string) {
    || (draft.queueId.Some? && r.queueId == draft.queueId && r.action == action)
    || (draft.executionId.Some? && draft.stepIndex.Some? && r.executionId == draft.executionId && r.stepIndex == draft.stepIndex)
  }

  lemma TakenIsClash(requests: map<int, Request>, draft: Draft, action: string)
    ensures Taken(requests, draft, action) <==>
            ClashesOnQueue(requests, draft.queueId, action) || ClashesOnStep(requests, draft.executionId, draft.stepIndex)
  {
    if Taken(requests, draft, action) {
      var id :| id in requests && Live(requests[id]) && SameTarget(requests[id], draft, action);
      assert requests[id].status.Active();
    }
    if ClashesOnQueue(requests, draft.queueId, action) {
      var id :| id in requests && requests[id].queueId == draft.queueId && requests[id].action == action && requests[id].status.Active();
      assert Live(requests[id]) && SameTarget(requests[id], draft, action);
    }
    if ClashesOnStep(requests, draft.executionId, draft.stepIndex) {
      var id :| id in requests && requests[id].executionId == draft.executionId && requests[id].stepIndex == draft.stepIndex && requests[id].status.Active();
      assert Live(requests[id]) && SameTarget(requests[id], draft, action);
    }
  }

  lemma CreationLeaves(t: Tables, draft: Draft, action: string, now: int, createdAt: int)
    ensures var (after, r) := Create(t, draft, action, now, createdAt);
            if (draft.incidentId.None? && draft.queueId.None? && draft.executionId.None?) || action == "" || Taken(t.requests, draft, action) then
              after == t && r.Err?
            else
              && r == Ok(t.nextId) && after.nextId == t.nextId + 1
              && after.requests == t.requests[t.nextId :=
                   Request(draft.incidentId, draft.queueId, draft.executionId, draft.stepIndex, action, draft.requestedBy, draft.reason,
                           Pending, None, None, None, createdAt, None, if draft.expiresAt.Some? then draft.expiresAt.value else now + 60 * draft.ttlMinutes)]
              && after.events == t.events + [Event(t.nextId, CreatedEvent, draft.requestedBy, None, Pending, draft.reason)]
  {
    TakenIsClash(t.requests, draft, action);
    hide Taken, ClashesOnQueue, ClashesOnStep;
  }

  /** A decision in time records its decider, choice, comment and time; a late one expires the request and fails. */
  lemma DecisionLeaves(t: Tables, id: int, approve: bool, actor: int, comment: Option<string>, now: int)
    ensures var (after, r) := Decide(t, id, approve, actor, comment, now);
            if id !in t.requests || t.requests[id].status != Pending then after == t && r.Err?
            else if t.requests[id].expiresAt <= now then
              && r.Err? && after.nextId == t.nextId
              && after.requests == t.requests[id := t.requests[id].(status := Expired, approvedBy := None, decidedBy := None, decidedAt := Some(now))]
              && after.events == t.events + [Event(id, ExpiredEvent, None, Some(Pending), Expired, Some("approval request expired"))]
            else
              && r == Ok(after.requests[id]) && after.nextId == t.nextId
              && after.requests == t.requests[id := t.requests[id].(status := if approve then Approved else Denied, decidedBy := Some(actor),
                                                                   approvedBy := if approve then Some(actor) else None,
                                                                   decidedAt := Some(now), decisionComment := comment)]
              && after.events == t.events + [if approve then Event(id, ApprovedEvent, Some(actor), Some(Pending), Approved, comment)
                                             else Event(id, DeniedEvent, Some(actor), Some(Pending), Denied, comment)]
  {
  }

  lemma ExpiryLeaves(t: Tables, id: int, now: int)
    requires id in t.requests
    ensures Expire(t, id, now) ==
            t.(requests := t.requests[id := t.requests[id].(status := Expired, approvedBy := None, decidedBy := None, decidedAt := Some(now))],
               events := t.events + [Event(id, ExpiredEvent, None, Some(Pending), Expired, Some("approval request expired"))])
  {
  }

  /** The sweep's batch: pending requests at or past their expiry that nobody holds, at most 100, the earliest first. */
  lemma BatchSelects(requests: map<int, Request>, locked: set<int>, now: int, limit: int, batch: seq<int>, id: int)
    requires IsExpiryBatch(requests, locked, now, limit, batch)
    ensures |batch| <= 100 && |batch| <= Max(0, limit)
    ensures id in batch ==> id in requests && id !in locked && requests[id].status == Pending && requests[id].expiresAt <= now
    ensures id in requests && id !in locked && requests[id].status == Pending && requests[id].expiresAt <= now && id !in batch ==>
              |batch| == Max(0, Min(limit, 100)) && forall other :: other in batch ==> requests[other].expiresAt <= requests[id].expiresAt
  {
    var overdue := OverdueIds(requests, locked, now);
    if id in overdue && id !in batch {
      if |batch| == |overdue| {
        EnumerationCovers(overdue, batch);
      }
      forall other | other in batch
        ensures requests[other].expiresAt <= requests[id].expiresAt
      {
        var i :| 0 <= i < |batch| && batch[i] == other;
        assert Before(ExpiryKey(requests, batch[i]), ExpiryKey(requests, id));
      }
    }
  }

  /** Such a batch always exists. */
  lemma BatchExists(requests: map<int, Request>, locked: set<int>, now: int, limit: int)
    ensures exists batch :: IsExpiryBatch(requests, locked, now, limit, batch)
  {
    var overdue := OverdueIds(requests, locked, now);
    var batch := FirstsExist(overdue, id => ExpiryKey(requests, id).0, Min(Clamp(0, limit, EXPIRY_CAP), |overdue|));
    assert IsExpiryBatch(requests, locked, now, limit, batch);
  }

  /** The latest request of a queue row and action: no other of them was created later, or at the same time under a greater id. */
  lemma LatestOfQueue(requests: map<int, Request>, queueId: int, action: string, id: int)
    ensures IsLatest(requests, QueueRequests(requests, queueId, action), id) <==>
            && id in requests && requests[id].queueId == Some(queueId) && requests[id].action == action
            && forall other :: other in requests && requests[other].queueId == Some(queueId) && requests[other].action == action && other != id ==>
                 requests[other].createdAt < requests[id].createdAt || (requests[other].createdAt == requests[id].createdAt && other < id)
  {
    assert forall other :: other in requests && ForQueue(requests[other], queueId, action) <==> other in QueueRequests(requests, queueId, action);
  }

  lemma LatestOfStep(requests: map<int, Request>, executionId: int, stepIndex: int, id: int)
    ensures IsLatest(requests, StepRequests(requests, executionId, stepIndex), id) <==>
            && id in requests && requests[id].executionId == Some(executionId) && requests[id].stepIndex == Some(stepIndex)
            && forall other :: other in requests && requests[other].executionId == Some(executionId) && requests[other].stepIndex == Some(stepIndex) && other != id ==>
                 requests[other].createdAt < requests[id].createdAt || (requests[other].createdAt == requests[id].createdAt && other < id)
  {
    assert forall other :: other in requests && ForStep(requests[other], executionId, stepIndex) <==> other in StepRequests(requests, executionId, stepIndex);
  }

  // ---------- whole runs ----------

  lemma {:induction false} RunSplits(t: Tables, first: seq<Step>, rest: seq<Step>, times: seq<int>, later: seq<int>)
    requires |first| == |times| && |rest| == |later|
    ensures Run(t, first + rest, times + later) == Run(Run(t, first, times), rest, later)
    decreases |first|
  {
    hide Apply;
    if first == [] {
      assert [] + rest == rest && [] + later == later;
    } else {
      assert (first + rest)[1..] == first[1..] + rest && (times + later)[1..] == times[1..] + later;
      RunSplits(Apply(t, first[0], times[0]), first[1..], rest, times[1..], later);
    }
  }

  /** The state before step k, and the one after it. */
  lemma StepAt(steps: seq<Step>, times: seq<int>, start: int, k: nat)
    requires |steps| == |times| && Ordered(times, start) && k < |steps|
    ensures Run(EMPTY, steps[..k + 1], times[..k + 1]) == Apply(Run(EMPTY, steps[..k], times[..k]), steps[k], times[k])
    ensures Invariant(Run(EMPTY, steps[..k], times[..k]), times[k])
  {
    ReachedBy(EMPTY, steps[..k], times[..k], start, times[k]);
    hide Apply, Invariant;
    RunAppend(EMPTY, steps[..k], times[..k], steps[k], times[k]);
    assert steps[..k + 1] == steps[..k] + [steps[k]] && times[..k + 1] == times[..k] + [times[k]];
  }

  /** The state after step k and the rest of the way to step m. */
  lemma SuffixOf(steps: seq<Step>, times: seq<int>, start: int, k: nat, m: nat)
    requires |steps| == |times| && Ordered(times, start) && k < m <= |steps|
    ensures Invariant(Run(EMPTY, steps[..k], times[..k]), times[k])
    ensures var rest, later := steps[k + 1..m], times[k + 1..m];
            && |rest| == |later| && Ordered(later, times[k])
            && Run(EMPTY, steps[..m], times[..m]) == Run(Apply(Run(EMPTY, steps[..k], times[..k]), steps[k], times[k]), rest, later)
  {
    hide Apply, Invariant, Run;
    StepAt(steps, times, start, k);
    var rest, later := steps[k + 1..m], times[k + 1..m];
    assert steps[..m] == steps[..k + 1] + rest && times[..m] == times[..k + 1] + later;
    RunSplits(EMPTY, steps[..k + 1], rest, times[..k + 1], later);
  }

  lemma {:induction false} ReachedBy(t: Tables, steps: seq<Step>, times: seq<int>, start: int, end: int)
    requires |steps| == |times| && Ordered(times, start) && start <= end && forall i :: 0 <= i < |times| ==> times[i] <= end
    requires Invariant(t, start)
    ensures Invariant(Run(t, steps, times), end)
    decreases |steps|
  {
    hide Apply, Invariant;
    if steps == [] {
      LaterKeeps(t, start, end);
    } else {
      LaterKeeps(t, start, times[0]);
      StepKeeps(t, steps[0], times[0]);
      ReachedBy(Apply(t, steps[0], times[0]), steps[1..], times[1..], times[0], end);
    }
  }

  lemma {:induction false} DecidedStays(t: Tables, steps: seq<Step>, times: seq<int>, now: int, id: int)
    requires |steps| == |times| && Ordered(times, now) && Invariant(t, now) && id in t.requests && t.requests[id].status != Pending
    ensures id in Run(t, steps, times).requests && Run(t, steps, times).requests[id] == t.requests[id]
    decreases |steps|
  {
    hide Apply, Invariant;
    if steps != [] {
      LaterKeeps(t, now, times[0]);
      DecidedIsKept(t, steps[0], times[0], id);
      StepKeeps(t, steps[0], times[0]);
      DecidedStays(Apply(t, steps[0], times[0]), steps[1..], times[1..], times[0], id);
    }
  }

  /** What a decision on a pending request makes of it. */
  function Outcome(r: Request, approve: bool, actor: int, comment: Option<string>, now: int): Request {
    if r.expiresAt <= now then r.(status := Expired, approvedBy := None, decidedBy := None, decidedAt := Some(now))
    else r.(status := if approve then Approved else Denied, decidedBy := Some(actor), approvedBy := if approve then Some(actor) else None,
            decidedAt := Some(now), decisionComment := comment)
  }

  /** And the event that says so. */
  function OutcomeEvent(id: int, r: Request, approve: bool, actor: int, comment: Option<string>, now: int): Event {
    if r.expiresAt <= now then Event(id, ExpiredEvent, None, Some(Pending), Expired, Some("approval request expired"))
    else if approve then Event(id, ApprovedEvent, Some(actor), Some(Pending), Approved, comment)
    else Event(id, DeniedEvent, Some(actor), Some(Pending), Denied, comment)
  }

  /**
   In every run, the first decision on a pending request is its outcome for good: in every later state it names that actor, choice,
   comment and time (or the expiry, when the decision came too late), and so does its second and last event.
   */
  lemma DecisionIsRecorded(steps: seq<Step>, times: seq<int>, start: int, k: nat, m: nat)
    requires |steps| == |times| && Ordered(times, start) && k < m <= |steps| && steps[k].DecideRequest?
    requires var before := Run(EMPTY, steps[..k], times[..k]).requests; steps[k].id in before && before[steps[k].id].status == Pending
    ensures var id, before, later := steps[k].id, Run(EMPTY, steps[..k], times[..k]), Run(EMPTY, steps[..m], times[..m]);
            var events := EventsFor(later.events, id);
            && id in later.requests
            && later.requests[id] == Outcome(before.requests[id], steps[k].approve, steps[k].actor, steps[k].comment, times[k])
            && |events| == 2 && events[1] == OutcomeEvent(id, before.requests[id], steps[k].approve, steps[k].actor, steps[k].comment, times[k])
  {
    hide Apply, Invariant, Run, Ordered, Outcome, OutcomeEvent, EventsFor;
    SuffixOf(steps, times, start, k, m);
    DecisionLasts(Run(EMPTY, steps[..k], times[..k]), steps[k], times[k], steps[k + 1..m], times[k + 1..m]);
  }

  lemma DecisionLasts(before: Tables, step: Step, now: int, rest: seq<Step>, later: seq<int>)
    requires Invariant(before, now) && step.DecideRequest? && step.id in before.requests && before.requests[step.id].status == Pending
    requires |rest| == |later| && Ordered(later, now)
    ensures var t, r := Run(Apply(before, step, now), rest, later), before.requests[step.id];
            var events := EventsFor(t.events, step.id);
            && step.id in t.requests && t.requests[step.id] == Outcome(r, step.approve, step.actor, step.comment, now)
            && |events| == 2 && events[1] == OutcomeEvent(step.id, r, step.approve, step.actor, step.comment, now)
  {
    var decided, id := Apply(before, step, now), step.id;
    assert id < before.nextId;
    StepLeaves(before, step, now, id);
    StepKeeps(before, step, now);
    hide Apply, Invariant, Run, Ordered, OutcomeEvent, EventsFor;
    DecidedStays(decided, rest, later, now, id);
    var end := RunKeeps(decided, rest, later, now);
    hide Outcome;
    LoggedOutcome(Run(decided, rest, later), end, id, before.requests[id], step.approve, step.actor, step.comment, now);
  }

  lemma LoggedOutcome(t: Tables, end: int, id: int, r: Request, approve: bool, actor: int, comment: Option<string>, now: int)
    requires Invariant(t, end) && id in t.requests && t.requests[id] == Outcome(r, approve, actor, comment, now)
    ensures var events := EventsFor(t.events, id); |events| == 2 && events[1] == OutcomeEvent(id, r, approve, actor, comment, now)
  {
    assert EventsFor(t.events, id) == ExpectedEvents(id, t.requests[id]);
  }

  // ---------- one step of the protocol ----------

  /** What a step makes of a request: its outcome when it is pending and decided, expired when overdue and expired or swept. */
  ghost function RequestAfter(t: Tables, step: Step, now: int, id: int): Request
    requires id in t.requests
  {
    var r := t.requests[id];
    var expired := r.(status := Expired, approvedBy := None, decidedBy := None, decidedAt := Some(now));
    match step
    case DecideRequest(i, approve, actor, comment) => if i == id && r.status == Pending then Outcome(r, approve, actor, comment, now) else r
    case ExpireOverdue(i) => if i == id && r.status == Pending && r.expiresAt <= now then expired else r
    case SweepOverdue(locked, limit, batch) => if id in batch && IsExpiryBatch(t.requests, locked, now, limit, batch) then expired else r
    case _ => r
  }

  lemma StepLeaves(t: Tables, step: Step, now: int, id: int)
    requires id in t.requests && id < t.nextId
    ensures id in Apply(t, step, now).requests && Apply(t, step, now).requests[id] == RequestAfter(t, step, now, id)
  {
    hide IsExpiryBatch, Create, StepIsLive, Expire;
    match step
    case CreateRequest(draft, action, createdAt) => CreateKeepsRow(t, draft, action, now, createdAt, id);
    case CreateStepRequest(draft, action, createdAt) => CreateKeepsRow(t, draft, action, now, createdAt, id);
    case DecideRequest(i, approve, actor, comment) => DecisionLeaves(t, i, approve, actor, comment, now);
    case ExpireOverdue(i) => if i in t.requests { ExpiryLeaves(t, i, now); }
    case SweepOverdue(locked, limit, batch) =>
      if IsExpiryBatch(t.requests, locked, now, limit, batch) {
        BatchIsOverdue(t, locked, limit, batch, now);
        SweepLeaves(t, batch, now, id);
      }
  }

  lemma {:induction false} SweepLeaves(t: Tables, batch: seq<int>, now: int, id: int)
    requires OverdueBatch(t, batch, now) && id in t.requests
    ensures ExpireAll(t, batch, now).requests[id] ==
            if id in batch then t.requests[id].(status := Expired, approvedBy := None, decidedBy := None, decidedAt := Some(now)) else t.requests[id]
    decreases |batch|
  {
    if batch != [] {
      var last, front := batch[|batch| - 1], batch[..|batch| - 1];
      assert batch == front + [last];
      SweepLeaves(t, front, now, id);
      ExpiryLeaves(ExpireAll(t, front, now), last, now);
      assert last !in front;
      SweepExpiresExactly(t, front, now);
    }
  }

  /** The step helper inserts exactly when the latest request of its step is neither pending nor approved, or there is none. */
  lemma StepRequestLeaves(t: Tables, draft: Draft, action: string, createdAt: int, now: int)
    requires draft.executionId.Some? && draft.stepIndex.Some? && createdAt <= now
    ensures Apply(t, CreateStepRequest(draft, action, createdAt), now) ==
            if exists id :: LatestForStep(t.requests, draft.executionId.value, draft.stepIndex.value, id) && Live(t.requests[id]) then t
            else Apply(t, CreateRequest(draft, action, createdAt), now)
  {
    hide Create;
    var requests, e, i := t.requests, draft.executionId.value, draft.stepIndex.value;
    if StepIsLive(requests, e, i) {
      var id :| id in requests && IsLatest(requests, StepRequests(requests, e, i), id) && requests[id].status.Active();
      LatestOfStep(requests, e, i, id);
      assert LatestForStep(requests, e, i, id) && Live(requests[id]);
    }
    if exists id :: LatestForStep(requests, e, i, id) && Live(requests[id]) {
      var id :| LatestForStep(requests, e, i, id) && Live(requests[id]);
      LatestOfStep(requests, e, i, id);
      assert requests[id].status.Active();
    }
  }

  ghost predicate LatestForStep(requests: map<int, Request>, executionId: int, stepIndex: int, id: int) {
    && id in requests && requests[id].executionId == Some(executionId) && requests[id].stepIndex == Some(stepIndex)
    && forall other :: other in requests && requests[other].executionId == Some(executionId) && requests[other].stepIndex == Some(stepIndex) && other != id ==>
         requests[other].createdAt < requests[id].createdAt || (requests[other].createdAt == requests[id].createdAt && other < id)
  }

  // ---------- what a request was created for ----------

  /** The columns no later step may touch. */
  predicate SameOrigin(a: Request, b: Request) {
    && a.incidentId == b.incidentId && a.queueId == b.queueId && a.executionId == b.executionId && a.stepIndex == b.stepIndex
    && a.action == b.action && a.requestedBy == b.requestedBy && a.requestReason == b.requestReason
    && a.createdAt == b.createdAt && a.expiresAt == b.expiresAt
  }

  lemma StepKeepsOrigin(t: Tables, step: Step, now: int, id: int)
    requires Invariant(t, now) && id in t.requests
    ensures id in Apply(t, step, now).requests && SameOrigin(Apply(t, step, now).requests[id], t.requests[id])
  {
    assert id < t.nextId;
    hide Invariant, Apply, IsExpiryBatch;
    StepLeaves(t, step, now, id);
  }

  lemma {:induction false} OriginStays(t: Tables, steps: seq<Step>, times: seq<int>, now: int, id: int)
    requires |steps| == |times| && Ordered(times, now) && Invariant(t, now) && id in t.requests
    ensures id in Run(t, steps, times).requests && SameOrigin(Run(t, steps, times).requests[id], t.requests[id])
    decreases |steps|
  {
    hide Apply, Invariant;
    if steps != [] {
      LaterKeeps(t, now, times[0]);
      StepKeepsOrigin(t, steps[0], times[0], id);
      StepKeeps(t, steps[0], times[0]);
      OriginStays(Apply(t, steps[0], times[0]), steps[1..], times[1..], times[0], id);
    }
  }

  /** In every run, an accepted creation names its target, action, requester, reason, beginning and expiry for good. */
  lemma CreationIsRecorded(steps: seq<Step>, times: seq<int>, start: int, k: nat, m: nat)
    requires |steps| == |times| && Ordered(times, start) && k < m <= |steps| && steps[k].CreateRequest? && steps[k].createdAt <= times[k]
    requires steps[k].draft.incidentId.Some? || steps[k].draft.queueId.Some? || steps[k].draft.executionId.Some?
    requires steps[k].action != "" && !Taken(Run(EMPTY, steps[..k], times[..k]).requests, steps[k].draft, steps[k].action)
    ensures var draft, id, later := steps[k].draft, Run(EMPTY, steps[..k], times[..k]).nextId, Run(EMPTY, steps[..m], times[..m]);
            && id in later.requests
            && var r := later.requests[id];
               && r.incidentId == draft.incidentId && r.queueId == draft.queueId && r.executionId == draft.executionId && r.stepIndex == draft.stepIndex
               && r.action == steps[k].action && r.requestedBy == draft.requestedBy && r.requestReason == draft.reason
               && r.createdAt == steps[k].createdAt
               && r.expiresAt == if draft.expiresAt.Some? then draft.expiresAt.value else times[k] + 60 * draft.ttlMinutes
  {
    hide Apply, Invariant, Run, Ordered, Taken, SameOrigin;
    SuffixOf(steps, times, start, k, m);
    CreationLasts(Run(EMPTY, steps[..k], times[..k]), steps[k], times[k], steps[k + 1..m], times[k + 1..m]);
  }

  lemma CreationLasts(before: Tables, step: Step, now: int, rest: seq<Step>, later: seq<int>)
    requires Invariant(before, now) && step.CreateRequest? && step.createdAt <= now && |rest| == |later| && Ordered(later, now)
    requires step.draft.incidentId.Some? || step.draft.queueId.Some? || step.draft.executionId.Some?
    requires step.action != "" && !Taken(before.requests, step.draft, step.action)
    ensures var t, draft := Run(Apply(before, step, now), rest, later), step.draft;
            && before.nextId in t.requests
            && var r := t.requests[before.nextId];
               && r.incidentId == draft.incidentId && r.queueId == draft.queueId && r.executionId == draft.executionId && r.stepIndex == draft.stepIndex
               && r.action == step.action && r.requestedBy == draft.requestedBy && r.requestReason == draft.reason
               && r.createdAt == step.createdAt
               && r.expiresAt == if draft.expiresAt.Some? then draft.expiresAt.value else now + 60 * draft.ttlMinutes
  {
    var created := Apply(before, step, now);
    StepKeeps(before, step, now);
    hide Create, Taken, Invariant, Run, Ordered;
    CreationLeaves(before, step.draft, step.action, now, step.createdAt);
    OriginStays(created, rest, later, now, before.nextId);
  }
}
