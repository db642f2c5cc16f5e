/** Approval requests over whole runs: the event log, the decision rules and the one-live-request rules. */
module ApprovalProtocol {
  import opened Common
  import opened Approvals

  /** `createdAt` is when the creating transaction began, at or before the moment its insert runs. */
  datatype Step =
    | CreateRequest(draft: Draft, action: string, createdAt: int)
    | CreateStepRequest(draft: Draft, action: string, createdAt: int)
    | DecideRequest(id: int, approve: bool, actor: int, comment: Option<string>)
    | ExpireOverdue(id: int)
    | SweepOverdue(locked: set<int>, limit: int, batch: seq<int>)

  predicate StepTarget(draft: Draft) {
    draft.executionId.Some? && draft.stepIndex.Some?
  }

  /** The step helper looks at the latest request of the step and reuses it while it is pending or approved. */
  predicate StepIsLive(requests: map<int, Request>, executionId: int, stepIndex: int) {
    exists id | id in requests ::
      IsLatest(requests, StepRequests(requests, executionId, stepIndex), id) && requests[id].status.Active()
  }

  ghost function Apply(t: Tables, step: Step, now: int): Tables {
    match step
    case CreateRequest(draft, action, createdAt) => if createdAt <= now then Create(t, draft, action, now, createdAt).0 else t
    case CreateStepRequest(draft, action, createdAt) =>
      if createdAt > now || !StepTarget(draft) || StepIsLive(t.requests, draft.executionId.value, draft.stepIndex.value) then t
      else Create(t, draft, action, now, createdAt).0
    case DecideRequest(id, approve, actor, comment) => Decide(t, id, approve, actor, comment, now).0
    case ExpireOverdue(id) => if id in t.requests && Overdue(t.requests[id], now) then Expire(t, id, now) else t
    case SweepOverdue(locked, limit, batch) => if IsExpiryBatch(t.requests, locked, now, limit, batch) then ExpireAll(t, batch, now) else t
  }

  function EventsFor(events: seq<Event>, id: int): seq<Event> {
    if events == [] then []
    else EventsFor(events[..|events| - 1], id) + (if events[|events| - 1].requestId == id then [events[|events| - 1]] else [])
  }

  function DecisionKind(status: Status): EventKind
    requires status != Pending
  {
    match status
    case Approved => ApprovedEvent
    case Denied => DeniedEvent
    case Expired => ExpiredEvent
  }

  function CreationOf(id: int, r: Request): Event {
    Event(id, CreatedEvent, r.requestedBy, None, Pending, r.requestReason)
  }

  function DecisionOf(id: int, r: Request): Event
    requires r.status != Pending
  {
    Event(id, DecisionKind(r.status), r.decidedBy, Some(Pending), r.status,
          if r.status == Expired then Some("approval request expired") else r.decisionComment)
  }

  /** The log a request must have: its creation, then its decision if it has been decided. */
  function ExpectedEvents(id: int, r: Request): seq<Event> {
    if r.status == Pending then [CreationOf(id, r)] else [CreationOf(id, r), DecisionOf(id, r)]
  }

  predicate DecisionInvariant(r: Request, now: int) {
    && (r.approvedBy.Some? <==> r.status == Approved)
    && (r.status == Approved ==> r.approvedBy == r.decidedBy)
    && (r.decidedBy.Some? <==> r.status == Approved || r.status == Denied)
    && (r.decidedAt.None? <==> r.status == Pending)
    && (r.decidedAt.Some? ==> r.createdAt <= r.decidedAt.value <= now)
    && (r.decidedAt.Some? ==> (r.status == Expired <==> r.decidedAt.value >= r.expiresAt))
    && r.createdAt <= now
  }

  /** Same queue row and action. */
  predicate SameQueueTarget(a: Request, b: Request) {
    a.queueId.Some? && a.queueId == b.queueId && a.action == b.action
  }

  predicate SameStepTarget(a: Request, b: Request) {
    a.executionId.Some? && a.stepIndex.Some? && a.executionId == b.executionId && a.stepIndex == b.stepIndex
  }

  predicate RowsInvariant(t: Tables, now: int) {
    && (forall id :: id in t.requests ==> id < t.nextId && DecisionInvariant(t.requests[id], now))
    && (forall a, b :: a in t.requests && b in t.requests && a < b && SameQueueTarget(t.requests[a], t.requests[b]) ==>
          !t.requests[a].status.Active())
    && (forall a, b :: a in t.requests && b in t.requests && a < b && SameStepTarget(t.requests[a], t.requests[b]) ==>
          !t.requests[a].status.Active())
  }

  predicate LogInvariant(t: Tables) {
    && (forall id :: id in t.requests ==> EventsFor(t.events, id) == ExpectedEvents(id, t.requests[id]))
    && (forall i :: 0 <= i < |t.events| ==> t.events[i].requestId < t.nextId)
  }

  predicate Invariant(t: Tables, now: int) {
    RowsInvariant(t, now) && LogInvariant(t)
  }

  lemma EventsForAppend(events: seq<Event>, event: Event, id: int)
    ensures EventsFor(events + [event], id) == EventsFor(events, id) + (if event.requestId == id then [event] else [])
  {
    assert (events + [event])[..|events|] == events;
  }

  lemma {:induction false} NoEventsYet(events: seq<Event>, id: int)
    requires forall i :: 0 <= i < |events| ==> events[i].requestId < id
    ensures EventsFor(events, id) == []
  {
    if events != [] {
      NoEventsYet(events[..|events| - 1], id);
    }
  }

  lemma CreateKeepsRows(t: Tables, draft: Draft, action: string, now: int, createdAt: int)
    requires RowsInvariant(t, now) && createdAt <= now
    ensures RowsInvariant(Create(t, draft, action, now, createdAt).0, now)
  {
    var after := Create(t, draft, action, now, createdAt).0;
    if after != t {
      var row := after.requests[t.nextId];
      forall a | a in t.requests && t.requests[a].status.Active()
        ensures !SameQueueTarget(t.requests[a], row) && !SameStepTarget(t.requests[a], row)
      {
        assert !ClashesOnQueue(t.requests, draft.queueId, action) && !ClashesOnStep(t.requests, draft.executionId, draft.stepIndex);
      }
    }
  }

  lemma CreateKeepsLog(t: Tables, draft: Draft, action: string, now: int, createdAt: int)
    requires RowsInvariant(t, now) && LogInvariant(t)
    ensures LogInvariant(Create(t, draft, action, now, createdAt).0)
  {
    hide ClashesOnQueue, ClashesOnStep;
    var after := Create(t, draft, action, now, createdAt).0;
    if after != t {
      NoEventsYet(t.events, t.nextId);
      var creation := Event(t.nextId, CreatedEvent, draft.requestedBy, None, Pending, draft.reason);
      assert after.events == t.events + [creation];
      forall id | id in after.requests
        ensures EventsFor(after.events, id) == ExpectedEvents(id, after.requests[id])
      {
        EventsForAppend(t.events, creation, id);
      }
    }
  }

  lemma CreateKeeps(t: Tables, draft: Draft, action: string, now: int, createdAt: int)
    requires Invariant(t, now) && createdAt <= now
    ensures Invariant(Create(t, draft, action, now, createdAt).0, now)
  {
    hide RowsInvariant, LogInvariant, Create;
    CreateKeepsRows(t, draft, action, now, createdAt);
    CreateKeepsLog(t, draft, action, now, createdAt);
  }

  /** A pending request becomes decided: same target, same creation, one more event. */
  predicate IsDecision(before: Request, after: Request) {
    && before.status == Pending && after.status != Pending
    && after.queueId == before.queueId && after.action == before.action && after.createdAt == before.createdAt
    && after.executionId == before.executionId && after.stepIndex == before.stepIndex
    && after.requestedBy == before.requestedBy && after.requestReason == before.requestReason
  }

  lemma DecisionKeepsRows(t: Tables, id: int, r: Request, event: Event, now: int)
    requires RowsInvariant(t, now) && id in t.requests
    requires IsDecision(t.requests[id], r) && DecisionInvariant(r, now)
    ensures RowsInvariant(Decided(t, id, r, event), now)
  {
    hide DecisionInvariant;
  }

  lemma DecisionKeepsLog(t: Tables, id: int, r: Request, now: int)
    requires RowsInvariant(t, now) && LogInvariant(t) && id in t.requests
    requires IsDecision(t.requests[id], r)
    ensures LogInvariant(Decided(t, id, r, DecisionOf(id, r)))
  {
    hide DecisionInvariant, SameQueueTarget, SameStepTarget;
    var after := Decided(t, id, r, DecisionOf(id, r));
    forall other | other in after.requests
      ensures EventsFor(after.events, other) == ExpectedEvents(other, after.requests[other])
    {
      EventsForAppend(t.events, DecisionOf(id, r), other);
    }
  }

  lemma DecisionKeeps(t: Tables, id: int, r: Request, now: int)
    requires Invariant(t, now) && id in t.requests
    requires IsDecision(t.requests[id], r) && DecisionInvariant(r, now)
    ensures Invariant(Decided(t, id, r, DecisionOf(id, r)), now)
  {
    hide RowsInvariant, LogInvariant, DecisionInvariant, Decided;
    DecisionKeepsRows(t, id, r, DecisionOf(id, r), now);
    DecisionKeepsLog(t, id, r, now);
  }

  /** The three ways a decision is recorded, as one request version and its event. */
  lemma StepShape(t: Tables, step: Step, now: int)
    requires Invariant(t, now) && (step.DecideRequest? || step.ExpireOverdue?)
    ensures Apply(t, step, now) == t
            || (&& step.id in t.requests
                && var r := Apply(t, step, now).requests[step.id];
                && IsDecision(t.requests[step.id], r) && DecisionInvariant(r, now)
                && Apply(t, step, now) == Decided(t, step.id, r, DecisionOf(step.id, r)))
  {
  }

  lemma DecisionStepKeeps(t: Tables, step: Step, now: int)
    requires Invariant(t, now) && (step.DecideRequest? || step.ExpireOverdue?)
    ensures Invariant(Apply(t, step, now), now)
  {
    StepShape(t, step, now);
    hide RowsInvariant, LogInvariant, Decided, Expire, Decide, DecisionInvariant, Apply;
    if Apply(t, step, now) != t {
      DecisionKeeps(t, step.id, Apply(t, step, now).requests[step.id], now);
    }
  }

  lemma StepKeeps(t: Tables, step: Step, now: int)
    requires Invariant(t, now)
    ensures Invariant(Apply(t, step, now), now)
  {
    match step
    case CreateRequest(draft, action, createdAt) => if createdAt <= now { CreateKeeps(t, draft, action, now, createdAt); }
    case CreateStepRequest(draft, action, createdAt) => if createdAt <= now { CreateKeeps(t, draft, action, now, createdAt); }
    case SweepOverdue(locked, limit, batch) =>
      if IsExpiryBatch(t.requests, locked, now, limit, batch) {
        BatchIsOverdue(t, locked, limit, batch, now);
        SweepKeeps(t, batch, now);
      }
    case _ => DecisionStepKeeps(t, step, now);
  }

  // ---------- the expiry sweep ----------

  /** Overdue requests, each once. */
  ghost predicate OverdueBatch(t: Tables, batch: seq<int>, now: int) {
    && (forall i :: 0 <= i < |batch| ==> batch[i] in t.requests && Overdue(t.requests[batch[i]], now))
    && (forall i, j :: 0 <= i < j < |batch| ==> batch[i] != batch[j])
  }

  lemma BatchIsOverdue(t: Tables, locked: set<int>, limit: int, batch: seq<int>, now: int)
    requires IsExpiryBatch(t.requests, locked, now, limit, batch)
    ensures OverdueBatch(t, batch, now)
  {
  }

  /** The sweep expires exactly its batch. */
  lemma {:induction false} SweepExpiresExactly(t: Tables, batch: seq<int>, now: int)
    requires OverdueBatch(t, batch, now)
    ensures var after := ExpireAll(t, batch, now);
            && (forall id :: id in t.requests && id !in batch ==> after.requests[id] == t.requests[id])
            && (forall id :: id in batch ==> after.requests[id].status == Expired && after.requests[id].decidedAt == Some(now))
    decreases |batch|
  {
    if batch != [] {
      var last, front := batch[|batch| - 1], batch[..|batch| - 1];
      SweepExpiresExactly(t, front, now);
      assert batch == front + [last];
      assert last !in front;
    }
  }

  lemma {:induction false} SweepKeeps(t: Tables, batch: seq<int>, now: int)
    requires Invariant(t, now) && OverdueBatch(t, batch, now)
    ensures Invariant(ExpireAll(t, batch, now), now)
    decreases |batch|
  {
    if batch != [] {
      var last, front := batch[|batch| - 1], batch[..|batch| - 1];
      hide RowsInvariant, LogInvariant, Expire;
      SweepKeeps(t, front, now);
      SweepExpiresExactly(t, front, now);
      assert last !in front;
      DecisionStepKeeps(ExpireAll(t, front, now), ExpireOverdue(last), now);
    }
  }

  /** A decided or expired request is never touched again. */
  lemma DecidedIsKept(t: Tables, step: Step, now: int, id: int)
    requires Invariant(t, now) && id in t.requests && t.requests[id].status != Pending
    ensures id in Apply(t, step, now).requests && Apply(t, step, now).requests[id] == t.requests[id]
  {
    assert id < t.nextId;
    hide Invariant, IsExpiryBatch, Create, Decide, StepIsLive;
    match step
    case CreateRequest(draft, action, createdAt) => CreateKeepsRow(t, draft, action, now, createdAt, id);
    case CreateStepRequest(draft, action, createdAt) => CreateKeepsRow(t, draft, action, now, createdAt, id);
    case DecideRequest(i, approve, actor, comment) => DecideKeepsRow(t, i, approve, actor, comment, now, id);
    case ExpireOverdue(i) =>
    case SweepOverdue(locked, limit, batch) =>
      if IsExpiryBatch(t.requests, locked, now, limit, batch) {
        BatchIsOverdue(t, locked, limit, batch, now);
        SweepExpiresExactly(t, batch, now);
      }
  }

  lemma CreateKeepsRow(t: Tables, draft: Draft, action: string, now: int, createdAt: int, id: int)
    requires id in t.requests && id < t.nextId
    ensures id in Create(t, draft, action, now, createdAt).0.requests && Create(t, draft, action, now, createdAt).0.requests[id] == t.requests[id]
  {
    hide ClashesOnQueue, ClashesOnStep;
  }

  lemma DecideKeepsRow(t: Tables, i: int, approve: bool, actor: int, comment: Option<string>, now: int, id: int)
    requires id in t.requests && t.requests[id].status != Pending
    ensures id in Decide(t, i, approve, actor, comment, now).0.requests && Decide(t, i, approve, actor, comment, now).0.requests[id] == t.requests[id]
  {
  }

  function SingleExpiries(batch: seq<int>): seq<Step> {
    if batch == [] then [] else SingleExpiries(batch[..|batch| - 1]) + [ExpireOverdue(batch[|batch| - 1])]
  }

  function Repeated(now: int, n: nat): seq<int> {
    if n == 0 then [] else Repeated(now, n - 1) + [now]
  }

  lemma {:induction false} SingleExpiriesLength(batch: seq<int>)
    ensures |SingleExpiries(batch)| == |batch|
    decreases |batch|
  {
    if batch != [] {
      SingleExpiriesLength(batch[..|batch| - 1]);
    }
  }

  lemma {:induction false} RepeatedLength(now: int, n: nat)
    ensures |Repeated(now, n)| == n
  {
    if n > 0 {
      RepeatedLength(now, n - 1);
    }
  }

  lemma {:induction false} RunAppend(t: Tables, steps: seq<Step>, times: seq<int>, step: Step, now: int)
    requires |steps| == |times|
    ensures Run(t, steps + [step], times + [now]) == Apply(Run(t, steps, times), step, now)
    decreases |steps|
  {
    if steps == [] {
      assert [step][1..] == [] && [now][1..] == [];
      assert [] + [step] == [step] && [] + [now] == [now];
    } else {
      assert (steps + [step])[1..] == steps[1..] + [step] && (times + [now])[1..] == times[1..] + [now];
      RunAppend(Apply(t, steps[0], times[0]), steps[1..], times[1..], step, now);
    }
  }

  /** The sweep is a run of single expiries at one instant: same rows, and the same events in the same order. */
  lemma {:induction false} SweepIsARun(t: Tables, batch: seq<int>, now: int)
    requires OverdueBatch(t, batch, now)
    ensures |SingleExpiries(batch)| == |Repeated(now, |batch|)| == |batch|
    ensures ExpireAll(t, batch, now) == Run(t, SingleExpiries(batch), Repeated(now, |batch|))
    decreases |batch|
  {
    SingleExpiriesLength(batch);
    RepeatedLength(now, |batch|);
    if batch != [] {
      var last, front := batch[|batch| - 1], batch[..|batch| - 1];
      SweepIsARun(t, front, now);
      SweepExpiresExactly(t, front, now);
      assert last !in front;
      RunAppend(t, SingleExpiries(front), Repeated(now, |front|), ExpireOverdue(last), now);
    }
  }

  // ---------- runs ----------

  /** Each step comes with the time it runs at; the clock never goes back. */
  predicate Ordered(times: seq<int>, start: int) {
    && (forall i :: 0 <= i < |times| ==> start <= times[i])
    && forall i, j :: 0 <= i < j < |times| ==> times[i] <= times[j]
  }

  ghost function Run(t: Tables, steps: seq<Step>, times: seq<int>): Tables
    requires |steps| == |times|
    decreases |steps|
  {
    if steps == [] then t else Run(Apply(t, steps[0], times[0]), steps[1..], times[1..])
  }

  lemma LaterKeeps(t: Tables, now: int, later: int)
    requires Invariant(t, now) && now <= later
    ensures Invariant(t, later)
  {
  }

  lemma {:induction false} RunKeeps(t: Tables, steps: seq<Step>, times: seq<int>, now: int) returns (end: int)
    requires |steps| == |times| && Ordered(times, now) && Invariant(t, now)
    ensures Invariant(Run(t, steps, times), end)
    decreases |steps|
  {
    end := now;
    if steps != [] {
      LaterKeeps(t, now, times[0]);
      StepKeeps(t, steps[0], times[0]);
      end := RunKeeps(Apply(t, steps[0], times[0]), steps[1..], times[1..], times[0]);
    }
  }

  const EMPTY := Tables(map[], [], 1)

  /** Row and log agree in every reachable state. */
  lemma RequestAgreesWithLog(steps: seq<Step>, times: seq<int>, start: int, id: int)
    requires |steps| == |times| && Ordered(times, start)
    requires id in Run(EMPTY, steps, times).requests
    ensures var t := Run(EMPTY, steps, times); var r := t.requests[id];
            && EventsFor(t.events, id) == ExpectedEvents(id, r)
            && (r.approvedBy.Some? <==> r.status == Approved)
            && (r.decidedAt.None? <==> r.status == Pending)
            && (r.decidedAt.Some? ==> (r.status == Expired <==> r.decidedAt.value >= r.expiresAt))
  {
    var end := RunKeeps(EMPTY, steps, times, start);
  }

  /** However requests of a playbook step are created, all but the newest are denied or expired: at most one is live. */
  lemma OneLiveRequestPerStep(steps: seq<Step>, times: seq<int>, start: int, a: int, b: int)
    requires |steps| == |times| && Ordered(times, start)
    requires var t := Run(EMPTY, steps, times); a in t.requests && b in t.requests && SameStepTarget(t.requests[a], t.requests[b])
    ensures var t := Run(EMPTY, steps, times);
            && (a < b ==> t.requests[a].status == Denied || t.requests[a].status == Expired)
            && (t.requests[a].status.Active() && t.requests[b].status.Active() ==> a == b)
  {
    var end := RunKeeps(EMPTY, steps, times, start);
    var t := Run(EMPTY, steps, times);
    assert SameStepTarget(t.requests[b], t.requests[a]);
  }

  lemma {:induction false} LatestExists(requests: map<int, Request>, ids: set<int>)
    requires ids <= requests.Keys && exists id :: id in ids
    ensures exists id :: IsLatest(requests, ids, id)
    decreases ids
  {
    var pick :| pick in ids;
    var rest := ids - {pick};
    assert forall id :: id in ids ==> id == pick || id in rest;
    if forall id :: id !in rest {
      assert IsLatest(requests, ids, pick);
    } else {
      LatestExists(requests, rest);
      var latest :| IsLatest(requests, rest, latest);
      var later := Before((requests[latest].createdAt, latest), (requests[pick].createdAt, pick));
      assert IsLatest(requests, ids, if later then pick else latest);
    }
  }

  /** `d` comes after `a` in the order the stores look for the latest request in. */
  predicate Later(requests: map<int, Request>, a: int, d: int)
    requires a in requests && d in requests
  {
    Before((requests[a].createdAt, a), (requests[d].createdAt, d))
  }

  lemma HelperOnLiveStep(t: Tables, id: int, draft: Draft, action: string, now: int, createdAt: int)
    requires Invariant(t, now) && StepTarget(draft)
    requires id in t.requests && t.requests[id].status.Active() && ForStep(t.requests[id], draft.executionId.value, draft.stepIndex.value)
    ensures StepIsLive(t.requests, draft.executionId.value, draft.stepIndex.value) <==>
            forall other :: other in t.requests && ForStep(t.requests[other], draft.executionId.value, draft.stepIndex.value) ==> !Later(t.requests, id, other)
    ensures Create(t, draft, action, now, createdAt).1.Err? && Apply(t, CreateStepRequest(draft, action, createdAt), now) == t
  {
    var ids := StepRequests(t.requests, draft.executionId.value, draft.stepIndex.value);
    assert ClashesOnStep(t.requests, draft.executionId, draft.stepIndex);
    forall other | other in ids && other != id
      ensures !t.requests[other].status.Active()
    {
      assert SameStepTarget(t.requests[id], t.requests[other]) && SameStepTarget(t.requests[other], t.requests[id]);
    }
    if forall other :: other in ids ==> !Later(t.requests, id, other) {
      assert IsLatest(t.requests, ids, id);
    }
  }

  /**
   In every reachable state the helper reuses a step's live request exactly when no other request of the step began later;
   otherwise it tries to insert, and the unique index refuses. Either way nothing changes.
   */
  lemma HelperReusesExactlyWhen(steps: seq<Step>, times: seq<int>, start: int, id: int, draft: Draft, action: string, now: int, createdAt: int)
    requires |steps| == |times| && Ordered(times, start) && StepTarget(draft)
    requires var requests := Run(EMPTY, steps, times).requests;
             id in requests && requests[id].status.Active() && ForStep(requests[id], draft.executionId.value, draft.stepIndex.value)
    ensures var t := Run(EMPTY, steps, times);
            && (StepIsLive(t.requests, draft.executionId.value, draft.stepIndex.value) <==>
                  forall other :: other in t.requests && ForStep(t.requests[other], draft.executionId.value, draft.stepIndex.value) ==> !Later(t.requests, id, other))
            && Create(t, draft, action, now, createdAt).1.Err?
            && Apply(t, CreateStepRequest(draft, action, createdAt), now) == t
  {
    var end := RunKeeps(EMPTY, steps, times, start);
    var t := Run(EMPTY, steps, times);
    LaterKeeps(t, end, Max(end, now));
    HelperOnLiveStep(t, id, draft, action, Max(end, now), createdAt);
    RefusedWhateverTheTime(t, draft, action, Max(end, now), now, createdAt);
  }

  /** The refusals of a creation do not depend on the clock. */
  lemma RefusedWhateverTheTime(t: Tables, draft: Draft, action: string, now: int, other: int, createdAt: int)
    requires Create(t, draft, action, now, createdAt).1.Err?
    ensures Create(t, draft, action, other, createdAt).1.Err? && Apply(t, CreateStepRequest(draft, action, createdAt), other) == t
  {
    hide ClashesOnQueue, ClashesOnStep, StepIsLive;
  }

  function StepDraft(): Draft {
    Draft(None, None, Some(1), Some(0), "playbook.require_approval", None, None, None, 60)
  }

  /** A step's request is created and denied; then the helper's insert lands in a transaction that began before the first one. */
  function LateHelperSteps(now: int, earlier: int): seq<Step> {
    [CreateRequest(StepDraft(), StepDraft().action, now), DecideRequest(1, false, 7, None), CreateStepRequest(StepDraft(), StepDraft().action, earlier)]
  }

  lemma ThreeSteps(t: Tables, steps: seq<Step>, now: int)
    requires |steps| == 3
    ensures Run(t, steps, [now, now, now]) == Apply(Apply(Apply(t, steps[0], now), steps[1], now), steps[2], now)
  {
    hide Apply;
    var t1 := Apply(t, steps[0], now);
    var t2 := Apply(t1, steps[1], now);
    assert steps[1..][1..] == [steps[2]] && [steps[2]][1..] == [];
    assert [now, now, now][1..] == [now, now] && [now, now][1..] == [now] && [now][1..] == [];
    assert Run(t, steps, [now, now, now]) == Run(t1, steps[1..], [now, now]);
    assert Run(t1, steps[1..], [now, now]) == Run(t2, [steps[2]], [now]);
    assert Run(t2, [steps[2]], [now]) == Run(Apply(t2, steps[2], now), [], []);
  }

  lemma FirstIsDenied(now: int)
    ensures var t := Apply(Apply(EMPTY, LateHelperSteps(now, now)[0], now), LateHelperSteps(now, now)[1], now);
            && t.nextId == 2 && t.requests.Keys == {1} && ForStep(t.requests[1], 1, 0)
            && t.requests[1].status == Denied && t.requests[1].createdAt == now
  {
  }

  lemma HelperCreates(t: Tables, now: int, earlier: int)
    requires earlier <= now && t.nextId == 2 && t.requests.Keys == {1} && ForStep(t.requests[1], 1, 0) && t.requests[1].status == Denied
    ensures var after := Apply(t, LateHelperSteps(now, earlier)[2], now);
            && after.requests.Keys == {1, 2} && after.requests[1] == t.requests[1]
            && ForStep(after.requests[2], 1, 0) && after.requests[2].status == Pending && after.requests[2].createdAt == earlier
  {
    forall id | id in t.requests
      ensures !t.requests[id].status.Active()
    {
      assert id == 1;
    }
    assert !StepIsLive(t.requests, 1, 0) && !ClashesOnStep(t.requests, Some(1), Some(0));
  }

  /** So from empty tables the helper can overlook a step's live request and run into the index. */
  lemma HelperMissesLiveRequest(now: int, earlier: int)
    requires earlier < now
    ensures var t := Run(EMPTY, LateHelperSteps(now, earlier), [now, now, now]);
            && 2 in t.requests && ForStep(t.requests[2], 1, 0) && t.requests[2].status == Pending
            && !StepIsLive(t.requests, 1, 0)
            && Create(t, StepDraft(), StepDraft().action, now, now).1.Err?
  {
    var steps := LateHelperSteps(now, earlier);
    assert steps[0] == LateHelperSteps(now, now)[0] && steps[1] == LateHelperSteps(now, now)[1];
    ThreeSteps(EMPTY, steps, now);
    FirstIsDenied(now);
    HelperCreates(Apply(Apply(EMPTY, steps[0], now), steps[1], now), now, earlier);
    var t := Run(EMPTY, steps, [now, now, now]);
    hide Run, Apply, Create, StepIsLive;
    assert Later(t.requests, 2, 1);
    HelperReusesExactlyWhen(steps, [now, now, now], now, 2, StepDraft(), StepDraft().action, now, now);
  }

  /** With nothing locked and room under the cap, no overdue request survives a sweep. */
  lemma UncappedSweepLeavesNoneOverdue(t: Tables, limit: int, batch: seq<int>, now: int)
    requires IsExpiryBatch(t.requests, {}, now, limit, batch)
    requires |OverdueIds(t.requests, {}, now)| <= Clamp(0, limit, EXPIRY_CAP)
    ensures OverdueIds(ExpireAll(t, batch, now).requests, {}, now) == {}
  {
    var overdue := OverdueIds(t.requests, {}, now);
    BatchIsOverdue(t, {}, limit, batch, now);
    SweepExpiresExactly(t, batch, now);
    EnumerationCovers(overdue, batch);
    var after := ExpireAll(t, batch, now);
    forall id | id in after.requests
      ensures !Overdue(after.requests[id], now)
    {
      if id !in batch {
        assert id !in overdue && after.requests[id] == t.requests[id];
      }
    }
  }

  /** A duplicate-free listing as long as a set, drawn from it, lists all of it. */
  lemma {:induction false} EnumerationCovers(whole: set<int>, listing: seq<int>)
    requires forall i :: 0 <= i < |listing| ==> listing[i] in whole
    requires forall i, j :: 0 <= i < j < |listing| ==> listing[i] != listing[j]
    requires |listing| == |whole|
    ensures forall id :: id in whole ==> id in listing
    decreases |listing|
  {
    if listing != [] {
      var last := listing[|listing| - 1];
      var front := listing[..|listing| - 1];
      EnumerationCovers(whole - {last}, front);
      assert listing == front + [last];
    }
  }
}
