/** What the lease protocol guarantees over whole runs. */
module PlaybookTheorems {
  import opened Common
  import opened PlaybookStore
  import opened PlaybookProtocol

  lemma InitialHolds(s: State)
    requires Initial(s)
    ensures Invariant(s)
  {
  }

  // ---------- the protocol seen from one row ----------

  function LockOf(s: State, id: int): Option<Lock> {
    if id in s.locks then Some(s.locks[id]) else None
  }

  /** The version of one row that a step leaves behind, given the clock, the row's lock and whether its pair is active elsewhere. */
  function MoveRow(step: Step, id: int, row: Execution, now: int, lock: Option<Lock>, elsewhere: bool): Execution {
    match step
    case CommitClaim(txn, i, owner, duration, at) =>
      if i == id && lock == Some(ClaimLock(txn)) && at <= now && CanClaim(row, at) then
        Leased(row, owner, at, duration)
      else row
    case AcquireStep(i, owner, duration, at) =>
      if i == id && lock.None? && at <= now && CanClaim(row, at) then Leased(row, owner, at, duration) else row
    case ResumeStep(i, owner, log, last, duration, at) =>
      if i == id && lock.None? && at <= now && CanResume(row, at) then Resumed(row, owner, log, last, at, duration)
      else row
    case HeartbeatStep(i, owner, duration, at) =>
      if i == id && lock.None? && at <= now && CanBeat(row, owner, at) then
        Beaten(row, at, duration)
      else row
    case ReleaseStep(i, owner) =>
      if i == id && lock.None? && row.leaseOwner == Some(owner) then Unleased(row) else row
    case RecoverStep(txn, i, reason, at) =>
      if i == id && (lock.None? || lock == Some(SweepLock(txn, at))) && at <= now && IsStale(row, at) then Recovered(row, at, reason) else row
    case WriteStep(i, write, log, last, owner) =>
      if i == id && lock.None? && OwnerAllows(row, owner) && !(write.Pause? && elsewhere) then Written(row, write, log, last) else row
    case AbandonStep(i, at) =>
      if i == id && lock.None? && at <= now && !row.status.Terminal() then AbandonedRow(row, at) else row
    case PermanentlyFailStep(i, reason, at) =>
      if i == id && lock.None? && at <= now && row.status.PermanentFailEligible() && reason != "" then
        DeadLettered(row, reason, at)
      else row
    case _ => row
  }

  lemma StepMovesRow(s: State, step: Step, id: int)
    requires id in s.table
    ensures id in Apply(s, step).table
    ensures Apply(s, step).table[id] == MoveRow(step, id, s.table[id], s.now, LockOf(s, id), ActiveElsewhere(s.table, id))
  {
    match step
    case PermanentlyFailStep(i, reason, at) =>
      if i in s.table && i !in s.locks && at <= s.now { PermanentFailureMovesRow(s.table, i, reason, at); }
    case _ =>
  }

  lemma PermanentFailureMovesRow(table: Table, id: int, reason: string, at: int)
    requires id in table
    ensures PermanentlyFail(table, id, reason, at).0 ==
            if table[id].status.PermanentFailEligible() && reason != "" then table[id := DeadLettered(table[id], reason, at)] else table
  {
  }

  /** Only Create adds a row, and it adds a fresh one. */
  lemma StepAddsFreshRows(s: State, step: Step, id: int)
    requires id !in s.table && id in Apply(s, step).table
    ensures step.Create? && step.id == id && Apply(s, step).table[id] == NewExecution(step.playbookId, step.alertId, step.at)
    ensures !PairTaken(s.table, step.playbookId, step.alertId)
  {
    match step
    case PermanentlyFailStep(i, reason, at) =>
      if i in s.table && i !in s.locks && at <= s.now { PermanentFailureMovesRow(s.table, i, reason, at); }
    case _ =>
  }

  /** Fencing: in every reachable state the lease belongs to whoever claimed or resumed the row last. */
  lemma LeaseBelongsToLastClaimant(s: State, steps: seq<Step>, id: int)
    requires Initial(s) && AllInProtocol(steps)
    requires id in Run(s, steps).table
    ensures var e := Run(s, steps); var row := e.table[id];
            && (row.leaseOwner.Some? ==> row.leaseOwner == LatestHolder(e.history, id))
            && (row.status == Pending ==> row == Unleased(row))
  {
    InitialHolds(s);
    RunKeeps(s, steps);
    assert RowInvariant(Run(s, steps).history, id, Run(s, steps).table[id]);
  }

  /** A heartbeat, release or guarded write by anyone but the last claimant changes nothing. */
  lemma OnlyLastClaimantCanWrite(s: State, steps: seq<Step>, late: Step)
    requires Initial(s) && AllInProtocol(steps) && InProtocol(late) && OwnerCall(late)
    requires LatestHolder(Run(s, steps).history, late.id) != Some(late.owner)
    ensures Apply(Run(s, steps), late) == Run(s, steps)
  {
    InitialHolds(s);
    RunKeeps(s, steps);
    var e := Run(s, steps);
    if late.id in e.table {
      assert RowInvariant(e.history, late.id, e.table[late.id]);
    }
    NotOwnedNoChange(e, late, late.id, late.owner);
  }

  predicate OwnerCall(step: Step) {
    step.HeartbeatStep? || step.ReleaseStep? || step.WriteStep?
  }

  predicate CallBy(step: Step, id: int, worker: string) {
    OwnerCall(step) && step.id == id && step.owner == worker
  }

  predicate ClaimBy(step: Step, id: int, worker: string) {
    (step.CommitClaim? || step.AcquireStep? || step.ResumeStep?) && step.id == id && step.owner == worker
  }

  predicate Owns(s: State, id: int, worker: string) {
    id in s.table && s.table[id].leaseOwner == Some(worker)
  }

  lemma NotOwnedNoChange(s: State, step: Step, id: int, worker: string)
    requires CallBy(step, id, worker) && InProtocol(step) && !Owns(s, id, worker)
    ensures Apply(s, step) == s
  {
    match step
    case HeartbeatStep(_, owner, duration, at) => HeartbeatShape(s, id, owner, duration, at);
    case ReleaseStep(_, owner) => ReleaseShape(s, id, owner);
    case WriteStep(_, write, log, last, owner) => WriteShape(s, id, write, log, last, owner);
  }

  lemma OwnershipNeedsClaim(s: State, step: Step, id: int, worker: string)
    requires !Owns(s, id, worker) && !ClaimBy(step, id, worker) && InProtocol(step)
    ensures !Owns(Apply(s, step), id, worker)
  {
    if id in s.table {
      StepMovesRow(s, step, id);
    } else if id in Apply(s, step).table {
      StepAddsFreshRows(s, step, id);
    }
  }

  /** The run with every owner-guarded call of one worker on one row taken out. */
  function Without(steps: seq<Step>, id: int, worker: string): seq<Step> {
    if steps == [] then []
    else (if CallBy(steps[0], id, worker) then [] else [steps[0]]) + Without(steps[1..], id, worker)
  }

  /**
   A worker that has lost the lease is erased until it claims again: taking all its later heartbeats,
   releases and writes out of the run gives the very same final state.
   */
  lemma {:induction false} FencedWorkerIsErased(s: State, steps: seq<Step>, id: int, worker: string)
    requires !Owns(s, id, worker) && AllInProtocol(steps)
    requires forall i :: 0 <= i < |steps| ==> !ClaimBy(steps[i], id, worker)
    ensures Run(s, steps) == Run(s, Without(steps, id, worker))
    ensures !Owns(Run(s, steps), id, worker)
    decreases |steps|
  {
    if steps != [] {
      var rest := Without(steps[1..], id, worker);
      OwnershipNeedsClaim(s, steps[0], id, worker);
      FencedWorkerIsErased(Apply(s, steps[0]), steps[1..], id, worker);
      if CallBy(steps[0], id, worker) {
        NotOwnedNoChange(s, steps[0], id, worker);
        assert [] + rest == rest;
      } else {
        assert ([steps[0]] + rest)[1..] == rest;
      }
    }
  }

  /** Claims under SKIP LOCKED: two open claims never hold one row, and a claim that holds its row always lands. */
  lemma OpenClaimsAreExclusive(s: State, steps: seq<Step>, a: int, b: int, owner: string, duration: int, at: int)
    requires Initial(s) && AllInProtocol(steps)
    requires var e := Run(s, steps); a in e.locks && b in e.locks && e.locks[a].ClaimLock? && e.locks[b].ClaimLock?
    requires owner != "" && duration >= 1 && at <= Run(s, steps).now
    ensures var e := Run(s, steps); a == b <==> e.locks[a].txn == e.locks[b].txn
    ensures var e := Run(s, steps);
            var landed := Apply(e, CommitClaim(e.locks[a].txn, a, owner, duration, at));
            && Owns(landed, a, owner) && landed.table[a].status == Running
            && landed.history == e.history + [Claimed(a, owner)]
  {
    InitialHolds(s);
    RunKeeps(s, steps);
    var e := Run(s, steps);
    assert LockInvariant(e, a) && RowInvariant(e.history, a, e.table[a]);
  }

  /** A sweep that holds a still-leased row under its lock always recovers it. */
  lemma LockedStaleRowsRecover(s: State, steps: seq<Step>, id: int, reason: string)
    requires Initial(s) && AllInProtocol(steps)
    requires var e := Run(s, steps); id in e.locks && id in e.table && e.locks[id].SweepLock? && e.table[id].leaseOwner.Some?
    ensures var e := Run(s, steps);
            var swept := Apply(e, RecoverStep(e.locks[id].txn, id, reason, e.locks[id].at));
            && swept.table[id] == Recovered(e.table[id], e.locks[id].at, reason)
            && swept.history == e.history + [RecoveredRow(id)]
  {
    InitialHolds(s);
    RunKeeps(s, steps);
    var e := Run(s, steps);
    assert LockInvariant(e, id);
  }

  /** Recovery budget: counters, claims and recoveries of every row in every reachable state. */
  lemma RecoveryBudget(s: State, steps: seq<Step>, id: int)
    requires Initial(s) && AllInProtocol(steps)
    requires id in Run(s, steps).table
    ensures var e := Run(s, steps); var row := e.table[id];
            var claims, recoveries := ClaimCount(e.history, id), RecoveryCount(e.history, id);
            && recoveries == row.recoveryCount
            && recoveries <= claims <= recoveries + 1
            && recoveries <= row.maxAttempts + 1
            && claims <= row.maxAttempts + 1
            && (|| recoveries == row.attemptCount
                || (recoveries == row.attemptCount + 1 && row == Unleased(row) && (row.status == Failed || row.status == PermanentlyFailed)))
  {
    InitialHolds(s);
    RunKeeps(s, steps);
    assert RowInvariant(Run(s, steps).history, id, Run(s, steps).table[id]);
  }

  // ---------- terminal rows ----------

  predicate Settled(row: Execution) {
    row.status.Terminal() && row.leaseOwner.None?
  }

  predicate SettledMove(before: Execution, after: Execution) {
    && Settled(after)
    && (after.status == before.status || (before.status == Failed && after.status == PermanentlyFailed))
    && after.attemptCount == before.attemptCount && after.recoveryCount == before.recoveryCount
    && after.stepsLog == before.stepsLog && after.lastCompletedStep == before.lastCompletedStep
  }

  lemma SettledStep(s: State, step: Step, id: int)
    requires id in s.table && Settled(s.table[id]) && InProtocol(step)
    ensures id in Apply(s, step).table && SettledMove(s.table[id], Apply(s, step).table[id])
  {
    StepMovesRow(s, step, id);
  }

  /** A terminal row without a lease is final, except that an operator may dead-letter a failed one. */
  lemma {:induction false} SettledForever(s: State, steps: seq<Step>, id: int)
    requires id in s.table && Settled(s.table[id]) && AllInProtocol(steps)
    ensures id in Run(s, steps).table && SettledMove(s.table[id], Run(s, steps).table[id])
    decreases |steps|
  {
    if steps != [] {
      SettledStep(s, steps[0], id);
      SettledForever(Apply(s, steps[0]), steps[1..], id);
    }
  }

  /**
   With its lease still in place a terminal row is not final. One step changes its status exactly when
   it is the lease owner finishing it to another status, or pausing it while no other execution of its
   playbook and alert is active, or a dead-lettering of a failed row.
   */
  lemma TerminalStatusChangesExactlyWhen(s: State, step: Step, id: int)
    requires id in s.table && s.table[id].status.Terminal() && InProtocol(step) && id !in s.locks
    ensures id in Apply(s, step).table
    ensures Apply(s, step).table[id].status != s.table[id].status <==>
            || (&& step.WriteStep? && step.id == id && Owns(s, id, step.owner)
                && ((step.write.Pause? && !ActiveElsewhere(s.table, id)) || (step.write.Finish? && step.write.status != s.table[id].status)))
            || (&& step.PermanentlyFailStep? && step.id == id && s.table[id].status == Failed
                && step.reason != "" && step.at <= s.now)
  {
    StepMovesRow(s, step, id);
  }

  /**
   Abandoning leaves the lease in place. An abandoned row whose worker still holds it runs again, by that worker pausing it
   and any worker resuming it once the lease has run out, exactly when no other execution of its pair has become active.
   */
  lemma AbandonedRunsAgainExactlyWhen(s: State, id: int, worker: string, other: string, duration: int)
    requires Invariant(s) && Owns(s, id, worker) && s.table[id].status == Abandoned && id !in s.locks
    requires worker != "" && other != "" && duration >= 1
    ensures var resumed := PauseAndResume(s, id, worker, other, duration);
            && id in resumed.table
            && (ActiveElsewhere(s.table, id) ==> resumed.table[id] == s.table[id])
            && (!ActiveElsewhere(s.table, id) ==> Owns(resumed, id, other) && resumed.table[id].status == Running)
  {
    var expiry := Max(s.now, s.table[id].leaseExpiresAt.value);
    var pause := WriteStep(id, Pause, [], None, worker);
    var paused := Apply(s, pause);
    StepMovesRow(s, pause, id);
    var later := Apply(paused, Tick(expiry));
    StepMovesRow(paused, Tick(expiry), id);
    StepMovesRow(later, ResumeStep(id, other, [], None, duration, expiry), id);
  }

  /** The owner pauses, the lease runs out, and another worker resumes. */
  ghost function PauseAndResume(s: State, id: int, worker: string, other: string, duration: int): State
    requires id in s.table && s.table[id].leaseExpiresAt.Some?
  {
    var expiry := Max(s.now, s.table[id].leaseExpiresAt.value);
    Apply(Apply(Apply(s, WriteStep(id, Pause, [], None, worker)), Tick(expiry)), ResumeStep(id, other, [], None, duration, expiry))
  }

  /** So abandoning a running execution never by itself prevents it: nothing else of its pair can be active at that moment. */
  lemma AbandonedCanRunAgain(s: State, steps: seq<Step>, id: int, worker: string, other: string, duration: int)
    requires Initial(s) && AllInProtocol(steps)
    requires var e := Run(s, steps); Owns(e, id, worker) && e.table[id].status == Running && id !in e.locks
    requires other != "" && duration >= 1
    ensures var e := Run(s, steps); var abandoned := Apply(e, AbandonStep(id, e.now));
            && id in abandoned.table && abandoned.table[id].status == Abandoned && abandoned.table[id].leaseExpiresAt.Some?
            && var resumed := PauseAndResume(abandoned, id, worker, other, duration);
               Owns(resumed, id, other) && resumed.table[id].status == Running
  {
    InitialHolds(s);
    RunKeeps(s, steps);
    RunKeepsPairs(s, steps);
    var e := Run(s, steps);
    var abandon := AbandonStep(id, e.now);
    var abandoned := Apply(e, abandon);
    StepMovesRow(e, abandon, id);
    StepKeeps(e, abandon);
    assert RowInvariant(e.history, id, e.table[id]);
    assert abandoned.table == e.table[id := AbandonedRow(e.table[id], e.now)];
    AbandonedRunsAgainExactlyWhen(abandoned, id, worker, other, duration);
  }

  // ---------- one active execution per playbook and alert ----------

  /** The protocol's steps, and its writes under a blank owner as well. */
  predicate BlankAllowed(step: Step) {
    InProtocol(step) || (step.WriteStep? && step.owner == "" && ValidWrite(step.write))
  }

  /** A terminal row becomes active only while nothing else of its pair is. */
  lemma RevivedAlone(s: State, step: Step, id: int)
    requires BlankAllowed(step) && id in s.table && s.table[id].status.Terminal()
    ensures id in Apply(s, step).table
    ensures !Apply(s, step).table[id].status.Terminal() ==> !ActiveElsewhere(s.table, id)
  {
    StepMovesRow(s, step, id);
  }

  /** A step keeps every row's pair, and moves at most one row. */
  lemma PairStays(s: State, step: Step, a: int, b: int)
    requires a in s.table && b in s.table && a != b
    ensures a in Apply(s, step).table && b in Apply(s, step).table
    ensures SamePair(Apply(s, step).table[a], Apply(s, step).table[b]) <==> SamePair(s.table[a], s.table[b])
    ensures Apply(s, step).table[a] == s.table[a] || Apply(s, step).table[b] == s.table[b]
  {
    StepMovesRow(s, step, a);
    StepMovesRow(s, step, b);
  }

  lemma FreshPair(s: State, step: Step, a: int, b: int)
    requires a !in s.table && a in Apply(s, step).table && b in Apply(s, step).table && a != b
    requires SamePair(Apply(s, step).table[a], Apply(s, step).table[b])
    ensures Apply(s, step).table[b].status.Terminal()
  {
    StepAddsFreshRows(s, step, a);
    if b in s.table { StepMovesRow(s, step, b); } else { StepAddsFreshRows(s, step, b); }
  }

  lemma StepKeepsPairs(s: State, step: Step)
    requires OneActivePerPair(s.table) && BlankAllowed(step)
    ensures OneActivePerPair(Apply(s, step).table)
  {
    hide Apply, BlankAllowed;
    var after := Apply(s, step).table;
    forall a, b | a in after && b in after && a != b && SamePair(after[a], after[b])
      ensures after[a].status.Terminal() || after[b].status.Terminal()
    {
      if a !in s.table {
        FreshPair(s, step, a, b);
      } else if b !in s.table {
        FreshPair(s, step, b, a);
      } else {
        PairStays(s, step, a, b);
        if s.table[a].status.Terminal() { RevivedAlone(s, step, a); }
        if s.table[b].status.Terminal() { RevivedAlone(s, step, b); }
        assert after[a] == s.table[a] && !after[a].status.Terminal() ==> ActiveElsewhere(s.table, b);
        assert after[b] == s.table[b] && !after[b].status.Terminal() ==> ActiveElsewhere(s.table, a);
      }
    }
  }

  /**
   No claim, resume, recovery or write ever makes two executions of one playbook and alert active, so those updates never
   meet the index; only inserts and pauses of terminal rows can.
   */
  lemma {:induction false} RunKeepsPairs(s: State, steps: seq<Step>)
    requires OneActivePerPair(s.table) && forall i :: 0 <= i < |steps| ==> BlankAllowed(steps[i])
    ensures OneActivePerPair(Run(s, steps).table)
    decreases |steps|
  {
    if steps != [] {
      StepKeepsPairs(s, steps[0]);
      RunKeepsPairs(Apply(s, steps[0]), steps[1..]);
    }
  }

  // ---------- heartbeats ----------

  /**
   The schedule of a live worker: the clock never reaches the deadline set by its last claim or
   heartbeat, its heartbeats arrive within the time they ask for (each may carry a timestamp captured
   earlier), and it neither releases nor pauses the row.
   */
  ghost predicate Diligent(s: State, steps: seq<Step>, id: int, worker: string, deadline: int)
    decreases |steps|
  {
    steps != [] ==>
      && DiligentStep(s.now, steps[0], id, worker, deadline)
      && Diligent(Apply(s, steps[0]), steps[1..], id, worker, NextDeadline(steps[0], id, worker, deadline))
  }

  predicate DiligentStep(now: int, step: Step, id: int, worker: string, deadline: int) {
    && (step.Tick? ==> step.to < deadline)
    && (CallBy(step, id, worker) ==> !step.ReleaseStep? && !(step.WriteStep? && step.write.Pause?))
    && (CallBy(step, id, worker) && step.HeartbeatStep? ==> step.at <= now < step.at + step.duration)
  }

  function NextDeadline(step: Step, id: int, worker: string, deadline: int): int {
    if CallBy(step, id, worker) && step.HeartbeatStep? then step.at + step.duration else deadline
  }

  predicate HeldRow(row: Execution, worker: string, deadline: int) {
    && row.leaseOwner == Some(worker)
    && (row.status == Running ==> row.leaseExpiresAt == Some(deadline))
    && (row.status == Running || row.status.Terminal())
  }

  ghost predicate Held(s: State, id: int, worker: string, deadline: int) {
    Invariant(s) && s.now < deadline && id in s.table && HeldRow(s.table[id], worker, deadline)
  }

  predicate Ends(step: Step, id: int) {
    (step.WriteStep? || step.AbandonStep? || step.PermanentlyFailStep?) && step.id == id
  }

  lemma HeldRowIsNotLocked(s: State, id: int, worker: string, deadline: int)
    requires Held(s, id, worker, deadline)
    ensures id !in s.locks
  {
    if id in s.locks && LockInvariant(s, id) {
      assert false;
    }
  }

  lemma HeldRowStep(step: Step, id: int, row: Execution, now: int, elsewhere: bool, worker: string, deadline: int)
    requires HeldRow(row, worker, deadline) && now < deadline && InProtocol(step) && DiligentStep(now, step, id, worker, deadline)
    ensures var after := MoveRow(step, id, row, now, None, elsewhere);
            && HeldRow(after, worker, NextDeadline(step, id, worker, deadline))
            && after.recoveryCount == row.recoveryCount
            && (!Ends(step, id) ==> after.status == row.status)
  {
  }

  lemma ClockStaysBelow(s: State, step: Step, id: int, worker: string, deadline: int)
    requires s.now < deadline && DiligentStep(s.now, step, id, worker, deadline)
    ensures Apply(s, step).now < NextDeadline(step, id, worker, deadline)
  {
  }

  lemma HeldStep(s: State, step: Step, id: int, worker: string, deadline: int)
    requires Held(s, id, worker, deadline) && InProtocol(step) && DiligentStep(s.now, step, id, worker, deadline)
    ensures Held(Apply(s, step), id, worker, NextDeadline(step, id, worker, deadline))
    ensures Apply(s, step).table[id].recoveryCount == s.table[id].recoveryCount
    ensures !Ends(step, id) ==> Apply(s, step).table[id].status == s.table[id].status
  {
    HeldRowIsNotLocked(s, id, worker, deadline);
    hide Invariant, MoveRow, InProtocol, Apply, HeldRow;
    StepKeeps(s, step);
    ClockStaysBelow(s, step, id, worker, deadline);
    StepMovesRow(s, step, id);
    HeldRowStep(step, id, s.table[id], s.now, ActiveElsewhere(s.table, id), worker, deadline);
  }

  /** A worker whose heartbeats are each strictly less than its lease apart is never recovered and keeps the row. */
  lemma {:induction false} DiligentWorkerKeepsLease(s: State, steps: seq<Step>, id: int, worker: string, deadline: int)
    requires Held(s, id, worker, deadline) && AllInProtocol(steps) && Diligent(s, steps, id, worker, deadline)
    ensures Owns(Run(s, steps), id, worker)
    ensures Run(s, steps).table[id].recoveryCount == s.table[id].recoveryCount
    ensures (forall i :: 0 <= i < |steps| ==> !Ends(steps[i], id)) ==> Run(s, steps).table[id].status == s.table[id].status
    decreases |steps|
  {
    if steps != [] {
      HeldStep(s, steps[0], id, worker, deadline);
      DiligentWorkerKeepsLease(Apply(s, steps[0]), steps[1..], id, worker, NextDeadline(steps[0], id, worker, deadline));
    }
  }
}
