/**
 The execution-lease protocol: any number of workers, a stale-lease sweeper and operators run the
 store's calls against one table, in any order, under a clock that never goes back.
 A call made while another transaction holds the row's lock does nothing yet (it waits), and every
 call may carry a timestamp it captured earlier than the moment it runs.
 */
module PlaybookProtocol {
  import opened Common
  import opened PlaybookStore

  datatype Lock = ClaimLock(txn: int) | SweepLock(txn: int, at: int)

  datatype Event =
    | Claimed(id: int, owner: string)
    | ResumedBy(id: int, owner: string)
    | RecoveredRow(id: int)

  datatype State = State(now: int, table: Table, locks: map<int, Lock>, history: seq<Event>)

  datatype Step =
    | Tick(to: int)
    | Create(id: int, playbookId: string, alertId: Option<int>, at: int)
    | SelectPending(txn: int, id: int)
    | CommitClaim(txn: int, id: int, owner: string, duration: int, at: int)
    | AcquireStep(id: int, owner: string, duration: int, at: int)
    | ResumeStep(id: int, owner: string, log: seq<string>, last: Option<int>, duration: int, at: int)
    | HeartbeatStep(id: int, owner: string, duration: int, at: int)
    | ReleaseStep(id: int, owner: string)
    | SelectStale(txn: int, batch: seq<int>, limit: nat, at: int)
    | RecoverStep(txn: int, id: int, reason: string, at: int)
    | EndTransaction(txn: int)
    | WriteStep(id: int, write: Write, log: seq<string>, last: Option<int>, owner: string)
    | AbandonStep(id: int, at: int)
    | PermanentlyFailStep(id: int, reason: string, at: int)

  /**
   Workers are named: calls carry the non-blank owner the store has stripped, and leases last at least
   a second (the store refuses other arguments). Writes store a status the store has a call for.
   */
  predicate InProtocol(step: Step) {
    && ((step.CommitClaim? || step.AcquireStep? || step.ResumeStep? || step.HeartbeatStep? || step.ReleaseStep? || step.WriteStep?) ==> step.owner != "")
    && (step.CommitClaim? || step.AcquireStep? || step.ResumeStep? || step.HeartbeatStep? ==> step.duration >= 1)
    && (step.WriteStep? ==> ValidWrite(step.write))
  }

  predicate AllInProtocol(steps: seq<Step>) {
    forall i :: 0 <= i < |steps| ==> InProtocol(steps[i])
  }

  predicate Idle(s: State, txn: int) {
    forall id :: id in s.locks ==> s.locks[id].txn != txn
  }

  function Landed(s: State, update: (Table, Returned), event: Event): State {
    if update.1.Some? then s.(table := update.0, history := s.history + [event]) else s
  }

  ghost function Apply(s: State, step: Step): State {
    match step
    case Tick(to) => if to > s.now then s.(now := to) else s
    case Create(id, playbookId, alertId, at) => s.(table := Insert(s.table, id, playbookId, alertId, at))
    case SelectPending(txn, id) =>
      if IsNextPending(s.table, s.locks.Keys, id) && Idle(s, txn) then s.(locks := s.locks[id := ClaimLock(txn)]) else s
    case CommitClaim(txn, id, owner, duration, at) =>
      if id in s.locks && s.locks[id] == ClaimLock(txn) && at <= s.now then
        Landed(s.(locks := s.locks - {id}), Acquire(s.table, id, owner, duration, at), Claimed(id, owner))
      else s
    case AcquireStep(id, owner, duration, at) =>
      if id in s.locks || at > s.now then s
      else Landed(s, Acquire(s.table, id, owner, duration, at), Claimed(id, owner))
    case ResumeStep(id, owner, log, last, duration, at) =>
      if id in s.locks || at > s.now then s
      else Landed(s, Resume(s.table, id, owner, log, last, duration, at), ResumedBy(id, owner))
    case HeartbeatStep(id, owner, duration, at) =>
      if id in s.locks || at > s.now then s else s.(table := Heartbeat(s.table, id, owner, duration, at).0)
    case ReleaseStep(id, owner) => if id in s.locks then s else s.(table := Release(s.table, id, owner).0)
    case SelectStale(txn, batch, limit, at) =>
      if at <= s.now && Idle(s, txn) && IsStaleBatch(s.table, s.locks.Keys, at, limit, batch) then
        s.(locks := s.locks + map id | id in batch :: SweepLock(txn, at))
      else s
    case RecoverStep(txn, id, reason, at) =>
      if at > s.now || (id in s.locks && s.locks[id] != SweepLock(txn, at)) then s
      else Landed(s, Recover(s.table, id, reason, at), RecoveredRow(id))
    case EndTransaction(txn) => s.(locks := map id | id in s.locks && s.locks[id].txn != txn :: s.locks[id])
    case WriteStep(id, write, log, last, owner) =>
      if id in s.locks then s else s.(table := GuardedWrite(s.table, id, write, log, last, owner).0)
    case AbandonStep(id, at) => if id in s.locks || at > s.now then s else s.(table := Abandon(s.table, id, at).0)
    case PermanentlyFailStep(id, reason, at) =>
      if id in s.locks || at > s.now then s else s.(table := PermanentlyFail(s.table, id, reason, at).0)
  }

  ghost function Run(s: State, steps: seq<Step>): State
    decreases |steps|
  {
    if steps == [] then s else Run(Apply(s, steps[0]), steps[1..])
  }

  // ---------- what the history of claims says about a row ----------

  function LatestHolder(history: seq<Event>, id: int): Option<string> {
    if history == [] then None
    else
      var last := history[|history| - 1];
      if last.id == id && !last.RecoveredRow? then Some(last.owner) else LatestHolder(history[..|history| - 1], id)
  }

  function ClaimCount(history: seq<Event>, id: int): nat {
    if history == [] then 0
    else ClaimCount(history[..|history| - 1], id) + (if history[|history| - 1].Claimed? && history[|history| - 1].id == id then 1 else 0)
  }

  function RecoveryCount(history: seq<Event>, id: int): nat {
    if history == [] then 0
    else RecoveryCount(history[..|history| - 1], id) + (if history[|history| - 1] == RecoveredRow(id) then 1 else 0)
  }

  /** What holds of every row in every reachable state, given the claims and recoveries so far. */
  predicate RowInvariant(history: seq<Event>, id: int, row: Execution) {
    && (row.leaseOwner.Some? <==> row.leaseExpiresAt.Some?)
    && (row.leaseOwner.Some? <==> row.leaseAcquiredAt.Some?)
    && (row.leaseOwner.Some? <==> row.leaseHeartbeatAt.Some?)
    && (row.leaseOwner.Some? ==> row.leaseExpiresAt.value > row.leaseHeartbeatAt.value)
    && (row.leaseOwner.Some? ==> row.leaseOwner == LatestHolder(history, id) && row.leaseOwner.value != "")
    && (row.status == Pending ==> row.leaseOwner.None?)
    && 0 <= row.attemptCount <= row.maxAttempts
    && row.recoveryCount == RecoveryCount(history, id)
    && (|| row.recoveryCount == row.attemptCount
        || (&& row.recoveryCount == row.attemptCount + 1
            && row.attemptCount == row.maxAttempts
            && (row.status == Failed || row.status == PermanentlyFailed)
            && row.leaseOwner.None?))
    && row.recoveryCount <= ClaimCount(history, id) <= row.attemptCount + 1
    && (row.status == Pending ==> ClaimCount(history, id) == row.attemptCount)
    && (row.status == Running || row.status == AwaitingApproval || row.leaseOwner.Some? ==> ClaimCount(history, id) == row.attemptCount + 1)
  }

  predicate LockInvariant(s: State, id: int)
    requires id in s.locks
  {
    && id in s.table
    && match s.locks[id]
       case ClaimLock(txn) => s.table[id].status == Pending
       case SweepLock(txn, at) => at <= s.now && (IsStale(s.table[id], at) || s.table[id].leaseOwner.None?)
  }

  ghost predicate Invariant(s: State) {
    && (forall id :: id in s.table ==> RowInvariant(s.history, id, s.table[id]))
    && (forall id :: id in s.locks ==> LockInvariant(s, id))
    && (forall a, b :: a in s.locks && b in s.locks && s.locks[a].ClaimLock? && s.locks[b].txn == s.locks[a].txn ==> a == b)
    && (forall i :: 0 <= i < |s.history| ==> s.history[i].id in s.table)
  }

  /** Fresh rows with the schema's zero counters and any attempt budget. */
  predicate Initial(s: State) {
    && OneActivePerPair(s.table)
    && s.locks == map[]
    && s.history == []
    && forall id :: id in s.table ==>
         && s.table[id] == Unleased(s.table[id])
         && s.table[id].status == Pending
         && s.table[id].attemptCount == s.table[id].recoveryCount == 0
         && s.table[id].maxAttempts >= 0
  }

  /** What the partial unique index guarantees of any table: at most one active execution per playbook and alert. */
  predicate OneActivePerPair(table: Table) {
    forall a, b :: a in table && b in table && a != b && SamePair(table[a], table[b]) ==> table[a].status.Terminal() || table[b].status.Terminal()
  }

  lemma HistoryStep(history: seq<Event>, event: Event, id: int)
    ensures LatestHolder(history + [event], id) ==
            if event.id == id && !event.RecoveredRow? then Some(event.owner) else LatestHolder(history, id)
    ensures ClaimCount(history + [event], id) == ClaimCount(history, id) + (if event.Claimed? && event.id == id then 1 else 0)
    ensures RecoveryCount(history + [event], id) == RecoveryCount(history, id) + (if event == RecoveredRow(id) then 1 else 0)
  {
    assert (history + [event])[..|history|] == history;
  }

  lemma {:induction false} NoHistory(history: seq<Event>, id: int)
    requires forall i :: 0 <= i < |history| ==> history[i].id != id
    ensures ClaimCount(history, id) == 0 && RecoveryCount(history, id) == 0
  {
    if history != [] {
      NoHistory(history[..|history| - 1], id);
    }
  }

  /** A step that lands one new row version, with its event, keeps every other row's invariant. */
  lemma LandingKeeps(s: State, id: int, row: Execution, event: Event)
    requires Invariant(s) && id in s.table && event.id == id
    requires RowInvariant(s.history + [event], id, row)
    requires id in s.locks ==> row.leaseOwner.None? && s.locks[id].SweepLock?
    ensures Invariant(s.(table := s.table[id := row], history := s.history + [event]))
  {
    var after := s.(table := s.table[id := row], history := s.history + [event]);
    forall other | other in after.table
      ensures RowInvariant(after.history, other, after.table[other])
    {
      HistoryStep(s.history, event, other);
    }
    forall other | other in after.locks
      ensures LockInvariant(after, other)
    {
      assert LockInvariant(s, other);
    }
  }

  lemma UnlockKeeps(s: State, locks: map<int, Lock>)
    requires Invariant(s)
    requires forall id :: id in locks ==> id in s.locks && locks[id] == s.locks[id]
    ensures Invariant(s.(locks := locks))
  {
    forall id | id in locks
      ensures LockInvariant(s.(locks := locks), id)
    {
      assert LockInvariant(s, id);
    }
  }

  lemma LockKeeps(s: State, step: Step)
    requires Invariant(s) && (step.SelectPending? || step.SelectStale?)
    ensures Invariant(Apply(s, step))
  {
    var after := Apply(s, step);
    forall id | id in after.locks
      ensures LockInvariant(after, id)
    {
      if id in s.locks && after.locks[id] == s.locks[id] {
        assert LockInvariant(s, id);
      }
    }
  }

  /** In-place row changes that record no event: heartbeat, release, write, abandon, permanent fail. */
  lemma QuietKeeps(s: State, id: int, row: Execution)
    requires Invariant(s) && id in s.table && id !in s.locks
    requires RowInvariant(s.history, id, row)
    ensures Invariant(s.(table := s.table[id := row]))
  {
    var after := s.(table := s.table[id := row]);
    forall other | other in after.locks
      ensures LockInvariant(after, other)
    {
      assert LockInvariant(s, other);
    }
  }

  // ---------- each new row version keeps the row's own invariant ----------

  lemma WrittenKeeps(history: seq<Event>, id: int, row: Execution, write: Write, log: seq<string>, last: Option<int>)
    requires RowInvariant(history, id, row) && row.leaseOwner.Some? && ValidWrite(write)
    ensures RowInvariant(history, id, Written(row, write, log, last))
  {
  }

  lemma BeatenKeeps(history: seq<Event>, id: int, row: Execution, at: int, duration: int)
    requires RowInvariant(history, id, row) && row.leaseOwner.Some? && duration >= 1
    ensures RowInvariant(history, id, Beaten(row, at, duration))
  {
  }

  lemma OperatorKeeps(history: seq<Event>, id: int, row: Execution, reason: string, at: int)
    requires RowInvariant(history, id, row)
    ensures RowInvariant(history, id, Unleased(row))
    ensures !row.status.Terminal() ==> RowInvariant(history, id, AbandonedRow(row, at))
    ensures row.status.PermanentFailEligible() ==> RowInvariant(history, id, DeadLettered(row, reason, at))
  {
  }

  lemma LeasedKeeps(history: seq<Event>, id: int, row: Execution, owner: string, at: int, duration: int)
    requires RowInvariant(history, id, row) && row.status == Pending && owner != "" && duration >= 1
    ensures RowInvariant(history + [Claimed(id, owner)], id, Leased(row, owner, at, duration))
  {
    HistoryStep(history, Claimed(id, owner), id);
  }

  lemma ResumedKeeps(history: seq<Event>, id: int, row: Execution, owner: string, log: seq<string>, last: Option<int>, at: int, duration: int)
    requires RowInvariant(history, id, row) && row.status == AwaitingApproval && owner != "" && duration >= 1
    ensures RowInvariant(history + [ResumedBy(id, owner)], id, Resumed(row, owner, log, last, at, duration))
  {
    HistoryStep(history, ResumedBy(id, owner), id);
  }

  lemma RecoveredKeeps(history: seq<Event>, id: int, row: Execution, at: int, reason: string)
    requires RowInvariant(history, id, row) && IsStale(row, at)
    ensures RowInvariant(history + [RecoveredRow(id)], id, Recovered(row, at, reason))
  {
    HistoryStep(history, RecoveredRow(id), id);
  }

  // ---------- each claiming step lands one leased row, and each quiet step changes one row that its guard allows, or nothing ----------

  lemma WriteShape(s: State, id: int, write: Write, log: seq<string>, last: Option<int>, owner: string)
    requires owner != ""
    ensures Apply(s, WriteStep(id, write, log, last, owner)) == s
            || (&& id !in s.locks && id in s.table && s.table[id].leaseOwner == Some(owner)
                && Apply(s, WriteStep(id, write, log, last, owner)) == s.(table := s.table[id := Written(s.table[id], write, log, last)]))
  {
  }

  lemma HeartbeatShape(s: State, id: int, owner: string, duration: int, at: int)
    ensures Apply(s, HeartbeatStep(id, owner, duration, at)) == s
            || (&& id !in s.locks && id in s.table && CanBeat(s.table[id], owner, at)
                && at <= s.now
                && Apply(s, HeartbeatStep(id, owner, duration, at)) == s.(table := s.table[id := Beaten(s.table[id], at, duration)]))
  {
  }

  lemma ReleaseShape(s: State, id: int, owner: string)
    ensures Apply(s, ReleaseStep(id, owner)) == s
            || (&& id !in s.locks && id in s.table && s.table[id].leaseOwner == Some(owner)
                && Apply(s, ReleaseStep(id, owner)) == s.(table := s.table[id := Unleased(s.table[id])]))
  {
  }

  lemma AbandonShape(s: State, id: int, at: int)
    ensures Apply(s, AbandonStep(id, at)) == s
            || (&& id !in s.locks && id in s.table && !s.table[id].status.Terminal()
                && Apply(s, AbandonStep(id, at)) == s.(table := s.table[id := AbandonedRow(s.table[id], at)]))
  {
  }

  lemma PermanentFailureShape(s: State, id: int, reason: string, at: int)
    ensures Apply(s, PermanentlyFailStep(id, reason, at)) == s
            || (&& id !in s.locks && id in s.table && s.table[id].status.PermanentFailEligible()
                && Apply(s, PermanentlyFailStep(id, reason, at)) == s.(table := s.table[id := DeadLettered(s.table[id], reason, at)]))
  {
    PermanentFailureOfRow(s.table, id, reason, at);
  }

  lemma PermanentFailureOfRow(table: Table, id: int, reason: string, at: int)
    ensures PermanentlyFail(table, id, reason, at).0 == table
            || (&& id in table && table[id].status.PermanentFailEligible()
                && PermanentlyFail(table, id, reason, at).0 == table[id := DeadLettered(table[id], reason, at)])
  {
  }

  lemma ClaimShape(s: State, step: Step)
    requires step.CommitClaim? || step.AcquireStep?
    ensures Apply(s, step) == s
            || Apply(s, step) == s.(locks := s.locks - {step.id})
            || (&& (step.CommitClaim? || step.id !in s.locks)
                && step.at <= s.now && step.id in s.table && s.table[step.id].status == Pending
                && Apply(s, step) == s.(locks := s.locks - {step.id},
                                        table := s.table[step.id := Leased(s.table[step.id], step.owner, step.at, step.duration)],
                                        history := s.history + [Claimed(step.id, step.owner)]))
  {
    if step.id !in s.locks {
      assert s.locks - {step.id} == s.locks;
    }
  }

  lemma ResumeShape(s: State, id: int, owner: string, log: seq<string>, last: Option<int>, duration: int, at: int)
    ensures Apply(s, ResumeStep(id, owner, log, last, duration, at)) == s
            || (&& id !in s.locks && id in s.table && s.table[id].status == AwaitingApproval
                && Apply(s, ResumeStep(id, owner, log, last, duration, at)) == s.(table := s.table[id := Resumed(s.table[id], owner, log, last, at, duration)],
                                        history := s.history + [ResumedBy(id, owner)]))
  {
  }

  lemma RecoverShape(s: State, txn: int, id: int, reason: string, at: int)
    ensures Apply(s, RecoverStep(txn, id, reason, at)) == s
            || (&& (id in s.locks ==> s.locks[id].SweepLock?)
                && at <= s.now && id in s.table && IsStale(s.table[id], at)
                && Apply(s, RecoverStep(txn, id, reason, at)) == s.(table := s.table[id := Recovered(s.table[id], at, reason)],
                                        history := s.history + [RecoveredRow(id)]))
  {
  }

  lemma LandingStepKeeps(s: State, step: Step)
    requires Invariant(s) && InProtocol(step) && (step.CommitClaim? || step.AcquireStep? || step.ResumeStep? || step.RecoverStep?)
    ensures Invariant(Apply(s, step))
  {
    if step.ResumeStep? {
      ResumeShape(s, step.id, step.owner, step.log, step.last, step.duration, step.at);
      if Apply(s, step) != s {
        ResumedKeeps(s.history, step.id, s.table[step.id], step.owner, step.log, step.last, step.at, step.duration);
        LandingKeeps(s, step.id, Resumed(s.table[step.id], step.owner, step.log, step.last, step.at, step.duration),
                     ResumedBy(step.id, step.owner));
      }
    } else if step.RecoverStep? {
      RecoverShape(s, step.txn, step.id, step.reason, step.at);
      if Apply(s, step) != s {
        RecoveredKeeps(s.history, step.id, s.table[step.id], step.at, step.reason);
        LandingKeeps(s, step.id, Recovered(s.table[step.id], step.at, step.reason), RecoveredRow(step.id));
      }
    } else {
      ClaimShape(s, step);
      var unlocked := s.(locks := s.locks - {step.id});
      UnlockKeeps(s, unlocked.locks);
      if Apply(s, step) != s && Apply(s, step) != unlocked {
        LeasedKeeps(s.history, step.id, s.table[step.id], step.owner, step.at, step.duration);
        LandingKeeps(unlocked, step.id, Leased(s.table[step.id], step.owner, step.at, step.duration),
                     Claimed(step.id, step.owner));
      }
    }
  }

  lemma QuietStepKeeps(s: State, step: Step)
    requires Invariant(s) && InProtocol(step)
    requires step.WriteStep? || step.HeartbeatStep? || step.ReleaseStep? || step.AbandonStep? || step.PermanentlyFailStep?
    ensures Invariant(Apply(s, step))
  {
    match step
    case WriteStep(id, write, log, last, owner) =>
      WriteShape(s, id, write, log, last, owner);
      if Apply(s, step) != s {
        WrittenKeeps(s.history, id, s.table[id], write, log, last);
        QuietKeeps(s, id, Written(s.table[id], write, log, last));
      }
    case HeartbeatStep(id, owner, duration, at) =>
      HeartbeatShape(s, id, owner, duration, at);
      if Apply(s, step) != s {
        BeatenKeeps(s.history, id, s.table[id], at, duration);
        QuietKeeps(s, id, Beaten(s.table[id], at, duration));
      }
    case ReleaseStep(id, owner) =>
      ReleaseShape(s, id, owner);
      if Apply(s, step) != s {
        OperatorKeeps(s.history, id, s.table[id], "", 0);
        QuietKeeps(s, id, Unleased(s.table[id]));
      }
    case AbandonStep(id, at) =>
      AbandonShape(s, id, at);
      if Apply(s, step) != s {
        OperatorKeeps(s.history, id, s.table[id], "", at);
        QuietKeeps(s, id, AbandonedRow(s.table[id], at));
      }
    case PermanentlyFailStep(id, reason, at) =>
      PermanentFailureShape(s, id, reason, at);
      if Apply(s, step) != s {
        OperatorKeeps(s.history, id, s.table[id], reason, at);
        QuietKeeps(s, id, DeadLettered(s.table[id], reason, at));
      }
  }

  lemma CreateKeeps(s: State, step: Step)
    requires Invariant(s) && step.Create?
    ensures Invariant(Apply(s, step))
  {
    if Apply(s, step) != s {
      NoHistory(s.history, step.id);
      forall other | other in s.locks
        ensures LockInvariant(Apply(s, step), other)
      {
        assert LockInvariant(s, other);
      }
    }
  }

  lemma StepKeeps(s: State, step: Step)
    requires Invariant(s) && InProtocol(step)
    ensures Invariant(Apply(s, step))
  {
    match step
    case Tick(_) => assert forall id :: id in s.locks ==> LockInvariant(s, id) && LockInvariant(Apply(s, step), id);
    case Create(_, _, _, _) => CreateKeeps(s, step);
    case SelectPending(_, _) => LockKeeps(s, step);
    case SelectStale(_, _, _, _) => LockKeeps(s, step);
    case EndTransaction(_) => UnlockKeeps(s, Apply(s, step).locks);
    case CommitClaim(_, _, _, _, _) => LandingStepKeeps(s, step);
    case AcquireStep(_, _, _, _) => LandingStepKeeps(s, step);
    case ResumeStep(_, _, _, _, _, _) => LandingStepKeeps(s, step);
    case RecoverStep(_, _, _, _) => LandingStepKeeps(s, step);
    case _ => QuietStepKeeps(s, step);
  }

  /** Every reachable state satisfies the invariant. */
  lemma {:induction false} RunKeeps(s: State, steps: seq<Step>)
    requires Invariant(s) && AllInProtocol(steps)
    ensures Invariant(Run(s, steps))
    decreases |steps|
  {
    if steps != [] {
      StepKeeps(s, steps[0]);
      RunKeeps(Apply(s, steps[0]), steps[1..]);
    }
  }
}
