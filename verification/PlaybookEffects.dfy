/**
 What the execution store's calls leave in the columns, value by value, and what a row's columns say about the run behind it:
 whose log it shows, which lease, and when it started and ended.
 */
module PlaybookEffects {
  import opened Common
  import opened Text
  import opened PlaybookStore
  import opened PlaybookProtocol
  import opened PlaybookTheorems

  // ---------- one call ----------

  lemma AcquireLeaves(table: Table, id: int, owner: string, duration: int, now: int)
    ensures var (after, returned) := Acquire(table, id, owner, duration, now);
            if id in table && table[id].status == Pending && (table[id].leaseExpiresAt.None? || table[id].leaseExpiresAt.value <= now) then
              && after == table[id := table[id].(status := Running,
                                                 startedAt := if table[id].startedAt.Some? then table[id].startedAt else Some(now),
                                                 leaseOwner := Some(owner), leaseAcquiredAt := Some(now), leaseHeartbeatAt := Some(now),
                                                 leaseExpiresAt := Some(now + duration))]
              && returned == Some(after[id])
            else after == table && returned == None
  {
  }

  lemma ResumeLeaves(table: Table, id: int, owner: string, log: seq<string>, last: Option<int>, duration: int, now: int)
    ensures var (after, returned) := Resume(table, id, owner, log, last, duration, now);
            if id in table && table[id].status == AwaitingApproval && (table[id].leaseExpiresAt.None? || table[id].leaseExpiresAt.value <= now) then
              && after == table[id := table[id].(status := Running,
                                                 startedAt := if table[id].startedAt.Some? then table[id].startedAt else Some(now),
                                                 completedAt := None, stepsLog := log, lastCompletedStep := last,
                                                 leaseOwner := Some(owner), leaseAcquiredAt := Some(now), leaseHeartbeatAt := Some(now),
                                                 leaseExpiresAt := Some(now + duration))]
              && returned == Some(after[id])
            else after == table && returned == None
  {
  }

  lemma HeartbeatLeaves(table: Table, id: int, owner: string, duration: int, now: int)
    ensures var (after, returned) := Heartbeat(table, id, owner, duration, now);
            if id in table && table[id].status == Running && table[id].leaseOwner == Some(owner)
               && table[id].leaseExpiresAt.Some? && table[id].leaseExpiresAt.value > now then
              && after == table[id := table[id].(leaseHeartbeatAt := Some(now), leaseExpiresAt := Some(now + duration))]
              && returned == Some(after[id])
            else after == table && returned == None
  {
  }

  lemma ReleaseLeaves(table: Table, id: int, owner: string)
    ensures var (after, returned) := Release(table, id, owner);
            if id in table && table[id].leaseOwner == Some(owner) then
              && after == table[id := table[id].(leaseOwner := None, leaseAcquiredAt := None, leaseHeartbeatAt := None, leaseExpiresAt := None)]
              && returned == Some(after[id])
            else after == table && returned == None
  {
  }

  lemma RecoverLeaves(table: Table, id: int, reason: string, now: int)
    ensures var (after, returned) := Recover(table, id, reason, now);
            if id in table && table[id].status == Running && table[id].leaseExpiresAt.Some? && table[id].leaseExpiresAt.value <= now then
              && after.Keys == table.Keys && (forall other :: other in table && other != id ==> after[other] == table[other])
              && returned == Some(after[id])
              && var before := table[id].(leaseOwner := None, leaseAcquiredAt := None, leaseHeartbeatAt := None, leaseExpiresAt := None,
                                          recoveryCount := table[id].recoveryCount + 1);
                 if before.attemptCount < before.maxAttempts then
                   after[id] == before.(status := Pending, completedAt := None, attemptCount := before.attemptCount + 1,
                                        failureReason := Some(if reason == "" then "stale lease recovered for retry" else reason))
                 else
                   after[id] == before.(status := Failed, completedAt := Some(now),
                                        failureReason := Some(if reason == "" then "stale lease exceeded max attempts" else reason))
            else after == table && returned == None
  {
  }

  lemma AbandonLeaves(table: Table, id: int, now: int)
    ensures var (after, outcome) := Abandon(table, id, now);
            if id in table && (table[id].status == Pending || table[id].status == Running || table[id].status == AwaitingApproval) then
              after == table[id := table[id].(status := Abandoned, completedAt := Some(now))] && outcome == Abandoned_
            else
              && after == table
              && (outcome == NotFound <==> id !in table)
              && (outcome == AlreadyAbandoned <==> id in table && table[id].status == Abandoned)
              && (id in table && table[id].status != Abandoned ==> outcome == NotAbandonable(table[id].status))
  {
  }

  lemma PermanentFailureLands(table: Table, id: int, reason: string, now: int)
    requires id in table && reason != "" && (table[id].status == Running || table[id].status == Failed || table[id].status == AwaitingApproval)
    ensures var (after, r) := PermanentlyFail(table, id, reason, now);
            && after == table[id := table[id].(status := PermanentlyFailed, completedAt := Some(now), failureReason := Some(reason))]
            && r == Ok(Some(after[id]))
  {
  }

  lemma PermanentFailureRefused(table: Table, id: int, reason: string, now: int)
    requires id in table && table[id].status != PermanentlyFailed
    requires reason == "" || table[id].status == Pending || table[id].status == Success || table[id].status == Abandoned || table[id].status == NotActioned
    ensures PermanentlyFail(table, id, reason, now).0 == table && PermanentlyFail(table, id, reason, now).1.Err?
  {
  }

  lemma PermanentFailureRepeats(table: Table, id: int, reason: string, now: int)
    requires id in table ==> table[id].status == PermanentlyFailed
    ensures PermanentlyFail(table, id, reason, now) == (table, Ok(if id in table then Some(table[id]) else None))
  {
  }

  /** Some execution of the playbook and alert is pending, running or waiting. */
  predicate PairBusy(table: Table, playbookId: string, alert: int) {
    exists id | id in table :: table[id].alertId == Some(alert) && table[id].playbookId == playbookId
                               && (table[id].status == Pending || table[id].status == Running || table[id].status == AwaitingApproval)
  }

  lemma InsertLeaves(table: Table, id: int, playbookId: string, alertId: Option<int>, createdAt: int)
    requires id !in table
    ensures Insert(table, id, playbookId, alertId, createdAt) ==
            if alertId.Some? && PairBusy(table, playbookId, alertId.value) then table
            else table[id := Execution(playbookId, alertId, Pending, createdAt, None, None, [], None, 0, 3, None, None, None, None, None, 0)]
  {
    if alertId.Some? {
      PairBusyIsTaken(table, playbookId, alertId.value);
    }
  }

  lemma PairBusyIsTaken(table: Table, playbookId: string, alert: int)
    ensures PairBusy(table, playbookId, alert) <==> PairTaken(table, playbookId, Some(alert))
  {
    if PairBusy(table, playbookId, alert) {
      var id :| id in table && table[id].alertId == Some(alert) && table[id].playbookId == playbookId
                && (table[id].status == Pending || table[id].status == Running || table[id].status == AwaitingApproval);
      assert !table[id].status.Terminal();
    }
    if PairTaken(table, playbookId, Some(alert)) {
      var id :| id in table && table[id].alertId == Some(alert) && table[id].playbookId == playbookId && !table[id].status.Terminal();
      assert table[id].status == Pending || table[id].status == Running || table[id].status == AwaitingApproval;
    }
  }

  /** The arguments are refused exactly when the owner is blank or the lease would last less than a second. */
  lemma ArgumentsRefusedExactlyWhen(owner: string, duration: int)
    ensures LeaseArguments(owner, duration) == Err("lease_owner is required") <==> Strip(owner) == ""
    ensures LeaseArguments(owner, duration) == Err("lease_duration_seconds must be at least 1") <==> Strip(owner) != "" && duration < 1
    ensures LeaseArguments(owner, duration).Ok? <==> Strip(owner) != "" && duration >= 1
    ensures LeaseArguments(owner, duration).Ok? ==> LeaseArguments(owner, duration).value == Strip(owner)
  {
    hide Strip;
  }

  /** The protocol's leases are exactly those the store does not refuse. */
  lemma LeasesAreNotRefused(id: int, owner: string, duration: int, at: int)
    ensures LeaseArguments(owner, duration).Ok? <==> InProtocol(AcquireStep(id, Strip(owner), duration, at))
    ensures LeaseArguments(owner, duration).Ok? <==> InProtocol(HeartbeatStep(id, Strip(owner), duration, at))
    ensures LeaseArguments(owner, duration).Ok? <==> InProtocol(ResumeStep(id, Strip(owner), [], None, duration, at))
    ensures LeaseArguments(owner, duration).Ok? <==> InProtocol(CommitClaim(0, id, Strip(owner), duration, at))
  {
    hide Strip;
  }

  /** A claim takes a pending unlocked row such that no other was created earlier, or at the same time under a smaller id. */
  lemma ClaimsInOrder(table: Table, locked: set<int>, id: int)
    requires IsNextPending(table, locked, id)
    ensures id in table && table[id].status == Pending && id !in locked
    ensures forall other :: other in table && table[other].status == Pending && other !in locked && other != id ==>
              table[id].createdAt < table[other].createdAt || (table[id].createdAt == table[other].createdAt && id < other)
  {
    forall other | other in table && table[other].status == Pending && other !in locked && other != id
      ensures table[id].createdAt < table[other].createdAt || (table[id].createdAt == table[other].createdAt && id < other)
    {
      assert other in PendingIds(table, locked);
    }
  }

  /** The row a claim may select: pending, held by nobody, and no other such row created before it. */
  ghost predicate FirstWaiting(s: State, id: int) {
    && id in s.table && s.table[id].status == Pending && id !in s.locks
    && forall other :: other in s.table && s.table[other].status == Pending && other !in s.locks && other != id ==>
         s.table[id].createdAt < s.table[other].createdAt || (s.table[id].createdAt == s.table[other].createdAt && id < other)
  }

  ghost predicate HoldsNothing(s: State, txn: int) {
    forall id :: id in s.locks ==> s.locks[id].txn != txn
  }

  lemma SelectionLeaves(s: State, txn: int, id: int)
    ensures Apply(s, SelectPending(txn, id)) ==
            if FirstWaiting(s, id) && HoldsNothing(s, txn) then s.(locks := s.locks[id := ClaimLock(txn)]) else s
  {
    var pending := PendingIds(s.table, s.locks.Keys);
    if FirstWaiting(s, id) {
      assert id in pending;
      forall other | other in pending && other != id
        ensures Before((CreatedAt(s.table)(id), id), (CreatedAt(s.table)(other), other))
      {
      }
      assert IsNextPending(s.table, s.locks.Keys, id);
    }
    if IsNextPending(s.table, s.locks.Keys, id) {
      ClaimsInOrder(s.table, s.locks.Keys, id);
    }
  }

  lemma LocksLeave(s: State, txn: int, batch: seq<int>, limit: nat, at: int, id: int)
    ensures var after := Apply(s, SelectStale(txn, batch, limit, at));
            if at <= s.now && HoldsNothing(s, txn) && IsStaleBatch(s.table, s.locks.Keys, at, limit, batch) then
              && after == s.(locks := after.locks) && (id in after.locks <==> id in s.locks || id in batch)
              && (id in after.locks ==> after.locks[id] == if id in batch then SweepLock(txn, at) else s.locks[id])
            else after == s
    ensures var after := Apply(s, EndTransaction(txn));
            && after == s.(locks := after.locks)
            && (id in after.locks <==> id in s.locks && s.locks[id].txn != txn)
            && (id in after.locks ==> after.locks[id] == s.locks[id])
    ensures Apply(s, Tick(at)) == s.(now := if at < s.now then s.now else at)
  {
  }

  /** The first waiting row whose lease is free is claimed by the two statements of a claim. */
  lemma ClaimTakesEffect(s: State, txn: int, id: int, owner: string, duration: int)
    requires FirstWaiting(s, id) && HoldsNothing(s, txn)
    requires s.table[id].leaseExpiresAt.None? || s.table[id].leaseExpiresAt.value <= s.now
    ensures var after := Apply(Apply(s, SelectPending(txn, id)), CommitClaim(txn, id, owner, duration, s.now));
            && after.locks == s.locks && after.history == s.history + [Claimed(id, owner)]
            && id in after.table && after.table[id].status == Running
            && ShowsLease(after.table[id], Some(Lease(owner, s.now, s.now, s.now + duration)))
  {
    SelectionLeaves(s, txn, id);
    assert s.locks[id := ClaimLock(txn)] - {id} == s.locks;
  }

  /** A sweep locks running rows whose lease is over, and with room for all of them every such row. */
  lemma SweepSelects(table: Table, locked: set<int>, now: int, limit: nat, batch: seq<int>, id: int)
    requires IsStaleBatch(table, locked, now, limit, batch)
    ensures id in batch ==> id in table && id !in locked && table[id].status == Running && table[id].leaseExpiresAt.Some? && table[id].leaseExpiresAt.value <= now
    ensures |batch| <= limit
    ensures id in table && id !in locked && table[id].status == Running && table[id].leaseExpiresAt.Some? && table[id].leaseExpiresAt.value <= now && id !in batch ==>
              |batch| == limit && forall other :: other in batch ==> table[other].leaseExpiresAt.value <= table[id].leaseExpiresAt.value
  {
    var stale := StaleIds(table, locked, now);
    if id in stale && id !in batch {
      if |batch| == |stale| {
        Enumerates(stale, batch);
      }
      forall other | other in batch
        ensures table[other].leaseExpiresAt.value <= table[id].leaseExpiresAt.value
      {
        var i :| 0 <= i < |batch| && batch[i] == other;
        assert Before((ExpiresAt(table)(batch[i]), batch[i]), (ExpiresAt(table)(id), id));
      }
    }
  }

  /** Such a batch always exists. */
  lemma SweepBatchExists(table: Table, locked: set<int>, now: int, limit: nat)
    ensures exists batch :: IsStaleBatch(table, locked, now, limit, batch)
  {
    var stale := StaleIds(table, locked, now);
    var batch := FirstsExist(stale, ExpiresAt(table), Min(limit, |stale|));
    assert IsStaleBatch(table, locked, now, limit, batch);
  }

  /** A strictly ordered listing as long as a set, drawn from it, lists all of it. */
  lemma {:induction false} Enumerates(whole: set<int>, listing: seq<int>)
    requires forall i :: 0 <= i < |listing| ==> listing[i] in whole
    requires forall i, j :: 0 <= i < j < |listing| ==> listing[i] != listing[j]
    requires |listing| == |whole|
    ensures forall id :: id in whole ==> id in listing
    decreases |listing|
  {
    if listing != [] {
      var last, front := listing[|listing| - 1], listing[..|listing| - 1];
      Enumerates(whole - {last}, front);
      assert listing == front + [last];
    }
  }

  // ---------- a worker's writes ----------

  /** The write's owner is blank or holds the lease, and a pause finds no other active execution of the pair. */
  predicate WriteAllowed(table: Table, id: int, write: Write, owner: string) {
    && id in table && (owner == "" || table[id].leaseOwner == Some(owner))
    && (write.Pause? && table[id].alertId.Some? ==>
          forall other :: other in table && other != id && table[other].alertId == table[id].alertId && table[other].playbookId == table[id].playbookId ==>
            table[other].status.Terminal())
  }

  /** What an allowed write leaves: its log and last step, the status and end it asks for, and every other column as it was. */
  lemma WriteLeaves(table: Table, id: int, write: Write, log: seq<string>, last: Option<int>, owner: string)
    ensures var (after, r) := GuardedWrite(table, id, write, log, last, owner);
            if WriteAllowed(table, id, write, owner) then
              && r == Ok(Some(after[id]))
              && after == table[id := table[id].(stepsLog := log, lastCompletedStep := last,
                                                 status := match write case StepLog => table[id].status case Finish(status, _) => status case Pause => AwaitingApproval,
                                                 completedAt := match write case StepLog => table[id].completedAt case Finish(_, at) => Some(at) case Pause => None)]
            else after == table && (r == Ok(None) <==> id !in table || (owner != "" && table[id].leaseOwner != Some(owner)))
  {
    if id in table && write.Pause? && !WriteAllowed(table, id, write, owner) && (owner == "" || table[id].leaseOwner == Some(owner)) {
      assert ActiveElsewhere(table, id);
    }
  }

  // ---------- whose log a row shows ----------

  /** The step is a write or a resume that lands on the row. */
  ghost predicate Logs(s: State, step: Step, id: int) {
    && id in s.table && id !in s.locks
    && match step
       case WriteStep(i, write, _, _, owner) => i == id && WriteAllowed(s.table, id, write, owner)
       case ResumeStep(i, _, _, _, _, at) =>
         i == id && at <= s.now && s.table[id].status == AwaitingApproval && (s.table[id].leaseExpiresAt.None? || s.table[id].leaseExpiresAt.value <= at)
       case _ => false
  }

  /** The log and last step of the last write or resume that landed on a row, or `shown` if none did. */
  ghost function LogAfter(s: State, steps: seq<Step>, id: int, shown: (seq<string>, Option<int>)): (seq<string>, Option<int>)
    decreases |steps|
  {
    if steps == [] then shown
    else LogAfter(Apply(s, steps[0]), steps[1..], id, if Logs(s, steps[0], id) then (steps[0].log, steps[0].last) else shown)
  }

  lemma StepLogs(s: State, step: Step, id: int)
    requires id in s.table
    ensures id in Apply(s, step).table
    ensures var after := Apply(s, step).table[id];
            (after.stepsLog, after.lastCompletedStep) ==
            if Logs(s, step, id) then (step.log, step.last) else (s.table[id].stepsLog, s.table[id].lastCompletedStep)
  {
    StepMovesRow(s, step, id);
    if step.WriteStep? {
      WriteLeaves(s.table, step.id, step.write, step.log, step.last, step.owner);
    }
  }

  /** In every run, a row's log is that of the last write or resume that landed on it. */
  lemma {:induction false} RowShowsLastLog(s: State, steps: seq<Step>, id: int)
    requires id in s.table
    ensures id in Run(s, steps).table
    ensures (Run(s, steps).table[id].stepsLog, Run(s, steps).table[id].lastCompletedStep)
            == LogAfter(s, steps, id, (s.table[id].stepsLog, s.table[id].lastCompletedStep))
    decreases |steps|
  {
    hide Apply, Logs;
    if steps != [] {
      StepLogs(s, steps[0], id);
      RowShowsLastLog(Apply(s, steps[0]), steps[1..], id);
    }
  }

  /** From the empty table a row shows the empty log until a write or resume lands on it, and then always the last one's. */
  lemma {:induction false} LogFromCreation(s: State, steps: seq<Step>, id: int)
    requires id !in s.table && id in Run(s, steps).table
    ensures (Run(s, steps).table[id].stepsLog, Run(s, steps).table[id].lastCompletedStep) == LogAfter(s, steps, id, ([], None))
    decreases |steps|
  {
    hide Apply;
    if steps != [] {
      var next := Apply(s, steps[0]);
      if id in next.table {
        StepAddsFreshRows(s, steps[0], id);
        RowShowsLastLog(next, steps[1..], id);
      } else {
        LogFromCreation(next, steps[1..], id);
      }
    }
  }

  // ---------- which lease a row shows ----------

  /** A lease: who took it, when, when it was last renewed, and when it runs out. */
  datatype Lease = Lease(owner: string, acquiredAt: int, renewedAt: int, expiresAt: int)

  /** What a step does to the lease of the row it lands on; None is no lease. */
  ghost function LeaseStep(s: State, step: Step, id: int, lease: Option<Lease>): Option<Lease> {
    if id !in s.table then lease
    else
      var row := s.table[id];
      match step
      case CommitClaim(txn, i, owner, duration, at) =>
        if i == id && id in s.locks && s.locks[id] == ClaimLock(txn) && at <= s.now && row.status == Pending && (row.leaseExpiresAt.None? || row.leaseExpiresAt.value <= at)
        then Some(Lease(owner, at, at, at + duration)) else lease
      case AcquireStep(i, owner, duration, at) =>
        if i == id && id !in s.locks && at <= s.now && row.status == Pending && (row.leaseExpiresAt.None? || row.leaseExpiresAt.value <= at)
        then Some(Lease(owner, at, at, at + duration)) else lease
      case ResumeStep(i, owner, _, _, duration, at) =>
        if i == id && id !in s.locks && at <= s.now && row.status == AwaitingApproval && (row.leaseExpiresAt.None? || row.leaseExpiresAt.value <= at)
        then Some(Lease(owner, at, at, at + duration)) else lease
      case HeartbeatStep(i, owner, duration, at) =>
        if i == id && id !in s.locks && at <= s.now && row.status == Running && lease.Some? && lease.value.owner == owner && lease.value.expiresAt > at
        then Some(lease.value.(renewedAt := at, expiresAt := at + duration)) else lease
      case ReleaseStep(i, owner) => if i == id && id !in s.locks && lease.Some? && lease.value.owner == owner then None else lease
      case RecoverStep(txn, i, _, at) =>
        if i == id && at <= s.now && (id !in s.locks || s.locks[id] == SweepLock(txn, at)) && row.status == Running && lease.Some? && lease.value.expiresAt <= at
        then None else lease
      case _ => lease
  }

  ghost function LeaseAfter(s: State, steps: seq<Step>, id: int, lease: Option<Lease>): Option<Lease>
    decreases |steps|
  {
    if steps == [] then lease else LeaseAfter(Apply(s, steps[0]), steps[1..], id, LeaseStep(s, steps[0], id, lease))
  }

  /** The four lease columns spell this lease. */
  predicate ShowsLease(row: Execution, lease: Option<Lease>) {
    && row.leaseOwner == (if lease.Some? then Some(lease.value.owner) else None)
    && row.leaseAcquiredAt == (if lease.Some? then Some(lease.value.acquiredAt) else None)
    && row.leaseHeartbeatAt == (if lease.Some? then Some(lease.value.renewedAt) else None)
    && row.leaseExpiresAt == (if lease.Some? then Some(lease.value.expiresAt) else None)
  }

  lemma StepLease(s: State, step: Step, id: int, lease: Option<Lease>)
    requires id in s.table && ShowsLease(s.table[id], lease)
    ensures id in Apply(s, step).table && ShowsLease(Apply(s, step).table[id], LeaseStep(s, step, id, lease))
  {
    StepMovesRow(s, step, id);
  }

  /** In every run, a row's lease columns are the last claim's or resume's, renewed by its owner's heartbeats, until a release or recovery. */
  lemma {:induction false} RowShowsLastLease(s: State, steps: seq<Step>, id: int, lease: Option<Lease>)
    requires id in s.table && ShowsLease(s.table[id], lease)
    ensures id in Run(s, steps).table && ShowsLease(Run(s, steps).table[id], LeaseAfter(s, steps, id, lease))
    decreases |steps|
  {
    hide Apply, LeaseStep, ShowsLease;
    if steps != [] {
      StepLease(s, steps[0], id, lease);
      RowShowsLastLease(Apply(s, steps[0]), steps[1..], id, LeaseStep(s, steps[0], id, lease));
    }
  }

  lemma {:induction false} LeaseFromCreation(s: State, steps: seq<Step>, id: int)
    requires id !in s.table && id in Run(s, steps).table
    ensures ShowsLease(Run(s, steps).table[id], LeaseAfter(s, steps, id, None))
    decreases |steps|
  {
    hide Apply;
    if steps != [] {
      var next := Apply(s, steps[0]);
      if id in next.table {
        StepAddsFreshRows(s, steps[0], id);
        RowShowsLastLease(next, steps[1..], id, None);
      } else {
        LeaseFromCreation(next, steps[1..], id);
      }
    }
  }

  // ---------- start and end ----------

  /** A row has an end exactly while it is terminal, and it has started once it has run or waited. */
  predicate TimesFit(row: Execution) {
    && (row.completedAt.Some? <==> row.status.Terminal())
    && (row.status == Running ==> row.startedAt.Some?)
  }

  lemma RowTimes(step: Step, id: int, row: Execution, now: int, lock: Option<Lock>, elsewhere: bool)
    requires TimesFit(row) && BlankAllowed(step)
    ensures var after := MoveRow(step, id, row, now, lock, elsewhere);
            TimesFit(after) && (row.startedAt.Some? ==> after.startedAt == row.startedAt)
  {
  }

  ghost predicate AllTimesFit(table: Table) {
    forall id :: id in table ==> TimesFit(table[id])
  }

  lemma StepTimes(s: State, step: Step)
    requires AllTimesFit(s.table) && BlankAllowed(step)
    ensures AllTimesFit(Apply(s, step).table)
    ensures forall id :: id in s.table && s.table[id].startedAt.Some? ==> id in Apply(s, step).table && Apply(s, step).table[id].startedAt == s.table[id].startedAt
  {
    hide Apply, MoveRow, BlankAllowed, TimesFit;
    forall id | id in Apply(s, step).table
      ensures TimesFit(Apply(s, step).table[id])
    {
      if id in s.table {
        StepMovesRow(s, step, id);
        RowTimes(step, id, s.table[id], s.now, LockOf(s, id), ActiveElsewhere(s.table, id));
      } else {
        StepAddsFreshRows(s, step, id);
        FreshTimes(step.playbookId, step.alertId, step.at);
      }
    }
    forall id | id in s.table && s.table[id].startedAt.Some?
      ensures id in Apply(s, step).table && Apply(s, step).table[id].startedAt == s.table[id].startedAt
    {
      StepMovesRow(s, step, id);
      RowTimes(step, id, s.table[id], s.now, LockOf(s, id), ActiveElsewhere(s.table, id));
    }
  }

  lemma FreshTimes(playbookId: string, alertId: Option<int>, at: int)
    ensures TimesFit(NewExecution(playbookId, alertId, at))
  {
  }

  /** In every run from such rows, whoever writes: an end exactly while terminal, a start while running, and the first start never changes. */
  lemma {:induction false} TimesFitThroughout(s: State, steps: seq<Step>)
    requires AllTimesFit(s.table) && forall i :: 0 <= i < |steps| ==> BlankAllowed(steps[i])
    ensures AllTimesFit(Run(s, steps).table)
    ensures forall id :: id in s.table && s.table[id].startedAt.Some? ==> id in Run(s, steps).table && Run(s, steps).table[id].startedAt == s.table[id].startedAt
    decreases |steps|
  {
    hide Apply, BlankAllowed, AllTimesFit;
    if steps != [] {
      StepTimes(s, steps[0]);
      TimesFitThroughout(Apply(s, steps[0]), steps[1..]);
    }
  }
}
