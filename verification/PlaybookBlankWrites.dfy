/**
 Writes with a blank owner have no guard and land on a row whoever holds its lease: which guarantees survive runs that contain
 them, exactly when the recovery budget does, and a run in which it does not.
 */
module PlaybookBlankWrites {
  import opened Common
  import opened PlaybookStore
  import opened PlaybookProtocol
  import opened PlaybookTheorems

  // ---------- leases ----------

  /** The half of the row invariant that does not depend on who writes. */
  predicate LeaseInvariant(history: seq<Event>, id: int, row: Execution) {
    && (row.leaseOwner.Some? ==> row.leaseOwner == LatestHolder(history, id))
    && (row.status == Pending ==> row == Unleased(row))
  }

  /** A step changes who claimed a row last only by giving that worker its lease. */
  lemma HolderMoves(s: State, step: Step, id: int)
    requires id in s.table
    ensures id in Apply(s, step).table
    ensures var before, after := s.table[id], Apply(s, step).table[id];
            if LatestHolder(Apply(s, step).history, id) == LatestHolder(s.history, id) then
              after.leaseOwner.None? || after.leaseOwner == before.leaseOwner || after.leaseOwner == LatestHolder(s.history, id)
            else after.leaseOwner == LatestHolder(Apply(s, step).history, id)
  {
    hide LatestHolder, ClaimCount, RecoveryCount;
    StepMovesRow(s, step, id);
    if Apply(s, step).history != s.history {
      var event := Apply(s, step).history[|s.history|];
      assert Apply(s, step).history == s.history + [event];
      HistoryStep(s.history, event, id);
    }
  }

  lemma StepKeepsLeases(s: State, step: Step)
    requires forall id :: id in s.table ==> LeaseInvariant(s.history, id, s.table[id])
    requires BlankAllowed(step)
    ensures forall id :: id in Apply(s, step).table ==> LeaseInvariant(Apply(s, step).history, id, Apply(s, step).table[id])
  {
    forall id | id in Apply(s, step).table
      ensures LeaseInvariant(Apply(s, step).history, id, Apply(s, step).table[id])
    {
      if id in s.table {
        HolderMoves(s, step, id);
        StepMovesRow(s, step, id);
      } else {
        StepAddsFreshRows(s, step, id);
      }
    }
  }

  lemma {:induction false} RunKeepsLeases(s: State, steps: seq<Step>)
    requires forall id :: id in s.table ==> LeaseInvariant(s.history, id, s.table[id])
    requires forall i :: 0 <= i < |steps| ==> BlankAllowed(steps[i])
    ensures forall id :: id in Run(s, steps).table ==> LeaseInvariant(Run(s, steps).history, id, Run(s, steps).table[id])
    decreases |steps|
  {
    if steps != [] {
      StepKeepsLeases(s, steps[0]);
      RunKeepsLeases(Apply(s, steps[0]), steps[1..]);
    }
  }

  /** Whatever blank writes a run contains, a lease still belongs to the last claimant and pending rows carry none. */
  lemma LeaseSurvivesBlankWrites(s: State, steps: seq<Step>, id: int)
    requires Initial(s) && forall i :: 0 <= i < |steps| ==> BlankAllowed(steps[i])
    requires id in Run(s, steps).table
    ensures var e := Run(s, steps); var row := e.table[id];
            && (row.leaseOwner.Some? ==> row.leaseOwner == LatestHolder(e.history, id))
            && (row.status == Pending ==> row == Unleased(row))
  {
    RunKeepsLeases(s, steps);
  }

  // ---------- the recovery budget under blank writes ----------

  /** What RecoveryBudget says of the counters: recoveries equal attempts, or one more once the attempts are used up and the row is terminal. */
  predicate WithinBudget(row: Execution) {
    && 0 <= row.attemptCount <= row.maxAttempts
    && (|| row.recoveryCount == row.attemptCount
        || (row.recoveryCount == row.attemptCount + 1 && row.attemptCount == row.maxAttempts && row.status.Terminal()))
  }

  ghost predicate AllWithinBudget(table: Table) {
    forall id :: id in table ==> WithinBudget(table[id])
  }

  /** A pause that lands on a row already recovered once more than it has attempts. */
  predicate Revives(s: State, step: Step) {
    && step.WriteStep? && step.write.Pause? && step.id in s.table && step.id !in s.locks
    && OwnerAllows(s.table[step.id], step.owner) && !ActiveElsewhere(s.table, step.id)
    && s.table[step.id].recoveryCount == s.table[step.id].attemptCount + 1
  }

  lemma RowBudgetMoves(step: Step, id: int, row: Execution, now: int, lock: Option<Lock>, elsewhere: bool)
    requires WithinBudget(row) && BlankAllowed(step)
    ensures WithinBudget(MoveRow(step, id, row, now, lock, elsewhere)) <==>
            !(step.WriteStep? && step.write.Pause? && step.id == id && lock.None? && OwnerAllows(row, step.owner) && !elsewhere
              && row.recoveryCount == row.attemptCount + 1)
  {
  }

  /** One step breaks the budget of some row exactly when it revives one. */
  lemma BudgetBreaksExactlyWhen(s: State, step: Step)
    requires AllWithinBudget(s.table) && BlankAllowed(step)
    ensures AllWithinBudget(Apply(s, step).table) <==> !Revives(s, step)
  {
    hide Apply, MoveRow, WithinBudget, BlankAllowed, ActiveElsewhere, OwnerAllows;
    forall id | id in s.table
      ensures id in Apply(s, step).table
      ensures WithinBudget(Apply(s, step).table[id]) <==> !(Revives(s, step) && step.id == id)
    {
      StepMovesRow(s, step, id);
      RowBudgetMoves(step, id, s.table[id], s.now, LockOf(s, id), ActiveElsewhere(s.table, id));
    }
    forall id | id in Apply(s, step).table && id !in s.table
      ensures WithinBudget(Apply(s, step).table[id])
    {
      StepAddsFreshRows(s, step, id);
      FreshIsWithinBudget(step.playbookId, step.alertId, step.at);
    }
  }

  lemma FreshIsWithinBudget(playbookId: string, alertId: Option<int>, at: int)
    ensures WithinBudget(NewExecution(playbookId, alertId, at))
  {
  }

  ghost predicate BudgetThroughout(s: State, steps: seq<Step>)
    decreases |steps|
  {
    AllWithinBudget(s.table) && (steps != [] ==> BudgetThroughout(Apply(s, steps[0]), steps[1..]))
  }

  ghost predicate NeverRevives(s: State, steps: seq<Step>)
    decreases |steps|
  {
    steps != [] ==> !Revives(s, steps[0]) && NeverRevives(Apply(s, steps[0]), steps[1..])
  }

  /** With writes under any owner, blank ones included, the budget holds in every state of a run exactly when no pause revives an exhausted row. */
  lemma {:induction false} BudgetHoldsExactlyWhen(s: State, steps: seq<Step>)
    requires AllWithinBudget(s.table) && forall i :: 0 <= i < |steps| ==> BlankAllowed(steps[i])
    ensures BudgetThroughout(s, steps) <==> NeverRevives(s, steps)
    decreases |steps|
  {
    hide BlankAllowed, Revives, Apply, AllWithinBudget;
    if steps != [] {
      BudgetBreaksExactlyWhen(s, steps[0]);
      if !Revives(s, steps[0]) {
        BudgetHoldsExactlyWhen(Apply(s, steps[0]), steps[1..]);
      }
    }
  }

  /** The other counters survive every blank write: attempts never exceed the limit, and claims never exceed attempts by more than one. */
  predicate ClaimInvariant(history: seq<Event>, id: int, row: Execution) {
    && row.attemptCount <= row.maxAttempts
    && row.recoveryCount == RecoveryCount(history, id)
    && ClaimCount(history, id) <= row.attemptCount + 1
    && (row.status == Pending ==> ClaimCount(history, id) <= row.attemptCount)
  }

  /** The counts of one row's claims and recoveries move with the row. */
  lemma CountsMove(s: State, step: Step, id: int)
    requires id in s.table
    ensures id in Apply(s, step).table
    ensures var before, after := s.table[id], Apply(s, step).table[id];
            var claims, recoveries := ClaimCount(Apply(s, step).history, id) - ClaimCount(s.history, id),
                                      RecoveryCount(Apply(s, step).history, id) - RecoveryCount(s.history, id);
            && after.recoveryCount == before.recoveryCount + recoveries
            && (claims == 0 || (claims == 1 && before.status == Pending && after.status == Running && after.attemptCount == before.attemptCount))
  {
    hide LatestHolder, ClaimCount, RecoveryCount;
    StepMovesRow(s, step, id);
    if Apply(s, step).history != s.history {
      var event := Apply(s, step).history[|s.history|];
      assert Apply(s, step).history == s.history + [event];
      HistoryStep(s.history, event, id);
    }
  }

  /** A row returns to pending only by a recovery that counts an attempt. */
  lemma AttemptsMove(step: Step, id: int, row: Execution, now: int, lock: Option<Lock>, elsewhere: bool)
    requires BlankAllowed(step) && row.attemptCount <= row.maxAttempts
    ensures var after := MoveRow(step, id, row, now, lock, elsewhere);
            && row.attemptCount <= after.attemptCount <= after.maxAttempts == row.maxAttempts
            && (after.status == Pending && row.status != Pending ==> after.attemptCount == row.attemptCount + 1)
  {
  }

  lemma StepKeepsClaims(s: State, step: Step)
    requires forall id :: id in s.table ==> ClaimInvariant(s.history, id, s.table[id])
    requires (forall i :: 0 <= i < |s.history| ==> s.history[i].id in s.table) && BlankAllowed(step)
    ensures forall id :: id in Apply(s, step).table ==> ClaimInvariant(Apply(s, step).history, id, Apply(s, step).table[id])
    ensures forall i :: 0 <= i < |Apply(s, step).history| ==> Apply(s, step).history[i].id in Apply(s, step).table
  {
    HistoryStaysKnown(s, step);
    hide Apply, MoveRow, BlankAllowed, ClaimCount, RecoveryCount;
    forall id | id in Apply(s, step).table
      ensures ClaimInvariant(Apply(s, step).history, id, Apply(s, step).table[id])
    {
      if id in s.table {
        CountsMove(s, step, id);
        StepMovesRow(s, step, id);
        AttemptsMove(step, id, s.table[id], s.now, LockOf(s, id), ActiveElsewhere(s.table, id));
      } else {
        StepAddsFreshRows(s, step, id);
        CreateRecordsNothing(s, step);
        NoHistory(s.history, id);
      }
    }
  }

  lemma CreateRecordsNothing(s: State, step: Step)
    requires step.Create?
    ensures Apply(s, step).history == s.history
  {
  }

  lemma HistoryStaysKnown(s: State, step: Step)
    requires forall i :: 0 <= i < |s.history| ==> s.history[i].id in s.table
    ensures forall i :: 0 <= i < |Apply(s, step).history| ==> Apply(s, step).history[i].id in Apply(s, step).table
  {
    forall id | id in s.table
      ensures id in Apply(s, step).table
    {
      StepMovesRow(s, step, id);
    }
  }

  lemma {:induction false} RunKeepsClaims(s: State, steps: seq<Step>)
    requires forall id :: id in s.table ==> ClaimInvariant(s.history, id, s.table[id])
    requires forall i :: 0 <= i < |s.history| ==> s.history[i].id in s.table
    requires forall i :: 0 <= i < |steps| ==> BlankAllowed(steps[i])
    ensures forall id :: id in Run(s, steps).table ==> ClaimInvariant(Run(s, steps).history, id, Run(s, steps).table[id])
    decreases |steps|
  {
    hide Apply, BlankAllowed, ClaimInvariant;
    if steps != [] {
      StepKeepsClaims(s, steps[0]);
      RunKeepsClaims(Apply(s, steps[0]), steps[1..]);
    }
  }

  lemma ClaimBudgetSurvivesBlankWrites(s: State, steps: seq<Step>, id: int)
    requires Initial(s) && forall i :: 0 <= i < |steps| ==> BlankAllowed(steps[i])
    requires id in Run(s, steps).table
    ensures var e := Run(s, steps); var row := e.table[id];
            && ClaimCount(e.history, id) <= row.attemptCount + 1 <= row.maxAttempts + 1
            && RecoveryCount(e.history, id) == row.recoveryCount
  {
    RunKeepsClaims(s, steps);
  }

  // ---------- a run that breaks it ----------

  /** Worker "w" claims for a second, the second passes, and the sweep recovers the row. */
  function Cycle(at: int): seq<Step> {
    [AcquireStep(1, "w", 1, at), Tick(at + 1), RecoverStep(0, 1, "", at + 1)]
  }

  function Cycles(n: nat): seq<Step> {
    if n == 0 then [] else Cycles(n - 1) + Cycle(n - 1)
  }

  /** A blank pause, a resume for a second, and one more recovery. */
  function Revival(at: int): seq<Step> {
    [WriteStep(1, Pause, [], None, ""), ResumeStep(1, "w", [], None, 1, at), Tick(at + 1), RecoverStep(0, 1, "", at + 1)]
  }

  lemma {:induction false} RunSplits(s: State, first: seq<Step>, rest: seq<Step>)
    ensures Run(s, first + rest) == Run(Run(s, first), rest)
    decreases |first|
  {
    hide Apply;
    if first == [] {
      assert [] + rest == rest;
    } else {
      assert (first + rest)[1..] == first[1..] + rest;
      RunSplits(Apply(s, first[0]), first[1..], rest);
    }
  }

  lemma RunFrom(s: State, steps: seq<Step>, k: nat)
    requires k < |steps|
    ensures Run(s, steps[k..]) == Run(Apply(s, steps[k]), steps[k + 1..])
  {
    assert steps[k..][1..] == steps[k + 1..];
  }

  lemma CycleRuns(s: State, at: int)
    ensures Run(s, Cycle(at)) == Apply(Apply(Apply(s, Cycle(at)[0]), Cycle(at)[1]), Cycle(at)[2])
  {
    hide Apply;
    var steps := Cycle(at);
    assert steps[0..] == steps && steps[3..] == [];
    RunFrom(s, steps, 0);
    RunFrom(Apply(s, steps[0]), steps, 1);
    RunFrom(Apply(Apply(s, steps[0]), steps[1]), steps, 2);
  }

  /** The table holds one row, without an alert or a lease, at this time. */
  predicate Alone(s: State, now: int) {
    s.now == now && s.locks == map[] && 1 in s.table && s.table[1].alertId.None? && s.table[1] == Unleased(s.table[1])
  }

  lemma OneCycle(s: State, at: int)
    requires Alone(s, at) && s.table[1].status == Pending
    ensures var e := Run(s, Cycle(at));
            && Alone(e, at + 1) && e.table[1].recoveryCount == s.table[1].recoveryCount + 1 && e.table[1].maxAttempts == s.table[1].maxAttempts
            && (if s.table[1].attemptCount < s.table[1].maxAttempts then
                  e.table[1].status == Pending && e.table[1].attemptCount == s.table[1].attemptCount + 1
                else e.table[1].status == Failed && e.table[1].attemptCount == s.table[1].attemptCount)
  {
    CycleRuns(s, at);
    var claimed := Apply(s, Cycle(at)[0]);
    StepMovesRow(s, Cycle(at)[0], 1);
    var later := Apply(claimed, Tick(at + 1));
    StepMovesRow(later, Cycle(at)[2], 1);
  }

  /** After n cycles a row with that many attempts has used them all and is still pending. */
  lemma {:induction false} ManyCycles(s: State, n: nat)
    requires Alone(s, 0) && s.table[1].status == Pending && s.table[1].attemptCount == s.table[1].recoveryCount == 0 && n <= s.table[1].maxAttempts
    ensures var e := Run(s, Cycles(n));
            && Alone(e, n) && e.table[1].status == Pending && e.table[1].attemptCount == e.table[1].recoveryCount == n
            && e.table[1].maxAttempts == s.table[1].maxAttempts
  {
    if n > 0 {
      ManyCycles(s, n - 1);
      RunSplits(s, Cycles(n - 1), Cycle(n - 1));
      OneCycle(Run(s, Cycles(n - 1)), n - 1);
    }
  }

  lemma RevivalRuns(s: State, at: int)
    ensures Run(s, Revival(at)) == Apply(Apply(Apply(Apply(s, Revival(at)[0]), Revival(at)[1]), Revival(at)[2]), Revival(at)[3])
  {
    hide Apply;
    var steps := Revival(at);
    assert steps[0..] == steps && steps[4..] == [];
    RunFrom(s, steps, 0);
    RunFrom(Apply(s, steps[0]), steps, 1);
    RunFrom(Apply(Apply(s, steps[0]), steps[1]), steps, 2);
    RunFrom(Apply(Apply(Apply(s, steps[0]), steps[1]), steps[2]), steps, 3);
  }

  lemma RevivalRecovers(s: State, at: int)
    requires Alone(s, at) && s.table[1].status == Failed
    ensures var e := Run(s, Revival(at));
            1 in e.table && e.table[1].recoveryCount == s.table[1].recoveryCount + 1 && e.table[1].maxAttempts == s.table[1].maxAttempts
  {
    RevivalRuns(s, at);
    var paused := Apply(s, Revival(at)[0]);
    StepMovesRow(s, Revival(at)[0], 1);
    var resumed := Apply(paused, Revival(at)[1]);
    StepMovesRow(paused, Revival(at)[1], 1);
    var later := Apply(resumed, Tick(at + 1));
    StepMovesRow(later, Revival(at)[3], 1);
  }

  function Creation(): seq<Step> {
    [Create(1, "p", None, 0)]
  }

  lemma {:induction false} CyclesAllowed(n: nat)
    ensures forall i :: 0 <= i < |Cycles(n)| ==> BlankAllowed(Cycles(n)[i])
  {
    if n > 0 {
      CyclesAllowed(n - 1);
    }
  }

  lemma ExhaustedRow(s: State)
    requires Alone(s, 0) && s.table[1] == NewExecution("p", None, 0)
    ensures var e := Run(s, Cycles(DEFAULT_MAX_ATTEMPTS + 1));
            && Alone(e, DEFAULT_MAX_ATTEMPTS + 1) && e.table[1].status == Failed
            && e.table[1].recoveryCount == DEFAULT_MAX_ATTEMPTS + 1 && e.table[1].maxAttempts == DEFAULT_MAX_ATTEMPTS
  {
    ManyCycles(s, DEFAULT_MAX_ATTEMPTS);
    RunSplits(s, Cycles(DEFAULT_MAX_ATTEMPTS), Cycle(DEFAULT_MAX_ATTEMPTS));
    OneCycle(Run(s, Cycles(DEFAULT_MAX_ATTEMPTS)), DEFAULT_MAX_ATTEMPTS);
  }

  function BreakingRun(): seq<Step> {
    Creation() + (Cycles(DEFAULT_MAX_ATTEMPTS + 1) + Revival(DEFAULT_MAX_ATTEMPTS + 1))
  }

  lemma BreakingRunIsAllowed()
    ensures forall i :: 0 <= i < |BreakingRun()| ==> BlankAllowed(BreakingRun()[i])
  {
    var n := DEFAULT_MAX_ATTEMPTS + 1;
    CyclesAllowed(n);
    RevivalAllowed(n);
    hide BlankAllowed, Cycles, Revival;
    var first, rest := Creation(), Cycles(n) + Revival(n);
    forall i | 0 <= i < |first + rest|
      ensures BlankAllowed((first + rest)[i])
    {
      assert i > 0 ==> (first + rest)[i] == rest[i - 1];
    }
  }

  lemma RevivalAllowed(at: int)
    ensures BlankAllowed(Creation()[0])
    ensures forall i :: 0 <= i < |Revival(at)| ==> BlankAllowed(Revival(at)[i])
  {
  }

  lemma CreatedRow(s: State)
    requires s == State(0, map[], map[], [])
    ensures Initial(s) && Alone(Run(s, Creation()), 0) && Run(s, Creation()).table[1] == NewExecution("p", None, 0)
  {
    assert Creation()[1..] == [];
    assert Apply(s, Creation()[0]).table == map[1 := NewExecution("p", None, 0)];
  }

  /** From the empty table: an execution as its insert leaves it, recovered until it fails, revived by one blank pause, and recovered again. */
  lemma BlankOwnerBreaksTheBudget()
    ensures var s := State(0, map[], map[], []); var e := Run(s, BreakingRun());
            && Initial(s) && (forall i :: 0 <= i < |BreakingRun()| ==> BlankAllowed(BreakingRun()[i]))
            && 1 in e.table && e.table[1].recoveryCount > e.table[1].maxAttempts + 1
  {
    hide Apply, Cycles, Run, Revival, Creation, BlankAllowed, Initial;
    var s, n := State(0, map[], map[], []), DEFAULT_MAX_ATTEMPTS + 1;
    BreakingRunIsAllowed();
    CreatedRow(s);
    var created := Run(s, Creation());
    ExhaustedRow(created);
    RunSplits(s, Creation(), Cycles(n) + Revival(n));
    RunSplits(created, Cycles(n), Revival(n));
    RevivalRecovers(Run(created, Cycles(n)), n);
  }
}
