/**
 What each response command leaves in the registry row, the event log and the blocklist, value by value, and over whole runs how
 long a monitor lasts.
 */
module RegistryEffects {
  import opened Common
  import V = ActionVocabulary
  import opened IndicatorRegistry
  import opened RegistryProtocol

  /** The row of an address, as a new one if it has none. */
  function RowOf(t: Tables, ip: string): RegistryRow {
    if ip in t.registry then t.registry[ip] else RegistryRow(Observed, None, None, None)
  }

  /** Some event was logged under this key. */
  ghost predicate Known(events: seq<Event>, key: string) {
    key != "" && exists i :: 0 <= i < |events| && events[i].key == key
  }

  // ---------- events ----------

  lemma FreshEventLeaves(t: Tables, e: Event, update: bool)
    requires e.ip in t.registry && !Known(t.events, e.key)
    ensures Append(t, e, update) ==
            Tables(if update then
                     t.registry[e.ip := RegistryRow(e.disposition,
                                                    if e.block.Some? then e.block else t.registry[e.ip].activeBlock,
                                                    if e.incident.Some? then e.incident else t.registry[e.ip].activeIncident,
                                                    if e.expiresAt.Some? then e.expiresAt else t.registry[e.ip].monitorExpiresAt)]
                   else t.registry,
                   t.events + [e], t.blocks, t.nextBlock)
  {
  }

  lemma KnownEventLeaves(t: Tables, e: Event, update: bool)
    requires e.ip in t.registry && Known(t.events, e.key)
    ensures Append(t, e, update) == t
  {
  }

  lemma UpsertLeaves(t: Tables, ip: string)
    ensures Upsert(t, ip) == t.(registry := t.registry[ip := RowOf(t, ip)])
  {
    assert ip in t.registry ==> t.registry[ip := t.registry[ip]] == t.registry;
  }

  // ---------- monitoring ----------

  /** The deadline asked for, or a week from now. */
  function Requested(c: Command, now: int): int {
    if c.expiresAt.Some? then c.expiresAt.value else now + 604800
  }

  /** A renewal only moves the deadline. */
  lemma RenewalLeaves(t: Tables, c: Command, ip: string, now: int)
    requires ip in t.registry && t.registry[ip].disposition == Monitored
    ensures Monitor(t, c, ip, now) ==
            (t.(registry := t.registry[ip := t.registry[ip].(monitorExpiresAt := Some(Requested(c, now)))]),
             Answer(true, MonitoredOutcome, true, Some(Monitored), None))
  {
  }

  lemma MonitorLeaves(t: Tables, c: Command, ip: string, now: int)
    requires RowOf(t, ip).disposition != Monitored && !Known(t.events, c.key)
    ensures var (after, answer) := Monitor(t, c, ip, now);
            && answer == Answer(true, MonitoredOutcome, false, Some(Monitored), None)
            && after.events == t.events + [Event(ip, V.Monitor, Succeeded, Monitored, None, c.incident, Some(Requested(c, now)), c.key)]
            && after.blocks == t.blocks && after.nextBlock == t.nextBlock
            && after.registry == t.registry[ip := RowOf(t, ip).(disposition := Monitored, monitorExpiresAt := Some(Requested(c, now)),
                                                                 activeIncident := if c.incident.Some? then c.incident else RowOf(t, ip).activeIncident)]
  {
    UpsertLeaves(t, ip);
  }

  lemma StopLeaves(t: Tables, c: Command, ip: string)
    ensures var (after, answer) := StopMonitor(t, c, ip);
            if RowOf(t, ip).disposition != Monitored then
              after == t.(registry := t.registry[ip := RowOf(t, ip)]) && answer == Answer(true, RemovedOutcome, true, Some(RowOf(t, ip).disposition), None)
            else
              && answer == Answer(true, RemovedOutcome, false, Some(Removed), None)
              && after.blocks == t.blocks && after.nextBlock == t.nextBlock
              && (if Known(t.events, c.key) then
                    after.events == t.events && after.registry == t.registry[ip := t.registry[ip].(monitorExpiresAt := None)]
                  else
                    && after.events == t.events + [Event(ip, V.StopMonitor, RemovedOutcome, Removed, None, c.incident, None, c.key)]
                    && after.registry == t.registry[ip := t.registry[ip].(disposition := Removed, monitorExpiresAt := None,
                                                                          activeIncident := if c.incident.Some? then c.incident else t.registry[ip].activeIncident)])
  {
    UpsertLeaves(t, ip);
  }

  // ---------- notes and escalations ----------

  /** A note under a fresh key is logged with what the row shows, and leaves the row alone. */
  lemma NoteLeaves(t: Tables, c: Command, ip: string)
    requires !Known(t.events, c.key)
    ensures var (after, answer) := AddNote(t, c, ip);
            && answer == Answer(true, Recorded, false, Some(RowOf(t, ip).disposition), None)
            && after == t.(registry := t.registry[ip := RowOf(t, ip)],
                           events := t.events + [Event(ip, V.AddNote, Recorded, RowOf(t, ip).disposition, None, c.incident, None, c.key)])
  {
    UpsertLeaves(t, ip);
  }

  lemma EscalationLeaves(t: Tables, c: Command)
    requires !Known(t.events, c.key)
    ensures var (after, answer) := Escalate(t, c);
            if !c.target.Ip? then after == t && answer == Answer(true, EscalatedOutcome, false, None, None)
            else
              var ip := c.target.value;
              && answer == Answer(true, EscalatedOutcome, false, Some(Escalated), None)
              && after == t.(registry := t.registry[ip := RowOf(t, ip).(disposition := Escalated,
                                                                        activeIncident := if c.incident.Some? then c.incident else RowOf(t, ip).activeIncident)],
                             events := t.events + [Event(ip, V.FlagHighPriority, EscalatedOutcome, Escalated, None, c.incident, None, c.key)])
  {
    if c.target.Ip? { UpsertLeaves(t, c.target.value); }
  }

  // ---------- blocking ----------

  /** An active block of the address that has not run out. */
  ghost predicate CurrentBlock(t: Tables, ip: string, now: int, id: int) {
    && id in t.blocks && t.blocks[id].active && t.blocks[id].ip == ip && (t.blocks[id].expiresAt.None? || t.blocks[id].expiresAt.value > now)
  }

  lemma RefusalLeaves(t: Tables, c: Command, ip: string, now: int)
    requires c.refused && !Known(t.events, "reject-" + c.key)
    ensures var (after, answer) := BlockIp(t, c, ip, now);
            && answer == Answer(false, RejectedOutcome, false, Some(Rejected), None)
            && after == t.(registry := t.registry[ip := RowOf(t, ip).(disposition := Rejected)],
                           events := t.events + [Event(ip, V.BlockIp, RejectedOutcome, Rejected, None, None, None, "reject-" + c.key)])
  {
    UpsertLeaves(t, ip);
  }

  /** A current block is reused: the smallest id of them. */
  lemma ReuseLeaves(t: Tables, c: Command, ip: string, now: int, id: int)
    requires !c.refused && !Known(t.events, c.key)
    requires CurrentBlock(t, ip, now, id) && forall other :: CurrentBlock(t, ip, now, other) ==> id <= other
    ensures var (after, answer) := BlockIp(t, c, ip, now);
            && answer == Answer(true, IdempotentReuse, true, Some(BlocklistTracked), Some(id))
            && after.blocks == t.blocks && after.nextBlock == t.nextBlock
            && after.events == t.events + [Event(ip, V.BlockIp, IdempotentReuse, BlocklistTracked, Some(id), c.incident, c.expiresAt, c.key)]
            && after.registry == t.registry[ip := BlockedRow(RowOf(t, ip), c, id)]
  {
    UpsertLeaves(t, ip);
    assert id in CurrentBlocks(t.blocks, ip, now);
    assert CurrentBlock(t, ip, now, Least(CurrentBlocks(t.blocks, ip, now)));
    assert Least(CurrentBlocks(t.blocks, ip, now)) == id;
  }

  function BlockedRow(row: RegistryRow, c: Command, id: int): RegistryRow {
    RegistryRow(BlocklistTracked, Some(id), if c.incident.Some? then c.incident else row.activeIncident,
                if c.expiresAt.Some? then c.expiresAt else row.monitorExpiresAt)
  }

  /** Without any active block a new one is recorded under the next id, active until the expiry asked for. */
  lemma NewBlockLeaves(t: Tables, c: Command, ip: string, now: int)
    requires !c.refused && c.alertKnown && !Known(t.events, c.key)
    requires forall id :: id in t.blocks ==> !(t.blocks[id].active && t.blocks[id].ip == ip)
    ensures var (after, answer) := BlockIp(t, c, ip, now);
            && answer == Answer(true, TrackingRecorded, false, Some(BlocklistTracked), Some(t.nextBlock))
            && after.blocks == t.blocks[t.nextBlock := Block(ip, true, c.expiresAt)] && after.nextBlock == t.nextBlock + 1
            && after.events == t.events + [Event(ip, V.BlockIp, Succeeded, BlocklistTracked, Some(t.nextBlock), c.incident, c.expiresAt, c.key)]
            && after.registry == t.registry[ip := BlockedRow(RowOf(t, ip), c, t.nextBlock)]
  {
    UpsertLeaves(t, ip);
    assert !NonEmpty(ActiveBlocks(t.blocks, ip)) && !NonEmpty(CurrentBlocks(t.blocks, ip, now));
  }

  lemma RecordLeaves(t: Tables, ip: string, expiresAt: Option<int>, alertKnown: bool)
    ensures CreateBlock(t, ip, expiresAt, alertKnown) ==
            if !alertKnown then Err("Source alert not found")
            else if exists id :: id in t.blocks && t.blocks[id].active && t.blocks[id].ip == ip then Err("An active block already exists for this IP")
            else Ok(t.(blocks := t.blocks[t.nextBlock := Block(ip, true, expiresAt)], nextBlock := t.nextBlock + 1))
  {
    if exists id :: id in t.blocks && t.blocks[id].active && t.blocks[id].ip == ip {
      var id :| id in t.blocks && t.blocks[id].active && t.blocks[id].ip == ip;
      assert id in ActiveBlocks(t.blocks, ip);
    }
  }

  /** Removing tracking deactivates the newest active block of the address and clears the row's pointer. */
  lemma RemovalLeaves(t: Tables, c: Command, ip: string, id: int)
    requires id in t.blocks && t.blocks[id].active && t.blocks[id].ip == ip
    requires forall other :: other in t.blocks && t.blocks[other].active && t.blocks[other].ip == ip ==> other <= id
    requires !Known(t.events, c.key)
    ensures var (after, answer) := RemoveTracking(t, c, ip);
            && answer == Answer(true, RemovedOutcome, false, Some(Removed), Some(id))
            && after.blocks == t.blocks[id := t.blocks[id].(active := false)] && after.nextBlock == t.nextBlock
            && after.events == t.events + [Event(ip, V.RemoveTracking, RemovedOutcome, Removed, Some(id), None, None, c.key)]
            && after.registry == t.registry[ip := RowOf(t, ip).(disposition := Removed, activeBlock := None)]
  {
    UpsertLeaves(t, ip);
    assert id in ActiveBlocks(t.blocks, ip);
    assert Greatest(ActiveBlocks(t.blocks, ip)) == id;
  }

  lemma EmptyRemovalLeaves(t: Tables, c: Command, ip: string)
    requires forall id :: id in t.blocks ==> !(t.blocks[id].active && t.blocks[id].ip == ip)
    ensures RemoveTracking(t, c, ip) ==
            (t.(registry := t.registry[ip := RowOf(t, ip)]), Answer(true, RemovedOutcome, true, Some(RowOf(t, ip).disposition), None))
  {
    UpsertLeaves(t, ip);
    assert !NonEmpty(ActiveBlocks(t.blocks, ip));
  }

  /** A direct record adds the block and nothing else, and is dropped when it is refused. */
  lemma DirectRecordLeaves(t: Tables, ip: string, expiresAt: Option<int>, alertKnown: bool)
    ensures Apply(t, RecordBlock(ip, expiresAt, alertKnown)) ==
            if alertKnown && forall id :: id in t.blocks ==> !(t.blocks[id].active && t.blocks[id].ip == ip) then
              t.(blocks := t.blocks[t.nextBlock := Block(ip, true, expiresAt)], nextBlock := t.nextBlock + 1)
            else t
  {
    RecordLeaves(t, ip, expiresAt, alertKnown);
    hide CreateBlock;
  }

  /** A sweep expires exactly the monitored rows whose deadline has come, and touches nothing else of them or of any row. */
  lemma SweepLeaves(t: Tables, now: int, ip: string)
    requires ip in t.registry
    ensures var after := Apply(t, Sweep(now));
            && after == t.(registry := after.registry) && after.registry.Keys == t.registry.Keys
            && after.registry[ip] == (if t.registry[ip].disposition == Monitored && t.registry[ip].monitorExpiresAt.Some?
                                         && t.registry[ip].monitorExpiresAt.value <= now
                                      then t.registry[ip].(disposition := Expired) else t.registry[ip])
  {
  }

  // ---------- dispatch and derivation ----------

  /** A command runs exactly when its name is known, its indicator well formed, its target present and, for a note, its text not blank. */
  lemma DispatchedExactlyWhen(c: Command, action: V.Command)
    ensures Dispatch(c) == Ok(action) <==>
            && V.Orders(c.name, action) && !c.target.BadIndicator?
            && (c.target.Ip? || (action == V.FlagHighPriority && c.alertId.Some?))
            && (action == V.AddNote ==> c.note != "")
  {
    V.OrdersExactlyWhen(c.name, action);
    hide V.Orders, V.CommandOf;
  }

  lemma RefusedCommandsLeaveNothing(t: Tables, c: Command, now: int)
    requires Dispatch(c).Err?
    ensures Execute(t, c, now) == (t, Answer(false, OtherOutcome(Dispatch(c).message), false, None, None))
  {
  }

  /** Outcomes that end an attempt decide alone; the others need the action they belong to. */
  lemma DerivedByOutcome(action: V.Command, previous: Disposition, text: string)
    ensures DeriveDisposition(action, RejectedOutcome, previous) == DeriveDisposition(action, PolicyBlocked, previous) == Rejected
    ensures DeriveDisposition(action, FailedOutcome, previous) == DeriveDisposition(action, ErrorOutcome, previous) == Failed
    ensures DeriveDisposition(action, AwaitingApproval, previous) == DeriveDisposition(action, PendingOutcome, previous) == Pending
    ensures DeriveDisposition(action, ExpiredOutcome, previous) == Expired
    ensures DeriveDisposition(action, RemovedOutcome, previous) == DeriveDisposition(action, Unblocked, previous) == Removed
    ensures DeriveDisposition(action, Succeeded, previous) ==
            if action == V.BlockIp then BlocklistTracked else if action == V.Monitor then Monitored
            else if action == V.FlagHighPriority then Escalated else previous
    ensures DeriveDisposition(action, TrackingRecorded, previous) == DeriveDisposition(action, IdempotentReuse, previous) ==
            (if action == V.BlockIp then BlocklistTracked else previous)
    ensures DeriveDisposition(action, Renewed, previous) == (if action == V.Monitor then Monitored else previous)
    ensures DeriveDisposition(action, EscalatedOutcome, previous) == (if action == V.FlagHighPriority then Escalated else previous)
    ensures DeriveDisposition(action, Recorded, previous) == DeriveDisposition(action, MonitoredOutcome, previous) ==
            DeriveDisposition(action, OtherOutcome(text), previous) == previous
  {
  }

  // ---------- how long a monitor lasts ----------

  predicate Concerns(step: Step, ip: string) {
    step.Run? && step.command.target == Ip(ip)
  }

  lemma OtherCommandsKeepRow(t: Tables, step: Step, ip: string)
    requires ip in t.registry && step.Run? && !Concerns(step, ip)
    ensures ip in Apply(t, step).registry && Apply(t, step).registry[ip] == t.registry[ip]
  {
    hide NonEmpty, CurrentBlocks, ActiveBlocks, Reuses;
    if Dispatch(step.command).Ok? {
      PerformKeepsOthers(t, step.command, Dispatch(step.command).value, step.now, ip);
    }
  }

  lemma PerformKeepsOthers(t: Tables, c: Command, action: V.Command, now: int, ip: string)
    requires ip in t.registry && c.target != Ip(ip) && (c.target.Ip? || action.FlagHighPriority?)
    ensures ip in Perform(t, c, action, now).0.registry && Perform(t, c, action, now).0.registry[ip] == t.registry[ip]
  {
    hide Reuses;
    match action
    case BlockIp =>
    case RemoveTracking =>
    case _ =>
  }

  predicate HoldsMonitor(t: Tables, ip: string, deadline: int) {
    ip in t.registry && t.registry[ip].disposition == Monitored && t.registry[ip].monitorExpiresAt == Some(deadline)
  }

  lemma {:induction false} MonitorLasts(t: Tables, steps: seq<Step>, ip: string, deadline: int)
    requires HoldsMonitor(t, ip, deadline)
    requires forall i :: 0 <= i < |steps| ==> !Concerns(steps[i], ip) && (steps[i].Sweep? ==> steps[i].now < deadline)
    ensures HoldsMonitor(RunAll(t, steps), ip, deadline)
    decreases |steps|
  {
    if steps != [] {
      if steps[0].Run? { OtherCommandsKeepRow(t, steps[0], ip); }
      assert HoldsMonitor(Apply(t, steps[0]), ip, deadline);
      hide Apply;
      MonitorLasts(Apply(t, steps[0]), steps[1..], ip, deadline);
    }
  }

  lemma MonitorHolds(t: Tables, c: Command, ip: string, now: int)
    requires V.Orders(c.name, V.Monitor) && c.target == Ip(ip)
    requires RowOf(t, ip).disposition == Monitored || !Known(t.events, c.key)
    ensures HoldsMonitor(Execute(t, c, now).0, ip, Requested(c, now))
  {
    DispatchedExactlyWhen(c, V.Monitor);
    hide Dispatch;
    if RowOf(t, ip).disposition == Monitored {
      RenewalLeaves(t, c, ip, now);
    } else {
      MonitorLeaves(t, c, ip, now);
    }
  }

  /**
   A monitor command that renews, or whose key is new, holds for exactly the time asked for, a week by default: until another command
   for its address comes, no sweep before the deadline expires it, and every sweep at or after the deadline does.
   */
  lemma MonitorLastsExactly(t: Tables, c: Command, ip: string, now: int, steps: seq<Step>, at: int)
    requires V.Orders(c.name, V.Monitor) && c.target == Ip(ip)
    requires RowOf(t, ip).disposition == Monitored || !Known(t.events, c.key)
    requires forall i :: 0 <= i < |steps| ==> !Concerns(steps[i], ip) && (steps[i].Sweep? ==> steps[i].now < Requested(c, now))
    ensures var e := RunAll(Apply(t, Run(c, now)), steps);
            && HoldsMonitor(e, ip, Requested(c, now))
            && ip in Apply(e, Sweep(at)).registry
            && Apply(e, Sweep(at)).registry[ip].disposition == if Requested(c, now) <= at then Expired else Monitored
  {
    MonitorHolds(t, c, ip, now);
    MonitorLasts(Apply(t, Run(c, now)), steps, ip, Requested(c, now));
  }
}
