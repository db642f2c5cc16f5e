/** Registry row, event log and blocklist over whole runs of commands, expiry sweeps and direct block records. */
module RegistryProtocol {
  import opened Common
  import V = ActionVocabulary
  import opened IndicatorRegistry

  datatype Step =
    | Run(command: Command, now: int)
    | Sweep(now: int)
    | RecordBlock(ip: string, expiresAt: Option<int>, alertKnown: bool)

  function Apply(t: Tables, step: Step): Tables {
    match step
    case Run(c, now) => Execute(t, c, now).0
    case Sweep(now) => ExpireMonitors(t, now)
    case RecordBlock(ip, expiresAt, alertKnown) =>
      match CreateBlock(t, ip, expiresAt, alertKnown)
      case Err(_) => t
      case Ok(created) => created
  }

  function RunAll(t: Tables, steps: seq<Step>): Tables
    decreases |steps|
  {
    if steps == [] then t else RunAll(Apply(t, steps[0]), steps[1..])
  }

  const EMPTY := Tables(map[], [], map[], 1)

  // ---------- the invariants ----------

  function Newest(events: seq<Event>, ip: string): Option<Event> {
    if events == [] then None
    else if events[|events| - 1].ip == ip then Some(events[|events| - 1])
    else Newest(events[..|events| - 1], ip)
  }

  /** The row shows what the newest event said, except that a monitored row may have expired since. */
  predicate Agrees(t: Tables, ip: string)
    requires ip in t.registry
  {
    var newest := Newest(t.events, ip);
    var shown := t.registry[ip].disposition;
    if newest.None? then shown == Observed
    else shown == newest.value.disposition || (shown == Expired && newest.value.disposition == Monitored)
  }

  predicate Agreement(t: Tables) {
    forall ip :: ip in t.registry ==> Agrees(t, ip)
  }

  predicate KnownEvents(t: Tables) {
    forall i :: 0 <= i < |t.events| ==> t.events[i].ip in t.registry
  }

  predicate OneActive(t: Tables) {
    && (forall id :: id in t.blocks ==> id < t.nextBlock)
    && forall a, b :: a in t.blocks && b in t.blocks && t.blocks[a].active && t.blocks[b].active && t.blocks[a].ip == t.blocks[b].ip ==> a == b
  }

  /** A set pointer names the IP's active block. */
  predicate PointerOk(t: Tables, ip: string)
    requires ip in t.registry
  {
    var pointer := t.registry[ip].activeBlock;
    pointer.Some? ==> pointer.value in ActiveBlocks(t.blocks, ip)
  }

  predicate Pointers(t: Tables) {
    forall ip :: ip in t.registry ==> PointerOk(t, ip)
  }

  predicate Invariant(t: Tables) {
    Agreement(t) && KnownEvents(t) && OneActive(t) && Pointers(t)
  }

  /** Every monitored row has a deadline. */
  predicate Deadlines(t: Tables) {
    forall ip :: ip in t.registry && t.registry[ip].disposition == Monitored ==> t.registry[ip].monitorExpiresAt.Some?
  }

  // ---------- one write at a time ----------

  lemma NewestAppend(events: seq<Event>, e: Event, ip: string)
    ensures Newest(events + [e], ip) == if e.ip == ip then Some(e) else Newest(events, ip)
  {
    assert (events + [e])[..|events|] == events;
  }

  lemma {:induction false} NoEvents(events: seq<Event>, ip: string)
    requires forall i :: 0 <= i < |events| ==> events[i].ip != ip
    ensures Newest(events, ip) == None
  {
    if events != [] {
      NoEvents(events[..|events| - 1], ip);
    }
  }

  lemma UpsertKeeps(t: Tables, ip: string)
    requires Invariant(t)
    ensures Invariant(Upsert(t, ip)) && ip in Upsert(t, ip).registry
  {
    if ip !in t.registry {
      NoEvents(t.events, ip);
    }
  }

  /** A fresh updating event sets its row to what it says; a note repeats what the row says. */
  lemma AppendKeepsLog(t: Tables, e: Event, update: bool)
    requires Agreement(t) && KnownEvents(t) && e.ip in t.registry
    requires update || e.disposition == t.registry[e.ip].disposition
    ensures Agreement(Append(t, e, update)) && KnownEvents(Append(t, e, update))
  {
    var after := Append(t, e, update);
    if after.events != t.events {
      forall ip | ip in after.registry
        ensures Agrees(after, ip)
      {
        NewestAppend(t.events, e, ip);
        assert Agrees(t, ip);
      }
    }
  }

  lemma AppendKeepsPointers(t: Tables, e: Event, update: bool)
    requires Pointers(t) && e.ip in t.registry
    requires e.block.Some? && update ==> e.block.value in ActiveBlocks(t.blocks, e.ip)
    ensures Pointers(Append(t, e, update))
  {
    var after := Append(t, e, update);
    forall ip | ip in after.registry
      ensures PointerOk(after, ip)
    {
      assert PointerOk(t, ip);
    }
  }

  lemma AppendKeeps(t: Tables, e: Event, update: bool)
    requires Invariant(t) && e.ip in t.registry
    requires update || e.disposition == t.registry[e.ip].disposition
    requires e.block.Some? && update ==> e.block.value in ActiveBlocks(t.blocks, e.ip)
    ensures Invariant(Append(t, e, update))
  {
    AppendKeepsLog(t, e, update);
    AppendKeepsPointers(t, e, update);
  }

  /** Changes to a row that leave its disposition and pointer alone. */
  lemma RowEditKeeps(t: Tables, ip: string, row: RegistryRow)
    requires Invariant(t) && ip in t.registry
    requires row.disposition == t.registry[ip].disposition && (row.activeBlock.None? || row.activeBlock == t.registry[ip].activeBlock)
    ensures Invariant(t.(registry := t.registry[ip := row]))
  {
    var after := t.(registry := t.registry[ip := row]);
    forall other | other in after.registry
      ensures Agrees(after, other) && PointerOk(after, other)
    {
      assert Agrees(t, other) && PointerOk(t, other);
    }
  }

  lemma CreateBlockKeeps(t: Tables, ip: string, expiresAt: Option<int>, alertKnown: bool)
    requires Invariant(t) && CreateBlock(t, ip, expiresAt, alertKnown).Ok?
    ensures Invariant(CreateBlock(t, ip, expiresAt, alertKnown).value)
    ensures t.nextBlock in ActiveBlocks(CreateBlock(t, ip, expiresAt, alertKnown).value.blocks, ip)
  {
    var after := CreateBlock(t, ip, expiresAt, alertKnown).value;
    forall other | other in after.registry
      ensures Agrees(after, other) && PointerOk(after, other)
    {
      assert Agrees(t, other) && PointerOk(t, other);
    }
    forall a, b | a in after.blocks && b in after.blocks && after.blocks[a].active && after.blocks[b].active && after.blocks[a].ip == after.blocks[b].ip
      ensures a == b
    {
      assert a != t.nextBlock && after.blocks[a].ip == ip ==> a in ActiveBlocks(t.blocks, ip);
      assert b != t.nextBlock && after.blocks[b].ip == ip ==> b in ActiveBlocks(t.blocks, ip);
    }
  }

  // ---------- one command at a time ----------

  lemma BlockIpKeeps(t: Tables, c: Command, ip: string, now: int)
    requires Invariant(t)
    ensures Invariant(BlockIp(t, c, ip, now).0)
  {
    UpsertKeeps(t, ip);
    var known := Upsert(t, ip);
    if c.refused {
      AppendKeeps(known, RejectEvent(c, ip, V.BlockIp), true);
    } else if NonEmpty(CurrentBlocks(t.blocks, ip, now)) {
      AppendKeeps(known, BlockEvent(c, ip, Least(CurrentBlocks(t.blocks, ip, now)), false), true);
    } else if CreateBlock(known, ip, c.expiresAt, c.alertKnown).Ok? {
      CreateBlockKeeps(known, ip, c.expiresAt, c.alertKnown);
      AppendKeeps(CreateBlock(known, ip, c.expiresAt, c.alertKnown).value, BlockEvent(c, ip, t.nextBlock, true), true);
    }
  }

  lemma MonitorKeeps(t: Tables, c: Command, ip: string, now: int)
    requires Invariant(t)
    ensures Invariant(Monitor(t, c, ip, now).0)
  {
    if ip in t.registry && t.registry[ip].disposition == Monitored {
      RowEditKeeps(t, ip, t.registry[ip].(monitorExpiresAt := Some(MonitorDeadline(c, now))));
    } else {
      UpsertKeeps(t, ip);
      AppendKeeps(Upsert(t, ip), MonitorEvent(c, ip, MonitorDeadline(c, now)), true);
    }
  }

  lemma StopMonitorKeeps(t: Tables, c: Command, ip: string)
    requires Invariant(t)
    ensures Invariant(StopMonitor(t, c, ip).0)
  {
    UpsertKeeps(t, ip);
    if Upsert(t, ip).registry[ip].disposition == Monitored {
      AppendKeeps(t, StopEvent(c, ip), true);
      var stopped := Append(t, StopEvent(c, ip), true);
      RowEditKeeps(stopped, ip, stopped.registry[ip].(monitorExpiresAt := None));
    }
  }

  /** Deactivating an IP's only active block leaves every other row's pointer sound. */
  lemma DeactivationSparesOthers(t: Tables, ip: string, id: int, other: string)
    requires Invariant(t) && id in ActiveBlocks(t.blocks, ip) && other in t.registry && other != ip
    ensures PointerOk(Deactivated(t, id), other)
  {
    assert PointerOk(t, other);
  }

  lemma RemoveTrackingKeeps(t: Tables, c: Command, ip: string)
    requires Invariant(t)
    ensures Invariant(RemoveTracking(t, c, ip).0)
  {
    UpsertKeeps(t, ip);
    if NonEmpty(ActiveBlocks(t.blocks, ip)) {
      var id := Greatest(ActiveBlocks(t.blocks, ip));
      var known := Upsert(t, ip);
      var off := Deactivated(known, id);
      assert forall other :: other in off.registry ==> Agrees(known, other) && Agrees(off, other);
      AppendKeepsLog(off, RemoveEvent(c, ip, id), true);
      var logged := Append(off, RemoveEvent(c, ip, id), true);
      var after := ClearedPointer(logged, ip);
      forall other | other in after.registry
        ensures Agrees(after, other) && PointerOk(after, other)
      {
        assert Agrees(logged, other);
        if other != ip { DeactivationSparesOthers(known, ip, id, other); }
      }
    }
  }

  lemma EscalateKeeps(t: Tables, c: Command)
    requires Invariant(t)
    ensures Invariant(Escalate(t, c).0)
  {
    if c.target.Ip? {
      UpsertKeeps(t, c.target.value);
      AppendKeeps(Upsert(t, c.target.value), EscalateEvent(c, c.target.value), true);
    }
  }

  lemma AddNoteKeeps(t: Tables, c: Command, ip: string)
    requires Invariant(t)
    ensures Invariant(AddNote(t, c, ip).0)
  {
    UpsertKeeps(t, ip);
    AppendKeeps(Upsert(t, ip), NoteEvent(c, ip, Upsert(t, ip).registry[ip].disposition), false);
  }

  lemma ExecuteKeeps(t: Tables, c: Command, now: int)
    requires Invariant(t)
    ensures Invariant(Execute(t, c, now).0)
  {
    if Dispatch(c).Ok? {
      match Dispatch(c).value
      case BlockIp => BlockIpKeeps(t, c, c.target.value, now);
      case Monitor => MonitorKeeps(t, c, c.target.value, now);
      case StopMonitor => StopMonitorKeeps(t, c, c.target.value);
      case RemoveTracking => RemoveTrackingKeeps(t, c, c.target.value);
      case AddNote => AddNoteKeeps(t, c, c.target.value);
      case FlagHighPriority => EscalateKeeps(t, c);
    }
  }

  lemma SweepKeeps(t: Tables, now: int)
    requires Invariant(t)
    ensures Invariant(ExpireMonitors(t, now))
  {
    var after := ExpireMonitors(t, now);
    forall ip | ip in after.registry
      ensures Agrees(after, ip) && PointerOk(after, ip)
    {
      assert Agrees(t, ip) && PointerOk(t, ip);
    }
  }

  lemma StepKeeps(t: Tables, step: Step)
    requires Invariant(t)
    ensures Invariant(Apply(t, step))
  {
    match step
    case Run(c, now) => ExecuteKeeps(t, c, now);
    case Sweep(now) => SweepKeeps(t, now);
    case RecordBlock(ip, expiresAt, alertKnown) =>
      if CreateBlock(t, ip, expiresAt, alertKnown).Ok? { CreateBlockKeeps(t, ip, expiresAt, alertKnown); }
  }

  lemma {:induction false} RunKeeps(t: Tables, steps: seq<Step>)
    requires Invariant(t)
    ensures Invariant(RunAll(t, steps))
    decreases |steps|
  {
    if steps != [] {
      StepKeeps(t, steps[0]);
      RunKeeps(Apply(t, steps[0]), steps[1..]);
    }
  }
}
