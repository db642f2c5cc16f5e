/**
 The indicator registry: one current-state row per IP, an append-only event log and the blocklist table,
 and the six response commands that write all three.
 */
module IndicatorRegistry {
  import opened Common
  import V = ActionVocabulary

  datatype Disposition = Observed | Monitored | Escalated | Pending | BlocklistTracked | Rejected | Failed | Expired | Removed

  datatype Outcome =
    | RejectedOutcome | PolicyBlocked | FailedOutcome | ErrorOutcome | AwaitingApproval | PendingOutcome | ExpiredOutcome
    | RemovedOutcome | Unblocked | Succeeded | TrackingRecorded | IdempotentReuse | Renewed | EscalatedOutcome | Recorded
    | MonitoredOutcome | OtherOutcome(text: string)

  datatype RegistryRow = RegistryRow(
    disposition: Disposition,
    activeBlock: Option<int>,
    activeIncident: Option<int>,
    monitorExpiresAt: Option<int>)

  datatype Event = Event(
    ip: string,
    action: V.Command,
    outcome: Outcome,
    disposition: Disposition,
    block: Option<int>,
    incident: Option<int>,
    expiresAt: Option<int>,
    key: string)

  datatype Block = Block(ip: string, active: bool, expiresAt: Option<int>)

  /** Registry rows are found by IP: (indicator_type, indicator_value) is unique and the type is always "ip". */
  datatype Tables = Tables(registry: map<string, RegistryRow>, events: seq<Event>, blocks: map<int, Block>, nextBlock: int)

  const NEW_ROW := RegistryRow(Observed, None, None, None)
  const MONITOR_TTL := 168 * 3600

  function DeriveDisposition(action: V.Command, outcome: Outcome, previous: Disposition): Disposition {
    match outcome
    case RejectedOutcome => Rejected
    case PolicyBlocked => Rejected
    case FailedOutcome => Failed
    case ErrorOutcome => Failed
    case AwaitingApproval => Pending
    case PendingOutcome => Pending
    case ExpiredOutcome => Expired
    case RemovedOutcome => Removed
    case Unblocked => Removed
    case _ =>
      if action.BlockIp? && (outcome.Succeeded? || outcome.TrackingRecorded? || outcome.IdempotentReuse?) then BlocklistTracked
      else if action.Monitor? && (outcome.Succeeded? || outcome.Renewed?) then Monitored
      else if action.FlagHighPriority? && (outcome.Succeeded? || outcome.EscalatedOutcome?) then Escalated
      else previous
  }

  function Upsert(t: Tables, ip: string): Tables {
    if ip in t.registry then t else t.(registry := t.registry[ip := NEW_ROW])
  }

  predicate KeyUsed(events: seq<Event>, key: string) {
    exists i | 0 <= i < |events| :: events[i].key == key
  }

  /** A keyless event is never a reuse. */
  predicate Reuses(t: Tables, key: string) {
    key != "" && KeyUsed(t.events, key)
  }

  function UpdatedRow(row: RegistryRow, e: Event): RegistryRow {
    RegistryRow(e.disposition, Coalesce(e.block, row.activeBlock), Coalesce(e.incident, row.activeIncident),
                Coalesce(e.expiresAt, row.monitorExpiresAt))
  }

  /** append_registry_event: a key already in the log returns the old event and writes nothing. */
  function Append(t: Tables, e: Event, updateRegistry: bool): Tables
    requires e.ip in t.registry
  {
    if Reuses(t, e.key) then t
    else t.(events := t.events + [e],
            registry := if updateRegistry then t.registry[e.ip := UpdatedRow(t.registry[e.ip], e)] else t.registry)
  }

  function ActiveBlocks(blocks: map<int, Block>, ip: string): set<int> {
    set id | id in blocks && blocks[id].active && blocks[id].ip == ip
  }

  function CurrentBlocks(blocks: map<int, Block>, ip: string, now: int): set<int> {
    set id | id in blocks && blocks[id].active && blocks[id].ip == ip && (blocks[id].expiresAt.None? || blocks[id].expiresAt.value > now)
  }

  predicate NonEmpty(ids: set<int>) {
    exists id | id in ids :: true
  }

  /** create_blocked_ip_record: refused while any active row for the IP exists. */
  function CreateBlock(t: Tables, ip: string, expiresAt: Option<int>, alertKnown: bool): Result<Tables> {
    if !alertKnown then Err("Source alert not found")
    else if NonEmpty(ActiveBlocks(t.blocks, ip)) then Err("An active block already exists for this IP")
    else Ok(t.(blocks := t.blocks[t.nextBlock := Block(ip, true, expiresAt)], nextBlock := t.nextBlock + 1))
  }

  /**
   One response command, after the service has resolved its target. `refused` says the target is protected
   or not blockable, `incident` is the incident an escalation is handed to, `key` the idempotency key
   (given, or hashed from the request: never blank).
   */
  datatype Command = Command(
    name: string,
    target: Target,
    key: string,
    note: string,
    expiresAt: Option<int>,
    alertId: Option<int>,
    alertKnown: bool,
    incident: Option<int>,
    refused: bool)

  datatype Target = BadIndicator | NoTarget | Ip(value: string)

  /** What the service answers; Raised is a ValueError, which makes the caller roll the transaction back. */
  datatype Answer =
    | Raised(message: string)
    | Answer(success: bool, outcome: Outcome, idempotent: bool, disposition: Option<Disposition>, block: Option<int>)

  function Refusal(code: string): Answer {
    Answer(false, OtherOutcome(code), false, None, None)
  }

  const REJECT_PREFIX := "reject-"

  function BlockEvent(c: Command, ip: string, id: int, createdNew: bool): Event {
    Event(ip, V.BlockIp, if createdNew then Succeeded else IdempotentReuse, BlocklistTracked, Some(id), c.incident, c.expiresAt, c.key)
  }

  function MonitorEvent(c: Command, ip: string, expiresAt: int): Event {
    Event(ip, V.Monitor, Succeeded, Monitored, None, c.incident, Some(expiresAt), c.key)
  }

  function EscalateEvent(c: Command, ip: string): Event {
    Event(ip, V.FlagHighPriority, EscalatedOutcome, Escalated, None, c.incident, None, c.key)
  }

  function StopEvent(c: Command, ip: string): Event {
    Event(ip, V.StopMonitor, RemovedOutcome, Removed, None, c.incident, None, c.key)
  }

  function RemoveEvent(c: Command, ip: string, id: int): Event {
    Event(ip, V.RemoveTracking, RemovedOutcome, Removed, Some(id), None, None, c.key)
  }

  function NoteEvent(c: Command, ip: string, current: Disposition): Event {
    Event(ip, V.AddNote, Recorded, current, None, c.incident, None, c.key)
  }

  function RejectEvent(c: Command, ip: string, action: V.Command): Event {
    Event(ip, action, RejectedOutcome, Rejected, None, None, None, REJECT_PREFIX + c.key)
  }

  function BlockIp(t: Tables, c: Command, ip: string, now: int): (Tables, Answer) {
    var known := Upsert(t, ip);
    if c.refused then (Append(known, RejectEvent(c, ip, V.BlockIp), true), Answer(false, RejectedOutcome, false, Some(Rejected), None))
    else if NonEmpty(CurrentBlocks(t.blocks, ip, now)) then
      var id := Least(CurrentBlocks(t.blocks, ip, now));
      (Append(known, BlockEvent(c, ip, id, false), true), Answer(true, IdempotentReuse, true, Some(BlocklistTracked), Some(id)))
    else
      match CreateBlock(known, ip, c.expiresAt, c.alertKnown)
      case Err(message) => (t, Raised(message))
      case Ok(created) =>
        (Append(created, BlockEvent(c, ip, t.nextBlock, true), true), Answer(true, TrackingRecorded, false, Some(BlocklistTracked), Some(t.nextBlock)))
  }

  function MonitorDeadline(c: Command, now: int): int {
    if c.expiresAt.Some? then c.expiresAt.value else now + MONITOR_TTL
  }

  function Monitor(t: Tables, c: Command, ip: string, now: int): (Tables, Answer) {
    if ip in t.registry && t.registry[ip].disposition == Monitored then
      (t.(registry := t.registry[ip := t.registry[ip].(monitorExpiresAt := Some(MonitorDeadline(c, now)))]),
       Answer(true, MonitoredOutcome, true, Some(Monitored), None))
    else
      (Append(Upsert(t, ip), MonitorEvent(c, ip, MonitorDeadline(c, now)), true), Answer(true, MonitoredOutcome, false, Some(Monitored), None))
  }

  function Escalate(t: Tables, c: Command): (Tables, Answer) {
    if c.target.Ip? then
      (Append(Upsert(t, c.target.value), EscalateEvent(c, c.target.value), true), Answer(true, EscalatedOutcome, false, Some(Escalated), None))
    else (t, Answer(true, EscalatedOutcome, false, None, None))
  }

  function ClearedDeadline(t: Tables, ip: string): Tables
    requires ip in t.registry
  {
    t.(registry := t.registry[ip := t.registry[ip].(monitorExpiresAt := None)])
  }

  function StopMonitor(t: Tables, c: Command, ip: string): (Tables, Answer) {
    if Upsert(t, ip).registry[ip].disposition != Monitored then
      (Upsert(t, ip), Answer(true, RemovedOutcome, true, Some(Upsert(t, ip).registry[ip].disposition), None))
    else
      (ClearedDeadline(Append(t, StopEvent(c, ip), true), ip), Answer(true, RemovedOutcome, false, Some(Removed), None))
  }

  function ClearedPointer(t: Tables, ip: string): Tables
    requires ip in t.registry
  {
    t.(registry := t.registry[ip := t.registry[ip].(activeBlock := None)])
  }

  function Deactivated(t: Tables, id: int): Tables
    requires id in t.blocks
  {
    t.(blocks := t.blocks[id := t.blocks[id].(active := false)])
  }

  function RemoveTracking(t: Tables, c: Command, ip: string): (Tables, Answer) {
    if !NonEmpty(ActiveBlocks(t.blocks, ip)) then
      (Upsert(t, ip), Answer(true, RemovedOutcome, true, Some(Upsert(t, ip).registry[ip].disposition), None))
    else
      var id := Greatest(ActiveBlocks(t.blocks, ip));
      (ClearedPointer(Append(Deactivated(Upsert(t, ip), id), RemoveEvent(c, ip, id), true), ip), Answer(true, RemovedOutcome, false, Some(Removed), Some(id)))
  }

  function AddNote(t: Tables, c: Command, ip: string): (Tables, Answer) {
    var known := Upsert(t, ip);
    (Append(known, NoteEvent(c, ip, known.registry[ip].disposition), false), Answer(true, Recorded, false, Some(known.registry[ip].disposition), None))
  }

  /** The dispatch checks of execute_response_command, on a stripped name and note. */
  function Dispatch(c: Command): Result<V.Command> {
    match V.CommandOf(c.name)
    case Err(code) => Err(code)
    case Ok(action) =>
      if c.target.BadIndicator? then Err("invalid_indicator")
      else if !action.FlagHighPriority? && !c.target.Ip? then Err("validation_no_target")
      else if action.FlagHighPriority? && c.alertId.None? && !c.target.Ip? then Err("validation_no_target")
      else if action.AddNote? && c.note == "" then Err("validation_missing_reason")
      else Ok(action)
  }

  function Perform(t: Tables, c: Command, action: V.Command, now: int): (Tables, Answer)
    requires c.target.Ip? || action.FlagHighPriority?
  {
    match action
    case BlockIp => BlockIp(t, c, c.target.value, now)
    case Monitor => Monitor(t, c, c.target.value, now)
    case StopMonitor => StopMonitor(t, c, c.target.value)
    case RemoveTracking => RemoveTracking(t, c, c.target.value)
    case AddNote => AddNote(t, c, c.target.value)
    case FlagHighPriority => Escalate(t, c)
  }

  function Execute(t: Tables, c: Command, now: int): (Tables, Answer) {
    match Dispatch(c)
    case Err(code) => (t, Refusal(code))
    case Ok(action) => Perform(t, c, action, now)
  }

  predicate MonitorOver(row: RegistryRow, now: int) {
    row.disposition == Monitored && row.monitorExpiresAt.Some? && row.monitorExpiresAt.value <= now
  }

  /** apply_monitor_expiry. */
  function ExpireMonitors(t: Tables, now: int): Tables {
    t.(registry := map ip | ip in t.registry :: if MonitorOver(t.registry[ip], now) then t.registry[ip].(disposition := Expired) else t.registry[ip])
  }
}
