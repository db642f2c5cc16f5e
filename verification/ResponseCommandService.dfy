/** The command service as it runs: statement by statement over the registry, event and blocklist tables. */
module ResponseCommandService {
  import opened Common
  import V = ActionVocabulary
  import opened IndicatorRegistry

  /** One connection's tables. A Raised answer means the caller rolled the transaction back. */
  class Service {
    var registry: map<string, RegistryRow>
    var events: seq<Event>
    var blocks: map<int, Block>
    var nextBlock: int

    ghost function View(): Tables
      reads this
    {
      Tables(registry, events, blocks, nextBlock)
    }

    constructor ()
      ensures View() == Tables(map[], [], map[], 1)
    {
      registry, events, blocks, nextBlock := map[], [], map[], 1;
    }

    method UpsertIndicatorIdentity(ip: string) returns (row: RegistryRow)
      modifies this`registry
      ensures View() == Upsert(old(View()), ip)
      ensures ip in registry && row == registry[ip]
    {
      if ip !in registry {
        registry := registry[ip := NEW_ROW];
      }
      row := registry[ip];
    }

    /** Looks the key up, inserts the event, and folds it into the row with COALESCE. */
    method AppendRegistryEvent(event: Event, updateRegistry: bool) returns (stored: Event)
      requires event.ip in registry
      modifies this`registry, this`events
      ensures View() == Append(old(View()), event, updateRegistry)
      ensures event.ip in registry
      ensures if Reuses(old(View()), event.key) then stored in old(events) && stored.key == event.key else stored == event
    {
      if event.key != "" {
        var i := 0;
        while i < |events|
          invariant 0 <= i <= |events|
          invariant forall j :: 0 <= j < i ==> events[j].key != event.key
        {
          if events[i].key == event.key {
            assert Reuses(View(), event.key);
            return events[i];
          }
          i := i + 1;
        }
      }
      events := events + [event];
      stored := event;
      if updateRegistry {
        var row := registry[event.ip].(disposition := event.disposition);
        if event.block.Some? { row := row.(activeBlock := event.block); }
        if event.incident.Some? { row := row.(activeIncident := event.incident); }
        if event.expiresAt.Some? { row := row.(monitorExpiresAt := event.expiresAt); }
        registry := registry[event.ip := row];
      }
    }

    method CreateBlockedIpRecord(ip: string, expiresAt: Option<int>, alertKnown: bool) returns (r: Result<int>)
      modifies this`blocks, this`nextBlock
      ensures match CreateBlock(old(View()), ip, expiresAt, alertKnown)
              case Err(message) => r == Err(message) && View() == old(View())
              case Ok(created) => r == Ok(old(nextBlock)) && View() == created
    {
      if !alertKnown { return Err("Source alert not found"); }
      if exists id | id in blocks :: blocks[id].active && blocks[id].ip == ip {
        ghost var id :| id in blocks && blocks[id].active && blocks[id].ip == ip;
        assert id in ActiveBlocks(blocks, ip);
        return Err("An active block already exists for this IP");
      }
      var id := nextBlock;
      blocks, nextBlock := blocks[id := Block(ip, true, expiresAt)], id + 1;
      return Ok(id);
    }

    /** _execute_block_ip with _get_or_create_active_blocked_ip. */
    method ExecuteBlockIp(c: Command, ip: string, now: int) returns (a: Answer)
      modifies this
      ensures (View(), a) == BlockIp(old(View()), c, ip, now)
    {
      if c.refused {
        var _ := UpsertIndicatorIdentity(ip);
        var _ := AppendRegistryEvent(RejectEvent(c, ip, V.BlockIp), true);
        return Answer(false, RejectedOutcome, false, Some(Rejected), None);
      }
      var before := registry;
      var _ := UpsertIndicatorIdentity(ip);
      var current := CurrentBlocks(blocks, ip, now);
      if NonEmpty(current) {
        var id := Least(current);
        var _ := AppendRegistryEvent(BlockEvent(c, ip, id, false), true);
        return Answer(true, IdempotentReuse, true, Some(BlocklistTracked), Some(id));
      }
      var created := CreateBlockedIpRecord(ip, c.expiresAt, c.alertKnown);
      if created.Err? {
        registry := before;
        return Raised(created.message);
      }
      var _ := AppendRegistryEvent(BlockEvent(c, ip, created.value, true), true);
      return Answer(true, TrackingRecorded, false, Some(BlocklistTracked), Some(created.value));
    }

    method ExecuteMonitor(c: Command, ip: string, now: int) returns (a: Answer)
      modifies this
      ensures (View(), a) == Monitor(old(View()), c, ip, now)
    {
      var expiresAt := if c.expiresAt.Some? then c.expiresAt.value else now + MONITOR_TTL;
      if ip in registry && registry[ip].disposition == Monitored {
        registry := registry[ip := registry[ip].(monitorExpiresAt := Some(expiresAt))];
        return Answer(true, MonitoredOutcome, true, Some(Monitored), None);
      }
      var _ := UpsertIndicatorIdentity(ip);
      var _ := AppendRegistryEvent(MonitorEvent(c, ip, expiresAt), true);
      return Answer(true, MonitoredOutcome, false, Some(Monitored), None);
    }

    method ExecuteEscalate(c: Command) returns (a: Answer)
      modifies this
      ensures (View(), a) == Escalate(old(View()), c)
    {
      if !c.target.Ip? { return Answer(true, EscalatedOutcome, false, None, None); }
      var _ := UpsertIndicatorIdentity(c.target.value);
      var _ := AppendRegistryEvent(EscalateEvent(c, c.target.value), true);
      return Answer(true, EscalatedOutcome, false, Some(Escalated), None);
    }

    method ExecuteStopMonitor(c: Command, ip: string) returns (a: Answer)
      modifies this
      ensures (View(), a) == StopMonitor(old(View()), c, ip)
    {
      var row := UpsertIndicatorIdentity(ip);
      if row.disposition != Monitored {
        return Answer(true, RemovedOutcome, true, Some(row.disposition), None);
      }
      var _ := AppendRegistryEvent(StopEvent(c, ip), true);
      registry := registry[ip := registry[ip].(monitorExpiresAt := None)];
      return Answer(true, RemovedOutcome, false, Some(Removed), None);
    }

    method ExecuteRemoveTracking(c: Command, ip: string) returns (a: Answer)
      modifies this
      ensures (View(), a) == RemoveTracking(old(View()), c, ip)
    {
      var active := ActiveBlocks(blocks, ip);
      var row := UpsertIndicatorIdentity(ip);
      if !NonEmpty(active) {
        return Answer(true, RemovedOutcome, true, Some(row.disposition), None);
      }
      var id := Greatest(active);
      blocks := blocks[id := blocks[id].(active := false)];
      var _ := AppendRegistryEvent(RemoveEvent(c, ip, id), true);
      registry := registry[ip := registry[ip].(activeBlock := None)];
      return Answer(true, RemovedOutcome, false, Some(Removed), Some(id));
    }

    method ExecuteAddNote(c: Command, ip: string) returns (a: Answer)
      modifies this
      ensures (View(), a) == AddNote(old(View()), c, ip)
    {
      var row := UpsertIndicatorIdentity(ip);
      var _ := AppendRegistryEvent(NoteEvent(c, ip, row.disposition), false);
      return Answer(true, Recorded, false, Some(row.disposition), None);
    }

    method ExecuteResponseCommand(c: Command, now: int) returns (a: Answer)
      modifies this
      ensures (View(), a) == Execute(old(View()), c, now)
    {
      var checked := Dispatch(c);
      if checked.Err? { return Refusal(checked.message); }
      match checked.value {
        case BlockIp => a := ExecuteBlockIp(c, c.target.value, now);
        case Monitor => a := ExecuteMonitor(c, c.target.value, now);
        case StopMonitor => a := ExecuteStopMonitor(c, c.target.value);
        case RemoveTracking => a := ExecuteRemoveTracking(c, c.target.value);
        case AddNote => a := ExecuteAddNote(c, c.target.value);
        case FlagHighPriority => a := ExecuteEscalate(c);
      }
    }

    /** One UPDATE over every lapsed row; the row count is RETURNING's. */
    method ApplyMonitorExpiry(now: int) returns (count: nat)
      modifies this`registry
      ensures View() == ExpireMonitors(old(View()), now)
      ensures count == |set ip | ip in old(registry) && MonitorOver(old(registry)[ip], now)|
    {
      var lapsed := set ip | ip in registry && MonitorOver(registry[ip], now);
      count := |lapsed|;
      registry := map ip | ip in registry :: if ip in lapsed then registry[ip].(disposition := Expired) else registry[ip];
    }
  }
}
