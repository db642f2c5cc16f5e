/** Canonical response-action names, their aliases, and which of them the queue and the command service accept. */
module ActionVocabulary {
  import opened Common

  const MISSING := "missing_action"
  const UNSUPPORTED := "unsupported_action"
  const AMBIGUOUS := "ambiguous_notify"
  const MISROUTED := "misrouted_enrich_context"

  predicate IsCanonical(name: string) {
    || IsCommandAction(name)
    || name == "enrich_context" || name == "notify_slack" || name == "notify_teams" || name == "notify_email" || name == "notify_webhook"
    || name == "require_approval" || name == "branch" || name == "trigger_playbook" || name == "notify"
  }

  predicate IsCommandAction(name: string) {
    IsQueueAction(name) || name == "stop_monitor" || name == "remove_tracking" || name == "add_note"
  }

  predicate IsQueueAction(name: string) {
    name == "block_ip" || name == "monitor" || name == "flag_high_priority"
  }

  /** normalize_action_name on a stripped name. */
  function Canonical(name: string): Result<string> {
    if name == "" then Err(MISSING)
    else if name == "escalate" then Ok("flag_high_priority")
    else if name == "unblock" then Ok("remove_tracking")
    else Ok(name)
  }

  /** validate_action_for_response_queue. */
  function QueueAction(name: string): (r: Result<string>)
    ensures r.Ok? ==> IsQueueAction(r.value)
  {
    match Canonical(name)
    case Err(code) => Err(code)
    case Ok(action) =>
      if !IsCanonical(action) then Err(UNSUPPORTED)
      else if action == "notify" then Err(AMBIGUOUS)
      else if action == "enrich_context" then Err(MISROUTED)
      else if !IsQueueAction(action) then Err(UNSUPPORTED)
      else Ok(action)
  }

  datatype Command = BlockIp | Monitor | FlagHighPriority | StopMonitor | RemoveTracking | AddNote

  function CommandName(command: Command): string {
    match command
    case BlockIp => "block_ip"
    case Monitor => "monitor"
    case FlagHighPriority => "flag_high_priority"
    case StopMonitor => "stop_monitor"
    case RemoveTracking => "remove_tracking"
    case AddNote => "add_note"
  }

  /** validate_response_command_action. */
  function CommandOf(name: string): (r: Result<Command>)
    ensures r.Ok? ==> IsCommandAction(CommandName(r.value)) && Canonical(name) == Ok(CommandName(r.value))
  {
    match Canonical(name)
    case Err(code) => Err(code)
    case Ok(action) =>
      if action == "block_ip" then Ok(BlockIp)
      else if action == "monitor" then Ok(Monitor)
      else if action == "flag_high_priority" then Ok(FlagHighPriority)
      else if action == "stop_monitor" then Ok(StopMonitor)
      else if action == "remove_tracking" then Ok(RemoveTracking)
      else if action == "add_note" then Ok(AddNote)
      else Err(UNSUPPORTED)
  }

  /** The queue's three actions under their own names, and one alias. */
  predicate StandsFor(name: string, action: string) {
    || (name == action && (name == "block_ip" || name == "monitor" || name == "flag_high_priority"))
    || (name == "escalate" && action == "flag_high_priority")
  }

  lemma QueuesExactlyWhen(name: string, action: string)
    ensures QueueAction(name) == Ok(action) <==> StandsFor(name, action)
  {
  }

  /** A name the queue does not take is missing, ambiguous, misrouted or unsupported. */
  lemma RefusesExactlyWhen(name: string)
    ensures QueueAction(name) == Err("missing_action") <==> name == ""
    ensures QueueAction(name) == Err("ambiguous_notify") <==> name == "notify"
    ensures QueueAction(name) == Err("misrouted_enrich_context") <==> name == "enrich_context"
    ensures QueueAction(name) == Err("unsupported_action") <==>
            !(name in {"", "notify", "enrich_context", "block_ip", "monitor", "flag_high_priority", "escalate"})
  {
  }

  /** The six commands under their own names, and two aliases. */
  predicate Orders(name: string, command: Command) {
    match command
    case BlockIp => name == "block_ip"
    case Monitor => name == "monitor"
    case FlagHighPriority => name == "flag_high_priority" || name == "escalate"
    case StopMonitor => name == "stop_monitor"
    case RemoveTracking => name == "remove_tracking" || name == "unblock"
    case AddNote => name == "add_note"
  }

  lemma OrdersExactlyWhen(name: string, command: Command)
    ensures CommandOf(name) == Ok(command) <==> Orders(name, command)
  {
    var canonical := Canonical(name);
    match command
    case BlockIp =>
    case Monitor =>
    case FlagHighPriority =>
    case StopMonitor =>
    case RemoveTracking =>
    case AddNote =>
  }
}
