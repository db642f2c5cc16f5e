/** Canonical response outcomes: validation, the append-only event log, labels, and latest-outcome reads one at a time and in bulk. */
module ResponseOutcomes {
  import opened Common
  import opened Text

  datatype Mode = ObservedMode | Simulation | TrackingOnly | Real | Internal | ReadOnly

  datatype State = ObservedState | Selected | Queued | AwaitingApproval | Running | Skipped | Blocked | Succeeded | Failed

  datatype Label =
    | AwaitingApprovalLabel | BlockedLabel | SkippedLabel | FailedLabel | RunningLabel | QueuedLabel | SelectedLabel
    | ObservedOnly | Simulated | TrackingOnlyLabel | RealExecuted

  /** The booleans an event records. */
  datatype Flags = Flags(external: bool, tracking: bool, simulated: bool)

  datatype Event = Event(alertId: Option<int>, mode: Mode, state: State, flags: Flags, key: Option<string>, occurredAt: int, createdAt: int)

  datatype Refusal =
    | NoTarget | NoSummary | BadMode | BadState | BadActor | BadReason | BadFlags | DecisionNotFound | NoEventType | BlankKey | NegativeStep

  datatype Appended = Stored(event: Event) | Existing(event: Event) | Refused(why: Refusal)

  datatype Decision = Decision(alertId: Option<int>)

  /**
   A caller's outcome. Vocabulary texts that are not in their list are None or false; `decision` is the row the id or
   correlation id led to, if any.
   */
  datatype Draft = Draft(
    hasTarget: bool,
    summary: string,
    mode: Option<Mode>,
    state: Option<State>,
    validActor: bool,
    validReason: bool,
    flags: Flags,
    decision: Option<Decision>,
    eventType: Option<string>,
    key: Option<string>,
    stepIndex: Option<int>,
    alertId: Option<int>,
    occurredAt: Option<int>)

  /** validate_outcome_booleans: its per-mode rules amount to one rule per flag. */
  predicate ValidFlags(mode: Mode, state: State, f: Flags): (valid: bool)
    ensures valid <==>
      && (f.simulated ==> mode == Simulation)
      && (f.external ==> mode == Real && state == Succeeded)
      && (f.tracking ==> mode == TrackingOnly && state == Succeeded)
  {
    if mode == ObservedMode then !(f.external || f.tracking || f.simulated)
    else
      && !(f.simulated && mode != Simulation)
      && !(f.external && (mode != Real || state != Succeeded))
      && !(f.tracking && (mode != TrackingOnly || state != Succeeded))
      && !(mode == Simulation && (f.external || f.tracking))
      && !(mode == Real && (f.simulated || f.tracking))
      && !(mode == TrackingOnly && (f.simulated || f.external))
      && !(mode == Internal && (f.simulated || f.external || f.tracking))
      && !(mode == ReadOnly && (f.simulated || f.external || f.tracking))
  }

  function DeriveLabel(mode: Mode, state: State, f: Flags): Label {
    match state
    case AwaitingApproval => AwaitingApprovalLabel
    case Blocked => BlockedLabel
    case Skipped => SkippedLabel
    case Failed => FailedLabel
    case Running => RunningLabel
    case Queued => QueuedLabel
    case Selected => SelectedLabel
    case _ =>
      if mode == ObservedMode then ObservedOnly
      else if mode == Simulation || f.simulated then Simulated
      else if mode == TrackingOnly || f.tracking then TrackingOnlyLabel
      else if mode == Real && f.external then RealExecuted
      else if mode == Real then FailedLabel
      else if state == Succeeded then SelectedLabel
      else ObservedOnly
  }

  function LabelOf(e: Event): Label {
    DeriveLabel(e.mode, e.state, e.flags)
  }

  // ---------- the log ----------

  function FindKey(events: seq<Event>, key: string): Option<Event> {
    if events == [] then None
    else if events[0].key == Some(key) then Some(events[0])
    else FindKey(events[1..], key)
  }

  /** An absent or empty event type defaults to the state's name; only white space is refused. */
  predicate BlankType(d: Draft) {
    d.eventType.Some? && d.eventType.value != "" && Strip(d.eventType.value) == ""
  }

  /** An empty key is no key. */
  function StrippedKey(d: Draft): Option<string> {
    if d.key.Some? && d.key.value != "" then Some(Strip(d.key.value)) else None
  }

  /** The checks before the log is read, in order. `key` and the summary are as the store has stripped them. */
  function Check(d: Draft, summary: string, blankType: bool, key: Option<string>): Option<Refusal> {
    if !d.hasTarget then Some(NoTarget)
    else if summary == "" then Some(NoSummary)
    else if d.mode.None? then Some(BadMode)
    else if d.state.None? then Some(BadState)
    else if !d.validActor then Some(BadActor)
    else if !d.validReason then Some(BadReason)
    else if !ValidFlags(d.mode.value, d.state.value, d.flags) then Some(BadFlags)
    else if d.decision.None? then Some(DecisionNotFound)
    else if blankType then Some(NoEventType)
    else if key == Some("") then Some(BlankKey)
    else None
  }

  function NewEvent(d: Draft, key: Option<string>, now: int): Event
    requires d.mode.Some? && d.state.Some? && d.decision.Some?
  {
    Event(Coalesce(d.alertId, d.decision.value.alertId), d.mode.value, d.state.value, d.flags, key,
          if d.occurredAt.Some? then d.occurredAt.value else now, now)
  }

  function Append(events: seq<Event>, d: Draft, summary: string, blankType: bool, key: Option<string>, now: int): (seq<Event>, Appended) {
    var refusal := Check(d, summary, blankType, key);
    if refusal.Some? then (events, Refused(refusal.value))
    else if key.Some? && FindKey(events, key.value).Some? then (events, Existing(FindKey(events, key.value).value))
    else if d.stepIndex.Some? && d.stepIndex.value < 0 then (events, Refused(NegativeStep))
    else (events + [NewEvent(d, key, now)], Stored(NewEvent(d, key, now)))
  }

  // ---------- latest outcome ----------

  /** ORDER BY occurred_at, created_at, id, ascending; an event's id is its place in the log. */
  predicate Earlier(events: seq<Event>, a: nat, b: nat)
    requires a < |events| && b < |events|
  {
    || events[a].occurredAt < events[b].occurredAt
    || (events[a].occurredAt == events[b].occurredAt && Before((events[a].createdAt, a), (events[b].createdAt, b)))
  }

  predicate About(events: seq<Event>, alertId: int, id: nat) {
    id < |events| && events[id].alertId == Some(alertId)
  }

  ghost predicate IsLatest(events: seq<Event>, alertId: int, id: nat) {
    About(events, alertId, id) && forall other: nat :: About(events, alertId, other) && other != id ==> Earlier(events, other, id)
  }

  /** The single read: ORDER BY ... DESC LIMIT 1. */
  function Latest(events: seq<Event>, alertId: int): (latest: Option<nat>)
    ensures latest.None? ==> forall id: nat :: !About(events, alertId, id)
    ensures latest.Some? ==> IsLatest(events, alertId, latest.value)
  {
    if events == [] then None
    else
      var n := |events| - 1;
      var older := events[..n];
      var best := Latest(older, alertId);
      assert forall id: nat :: id < n ==> (About(events, alertId, id) <==> About(older, alertId, id));
      assert forall a: nat, b: nat :: a < n && b < n ==> (Earlier(events, a, b) <==> Earlier(older, a, b));
      if events[n].alertId != Some(alertId) then best
      else if best.None? || Earlier(events, best.value, n) then Some(n)
      else best
  }

  function LatestEvent(events: seq<Event>, alertId: int): Option<Event> {
    var id := Latest(events, alertId);
    if id.Some? then Some(events[id.value]) else None
  }

  // ---------- the bulk read ----------

  /** The sort key order of the bulk query: alert_id, occurred_at DESC, created_at DESC, id DESC. */
  predicate SortsBefore(events: seq<Event>, a: nat, b: nat)
    requires a < |events| && b < |events| && events[a].alertId.Some? && events[b].alertId.Some?
  {
    events[a].alertId.value < events[b].alertId.value || (events[a].alertId == events[b].alertId && Earlier(events, b, a))
  }

  predicate Wanted(events: seq<Event>, alertIds: seq<int>, id: nat) {
    id < |events| && events[id].alertId.Some? && events[id].alertId.value in alertIds
  }

  /** The rows the WHERE clause keeps, sorted. */
  ghost predicate IsSorted(events: seq<Event>, alertIds: seq<int>, rows: seq<nat>) {
    && (forall i :: 0 <= i < |rows| ==> Wanted(events, alertIds, rows[i]))
    && (forall id: nat :: Wanted(events, alertIds, id) ==> id in rows)
    && (forall i, j :: 0 <= i < j < |rows| ==> SortsBefore(events, rows[i], rows[j]))
  }

  /** A row whose predecessor belongs to another alert. */
  ghost predicate StartsGroup(events: seq<Event>, sorted: seq<nat>, i: nat)
    requires i < |sorted| && InLog(events, sorted)
  {
    i == 0 || events[sorted[i - 1]].alertId != events[sorted[i]].alertId
  }

  ghost predicate Starts(events: seq<Event>, sorted: seq<nat>, row: nat)
    requires InLog(events, sorted)
  {
    exists i :: 0 <= i < |sorted| && sorted[i] == row && StartsGroup(events, sorted, i)
  }

  predicate InLog(events: seq<Event>, rows: seq<nat>) {
    forall i :: 0 <= i < |rows| ==> rows[i] < |events|
  }

  /** DISTINCT ON (alert_id): the first row of each group of the sorted rows. */
  ghost predicate IsDistinctOn(events: seq<Event>, sorted: seq<nat>, rows: seq<nat>)
    requires InLog(events, sorted)
  {
    && (forall k :: 0 <= k < |rows| ==> Starts(events, sorted, rows[k]))
    && (forall i :: 0 <= i < |sorted| && StartsGroup(events, sorted, i) ==> sorted[i] in rows)
  }

  ghost predicate IsBulkResult(events: seq<Event>, alertIds: seq<int>, rows: seq<nat>) {
    exists sorted :: IsSorted(events, alertIds, sorted) && IsDistinctOn(events, sorted, rows)
  }

  /** The dictionary the rows fill. */
  function Filled(events: seq<Event>, rows: seq<nat>): map<int, Event>
    requires InLog(events, rows)
  {
    if rows == [] then map[]
    else
      var event, older := events[rows[|rows| - 1]], Filled(events, rows[..|rows| - 1]);
      if event.alertId.Some? then older[event.alertId.value := event] else older
  }

  class OutcomeStore {
    var events: seq<Event>

    constructor ()
      ensures events == []
    {
      events := [];
    }

    method AppendOutcomeEvent(d: Draft, now: int) returns (r: Appended)
      modifies this
      ensures (events, r) == Append(old(events), d, Strip(d.summary), BlankType(d), StrippedKey(d), now)
    {
      r := AppendStripped(d, Strip(d.summary), BlankType(d), StrippedKey(d), now);
    }

    method AppendStripped(d: Draft, summary: string, blankType: bool, key: Option<string>, now: int) returns (r: Appended)
      modifies this
      ensures (events, r) == Append(old(events), d, summary, blankType, key, now)
    {
      if !d.hasTarget { return Refused(NoTarget); }
      if summary == "" { return Refused(NoSummary); }
      if d.mode.None? { return Refused(BadMode); }
      if d.state.None? { return Refused(BadState); }
      if !d.validActor { return Refused(BadActor); }
      if !d.validReason { return Refused(BadReason); }
      if !ValidFlags(d.mode.value, d.state.value, d.flags) { return Refused(BadFlags); }
      if d.decision.None? { return Refused(DecisionNotFound); }
      if blankType { return Refused(NoEventType); }
      if key.Some? {
        if key.value == "" { return Refused(BlankKey); }
        var existing := FindKey(events, key.value);
        if existing.Some? { return Existing(existing.value); }
      }
      if d.stepIndex.Some? && d.stepIndex.value < 0 { return Refused(NegativeStep); }
      var event := NewEvent(d, key, now);
      events := events + [event];
      return Stored(event);
    }

    /** `rows` is what the DISTINCT ON query returned. */
    method GetLatestOutcomesForAlertsBulk(alertIds: seq<int>, rows: seq<nat>) returns (result: map<int, Event>)
      requires IsBulkResult(events, alertIds, rows)
      ensures forall alertId :: alertId in result <==> alertId in alertIds && LatestEvent(events, alertId).Some?
      ensures forall alertId :: alertId in result ==> Some(result[alertId]) == LatestEvent(events, alertId)
    {
      BulkRowsInLog(events, alertIds, rows);
      forall alertId
        ensures alertId in Filled(events, rows) <==> alertId in alertIds && LatestEvent(events, alertId).Some?
        ensures alertId in Filled(events, rows) ==> Some(Filled(events, rows)[alertId]) == LatestEvent(events, alertId)
      {
        BulkRefinesSingle(events, alertIds, rows, alertId);
      }
      result := FillRows(rows);
    }

    method FillRows(rows: seq<nat>) returns (result: map<int, Event>)
      requires InLog(events, rows)
      ensures result == Filled(events, rows)
    {
      result := map[];
      for i := 0 to |rows|
        invariant InLog(events, rows[..i]) && result == Filled(events, rows[..i])
      {
        assert rows[..i + 1][..i] == rows[..i];
        var event := events[rows[i]];
        if event.alertId.Some? {
          result := result[event.alertId.value := event];
        }
      }
      assert rows[..|rows|] == rows;
    }
  }

  // ---------- the bulk read agrees with the single read ----------

  lemma BulkRowsInLog(events: seq<Event>, alertIds: seq<int>, rows: seq<nat>)
    requires IsBulkResult(events, alertIds, rows)
    ensures InLog(events, rows)
  {
    var sorted :| IsSorted(events, alertIds, sorted) && IsDistinctOn(events, sorted, rows);
    forall k | 0 <= k < |rows|
      ensures rows[k] < |events|
    {
      var i :| 0 <= i < |sorted| && sorted[i] == rows[k] && StartsGroup(events, sorted, i);
      assert Wanted(events, alertIds, sorted[i]);
    }
  }

  lemma NotAboveStart(events: seq<Event>, alertIds: seq<int>, sorted: seq<nat>, i: nat)
    requires IsSorted(events, alertIds, sorted) && i < |sorted| && StartsGroup(events, sorted, i)
    ensures forall j :: 0 <= j < i ==> events[sorted[j]].alertId != events[sorted[i]].alertId
  {
    forall j | 0 <= j < i
      ensures events[sorted[j]].alertId != events[sorted[i]].alertId
    {
      assert SortsBefore(events, sorted[i - 1], sorted[i]);
      assert j < i - 1 ==> SortsBefore(events, sorted[j], sorted[i - 1]);
    }
  }

  /** The row that starts a group is its alert's latest event. */
  lemma StartIsLatest(events: seq<Event>, alertIds: seq<int>, sorted: seq<nat>, i: nat)
    requires IsSorted(events, alertIds, sorted) && i < |sorted| && StartsGroup(events, sorted, i)
    ensures IsLatest(events, events[sorted[i]].alertId.value, sorted[i])
  {
    var alertId := events[sorted[i]].alertId.value;
    forall other: nat | About(events, alertId, other) && other != sorted[i]
      ensures Earlier(events, other, sorted[i])
    {
      assert Wanted(events, alertIds, other);
      var j :| 0 <= j < |sorted| && sorted[j] == other;
      NotAboveStart(events, alertIds, sorted, i);
      assert SortsBefore(events, sorted[i], sorted[j]);
    }
  }

  /** Every alert's group has a start. */
  lemma {:induction false} GroupHasStart(events: seq<Event>, sorted: seq<nat>, i: nat)
    requires InLog(events, sorted) && i < |sorted|
    ensures exists k :: 0 <= k < |sorted| && StartsGroup(events, sorted, k) && events[sorted[k]].alertId == events[sorted[i]].alertId
    decreases i
  {
    if !StartsGroup(events, sorted, i) {
      GroupHasStart(events, sorted, i - 1);
    }
  }

  /** What the bulk rows hold about one alert. */
  lemma BulkRowOf(events: seq<Event>, alertIds: seq<int>, rows: seq<nat>, alertId: int)
    requires IsBulkResult(events, alertIds, rows) && InLog(events, rows)
    ensures forall k :: 0 <= k < |rows| && events[rows[k]].alertId == Some(alertId) ==> alertId in alertIds && IsLatest(events, alertId, rows[k])
    ensures alertId in alertIds && Latest(events, alertId).Some? ==> exists k :: 0 <= k < |rows| && events[rows[k]].alertId == Some(alertId)
  {
    var sorted :| IsSorted(events, alertIds, sorted) && IsDistinctOn(events, sorted, rows);
    forall k | 0 <= k < |rows| && events[rows[k]].alertId == Some(alertId)
      ensures alertId in alertIds && IsLatest(events, alertId, rows[k])
    {
      var i :| 0 <= i < |sorted| && sorted[i] == rows[k] && StartsGroup(events, sorted, i);
      assert Wanted(events, alertIds, sorted[i]);
      StartIsLatest(events, alertIds, sorted, i);
    }
    if alertId in alertIds && Latest(events, alertId).Some? {
      var id := Latest(events, alertId).value;
      assert Wanted(events, alertIds, id);
      var i :| 0 <= i < |sorted| && sorted[i] == id;
      GroupHasStart(events, sorted, i);
      var k :| 0 <= k < |sorted| && StartsGroup(events, sorted, k) && events[sorted[k]].alertId == events[sorted[i]].alertId;
      var r :| 0 <= r < |rows| && rows[r] == sorted[k];
      assert events[rows[r]].alertId == Some(alertId);
    }
  }

  lemma {:induction false} FilledAt(events: seq<Event>, rows: seq<nat>, alertId: int)
    requires InLog(events, rows)
    ensures alertId in Filled(events, rows) <==> exists k :: 0 <= k < |rows| && events[rows[k]].alertId == Some(alertId)
    ensures alertId in Filled(events, rows) ==>
              exists k :: 0 <= k < |rows| && events[rows[k]].alertId == Some(alertId) && Filled(events, rows)[alertId] == events[rows[k]]
    decreases |rows|
  {
    if rows != [] {
      var n := |rows| - 1;
      FilledAt(events, rows[..n], alertId);
      if events[rows[n]].alertId == Some(alertId) {
        assert Filled(events, rows)[alertId] == events[rows[n]];
      } else if alertId in Filled(events, rows[..n]) {
        var k :| 0 <= k < n && events[rows[..n][k]].alertId == Some(alertId) && Filled(events, rows[..n])[alertId] == events[rows[..n][k]];
        assert events[rows[k]].alertId == Some(alertId) && Filled(events, rows)[alertId] == events[rows[k]];
      }
    }
  }

  /** For any log and ids, the dictionary holds exactly the ids that have events, each with what the single read returns. */
  lemma BulkRefinesSingle(events: seq<Event>, alertIds: seq<int>, rows: seq<nat>, alertId: int)
    requires IsBulkResult(events, alertIds, rows) && InLog(events, rows)
    ensures alertId in Filled(events, rows) <==> alertId in alertIds && LatestEvent(events, alertId).Some?
    ensures alertId in Filled(events, rows) ==> Some(Filled(events, rows)[alertId]) == LatestEvent(events, alertId)
  {
    BulkRowOf(events, alertIds, rows, alertId);
    FilledAt(events, rows, alertId);
    if alertId in Filled(events, rows) {
      var k :| 0 <= k < |rows| && events[rows[k]].alertId == Some(alertId) && Filled(events, rows)[alertId] == events[rows[k]];
      LatestIsUnique(events, alertId, rows[k]);
    }
  }

  lemma LatestIsUnique(events: seq<Event>, alertId: int, id: nat)
    requires IsLatest(events, alertId, id)
    ensures Latest(events, alertId) == Some(id)
  {
    assert About(events, alertId, id);
  }

  // ---------- whole runs ----------

  /** A stripped call at its time. */
  datatype Call = Call(draft: Draft, summary: string, blankType: bool, key: Option<string>, now: int)

  function Run(events: seq<Event>, calls: seq<Call>): seq<Event>
    decreases |calls|
  {
    if calls == [] then events
    else Run(Append(events, calls[0].draft, calls[0].summary, calls[0].blankType, calls[0].key, calls[0].now).0, calls[1..])
  }

  ghost predicate Sound(events: seq<Event>) {
    && (forall i :: 0 <= i < |events| ==> ValidFlags(events[i].mode, events[i].state, events[i].flags))
    && (forall i, j :: 0 <= i < j < |events| && events[i].key.Some? ==> events[i].key != events[j].key)
  }

  lemma {:induction false} FindKeyFinds(events: seq<Event>, key: string)
    ensures FindKey(events, key).None? <==> forall i :: 0 <= i < |events| ==> events[i].key != Some(key)
    ensures FindKey(events, key).Some? ==> FindKey(events, key).value in events && FindKey(events, key).value.key == Some(key)
    decreases |events|
  {
    if events != [] && events[0].key != Some(key) {
      FindKeyFinds(events[1..], key);
      assert forall i :: 0 < i < |events| ==> events[1..][i - 1] == events[i];
    }
  }

  lemma {:induction false} RunIsSound(events: seq<Event>, calls: seq<Call>)
    requires Sound(events)
    ensures Sound(Run(events, calls)) && events <= Run(events, calls)
    decreases |calls|
  {
    if calls != [] {
      var c := calls[0];
      if c.key.Some? {
        FindKeyFinds(events, c.key.value);
      }
      RunIsSound(Append(events, c.draft, c.summary, c.blankType, c.key, c.now).0, calls[1..]);
    }
  }

  /** Nothing in the log claims real execution unless something outside ran, and at most one flag is ever set. */
  lemma RealExecutionIsNeverClaimedFalsely(calls: seq<Call>, i: nat)
    requires i < |Run([], calls)|
    ensures var e := Run([], calls)[i];
            && (LabelOf(e) == RealExecuted <==> e.flags.external)
            && (e.flags.tracking ==> LabelOf(e) == TrackingOnlyLabel)
            && (e.flags.simulated && (e.state == Succeeded || e.state == ObservedState) ==> LabelOf(e) == Simulated)
            && !(e.flags.external && e.flags.tracking) && !(e.flags.external && e.flags.simulated) && !(e.flags.tracking && e.flags.simulated)
  {
    RunIsSound([], calls);
  }

  /** A keyed outcome, once stored, answers every later call under its key, whatever that call says and whatever ran between. */
  lemma RepeatedKeyChangesNothing(events: seq<Event>, call: Call, later: seq<Call>, again: Call)
    requires Sound(events) && call.key.Some? && again.key == call.key
    requires Append(events, call.draft, call.summary, call.blankType, call.key, call.now).1.Stored?
    requires Check(again.draft, again.summary, again.blankType, again.key).None?
    ensures var (log, stored) := Append(events, call.draft, call.summary, call.blankType, call.key, call.now);
            var now := Run(log, later);
            Append(now, again.draft, again.summary, again.blankType, again.key, again.now) == (now, Existing(stored.event))
  {
    var log := Append(events, call.draft, call.summary, call.blankType, call.key, call.now).0;
    var event := log[|events|];
    FindKeyFinds(events, call.key.value);
    RunIsSound(log, later);
    var now := Run(log, later);
    assert now[|events|] == event;
    FindKeyFinds(now, call.key.value);
    var found := FindKey(now, call.key.value).value;
    var i :| 0 <= i < |now| && now[i] == found;
    assert i == |events|;
  }

  /** An outcome appended when the clock has not gone back becomes its alert's latest exactly when it did not occur earlier. */
  lemma NewOutcomeShowsExactlyWhen(events: seq<Event>, e: Event, alertId: int)
    requires e.alertId == Some(alertId) && Latest(events, alertId).Some?
    requires forall i :: 0 <= i < |events| ==> events[i].createdAt <= e.createdAt
    ensures LatestEvent(events + [e], alertId) ==
            if events[Latest(events, alertId).value].occurredAt <= e.occurredAt then Some(e) else LatestEvent(events, alertId)
  {
    assert (events + [e])[..|events|] == events;
  }
}
