/** What an outcome call leaves, read off the draft and the log, and how every stored event goes back to a call. */
module OutcomeEffects {
  import opened Common
  import opened Text
  import opened ResponseOutcomes

  /** At most the one flag that the mode and state allow. */
  ghost predicate FlagsFit(mode: Mode, state: State, f: Flags) {
    && (f.external ==> mode == Real && state == Succeeded)
    && (f.tracking ==> mode == TrackingOnly && state == Succeeded)
    && (f.simulated ==> mode == Simulation)
  }

  /** Every check before the log is read holds. */
  ghost predicate Passes(c: Call) {
    && c.draft.hasTarget && c.summary != "" && c.draft.mode.Some? && c.draft.state.Some? && c.draft.validActor && c.draft.validReason
    && FlagsFit(c.draft.mode.value, c.draft.state.value, c.draft.flags)
    && c.draft.decision.Some? && !c.blankType && c.key != Some("")
  }

  ghost predicate KeyStored(events: seq<Event>, key: Option<string>) {
    key.Some? && exists i :: 0 <= i < |events| && events[i].key == key
  }

  /** The event holds what the call said: its own alert or else its decision's, its own time or else the clock's. */
  ghost predicate Records(c: Call, e: Event) {
    && c.draft.mode == Some(e.mode) && c.draft.state == Some(e.state) && e.flags == c.draft.flags
    && e.key == c.key && e.createdAt == c.now
    && (c.draft.alertId.Some? ==> e.alertId == c.draft.alertId)
    && (c.draft.alertId.None? && c.draft.decision.Some? ==> e.alertId == c.draft.decision.value.alertId)
    && e.occurredAt == if c.draft.occurredAt.Some? then c.draft.occurredAt.value else c.now
  }

  ghost predicate Negative(step: Option<int>) {
    step.Some? && step.value < 0
  }

  function AppendCall(events: seq<Event>, c: Call): (seq<Event>, Appended) {
    Append(events, c.draft, c.summary, c.blankType, c.key, c.now)
  }

  /** A call stores its event exactly when it passes, its key is new and its step is not negative; otherwise the log stays. */
  lemma AppendLeaves(events: seq<Event>, c: Call)
    ensures var (log, r) := AppendCall(events, c);
            && (r.Stored? <==> Passes(c) && !KeyStored(events, c.key) && !Negative(c.draft.stepIndex))
            && (r.Stored? ==> log == events + [r.event] && Records(c, r.event))
            && (!r.Stored? ==> log == events)
            && (r.Existing? <==> Passes(c) && KeyStored(events, c.key))
            && (r.Existing? ==> r.event in events && r.event.key == c.key)
  {
    if c.key.Some? {
      FindKeyFinds(events, c.key.value);
    }
  }

  /** The first check that fails names the refusal. */
  lemma RefusesInOrder(events: seq<Event>, c: Call)
    ensures var (r, d) := (AppendCall(events, c).1, c.draft);
            && (!d.hasTarget ==> r == Refused(NoTarget))
            && (r == Refused(NoSummary) <==> d.hasTarget && c.summary == "")
            && (r == Refused(BadMode) <==> d.hasTarget && c.summary != "" && d.mode.None?)
            && (r == Refused(BadState) <==> d.hasTarget && c.summary != "" && d.mode.Some? && d.state.None?)
            && (r == Refused(BadActor) <==> d.hasTarget && c.summary != "" && d.mode.Some? && d.state.Some? && !d.validActor)
            && (r == Refused(BadReason) <==>
                  d.hasTarget && c.summary != "" && d.mode.Some? && d.state.Some? && d.validActor && !d.validReason)
            && (r == Refused(BadFlags) <==>
                  && d.hasTarget && c.summary != "" && d.mode.Some? && d.state.Some? && d.validActor && d.validReason
                  && !FlagsFit(d.mode.value, d.state.value, d.flags))
            && (r == Refused(NegativeStep) <==> Passes(c) && !KeyStored(events, c.key) && Negative(d.stepIndex))
  {
    if c.key.Some? {
      FindKeyFinds(events, c.key.value);
    }
  }

  lemma LateRefusalsInOrder(events: seq<Event>, c: Call)
    requires var d := c.draft;
             && d.hasTarget && c.summary != "" && d.mode.Some? && d.state.Some? && d.validActor && d.validReason
             && FlagsFit(d.mode.value, d.state.value, d.flags)
    ensures var r := AppendCall(events, c).1;
            && (r == Refused(DecisionNotFound) <==> c.draft.decision.None?)
            && (r == Refused(NoEventType) <==> c.draft.decision.Some? && c.blankType)
            && (r == Refused(BlankKey) <==> c.draft.decision.Some? && !c.blankType && c.key == Some(""))
  {
  }

  /** What the store makes of a draft's texts: only white space blanks an event type or a key. */
  lemma TextsAreStripped(d: Draft)
    ensures BlankType(d) <==> d.eventType.Some? && d.eventType.value != "" && AllSpace(d.eventType.value)
    ensures StrippedKey(d).None? <==> d.key.None? || d.key == Some("")
    ensures StrippedKey(d).Some? ==> Trimmed(StrippedKey(d).value) && (StrippedKey(d).value == "" <==> AllSpace(d.key.value))
    ensures StrippedKey(d).Some? ==>
              exists before, after :: d.key.value == before + StrippedKey(d).value + after && AllSpace(before) && AllSpace(after)
  {
    hide IsSpace, Strip;
    if d.eventType.Some? {
      StripsToNothing(d.eventType.value);
    }
    if d.key.Some? {
      StripsToNothing(d.key.value);
      var before, after := StripCuts(d.key.value);
    }
  }

  // ---------- runs ----------

  lemma {:induction false} RunLast(events: seq<Event>, calls: seq<Call>, c: Call)
    ensures Run(events, calls + [c]) == AppendCall(Run(events, calls), c).0
    decreases |calls|
  {
    if calls == [] {
      assert [] + [c] == [c] && [c][1..] == [];
    } else {
      assert (calls + [c])[1..] == calls[1..] + [c];
      RunLast(AppendCall(events, calls[0]).0, calls[1..], c);
    }
  }

  ghost predicate CameFrom(calls: seq<Call>, e: Event) {
    exists c :: c in calls && Passes(c) && !Negative(c.draft.stepIndex) && Records(c, e)
  }

  /** Every event in the log is what some passing call said. */
  lemma {:induction false} EventsComeFromCalls(calls: seq<Call>)
    ensures forall i :: 0 <= i < |Run([], calls)| ==> CameFrom(calls, Run([], calls)[i])
    decreases |calls|
  {
    if calls != [] {
      var n := |calls| - 1;
      var c, older := calls[n], Run([], calls[..n]);
      EventsComeFromCalls(calls[..n]);
      RunLast([], calls[..n], c);
      assert calls == calls[..n] + [c];
      AppendLeaves(older, c);
      hide Passes, Records, Append;
      forall e | CameFrom(calls[..n], e)
        ensures CameFrom(calls, e)
      {
        var d :| d in calls[..n] && Passes(d) && !Negative(d.draft.stepIndex) && Records(d, e);
        assert d in calls;
      }
    }
  }

  /**
   Every passing call leaves its event in the log for good, or under a key an earlier call's event with that key; only
   a negative step under a new key is dropped.
   */
  lemma CallsLeaveEvents(calls: seq<Call>, k: nat)
    requires k < |calls| && Passes(calls[k])
    ensures var before, log := Run([], calls[..k]), Run([], calls);
            && (KeyStored(before, calls[k].key) ==> KeyStored(log, calls[k].key))
            && (!KeyStored(before, calls[k].key) && !Negative(calls[k].draft.stepIndex) ==>
                  |before| < |log| && Records(calls[k], log[|before|]))
  {
    var before, log := Run([], calls[..k]), Run([], calls);
    RunIsSound([], calls[..k]);
    AppendLeaves(before, calls[k]);
    RunLast([], calls[..k], calls[k]);
    assert calls[..k + 1] == calls[..k] + [calls[k]];
    var next := Run([], calls[..k + 1]);
    RunJoins([], calls[..k + 1], calls[k + 1..]);
    assert calls == calls[..k + 1] + calls[k + 1..];
    RunIsSound([], calls[..k + 1]);
    RunIsSound(next, calls[k + 1..]);
    assert before <= next <= log;
    if KeyStored(before, calls[k].key) {
      var i :| 0 <= i < |before| && before[i].key == calls[k].key;
      assert log[i].key == calls[k].key;
    }
  }

  lemma {:induction false} RunJoins(events: seq<Event>, first: seq<Call>, later: seq<Call>)
    ensures Run(events, first + later) == Run(Run(events, first), later)
    decreases |first|
  {
    if first == [] {
      assert first + later == later;
    } else {
      assert (first + later)[1..] == first[1..] + later;
      RunJoins(AppendCall(events, first[0]).0, first[1..], later);
    }
  }

  /** The label of a stored event: its state's, or for a finished or observed one its mode's; a real success that ran nothing is a failure. */
  lemma LabelsExactly(calls: seq<Call>, i: nat)
    requires i < |Run([], calls)|
    ensures var e := Run([], calls)[i];
            var shown, over := LabelOf(e), e.state == Succeeded || e.state == ObservedState;
            && (shown == AwaitingApprovalLabel <==> e.state == AwaitingApproval)
            && (shown == BlockedLabel <==> e.state == Blocked)
            && (shown == SkippedLabel <==> e.state == Skipped)
            && (shown == FailedLabel <==> e.state == Failed || (over && e.mode == Real && !e.flags.external))
            && (shown == RunningLabel <==> e.state == Running)
            && (shown == QueuedLabel <==> e.state == Queued)
            && (shown == SelectedLabel <==> e.state == Selected || (e.state == Succeeded && (e.mode == Internal || e.mode == ReadOnly)))
            && (shown == ObservedOnly <==> over && (e.mode == ObservedMode || (e.state == ObservedState && (e.mode == Internal || e.mode == ReadOnly))))
            && (shown == Simulated <==> over && e.mode == Simulation)
            && (shown == TrackingOnlyLabel <==> over && e.mode == TrackingOnly)
            && (shown == RealExecuted <==> e.mode == Real && e.flags.external)
  {
    RunIsSound([], calls);
  }

  // ---------- latest reads ----------

  /** Event b of an alert comes after event a: it occurred later, or was stored later, or has the higher id. */
  ghost predicate After(a: Event, aId: int, b: Event, bId: int) {
    || b.occurredAt > a.occurredAt
    || (b.occurredAt == a.occurredAt && b.createdAt > a.createdAt)
    || (b.occurredAt == a.occurredAt && b.createdAt == a.createdAt && bId > aId)
  }

  /** The single read answers the alert's event after all its others, and nothing exactly when it has none. */
  lemma LatestExactly(events: seq<Event>, alertId: int)
    ensures var e := LatestEvent(events, alertId);
            && (e.None? <==> forall i :: 0 <= i < |events| ==> events[i].alertId != Some(alertId))
            && (e.Some? ==>
                  exists id :: 0 <= id < |events| && events[id] == e.value && e.value.alertId == Some(alertId)
                               && forall i :: 0 <= i < |events| && i != id && events[i].alertId == Some(alertId) ==> After(events[i], i, events[id], id))
  {
    var latest := Latest(events, alertId);
    if latest.None? {
      forall i | 0 <= i < |events|
        ensures events[i].alertId != Some(alertId)
      {
        assert !About(events, alertId, i);
      }
    } else {
      var id := latest.value;
      assert About(events, alertId, id);
      forall i | 0 <= i < |events| && i != id && events[i].alertId == Some(alertId)
        ensures After(events[i], i, events[id], id)
      {
        assert About(events, alertId, i);
      }
    }
  }

  /** Some listing puts the wanted rows in the query's order. */
  lemma {:induction false} ListingExists(events: seq<Event>, ids: set<nat>) returns (sorted: seq<nat>)
    requires forall id :: id in ids ==> id < |events| && events[id].alertId.Some?
    ensures forall id :: id in sorted <==> id in ids
    ensures InLog(events, sorted)
    ensures forall i, j :: 0 <= i < j < |sorted| ==> sorted[i] in ids && sorted[j] in ids && SortsBefore(events, sorted[i], sorted[j])
    decreases ids
  {
    if exists id :: id in ids {
      var first := FirstRow(events, ids);
      var rest := ListingExists(events, ids - {first});
      sorted := [first] + rest;
      forall i, j | 0 <= i < j < |sorted|
        ensures sorted[i] in ids && sorted[j] in ids && SortsBefore(events, sorted[i], sorted[j])
      {
        assert sorted[j] in rest;
        assert i > 0 ==> sorted[i] in rest;
      }
    } else {
      sorted := [];
    }
  }

  lemma {:induction false} FirstRow(events: seq<Event>, ids: set<nat>) returns (first: nat)
    requires forall id :: id in ids ==> id < |events| && events[id].alertId.Some?
    requires exists id :: id in ids
    ensures first in ids && forall id :: id in ids && id != first ==> SortsBefore(events, first, id)
    decreases ids
  {
    var pick :| pick in ids;
    var rest := ids - {pick};
    assert forall id :: id in ids ==> id == pick || id in rest;
    first := pick;
    if exists id :: id in rest {
      var best := FirstRow(events, rest);
      first := if SortsBefore(events, pick, best) then pick else best;
    }
  }

  lemma {:induction false} StartsExist(events: seq<Event>, sorted: seq<nat>, n: nat) returns (rows: seq<nat>)
    requires InLog(events, sorted) && n <= |sorted|
    ensures forall k :: 0 <= k < |rows| ==> Starts(events, sorted, rows[k])
    ensures forall i :: 0 <= i < n && StartsGroup(events, sorted, i) ==> sorted[i] in rows
  {
    rows := [];
    if n > 0 {
      rows := StartsExist(events, sorted, n - 1);
      if StartsGroup(events, sorted, n - 1) {
        assert Starts(events, sorted, sorted[n - 1]);
        rows := rows + [sorted[n - 1]];
      }
    }
  }

  /** The bulk query always has an answer. */
  lemma BulkResultExists(events: seq<Event>, alertIds: seq<int>)
    ensures exists rows :: IsBulkResult(events, alertIds, rows)
  {
    var ids := set id: nat | id < |events| && Wanted(events, alertIds, id);
    var sorted := ListingExists(events, ids);
    assert IsSorted(events, alertIds, sorted) by {
      forall i | 0 <= i < |sorted|
        ensures Wanted(events, alertIds, sorted[i])
      {
        assert sorted[i] in ids;
      }
    }
    var rows := StartsExist(events, sorted, |sorted|);
    assert IsDistinctOn(events, sorted, rows);
    assert IsBulkResult(events, alertIds, rows);
  }
}
