/** Idempotency keys of queued actions: the text that is hashed determines its three fields, so one row exists per action. */
module IdempotencyKeys {
  import opened Common
  import opened Text
  import V = ActionVocabulary
  import R = ResponseQueue
  import Q = QueueProtocol

  function ShowAlert(alertId: Option<int>): string {
    if alertId.None? then "None" else ShowInt(alertId.value)
  }

  /** f"{alert_id}:{source_ip}:{action}"; an absent address is rendered as Python renders None. */
  function PreImage(alertId: Option<int>, sourceIp: string, action: string): string {
    ShowAlert(alertId) + ":" + sourceIp + ":" + action
  }

  function FirstColon(s: string): (i: nat)
    ensures i <= |s| && (i < |s| ==> s[i] == ':') && forall k :: 0 <= k < i ==> s[k] != ':'
  {
    if s == "" || s[0] == ':' then 0 else 1 + FirstColon(s[1..])
  }

  function LastColon(s: string): (i: nat)
    ensures i <= |s| && (i < |s| ==> s[i] == ':') && forall k :: 0 <= k < |s| && (i == |s| || i < k) ==> s[k] != ':'
  {
    if s == "" then 0
    else
      var n := |s| - 1;
      if s[n] == ':' then n
      else
        var i := LastColon(s[..n]);
        if i == n then |s| else i
  }

  /** The id ends at the first colon, the action starts after the last. */
  function Fields(s: string): Option<(string, string, string)> {
    var first, last := FirstColon(s), LastColon(s);
    if first < last < |s| then Some((s[..first], s[first + 1..last], s[last + 1..])) else None
  }

  function ReadAlert(s: string): Option<Option<int>> {
    if s == "None" then Some(None) else if ReadInt(s).Some? then Some(ReadInt(s)) else None
  }

  function Decode(s: string): Option<(Option<int>, string, string)> {
    match Fields(s)
    case None => None
    case Some((alert, ip, action)) => if ReadAlert(alert).Some? then Some((ReadAlert(alert).value, ip, action)) else None
  }

  lemma ShownAlertHasNoColon(alertId: Option<int>)
    ensures ':' !in ShowAlert(alertId)
    ensures ReadAlert(ShowAlert(alertId)) == Some(alertId)
  {
    if alertId.Some? {
      var n := alertId.value;
      ReadShowInt(n);
      var digits := ShowNat(if n < 0 then -n else n);
      assert IsDigit(digits[0]);
      assert ShowInt(n) == (if n < 0 then "-" + digits else digits);
    }
  }

  /** The address may hold any number of colons. */
  lemma FieldsOf(alert: string, sourceIp: string, action: string)
    requires ':' !in alert && ':' !in action
    ensures Fields(alert + ":" + sourceIp + ":" + action) == Some((alert, sourceIp, action))
  {
    var s := alert + ":" + sourceIp + ":" + action;
    var first, last := |alert|, |alert| + 1 + |sourceIp|;
    assert s[first] == ':' && s[last] == ':';
    assert forall k :: 0 <= k < first ==> s[k] == alert[k];
    assert forall k :: last < k < |s| ==> s[k] == action[k - last - 1];
    assert FirstColon(s) == first && LastColon(s) == last;
    assert s[..first] == alert && s[first + 1..last] == sourceIp && s[last + 1..] == action;
  }

  lemma DecodePreImage(alertId: Option<int>, sourceIp: string, action: string)
    requires ':' !in action
    ensures Decode(PreImage(alertId, sourceIp, action)) == Some((alertId, sourceIp, action))
  {
    ShownAlertHasNoColon(alertId);
    FieldsOf(ShowAlert(alertId), sourceIp, action);
  }

  /** The hash is assumed collision-free. */
  ghost predicate Injective(hash: string -> string) {
    forall x, y :: hash(x) == hash(y) ==> x == y
  }

  function Key(hash: string -> string, alertId: Option<int>, sourceIp: string, action: string): string {
    hash(PreImage(alertId, sourceIp, action))
  }

  lemma NoColon(action: string)
    requires V.IsQueueAction(action)
    ensures ':' !in action
  {
  }

  lemma KeyIdentifies(hash: string -> string, a: Option<int>, ip: string, action: string, b: Option<int>, ip': string, action': string)
    requires Injective(hash) && V.IsQueueAction(action) && V.IsQueueAction(action')
    ensures Key(hash, a, ip, action) == Key(hash, b, ip', action') <==> a == b && ip == ip' && action == action'
  {
    NoColon(action);
    NoColon(action');
    DecodePreImage(a, ip, action);
    DecodePreImage(b, ip', action');
  }

  /** enqueue_response_action. */
  method EnqueueResponseAction(store: R.Store, hash: string -> string, alertId: Option<int>, sourceIp: string, name: string, maxRetries: int, now: int)
    returns (r: Result<Option<int>>)
    modifies store
    ensures match V.QueueAction(Strip(name))
            case Err(code) => r == Err(code) && store.rows == old(store.rows)
            case Ok(action) =>
              var key := Key(hash, alertId, sourceIp, action);
              if R.KeyTaken(old(store.rows), key) then r == Ok(None) && store.rows == old(store.rows)
              else
                && r == Ok(Some(old(store.nextId)))
                && store.rows == old(store.rows)[old(store.nextId) := R.NewRow(alertId, sourceIp, action, key, maxRetries, now)]
  {
    var action := V.QueueAction(Strip(name));
    if action.Err? { return Err(action.message); }
    var id := store.InsertAction(alertId, sourceIp, action.value, hash(PreImage(alertId, sourceIp, action.value)), maxRetries, now);
    return Ok(id);
  }

  // ---------- whole runs of the queue ----------

  /** Rows enter the queue only through enqueue_response_action. */
  ghost predicate Proper(steps: seq<Q.Step>, hash: string -> string) {
    forall i :: 0 <= i < |steps| && steps[i].Enqueue? ==>
      V.IsQueueAction(steps[i].action) && steps[i].key == Key(hash, steps[i].alertId, steps[i].sourceIp, steps[i].action)
  }

  ghost predicate Is(row: R.Row, alertId: Option<int>, sourceIp: string, action: string) {
    row.alertId == alertId && row.sourceIp == sourceIp && row.action == action
  }

  ghost predicate HasRow(rows: R.Rows, alertId: Option<int>, sourceIp: string, action: string) {
    exists id :: id in rows && Is(rows[id], alertId, sourceIp, action)
  }

  ghost predicate Keyed(rows: R.Rows, hash: string -> string) {
    && (forall id :: id in rows ==> V.IsQueueAction(rows[id].action) && rows[id].idempotencyKey == Key(hash, rows[id].alertId, rows[id].sourceIp, rows[id].action))
    && (forall i, j :: i in rows && j in rows && rows[i].idempotencyKey == rows[j].idempotencyKey ==> i == j)
  }

  /** No step changes what a row is about, and only an enqueue adds one. */
  lemma StepFrame(s: Q.State, step: Q.Step)
    requires Q.Invariant(s)
    ensures forall id :: id in s.rows ==>
      && id in Q.Apply(s, step).rows
      && Is(Q.Apply(s, step).rows[id], s.rows[id].alertId, s.rows[id].sourceIp, s.rows[id].action)
      && Q.Apply(s, step).rows[id].idempotencyKey == s.rows[id].idempotencyKey
    ensures forall id :: id in Q.Apply(s, step).rows && id !in s.rows ==>
      && step.Enqueue? && id == s.nextId && !R.KeyTaken(s.rows, step.key)
      && Q.Apply(s, step).rows[id] == R.NewRow(step.alertId, step.sourceIp, step.action, step.key, step.maxRetries, s.now)
  {
    var after := Q.Apply(s, step).rows;
    forall id | id in s.rows
      ensures id in after && Is(after[id], s.rows[id].alertId, s.rows[id].sourceIp, s.rows[id].action) && after[id].idempotencyKey == s.rows[id].idempotencyKey
    {
      Q.StepMovesRow(s, step, id);
    }
    forall id | id in after && id !in s.rows
      ensures step.Enqueue?
    {
      Q.NewRowsAreFresh(s, step, id);
    }
  }

  lemma StepKeyed(s: Q.State, step: Q.Step, hash: string -> string)
    requires Q.Invariant(s) && Keyed(s.rows, hash) && Proper([step], hash)
    ensures Keyed(Q.Apply(s, step).rows, hash)
  {
    StepFrame(s, step);
    assert [step][0] == step;
    var after := Q.Apply(s, step).rows;
    forall i, j | i in after && j in after && after[i].idempotencyKey == after[j].idempotencyKey
      ensures i == j
    {
      assert i in s.rows || j in s.rows || i == j;
    }
  }

  lemma EnqueueLeavesRow(s: Q.State, step: Q.Step, hash: string -> string)
    requires Q.Invariant(s) && Keyed(s.rows, hash) && Proper([step], hash) && Injective(hash) && step.Enqueue?
    ensures HasRow(Q.Apply(s, step).rows, step.alertId, step.sourceIp, step.action)
  {
    assert [step][0] == step;
    var after := Q.Apply(s, step).rows;
    if R.KeyTaken(s.rows, step.key) {
      var id :| id in s.rows && s.rows[id].idempotencyKey == step.key;
      KeyIdentifies(hash, step.alertId, step.sourceIp, step.action, s.rows[id].alertId, s.rows[id].sourceIp, s.rows[id].action);
      assert Is(after[id], step.alertId, step.sourceIp, step.action);
    } else {
      var id := s.nextId;
      assert Is(after[id], step.alertId, step.sourceIp, step.action);
    }
  }

  /** The run asked for this action at some point. */
  ghost predicate Asked(steps: seq<Q.Step>, alertId: Option<int>, sourceIp: string, action: string) {
    exists i :: 0 <= i < |steps| && steps[i].Enqueue? && steps[i].alertId == alertId && steps[i].sourceIp == sourceIp && steps[i].action == action
  }

  lemma {:induction false} RunKeyed(s: Q.State, steps: seq<Q.Step>, hash: string -> string, alertId: Option<int>, sourceIp: string, action: string)
    requires Q.Invariant(s) && Keyed(s.rows, hash) && Proper(steps, hash) && Injective(hash)
    ensures Keyed(Q.Run(s, steps).rows, hash)
    ensures HasRow(Q.Run(s, steps).rows, alertId, sourceIp, action) <==> HasRow(s.rows, alertId, sourceIp, action) || Asked(steps, alertId, sourceIp, action)
    decreases |steps|
  {
    if steps != [] {
      var step, rest := steps[0], steps[1..];
      var next := Q.Apply(s, step);
      Q.StepKeeps(s, step);
      StepKeyed(s, step, hash);
      RunKeyed(next, rest, hash, alertId, sourceIp, action);
      StepFrame(s, step);
      if step.Enqueue? {
        EnqueueLeavesRow(s, step, hash);
      }
      AskedSplits(steps, alertId, sourceIp, action);
      OneStepAsks(s, step, alertId, sourceIp, action);
    }
  }

  lemma AskedSplits(steps: seq<Q.Step>, alertId: Option<int>, sourceIp: string, action: string)
    requires steps != []
    ensures Asked(steps, alertId, sourceIp, action) <==> Asked([steps[0]], alertId, sourceIp, action) || Asked(steps[1..], alertId, sourceIp, action)
  {
    if Asked([steps[0]], alertId, sourceIp, action) {
      assert [steps[0]][0] == steps[0];
    }
    if Asked(steps[1..], alertId, sourceIp, action) {
      var i :| 0 <= i < |steps[1..]| && steps[1..][i].Enqueue? && steps[1..][i].alertId == alertId && steps[1..][i].sourceIp == sourceIp && steps[1..][i].action == action;
      assert steps[i + 1] == steps[1..][i];
    }
    if Asked(steps, alertId, sourceIp, action) {
      var i :| 0 <= i < |steps| && steps[i].Enqueue? && steps[i].alertId == alertId && steps[i].sourceIp == sourceIp && steps[i].action == action;
      assert i > 0 ==> steps[1..][i - 1] == steps[i];
      assert i == 0 ==> [steps[0]][0] == steps[i];
    }
  }

  lemma OneStepAsks(s: Q.State, step: Q.Step, alertId: Option<int>, sourceIp: string, action: string)
    requires Q.Invariant(s)
    requires step.Enqueue? ==> HasRow(Q.Apply(s, step).rows, step.alertId, step.sourceIp, step.action)
    ensures HasRow(Q.Apply(s, step).rows, alertId, sourceIp, action) <==> HasRow(s.rows, alertId, sourceIp, action) || Asked([step], alertId, sourceIp, action)
  {
    StepFrame(s, step);
    var after := Q.Apply(s, step).rows;
    if HasRow(s.rows, alertId, sourceIp, action) {
      var id :| id in s.rows && Is(s.rows[id], alertId, sourceIp, action);
      assert id in after && Is(after[id], alertId, sourceIp, action);
    }
    if HasRow(after, alertId, sourceIp, action) {
      var id :| id in after && Is(after[id], alertId, sourceIp, action);
      if id in s.rows {
        assert Is(s.rows[id], alertId, sourceIp, action);
      } else {
        assert [step][0] == step;
      }
    }
  }

  /**
   However claims, approvals, retries and sweeps interleave with enqueues, the queue holds a row for an alert, address
   and canonical action exactly when the run asked for it, and never two.
   */
  lemma OneRowPerAction(s: Q.State, steps: seq<Q.Step>, hash: string -> string, alertId: Option<int>, sourceIp: string, action: string)
    requires Q.Initial(s) && Proper(steps, hash) && Injective(hash)
    ensures var rows := Q.Run(s, steps).rows;
            && (HasRow(rows, alertId, sourceIp, action) <==> Asked(steps, alertId, sourceIp, action))
            && forall i, j :: i in rows && j in rows && Is(rows[i], alertId, sourceIp, action) && Is(rows[j], alertId, sourceIp, action) ==> i == j
  {
    RunKeyed(s, steps, hash, alertId, sourceIp, action);
    assert !HasRow(s.rows, alertId, sourceIp, action);
  }

  // ---------- enqueue requests by name ----------

  /** What callers do: ask for an action under any name, or take any other step of the queue protocol. */
  datatype Call =
    | Ask(alertId: Option<int>, sourceIp: string, name: string, maxRetries: nat)
    | Other(step: Q.Step)

  /** The step a call amounts to; a refused name writes nothing. */
  function StepsOf(call: Call, hash: string -> string): seq<Q.Step> {
    match call
    case Other(step) => if step.Enqueue? then [] else [step]
    case Ask(alertId, sourceIp, name, maxRetries) =>
      var action := V.QueueAction(Strip(name));
      if action.Err? then [] else [Q.Enqueue(alertId, sourceIp, action.value, Key(hash, alertId, sourceIp, action.value), maxRetries)]
  }

  function AllSteps(calls: seq<Call>, hash: string -> string): seq<Q.Step> {
    if calls == [] then [] else StepsOf(calls[0], hash) + AllSteps(calls[1..], hash)
  }

  ghost predicate AskedByName(calls: seq<Call>, alertId: Option<int>, sourceIp: string, action: string) {
    exists i :: 0 <= i < |calls| && Asks(calls[i], alertId, sourceIp, action)
  }

  predicate Asks(call: Call, alertId: Option<int>, sourceIp: string, action: string) {
    call.Ask? && call.alertId == alertId && call.sourceIp == sourceIp && V.StandsFor(Strip(call.name), action)
  }

  lemma {:induction false} AllStepsProper(calls: seq<Call>, hash: string -> string, alertId: Option<int>, sourceIp: string, action: string)
    ensures Proper(AllSteps(calls, hash), hash)
    ensures Asked(AllSteps(calls, hash), alertId, sourceIp, action) <==> AskedByName(calls, alertId, sourceIp, action)
    decreases |calls|
  {
    hide Strip, V.QueueAction, V.IsQueueAction, V.StandsFor, PreImage;
    if calls != [] {
      if calls[0].Ask? { V.QueuesExactlyWhen(Strip(calls[0].name), action); }
      var first, rest := StepsOf(calls[0], hash), AllSteps(calls[1..], hash);
      AllStepsProper(calls[1..], hash, alertId, sourceIp, action);
      AskedByNameSplits(calls, alertId, sourceIp, action);
      if first != [] {
        assert AllSteps(calls, hash)[1..] == rest;
        AskedSplits(AllSteps(calls, hash), alertId, sourceIp, action);
        assert [AllSteps(calls, hash)[0]] == first;
        assert Asked(first, alertId, sourceIp, action) <==> Asks(calls[0], alertId, sourceIp, action) by {
          assert Asks(calls[0], alertId, sourceIp, action) ==> first[0].Enqueue? && first[0].action == action;
        }
      } else {
        assert AllSteps(calls, hash) == rest;
      }
    }
  }

  lemma AskedByNameSplits(calls: seq<Call>, alertId: Option<int>, sourceIp: string, action: string)
    requires calls != []
    ensures AskedByName(calls, alertId, sourceIp, action) <==>
            Asks(calls[0], alertId, sourceIp, action) || AskedByName(calls[1..], alertId, sourceIp, action)
  {
    hide Asks;
    if AskedByName(calls[1..], alertId, sourceIp, action) {
      var i :| 0 <= i < |calls[1..]| && Asks(calls[1..][i], alertId, sourceIp, action);
      assert calls[i + 1] == calls[1..][i];
    }
    if AskedByName(calls, alertId, sourceIp, action) {
      var i :| 0 <= i < |calls| && Asks(calls[i], alertId, sourceIp, action);
      assert i > 0 ==> calls[1..][i - 1] == calls[i];
    }
  }

  /**
   Over whole runs of calls by name, aliases, blanks around a name and refused names included, a row for an alert, address
   and canonical action exists exactly when some call's name stands for that action, and never two.
   */
  lemma OneRowPerRequest(s: Q.State, calls: seq<Call>, hash: string -> string, alertId: Option<int>, sourceIp: string, action: string)
    requires Q.Initial(s) && Injective(hash)
    ensures var rows := Q.Run(s, AllSteps(calls, hash)).rows;
            && (HasRow(rows, alertId, sourceIp, action) <==> AskedByName(calls, alertId, sourceIp, action))
            && forall i, j :: i in rows && j in rows && Is(rows[i], alertId, sourceIp, action) && Is(rows[j], alertId, sourceIp, action) ==> i == j
  {
    AllStepsProper(calls, hash, alertId, sourceIp, action);
    OneRowPerAction(s, AllSteps(calls, hash), hash, alertId, sourceIp, action);
  }
}
