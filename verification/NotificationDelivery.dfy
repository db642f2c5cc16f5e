/**
 Windowed notification deduplication: a delivery is suppressed when one of the newest ten attempts under its key
 went out, and the suppression is itself logged under that key.
 */
module NotificationDelivery {
  import opened Common

  datatype Status = Pending | Success | Failed | Timeout | Blocked {
    /** The statuses the lookup treats as a delivery. */
    predicate Out() {
      Success? || Pending?
    }
  }

  datatype Attempt = Attempt(key: string, status: Status)

  datatype Classification = TimedOut | CircuitOpen | CircuitStateInvalid | RateLimited | GuardFailed | CredentialMissing | Unclassified

  datatype AdapterResult = AdapterResult(success: bool, classification: Classification, timedOut: bool)

  /**
   One call of the delivery service: the hash of its event, object, route, purpose, stage and scope; whether the policy
   lets it notify; whether it deduplicates; what the adapter would answer; and whether its attempt row gets written
   (a tracking failure is swallowed).
   */
  datatype Delivery = Delivery(key: string, shouldNotify: bool, allowDedup: bool, adapter: AdapterResult, recorded: bool)

  const LOOKUP := 10

  function DeliveryStatus(result: AdapterResult): (status: Status)
    ensures status.Out() <==> result.success
  {
    if result.success then Success
    else if result.classification.TimedOut? || result.timedOut then Timeout
    else if result.classification.Unclassified? then Failed
    else Blocked
  }

  /** WHERE idempotency_key = key ORDER BY id DESC LIMIT limit. */
  function Newest(log: seq<Attempt>, key: string, limit: nat): seq<Attempt> {
    if log == [] || limit == 0 then []
    else
      var last, older := log[|log| - 1], log[..|log| - 1];
      if last.key == key then [last] + Newest(older, key, limit - 1) else Newest(older, key, limit)
  }

  /** The statuses of a key's attempts, oldest first. */
  function Statuses(log: seq<Attempt>, key: string): seq<Status> {
    if log == [] then []
    else
      var last, older := log[|log| - 1], log[..|log| - 1];
      if last.key == key then Statuses(older, key) + [last.status] else Statuses(older, key)
  }

  /** One of the newest ten went out. */
  predicate RecentlyOut(s: seq<Status>) {
    exists i | Max(0, |s| - LOOKUP) <= i < |s| :: s[i].Out()
  }

  /** The status a delivery is logged with, given its key's history. */
  function Decided(d: Delivery, history: seq<Status>): Status {
    if !d.shouldNotify || (d.allowDedup && RecentlyOut(history)) then Blocked else DeliveryStatus(d.adapter)
  }

  function Deliver(log: seq<Attempt>, d: Delivery): seq<Attempt> {
    if d.recorded then log + [Attempt(d.key, Decided(d, Statuses(log, d.key)))] else log
  }

  function Run(log: seq<Attempt>, deliveries: seq<Delivery>): seq<Attempt>
    decreases |deliveries|
  {
    if deliveries == [] then log else Run(Deliver(log, deliveries[0]), deliveries[1..])
  }

  // ---------- the service ----------

  lemma {:induction false} NewestAreRecent(log: seq<Attempt>, key: string, limit: nat)
    ensures var rows, s := Newest(log, key, limit), Statuses(log, key);
            && |rows| == Min(limit, |s|)
            && forall i :: 0 <= i < |rows| ==> rows[i].key == key && rows[i].status == s[|s| - 1 - i]
    decreases |log|
  {
    if log != [] && limit > 0 {
      NewestAreRecent(log[..|log| - 1], key, if log[|log| - 1].key == key then limit - 1 else limit);
    } else if log != [] {
      NewestAreRecent(log[..|log| - 1], key, 0);
    }
  }

  class Service {
    /** notification_delivery_attempts by id. */
    var attempts: seq<Attempt>

    constructor ()
      ensures attempts == []
    {
      attempts := [];
    }

    method ExistingPolicyDelivery(key: string) returns (existing: Option<Attempt>)
      ensures existing.Some? <==> RecentlyOut(Statuses(attempts, key))
      ensures existing.Some? ==> existing.value.key == key && existing.value.status.Out()
    {
      var rows := Newest(attempts, key, LOOKUP);
      ghost var s := Statuses(attempts, key);
      NewestAreRecent(attempts, key, LOOKUP);
      for i := 0 to |rows|
        invariant forall j :: |s| - i <= j < |s| ==> !s[j].Out()
      {
        if rows[i].status == Success || rows[i].status == Pending {
          assert s[|s| - 1 - i].Out();
          return Some(rows[i]);
        }
      }
      return None;
    }

    method RecordAttemptSafe(key: string, status: Status, recorded: bool)
      modifies this
      ensures attempts == if recorded then old(attempts) + [Attempt(key, status)] else old(attempts)
    {
      if recorded { attempts := attempts + [Attempt(key, status)]; }
    }

    /** `sent` says the adapter was called. */
    method DeliverNotification(d: Delivery) returns (sent: bool, duplicate: bool)
      modifies this
      ensures attempts == Deliver(old(attempts), d)
      ensures duplicate <==> d.shouldNotify && d.allowDedup && RecentlyOut(Statuses(old(attempts), d.key))
      ensures sent <==> d.shouldNotify && !duplicate
    {
      if !d.shouldNotify {
        RecordAttemptSafe(d.key, Blocked, d.recorded);
        return false, false;
      }
      if d.allowDedup {
        var existing := ExistingPolicyDelivery(d.key);
        if existing.Some? {
          RecordAttemptSafe(d.key, Blocked, d.recorded);
          return false, true;
        }
      }
      RecordAttemptSafe(d.key, DeliveryStatus(d.adapter), d.recorded);
      return true, false;
    }
  }

  // ---------- spacing ----------

  /** Any two attempts that went out are more than the lookup apart. */
  ghost predicate Spaced(s: seq<Status>) {
    forall i, j :: 0 <= i < j < |s| && s[i].Out() && s[j].Out() ==> j - i > LOOKUP
  }

  function OutCount(s: seq<Status>): nat {
    if s == [] then 0 else OutCount(s[..|s| - 1]) + if s[|s| - 1].Out() then 1 else 0
  }

  lemma DeliverHistory(log: seq<Attempt>, d: Delivery, key: string)
    ensures Statuses(Deliver(log, d), key) ==
            if d.recorded && d.key == key then Statuses(log, key) + [Decided(d, Statuses(log, key))] else Statuses(log, key)
  {
    if d.recorded {
      var next := Deliver(log, d);
      assert next[..|next| - 1] == log;
    }
  }

  /** Among deduplicated and suppressed deliveries nothing can break the spacing; only a bare success close to another can. */
  lemma SpacingBreaksExactlyWhen(log: seq<Attempt>, d: Delivery, key: string)
    requires Spaced(Statuses(log, key))
    ensures Spaced(Statuses(Deliver(log, d), key)) <==>
            !(d.key == key && d.recorded && d.shouldNotify && !d.allowDedup && d.adapter.success && RecentlyOut(Statuses(log, key)))
  {
    var s, after := Statuses(log, key), Statuses(Deliver(log, d), key);
    DeliverHistory(log, d, key);
    if after != s {
      assert after[..|s|] == s;
      forall i, j | 0 <= i < j < |after| && after[i].Out() && after[j].Out() && !RecentlyOut(s)
        ensures j - i > LOOKUP
      {
        assert i < |s| && after[i] == s[i];
        assert j < |s| ==> after[j] == s[j];
      }
      if RecentlyOut(s) {
        var i :| Max(0, |s| - LOOKUP) <= i < |s| && s[i].Out();
        assert after[i].Out() && |s| - i <= LOOKUP;
        if !after[|s|].Out() {
          forall i, j | 0 <= i < j < |after| && after[i].Out() && after[j].Out()
            ensures j - i > LOOKUP
          {
            assert after[i] == s[i] && after[j] == s[j];
          }
        }
      }
    }
  }

  /** However deliveries of all keys interleave, and whatever rows fail to be written. */
  lemma {:induction false} RunIsSpaced(log: seq<Attempt>, deliveries: seq<Delivery>, key: string)
    requires Spaced(Statuses(log, key))
    requires forall i :: 0 <= i < |deliveries| && deliveries[i].key == key ==> deliveries[i].allowDedup
    ensures Spaced(Statuses(Run(log, deliveries), key))
    decreases |deliveries|
  {
    if deliveries != [] {
      SpacingBreaksExactlyWhen(log, deliveries[0], key);
      RunIsSpaced(Deliver(log, deliveries[0]), deliveries[1..], key);
    }
  }

  lemma {:induction false} QuietCount(s: seq<Status>, from: nat)
    requires from <= |s| && forall i :: from <= i < |s| ==> !s[i].Out()
    ensures OutCount(s) == OutCount(s[..from])
    decreases |s|
  {
    if from < |s| {
      QuietCount(s[..|s| - 1], from);
      assert s[..|s| - 1][..from] == s[..from];
    } else {
      assert s[..from] == s;
    }
  }

  /** At most one attempt in eleven, rounded up, went out. */
  lemma {:induction false} SpacedCount(s: seq<Status>)
    requires Spaced(s)
    ensures OutCount(s) <= (|s| + LOOKUP) / (LOOKUP + 1)
    decreases |s|
  {
    if s != [] {
      var older := s[..|s| - 1];
      if s[|s| - 1].Out() {
        var from := Max(0, |s| - 1 - LOOKUP);
        QuietCount(older, from);
        assert older[..from] == s[..from];
        SpacedCount(s[..from]);
        assert from > 0 ==> |s| + LOOKUP == (from + LOOKUP) + (LOOKUP + 1);
      } else {
        SpacedCount(older);
      }
    }
  }

  lemma BoundedHistory(deliveries: seq<Delivery>, key: string)
    requires forall i :: 0 <= i < |deliveries| && deliveries[i].key == key ==> deliveries[i].allowDedup
    ensures var s := Statuses(Run([], deliveries), key); Spaced(s) && OutCount(s) <= (|s| + LOOKUP) / (LOOKUP + 1)
  {
    RunIsSpaced([], deliveries, key);
    SpacedCount(Statuses(Run([], deliveries), key));
  }

  // ---------- the bound is reached ----------

  /** The same eligible notification, asked for n times in a row. */
  function Repeated(d: Delivery, n: nat): seq<Delivery> {
    if n == 0 then [] else Repeated(d, n - 1) + [d]
  }

  lemma {:induction false} RunAppend(log: seq<Attempt>, deliveries: seq<Delivery>, d: Delivery)
    ensures Run(log, deliveries + [d]) == Deliver(Run(log, deliveries), d)
    decreases |deliveries|
  {
    if deliveries == [] {
      assert [] + [d] == [d] && [d][1..] == [];
    } else {
      assert (deliveries + [d])[1..] == deliveries[1..] + [d];
      RunAppend(Deliver(log, deliveries[0]), deliveries[1..], d);
    }
  }

  predicate IsTurn(i: nat) {
    i % (LOOKUP + 1) == 0
  }

  /** The last turn before m is within the lookup exactly when m is not a turn itself. */
  lemma TurnBefore(m: nat)
    ensures IsTurn(m) ==> forall i :: Max(0, m - LOOKUP) <= i < m ==> !IsTurn(i)
    ensures !IsTurn(m) ==> m % (LOOKUP + 1) <= m && IsTurn(m - m % (LOOKUP + 1)) && m % (LOOKUP + 1) <= LOOKUP
    ensures (m + 1 + LOOKUP) / (LOOKUP + 1) == (m + LOOKUP) / (LOOKUP + 1) + if IsTurn(m) then 1 else 0
  {
  }

  /** What the history of a caller that keeps asking looks like. */
  ghost predicate EveryEleventh(s: seq<Status>) {
    && (forall i :: 0 <= i < |s| ==> s[i] == if IsTurn(i) then Success else Blocked)
    && OutCount(s) == (|s| + LOOKUP) / (LOOKUP + 1)
  }

  lemma {:induction false} EveryEleventhHistory(d: Delivery, n: nat)
    requires d.shouldNotify && d.allowDedup && d.recorded && d.adapter.success
    ensures var s := Statuses(Run([], Repeated(d, n)), d.key); |s| == n && EveryEleventh(s)
    decreases n
  {
    if n > 0 {
      assert Repeated(d, n) == Repeated(d, n - 1) + [d];
      hide Run, Repeated, Deliver, Decided, Statuses, EveryEleventh;
      EveryEleventhHistory(d, n - 1);
      RunAppend([], Repeated(d, n - 1), d);
      DeliverHistory(Run([], Repeated(d, n - 1)), d, d.key);
      NextTurn(d, Statuses(Run([], Repeated(d, n - 1)), d.key));
    }
  }

  lemma NextTurn(d: Delivery, s: seq<Status>)
    requires d.shouldNotify && d.allowDedup && d.recorded && d.adapter.success
    requires EveryEleventh(s)
    ensures EveryEleventh(s + [Decided(d, s)])
  {
    var m := |s|;
    TurnBefore(m);
    if !IsTurn(m) {
      assert s[m - m % (LOOKUP + 1)].Out();
    }
    assert RecentlyOut(s) <==> !IsTurn(m);
    assert (s + [Decided(d, s)])[..m] == s;
  }

  // ---------- the same, said of the log ----------

  /** The attempts under a key at positions p to q - 1. */
  ghost function Under(log: seq<Attempt>, key: string, p: int, q: int): set<int> {
    set r: int | 0 <= p <= r < q <= |log| && log[r].key == key
  }

  ghost function WentOut(log: seq<Attempt>, key: string): set<int> {
    set r: int | 0 <= r < |log| && log[r].key == key && (log[r].status == Success || log[r].status == Pending)
  }

  lemma {:induction false} HistoryLength(log: seq<Attempt>, key: string, q: nat)
    requires q <= |log|
    ensures |Statuses(log[..q], key)| == |Under(log, key, 0, q)|
  {
    if q > 0 {
      HistoryLength(log, key, q - 1);
      assert log[..q][..q - 1] == log[..q - 1] && log[..q][q - 1] == log[q - 1];
      assert Under(log, key, 0, q) == Under(log, key, 0, q - 1) + if log[q - 1].key == key then {q - 1} else {};
    } else {
      assert Under(log, key, 0, 0) == {};
    }
  }

  lemma UnderSplits(log: seq<Attempt>, key: string, p: nat, q: nat)
    requires p <= q <= |log|
    ensures |Under(log, key, 0, q)| == |Under(log, key, 0, p)| + |Under(log, key, p, q)|
  {
    assert Under(log, key, 0, q) == Under(log, key, 0, p) + Under(log, key, p, q);
    assert Under(log, key, 0, p) !! Under(log, key, p, q);
  }

  /** The attempt at position p is entry |Under(log, key, 0, p)| of its key's history. */
  lemma {:induction false} HistoryAt(log: seq<Attempt>, key: string, p: nat)
    requires p < |log| && log[p].key == key
    ensures var i, s := |Under(log, key, 0, p)|, Statuses(log, key); i < |s| && s[i] == log[p].status
    decreases |log|
  {
    var older := log[..|log| - 1];
    if p == |older| {
      HistoryLength(log, key, p);
      assert log[..p] == older;
    } else {
      HistoryAt(older, key, p);
      assert Under(log, key, 0, p) == Under(older, key, 0, p);
    }
  }

  /** Every entry of a history is some attempt. */
  lemma {:induction false} PositionOf(log: seq<Attempt>, key: string, i: nat) returns (p: nat)
    requires i < |Statuses(log, key)|
    ensures p < |log| && log[p].key == key && |Under(log, key, 0, p)| == i && log[p].status == Statuses(log, key)[i]
    decreases |log|
  {
    var older := log[..|log| - 1];
    if i < |Statuses(older, key)| {
      p := PositionOf(older, key, i);
      assert Under(log, key, 0, p) == Under(older, key, 0, p);
    } else {
      p := |log| - 1;
      HistoryLength(log, key, p);
    }
  }

  lemma WentOutNow(older: seq<Attempt>, last: Attempt, key: string)
    ensures |WentOut(older + [last], key)| == |WentOut(older, key)| + if last.key == key && last.status.Out() then 1 else 0
  {
    var before, after, out := WentOut(older, key), WentOut(older + [last], key), last.key == key && last.status.Out();
    forall r
      ensures r in after <==> r in before || (r == |older| && out)
    {
      assert 0 <= r < |older| ==> (older + [last])[r] == older[r];
    }
    assert |older| !in before;
    hide WentOut;
    assert after == if out then before + {|older|} else before;
  }

  lemma {:induction false} OutCountIsCardinality(log: seq<Attempt>, key: string)
    ensures OutCount(Statuses(log, key)) == |WentOut(log, key)|
    decreases |log|
  {
    if log != [] {
      var older, last := log[..|log| - 1], log[|log| - 1];
      OutCountIsCardinality(older, key);
      WentOutNow(older, last, key);
      assert log == older + [last];
      hide WentOut;
      var s := Statuses(log, key);
      assert last.key == key ==> s[..|s| - 1] == Statuses(older, key);
    } else {
      assert WentOut(log, key) == {};
    }
  }

  /** One of the newest ten attempts under the key went out. */
  ghost predicate OutInNewestTen(log: seq<Attempt>, key: string) {
    exists p :: p in WentOut(log, key) && |Under(log, key, p, |log|)| <= 10
  }

  lemma RecentlyOutExactlyWhen(log: seq<Attempt>, key: string)
    ensures RecentlyOut(Statuses(log, key)) <==> OutInNewestTen(log, key)
  {
    var s := Statuses(log, key);
    assert log[..|log|] == log;
    HistoryLength(log, key, |log|);
    if RecentlyOut(s) {
      var i :| Max(0, |s| - LOOKUP) <= i < |s| && s[i].Out();
      var p := PositionOf(log, key, i);
      UnderSplits(log, key, p, |log|);
      assert p in WentOut(log, key);
    }
    if OutInNewestTen(log, key) {
      var p :| p in WentOut(log, key) && |Under(log, key, p, |log|)| <= 10;
      HistoryAt(log, key, p);
      UnderSplits(log, key, p, |log|);
      assert s[|Under(log, key, 0, p)|].Out();
    }
  }

  /** What one call leaves: no row, or one with the status the policy, the newest ten attempts and the adapter's answer call for. */
  lemma DeliverLeaves(log: seq<Attempt>, d: Delivery)
    ensures var after := Deliver(log, d);
            var silent := !d.shouldNotify || (d.allowDedup && OutInNewestTen(log, d.key));
            var late := d.adapter.classification == TimedOut || d.adapter.timedOut;
            && (!d.recorded ==> after == log)
            && (d.recorded ==> |after| == |log| + 1 && after[..|log|] == log && after[|log|].key == d.key)
            && (d.recorded && silent ==> after[|log|].status == Blocked)
            && (d.recorded && !silent && d.adapter.success ==> after[|log|].status == Success)
            && (d.recorded && !silent && !d.adapter.success && late ==> after[|log|].status == Timeout)
            && (d.recorded && !silent && !d.adapter.success && !late ==>
                  after[|log|].status == if d.adapter.classification == Unclassified then Failed else Blocked)
  {
    RecentlyOutExactlyWhen(log, d.key);
  }

  /**
   While every delivery of a key deduplicates, from one that went out to the next there are at least eleven attempts
   under the key, and at most one in eleven, rounded up, went out.
   */
  lemma DeliveriesAreBounded(deliveries: seq<Delivery>, key: string)
    requires forall i :: 0 <= i < |deliveries| && deliveries[i].key == key ==> deliveries[i].allowDedup
    ensures var log := Run([], deliveries);
            && (forall p, q :: p in WentOut(log, key) && q in WentOut(log, key) && p < q ==> |Under(log, key, p, q)| >= 11)
            && |WentOut(log, key)| <= (|Under(log, key, 0, |log|)| + 10) / 11
  {
    var log := Run([], deliveries);
    BoundedHistory(deliveries, key);
    assert log[..|log|] == log;
    HistoryLength(log, key, |log|);
    OutCountIsCardinality(log, key);
    forall p, q | p in WentOut(log, key) && q in WentOut(log, key) && p < q
      ensures |Under(log, key, p, q)| >= 11
    {
      HistoryAt(log, key, p);
      HistoryAt(log, key, q);
      UnderSplits(log, key, p, q);
      assert p in Under(log, key, p, q);
    }
  }

  lemma {:induction false} OneKey(d: Delivery, n: nat)
    requires d.recorded
    ensures var log := Run([], Repeated(d, n));
            |log| == n && |Statuses(log, d.key)| == n && forall i :: 0 <= i < n ==> log[i] == Attempt(d.key, Statuses(log, d.key)[i])
    decreases n
  {
    if n > 0 {
      OneKey(d, n - 1);
      RunAppend([], Repeated(d, n - 1), d);
      DeliverHistory(Run([], Repeated(d, n - 1)), d, d.key);
    }
  }

  /** A caller that keeps asking gets through every eleventh time, and the bound above is met with equality. */
  lemma EveryEleventhGoesOut(d: Delivery, n: nat)
    requires d.shouldNotify && d.allowDedup && d.recorded && d.adapter.success
    ensures var log := Run([], Repeated(d, n));
            && |log| == n
            && (forall i :: 0 <= i < n ==> log[i] == Attempt(d.key, if i % 11 == 0 then Success else Blocked))
            && |WentOut(log, d.key)| == (n + 10) / 11
  {
    hide Run, Repeated, Statuses, OutCount, WentOut;
    EveryEleventhHistory(d, n);
    OneKey(d, n);
    OutCountIsCardinality(Run([], Repeated(d, n)), d.key);
  }
}
