/** What the registry guarantees over whole runs, and exactly where a reused idempotency key breaks a promise. */
module RegistryTheorems {
  import opened Common
  import V = ActionVocabulary
  import opened IndicatorRegistry
  import opened RegistryProtocol

  /** Row and log agree in every reachable state: through notes, renewals, idempotent reuse and expiry sweeps. */
  lemma RowAgreesWithLog(steps: seq<Step>, ip: string)
    requires ip in RunAll(EMPTY, steps).registry
    ensures var t := RunAll(EMPTY, steps);
            var newest, shown := Newest(t.events, ip), t.registry[ip].disposition;
            if newest.None? then shown == Observed
            else shown == newest.value.disposition || (shown == Expired && newest.value.disposition == Monitored)
  {
    RunKeeps(EMPTY, steps);
    assert Agrees(RunAll(EMPTY, steps), ip);
  }

  /** At most one active block per IP, and a set pointer names it. */
  lemma BlocklistPointersAreSound(steps: seq<Step>, ip: string)
    requires ip in RunAll(EMPTY, steps).registry
    ensures var t := RunAll(EMPTY, steps); var pointer := t.registry[ip].activeBlock;
            && (forall a, b :: a in ActiveBlocks(t.blocks, ip) && b in ActiveBlocks(t.blocks, ip) ==> a == b)
            && (pointer.Some? ==> ActiveBlocks(t.blocks, ip) == {pointer.value})
  {
    RunKeeps(EMPTY, steps);
    assert PointerOk(RunAll(EMPTY, steps), ip);
  }

  // ---------- monitor deadlines ----------

  /** A stop of a monitored row under a key the log already holds: no event, no new disposition, but the deadline is cleared. */
  predicate LosesDeadline(t: Tables, step: Step) {
    && step.Run? && Dispatch(step.command) == Ok(V.StopMonitor)
    && step.command.target.value in t.registry && t.registry[step.command.target.value].disposition == Monitored
    && Reuses(t, step.command.key)
  }

  lemma StepDeadlines(t: Tables, step: Step)
    requires Deadlines(t)
    ensures Deadlines(Apply(t, step)) <==> !LosesDeadline(t, step)
  {
    if LosesDeadline(t, step) {
      var ip := step.command.target.value;
      assert Apply(t, step).registry[ip] == t.registry[ip].(monitorExpiresAt := None);
    } else if step.Run? && Dispatch(step.command).Ok? {
      CommandKeepsDeadlines(t, step.command, Dispatch(step.command).value, step.now);
    }
  }

  lemma CommandKeepsDeadlines(t: Tables, c: Command, action: V.Command, now: int)
    requires Deadlines(t) && (c.target.Ip? || action.FlagHighPriority?)
    requires action.StopMonitor? && c.target.value in t.registry && t.registry[c.target.value].disposition == Monitored ==> !Reuses(t, c.key)
    ensures Deadlines(Perform(t, c, action, now).0)
  {
    match action
    case BlockIp => BlockKeepsDeadlines(t, c, c.target.value, now);
    case RemoveTracking => RemoveKeepsDeadlines(t, c, c.target.value);
    case _ =>
  }

  lemma BlockKeepsDeadlines(t: Tables, c: Command, ip: string, now: int)
    requires Deadlines(t)
    ensures Deadlines(BlockIp(t, c, ip, now).0)
  {
  }

  lemma RemoveKeepsDeadlines(t: Tables, c: Command, ip: string)
    requires Deadlines(t)
    ensures Deadlines(RemoveTracking(t, c, ip).0)
  {
  }

  predicate DeadlinesThroughout(t: Tables, steps: seq<Step>)
    decreases |steps|
  {
    Deadlines(t) && (steps != [] ==> DeadlinesThroughout(Apply(t, steps[0]), steps[1..]))
  }

  predicate NeverLosesDeadline(t: Tables, steps: seq<Step>)
    decreases |steps|
  {
    steps != [] ==> !LosesDeadline(t, steps[0]) && NeverLosesDeadline(Apply(t, steps[0]), steps[1..])
  }

  /** Every monitored row has a deadline in every state of a run exactly when no step of it loses one. */
  lemma {:induction false} DeadlinesHoldExactlyWhen(t: Tables, steps: seq<Step>)
    requires Deadlines(t)
    ensures DeadlinesThroughout(t, steps) <==> NeverLosesDeadline(t, steps)
    decreases |steps|
  {
    if steps != [] {
      StepDeadlines(t, steps[0]);
      if !LosesDeadline(t, steps[0]) {
        DeadlinesHoldExactlyWhen(Apply(t, steps[0]), steps[1..]);
      }
    }
  }

  /** After a sweep at `now` no deadline at or before `now` is left on a monitored row; nothing else moved. */
  lemma SweepIsExact(t: Tables, now: int, ip: string)
    requires ip in t.registry
    ensures var after := ExpireMonitors(t, now);
            && ip in after.registry && !MonitorOver(after.registry[ip], now)
            && (after.registry[ip] != t.registry[ip] <==> MonitorOver(t.registry[ip], now))
            && (Deadlines(t) && after.registry[ip].disposition == Monitored ==> after.registry[ip].monitorExpiresAt.value > now)
            && after.events == t.events && after.blocks == t.blocks
  {
  }

  /** A plain command on an address; its name is the canonical one. */
  function PlainCommand(action: V.Command, ip: string, key: string): Command {
    Command(V.CommandName(action), Ip(ip), key, "", None, None, true, None, false)
  }

  lemma PlainDispatch(action: V.Command, ip: string, key: string)
    requires !action.AddNote?
    ensures Dispatch(PlainCommand(action, ip, key)) == Ok(action)
  {
    NameReads(action);
  }

  lemma NameReads(action: V.Command)
    ensures V.CommandOf(V.CommandName(action)) == Ok(action)
  {
  }

  function RepeatedStop(ip: string, k1: string, k2: string, k3: string, now: int): seq<Step> {
    [Run(PlainCommand(V.Monitor, ip, k1), now), Run(PlainCommand(V.StopMonitor, ip, k2), now),
     Run(PlainCommand(V.Monitor, ip, k3), now)]
  }

  lemma ThreeSteps(t: Tables, steps: seq<Step>)
    requires |steps| == 3
    ensures RunAll(t, steps) == Apply(Apply(Apply(t, steps[0]), steps[1]), steps[2])
  {
    hide Apply;
    var t1 := Apply(t, steps[0]);
    var t2 := Apply(t1, steps[1]);
    assert steps[1..][1..] == [steps[2]] && [steps[2]][1..] == [];
    assert RunAll(t, steps) == RunAll(t1, steps[1..]);
    assert RunAll(t1, steps[1..]) == RunAll(t2, [steps[2]]);
    assert RunAll(t2, [steps[2]]) == RunAll(Apply(t2, steps[2]), []);
  }

  lemma MonitoredAgain(ip: string, k1: string, k2: string, k3: string, now: int)
    requires k1 != "" && k2 != "" && k3 != "" && k1 != k2 && k2 != k3 && k1 != k3
    ensures var t := RunAll(EMPTY, RepeatedStop(ip, k1, k2, k3, now));
            ip in t.registry && t.registry[ip].disposition == Monitored && Reuses(t, k2)
  {
    hide Dispatch;
    PlainDispatch(V.Monitor, ip, k1);
    PlainDispatch(V.StopMonitor, ip, k2);
    PlainDispatch(V.Monitor, ip, k3);
    var t1 := Monitor(EMPTY, PlainCommand(V.Monitor, ip, k1), ip, now).0;
    assert t1.events == [MonitorEvent(PlainCommand(V.Monitor, ip, k1), ip, now + MONITOR_TTL)];
    var t2 := StopMonitor(t1, PlainCommand(V.StopMonitor, ip, k2), ip).0;
    assert t2.events == t1.events + [StopEvent(PlainCommand(V.StopMonitor, ip, k2), ip)];
    var t3 := Monitor(t2, PlainCommand(V.Monitor, ip, k3), ip, now).0;
    assert t3.events == t2.events + [MonitorEvent(PlainCommand(V.Monitor, ip, k3), ip, now + MONITOR_TTL)];
    assert t3.events[1].key == k2;
    ThreeSteps(EMPTY, RepeatedStop(ip, k1, k2, k3, now));
  }

  /**
   A run from empty tables: monitor, stop, monitor again. Stopping once more under the first stop's key answers "removed",
   but the row stays monitored without a deadline, and no sweep will ever expire it.
   */
  lemma RepeatedStopStrandsTheRow(ip: string, k1: string, k2: string, k3: string, now: int, later: int)
    requires k1 != "" && k2 != "" && k3 != "" && k1 != k2 && k2 != k3 && k1 != k3
    ensures var (t, answer) := Execute(RunAll(EMPTY, RepeatedStop(ip, k1, k2, k3, now)), PlainCommand(V.StopMonitor, ip, k2), now);
            && answer.Answer? && answer.disposition == Some(Removed)
            && ip in t.registry && t.registry[ip].disposition == Monitored && t.registry[ip].monitorExpiresAt == None
            && ExpireMonitors(t, later).registry[ip] == t.registry[ip]
  {
    hide Dispatch, RunAll;
    PlainDispatch(V.StopMonitor, ip, k2);
    MonitoredAgain(ip, k1, k2, k3, now);
  }

  // ---------- answers ----------

  /** The idempotency key a command's event is stored under. */
  function EventKey(c: Command): string {
    if c.refused && Dispatch(c) == Ok(V.BlockIp) then REJECT_PREFIX + c.key else c.key
  }

  /** What the row shows before a command, as a fresh row if there is none. */
  function Shown(t: Tables, ip: string): Disposition {
    if ip in t.registry then t.registry[ip].disposition else Observed
  }

  /** The disposition a command means to leave on its IP, read off the tables before it runs. */
  function Meant(t: Tables, c: Command, action: V.Command, ip: string): Disposition {
    match action
    case BlockIp => if c.refused then Rejected else BlocklistTracked
    case Monitor => Monitored
    case FlagHighPriority => Escalated
    case StopMonitor => if Shown(t, ip) == Monitored then Removed else Shown(t, ip)
    case RemoveTracking => if NonEmpty(ActiveBlocks(t.blocks, ip)) then Removed else Shown(t, ip)
    case AddNote => Shown(t, ip)
  }

  /** The answer is what the command means to leave; the row shows it exactly when the event was new, or the row showed it before. */
  predicate TruthfulExactlyWhenFresh(t: Tables, key: string, ip: string, meant: Disposition, result: (Tables, Answer)) {
    result.1.Answer? ==>
      && result.1.disposition == Some(meant)
      && ip in result.0.registry
      && (result.0.registry[ip].disposition == meant <==> !Reuses(t, key) || Shown(t, ip) == meant)
  }

  lemma BlockAnswer(t: Tables, c: Command, ip: string, now: int)
    ensures TruthfulExactlyWhenFresh(t, if c.refused then REJECT_PREFIX + c.key else c.key, ip, Meant(t, c, V.BlockIp, ip), BlockIp(t, c, ip, now))
  {
  }

  lemma RemoveAnswer(t: Tables, c: Command, ip: string)
    ensures TruthfulExactlyWhenFresh(t, c.key, ip, Meant(t, c, V.RemoveTracking, ip), RemoveTracking(t, c, ip))
  {
  }

  lemma OtherAnswers(t: Tables, c: Command, ip: string, now: int)
    ensures TruthfulExactlyWhenFresh(t, c.key, ip, Meant(t, c, V.Monitor, ip), Monitor(t, c, ip, now))
    ensures TruthfulExactlyWhenFresh(t, c.key, ip, Meant(t, c, V.StopMonitor, ip), StopMonitor(t, c, ip))
    ensures TruthfulExactlyWhenFresh(t, c.key, ip, Meant(t, c, V.AddNote, ip), AddNote(t, c, ip))
    ensures c.target == Ip(ip) ==> TruthfulExactlyWhenFresh(t, c.key, ip, Meant(t, c, V.FlagHighPriority, ip), Escalate(t, c))
  {
  }

  /**
   Unless it raises, a command answers what it means to leave, which can be read off the tables before the call; the row then
   shows that exactly when the command's key is fresh, or the row showed it already.
   */
  lemma AnswerAgreesExactlyWhen(t: Tables, c: Command, now: int)
    requires Dispatch(c).Ok? && c.target.Ip?
    ensures var ip, result := c.target.value, Execute(t, c, now);
            var meant := Meant(t, c, Dispatch(c).value, ip);
            result.1.Answer? ==>
              && result.1.disposition == Some(meant)
              && ip in result.0.registry
              && (result.0.registry[ip].disposition == meant <==> !Reuses(t, EventKey(c)) || Shown(t, ip) == meant)
  {
    hide BlockIp, Monitor, Escalate, StopMonitor, RemoveTracking, AddNote, Meant, Shown, Reuses;
    match Dispatch(c).value
    case BlockIp => BlockAnswer(t, c, c.target.value, now);
    case RemoveTracking => RemoveAnswer(t, c, c.target.value);
    case _ => OtherAnswers(t, c, c.target.value, now);
  }

  // ---------- blocks that have run out ----------

  /** An active block of the IP whose time is over: nothing marks it inactive but a removal. */
  predicate Lapsed(t: Tables, ip: string, now: int) {
    exists id | id in t.blocks :: t.blocks[id].active && t.blocks[id].ip == ip && t.blocks[id].expiresAt.Some? && t.blocks[id].expiresAt.value <= now
  }

  predicate BlocksIp(c: Command, ip: string) {
    Dispatch(c) == Ok(V.BlockIp) && c.target == Ip(ip) && !c.refused && c.alertKnown
  }

  predicate Removes(step: Step, ip: string) {
    step.Run? && Dispatch(step.command) == Ok(V.RemoveTracking) && step.command.target.value == ip
  }

  /** In every reachable state an admissible block_ip raises, changing nothing, exactly when the IP's block has lapsed. */
  lemma BlockRaisesExactlyWhen(steps: seq<Step>, c: Command, ip: string, now: int)
    requires BlocksIp(c, ip)
    ensures var t := RunAll(EMPTY, steps);
            && (Execute(t, c, now).1.Raised? <==> Lapsed(t, ip, now))
            && (Lapsed(t, ip, now) ==> Execute(t, c, now).0 == t)
  {
    RunKeeps(EMPTY, steps);
    LapsedBlocks(RunAll(EMPTY, steps), c, ip, now);
  }

  lemma LapsedBlocks(t: Tables, c: Command, ip: string, now: int)
    requires OneActive(t) && BlocksIp(c, ip)
    ensures Execute(t, c, now).1.Raised? <==> Lapsed(t, ip, now)
    ensures Lapsed(t, ip, now) ==> Execute(t, c, now).0 == t
  {
    hide Dispatch;
    if Lapsed(t, ip, now) {
      var id :| id in t.blocks && t.blocks[id].active && t.blocks[id].ip == ip && t.blocks[id].expiresAt.Some? && t.blocks[id].expiresAt.value <= now;
      assert id in ActiveBlocks(t.blocks, ip);
      assert forall other :: other in CurrentBlocks(t.blocks, ip, now) ==> other == id;
    } else if NonEmpty(ActiveBlocks(t.blocks, ip)) {
      var id :| id in ActiveBlocks(t.blocks, ip);
      assert id in CurrentBlocks(t.blocks, ip, now);
    }
  }

  lemma LapsedStays(t: Tables, step: Step, ip: string, now: int)
    requires Invariant(t) && Lapsed(t, ip, now) && !Removes(step, ip)
    ensures Lapsed(Apply(t, step), ip, now)
  {
    var id :| id in t.blocks && t.blocks[id].active && t.blocks[id].ip == ip && t.blocks[id].expiresAt.Some? && t.blocks[id].expiresAt.value <= now;
    BlockStays(t, step, id);
    assert Apply(t, step).blocks[id] == t.blocks[id];
  }

  /** Only a removal for its IP touches a block. */
  lemma BlockStays(t: Tables, step: Step, id: int)
    requires id in t.blocks && id < t.nextBlock && !Removes(step, t.blocks[id].ip)
    ensures id in Apply(t, step).blocks && Apply(t, step).blocks[id] == t.blocks[id]
  {
    if step.Run? && Dispatch(step.command).Ok? {
      CommandKeepsBlock(t, step.command, Dispatch(step.command).value, step.now, id);
    }
  }

  lemma CommandKeepsBlock(t: Tables, c: Command, action: V.Command, now: int, id: int)
    requires id in t.blocks && id < t.nextBlock && (c.target.Ip? || action.FlagHighPriority?)
    requires action.RemoveTracking? ==> c.target.value != t.blocks[id].ip
    ensures id in Perform(t, c, action, now).0.blocks && Perform(t, c, action, now).0.blocks[id] == t.blocks[id]
  {
    match action
    case BlockIp =>
    case RemoveTracking =>
    case _ =>
  }

  /** From then on, whatever else happens and however late, every admissible block_ip of the IP raises until tracking is removed. */
  lemma {:induction false} LapsedBlockRaisesUntilRemoved(t: Tables, steps: seq<Step>, ip: string, now: int, c: Command, later: int)
    requires Invariant(t) && Lapsed(t, ip, now) && now <= later && BlocksIp(c, ip)
    requires forall i :: 0 <= i < |steps| ==> !Removes(steps[i], ip)
    ensures Execute(RunAll(t, steps), c, later).1.Raised?
    decreases |steps|
  {
    if steps == [] {
      LapsedBlocks(t, c, ip, later);
    } else {
      StepKeeps(t, steps[0]);
      LapsedStays(t, steps[0], ip, now);
      LapsedBlockRaisesUntilRemoved(Apply(t, steps[0]), steps[1..], ip, now, c, later);
    }
  }

  /** Two commands reach it: a block with a deadline, and a second block once the deadline has passed. */
  lemma SecondBlockRaises(ip: string, k1: string, k2: string, start: int, deadline: int, later: int)
    requires k1 != "" && k2 != "" && deadline <= later
    ensures var t := RunAll(EMPTY, [Run(PlainCommand(V.BlockIp, ip, k1).(expiresAt := Some(deadline)), start)]);
            Lapsed(t, ip, later) && Execute(t, PlainCommand(V.BlockIp, ip, k2), later) == (t, Raised("An active block already exists for this IP"))
  {
    var first := PlainCommand(V.BlockIp, ip, k1).(expiresAt := Some(deadline));
    PlainDispatch(V.BlockIp, ip, k1);
    PlainDispatch(V.BlockIp, ip, k2);
    assert Dispatch(first) == Dispatch(PlainCommand(V.BlockIp, ip, k1));
    hide Dispatch;
    var t := Execute(EMPTY, first, start).0;
    assert ActiveBlocks(EMPTY.blocks, ip) == {} && CurrentBlocks(EMPTY.blocks, ip, start) == {};
    assert t.blocks == map[1 := Block(ip, true, Some(deadline))];
    assert 1 in ActiveBlocks(t.blocks, ip);
    assert CurrentBlocks(t.blocks, ip, later) == {};
    assert RunAll(EMPTY, [Run(first, start)]) == t by {
      assert [Run(first, start)][1..] == [];
    }
  }

  /** After a block that was answered with an id, that id is an active block of the IP; after a removal none is active. */
  lemma BlockThenRemove(t: Tables, c: Command, ip: string, now: int)
    requires Invariant(t)
    ensures var (after, answer) := BlockIp(t, c, ip, now);
            answer.Answer? && answer.block.Some? ==> ActiveBlocks(after.blocks, ip) == {answer.block.value}
    ensures var (after, answer) := RemoveTracking(t, c, ip);
            ActiveBlocks(after.blocks, ip) == {} && ip in after.registry && after.registry[ip].activeBlock == None
  {
    BlockIpKeeps(t, c, ip, now);
    var (blocked, answer) := BlockIp(t, c, ip, now);
    if answer.Answer? && answer.block.Some? {
      assert answer.block.value in ActiveBlocks(blocked.blocks, ip);
      assert forall id :: id in ActiveBlocks(blocked.blocks, ip) ==> id == answer.block.value;
    }
    RemoveTrackingKeeps(t, c, ip);
    RemovalClearsIp(t, c, ip);
  }

  lemma RemovalClearsIp(t: Tables, c: Command, ip: string)
    requires Invariant(t)
    ensures var (after, answer) := RemoveTracking(t, c, ip);
            ActiveBlocks(after.blocks, ip) == {} && ip in after.registry && after.registry[ip].activeBlock == None
  {
    UpsertKeeps(t, ip);
    assert PointerOk(Upsert(t, ip), ip);
    var after := RemoveTracking(t, c, ip).0;
    if NonEmpty(ActiveBlocks(t.blocks, ip)) {
      var id := Greatest(ActiveBlocks(t.blocks, ip));
      assert forall other :: other in ActiveBlocks(t.blocks, ip) ==> other == id;
      assert after.blocks == t.blocks[id := t.blocks[id].(active := false)];
    }
    assert forall other :: other !in ActiveBlocks(after.blocks, ip);
  }

  // ---------- derived dispositions ----------

  /** The stored disposition is the one derive_disposition_from_event gives; a note keeps what the row showed. */
  predicate Derived(e: Event) {
    e.disposition == DeriveDisposition(e.action, e.outcome, e.disposition)
  }

  lemma CommandEventsDerived(c: Command, ip: string, id: int, createdNew: bool, expiresAt: int, current: Disposition)
    ensures Derived(BlockEvent(c, ip, id, createdNew)) && Derived(MonitorEvent(c, ip, expiresAt)) && Derived(EscalateEvent(c, ip))
    ensures Derived(StopEvent(c, ip)) && Derived(RemoveEvent(c, ip, id)) && Derived(NoteEvent(c, ip, current))
    ensures Derived(RejectEvent(c, ip, V.BlockIp))
  {
  }

  predicate AllDerived(events: seq<Event>) {
    forall i :: 0 <= i < |events| ==> Derived(events[i])
  }

  lemma AppendDerived(t: Tables, e: Event, update: bool)
    requires AllDerived(t.events) && Derived(e) && e.ip in t.registry
    ensures AllDerived(Append(t, e, update).events)
  {
    hide Derived;
  }

  lemma BlockDerives(t: Tables, c: Command, ip: string, now: int)
    requires AllDerived(t.events)
    ensures AllDerived(BlockIp(t, c, ip, now).0.events)
  {
    hide Derived, Append;
    var known := Upsert(t, ip);
    CommandEventsDerived(c, ip, t.nextBlock, true, 0, Observed);
    if c.refused {
      AppendDerived(known, RejectEvent(c, ip, V.BlockIp), true);
    } else if NonEmpty(CurrentBlocks(t.blocks, ip, now)) {
      var id := Least(CurrentBlocks(t.blocks, ip, now));
      CommandEventsDerived(c, ip, id, false, 0, Observed);
      AppendDerived(known, BlockEvent(c, ip, id, false), true);
    } else if CreateBlock(known, ip, c.expiresAt, c.alertKnown).Ok? {
      AppendDerived(CreateBlock(known, ip, c.expiresAt, c.alertKnown).value, BlockEvent(c, ip, t.nextBlock, true), true);
    }
  }

  lemma OtherCommandsDerive(t: Tables, c: Command, action: V.Command, now: int)
    requires AllDerived(t.events) && !action.BlockIp? && (c.target.Ip? || action.FlagHighPriority?)
    ensures AllDerived(Perform(t, c, action, now).0.events)
  {
    hide Derived, Append;
    if c.target.Ip? {
      var ip := c.target.value;
      var known := Upsert(t, ip);
      CommandEventsDerived(c, ip, 0, true, MonitorDeadline(c, now), known.registry[ip].disposition);
      match action
      case Monitor => AppendDerived(known, MonitorEvent(c, ip, MonitorDeadline(c, now)), true);
      case StopMonitor => if ip in t.registry { AppendDerived(t, StopEvent(c, ip), true); }
      case RemoveTracking => RemovalDerives(t, c, ip);
      case AddNote => AppendDerived(known, NoteEvent(c, ip, known.registry[ip].disposition), false);
      case FlagHighPriority => AppendDerived(known, EscalateEvent(c, ip), true);
    }
  }

  lemma RemovalDerives(t: Tables, c: Command, ip: string)
    requires AllDerived(t.events)
    ensures AllDerived(RemoveTracking(t, c, ip).0.events)
  {
    hide Derived, Append;
    if NonEmpty(ActiveBlocks(t.blocks, ip)) {
      var id := Greatest(ActiveBlocks(t.blocks, ip));
      CommandEventsDerived(c, ip, id, true, 0, Observed);
      AppendDerived(Deactivated(Upsert(t, ip), id), RemoveEvent(c, ip, id), true);
    }
  }

  lemma StepDerives(t: Tables, step: Step)
    requires AllDerived(t.events)
    ensures AllDerived(Apply(t, step).events)
  {
    hide AllDerived, BlockIp;
    if step.Run? && Dispatch(step.command).Ok? {
      if Dispatch(step.command).value.BlockIp? {
        BlockDerives(t, step.command, step.command.target.value, step.now);
      } else {
        OtherCommandsDerive(t, step.command, Dispatch(step.command).value, step.now);
      }
    }
  }

  /** Every event any run has logged stores the disposition its action and outcome derive, though the commands pass it explicitly. */
  lemma {:induction false} LoggedDispositionsAreDerived(t: Tables, steps: seq<Step>)
    requires AllDerived(t.events)
    ensures AllDerived(RunAll(t, steps).events)
    decreases |steps|
  {
    hide AllDerived, Apply;
    if steps != [] {
      StepDerives(t, steps[0]);
      LoggedDispositionsAreDerived(Apply(t, steps[0]), steps[1..]);
    }
  }

  // ---------- sweeps over runs ----------

  lemma {:induction false} NoneLost(t: Tables, steps: seq<Step>)
    requires Deadlines(t) && NeverLosesDeadline(t, steps)
    ensures Deadlines(RunAll(t, steps))
    decreases |steps|
  {
    hide Deadlines, LosesDeadline, Apply;
    if steps != [] {
      StepDeadlines(t, steps[0]);
      NoneLost(Apply(t, steps[0]), steps[1..]);
    }
  }

  /** In every run that loses no deadline, whatever a sweep leaves monitored has a deadline still to come. */
  lemma SweepLeavesOnlyLiveMonitors(steps: seq<Step>, now: int, ip: string)
    requires NeverLosesDeadline(EMPTY, steps)
    requires ip in RunAll(EMPTY, steps).registry
    ensures var after := ExpireMonitors(RunAll(EMPTY, steps), now);
            after.registry[ip].disposition == Monitored ==> after.registry[ip].monitorExpiresAt.Some? && after.registry[ip].monitorExpiresAt.value > now
  {
    NoneLost(EMPTY, steps);
    SweepIsExact(RunAll(EMPTY, steps), now, ip);
  }
}
