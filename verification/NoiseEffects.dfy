/** What each lock section of the internet-noise cache leaves, column by column, and when a caller is served or a refresh submitted. */
module NoiseEffects {
  import opened Common
  import opened InternetNoise

  /** An entry that is there and not yet expired. */
  ghost predicate Fresh(t: Tables, ip: string, now: int) {
    ip in t.cache && now < t.cache[ip].expiresAt
  }

  lemma LookUpLeaves(s: State, thread: int, ip: string, allowEnqueue: bool, now: int)
    requires thread !in s.waiting && ip != ""
    ensures var after, hit := Apply(s, LookUp(thread, ip, allowEnqueue, now)), Fresh(s.tables, ip, now);
            && (exists a ::
                  && after.answers == s.answers + [Answered(ip, now, |s.stores|, a)]
                  && (hit ==> a == s.tables.cache[ip].assessment.(cached := true))
                  && (!hit && ip in s.tables.cache ==> a == Assessment(Neutral, Stale, false, Some(s.tables.cache[ip].assessment.kind)))
                  && (ip !in s.tables.cache && allowEnqueue && ip !in s.tables.inFlight ==> a == Assessment(Neutral, RefreshPending, false, None))
                  && (ip !in s.tables.cache && (!allowEnqueue || ip in s.tables.inFlight) ==> a == Assessment(Neutral, Unknown, false, None)))
            && after.waiting == (if !hit && allowEnqueue && ip !in s.tables.inFlight then s.waiting[thread := ip] else s.waiting)
            && (hit ==> after.tables == s.tables.(hits := s.tables.hits + 1))
            && (!hit ==> after.tables == s.tables.(cache := s.tables.cache - {ip}))
            && after.stores == s.stores && after.submitted == s.submitted && after.finished == s.finished
  {
    var a := AnswerOf(Look(s.tables, ip, now), allowEnqueue);
    assert Apply(s, LookUp(thread, ip, allowEnqueue, now)).answers == s.answers + [Answered(ip, now, |s.stores|, a)];
  }

  lemma EnqueueNowLeaves(s: State, thread: int)
    requires thread in s.waiting
    ensures var after, ip, t := Apply(s, EnqueueNow(thread)), s.waiting[thread], s.tables;
            && after.waiting == s.waiting - {thread}
            && after.answers == s.answers && after.stores == s.stores && after.finished == s.finished
            && after.tables.cache == t.cache && after.tables.hits == t.hits
            && (ip in t.inFlight ==> after.tables == t && after.submitted == s.submitted)
            && (ip !in t.inFlight ==>
                  && after.tables.tasks == t.tasks[t.nextTask := Task(ip, false)]
                  && after.tables.inFlight == t.inFlight[ip := t.nextTask]
                  && after.tables.nextTask == t.nextTask + 1
                  && after.submitted == s.submitted + multiset{ip})
  {
  }

  /** Without a provider key the neutral result is kept for the time to live, which is never under a minute. */
  lemma UnavailableLeaves(s: State, ip: string, now: int, ttl: int)
    requires ip != ""
    ensures var after, lasts, a := Apply(s, Unavailable(ip, now, ttl)), if ttl < 60 then 60 else ttl, Assessment(Neutral, ProviderUnavailable, false, None);
            after == s.(tables := s.tables.(cache := s.tables.cache[ip := Entry(a, now + lasts)]), stores := s.stores + [Stored(ip, a, now, lasts)])
  {
  }

  lemma StoreLeaves(s: State, task: int, result: Assessment, now: int, ttl: int)
    requires task in s.tables.tasks && !s.tables.tasks[task].stored
    ensures var after, ip, lasts := Apply(s, Store(task, result, now, ttl)), s.tables.tasks[task].ip, if ttl < 60 then 60 else ttl;
            && after.tables == s.tables.(cache := s.tables.cache[ip := Entry(result, now + lasts)], tasks := s.tables.tasks[task := Task(ip, true)])
            && after == s.(tables := after.tables, stores := s.stores + [Stored(ip, result, now, lasts)])
  {
  }

  lemma FinishLeaves(s: State, task: int)
    requires task in s.tables.tasks
    ensures var after, ip := Apply(s, Finish(task)), s.tables.tasks[task].ip;
            && after.tables == s.tables.(inFlight := s.tables.inFlight - {ip}, tasks := s.tables.tasks - {task})
            && after == s.(tables := after.tables, finished := s.finished + multiset{ip})
  {
  }

  // ---------- who is served ----------

  /** stores[k] is the newest result stored for the IP. */
  ghost predicate IsNewest(stores: seq<Stored>, ip: string, k: int) {
    && 0 <= k < |stores| && stores[k].ip == ip
    && forall j :: k < j < |stores| ==> stores[j].ip != ip
  }

  /** Some look-up of the IP since stores[k] found it expired. */
  ghost predicate Dropped(answers: seq<Answered>, stores: seq<Stored>, ip: string, k: int)
    requires 0 <= k < |stores|
  {
    exists i :: 0 <= i < |answers| && answers[i].ip == ip && answers[i].seen > k && answers[i].now >= stores[k].at + stores[k].ttl
  }

  /** An IP is cached exactly while its newest result has not been found expired, and with that result. */
  ghost predicate CacheIsExact(s: State) {
    && (forall i :: 0 <= i < |s.answers| ==> s.answers[i].seen <= |s.stores|)
    && (forall ip :: ip in s.tables.cache ==> exists k :: IsNewest(s.stores, ip, k))
    && (forall ip, k :: IsNewest(s.stores, ip, k) ==>
          && (ip in s.tables.cache <==> !Dropped(s.answers, s.stores, ip, k))
          && (ip in s.tables.cache ==> s.tables.cache[ip] == Entry(s.stores[k].assessment, s.stores[k].at + s.stores[k].ttl)))
  }

  lemma LookUpKeepsExact(s: State, thread: int, ip: string, allowEnqueue: bool, now: int)
    requires CacheIsExact(s)
    ensures CacheIsExact(Apply(s, LookUp(thread, ip, allowEnqueue, now)))
  {
    if thread !in s.waiting && ip != "" {
      LookUpLeaves(s, thread, ip, allowEnqueue, now);
      var after := Apply(s, LookUp(thread, ip, allowEnqueue, now));
      hide Apply;
      var n := |s.answers|;
      forall other, k | IsNewest(s.stores, other, k)
        ensures other in after.tables.cache <==> !Dropped(after.answers, s.stores, other, k)
      {
        if Dropped(s.answers, s.stores, other, k) {
          var i :| 0 <= i < n && s.answers[i].ip == other && s.answers[i].seen > k && s.answers[i].now >= s.stores[k].at + s.stores[k].ttl;
          assert after.answers[i] == s.answers[i];
        }
        assert after.answers[n].seen == |s.stores| && after.answers[n].ip == ip && after.answers[n].now == now;
        if Dropped(after.answers, s.stores, other, k) {
          var i :| 0 <= i < n + 1 && after.answers[i].ip == other && after.answers[i].seen > k && after.answers[i].now >= s.stores[k].at + s.stores[k].ttl;
          assert i < n ==> after.answers[i] == s.answers[i];
        }
      }
    }
  }

  lemma StoreKeepsExact(s: State, after: State, added: Stored)
    requires CacheIsExact(s)
    requires after.answers == s.answers && after.stores == s.stores + [added]
    requires after.tables.cache == s.tables.cache[added.ip := Entry(added.assessment, added.at + added.ttl)]
    ensures CacheIsExact(after)
  {
    var n := |s.stores|;
    assert IsNewest(after.stores, added.ip, n);
    forall ip, k | IsNewest(after.stores, ip, k)
      ensures ip == added.ip ==> k == n
      ensures ip != added.ip ==> IsNewest(s.stores, ip, k) && after.stores[k] == s.stores[k]
    {
      assert after.stores[n] == added;
      assert forall j :: 0 <= j < n ==> after.stores[j] == s.stores[j];
    }
    forall ip | ip in after.tables.cache && ip != added.ip
      ensures exists k :: IsNewest(after.stores, ip, k)
    {
      var k :| IsNewest(s.stores, ip, k);
      assert IsNewest(after.stores, ip, k);
    }
  }

  lemma StepKeepsExact(s: State, step: Step)
    requires CacheIsExact(s)
    ensures CacheIsExact(Apply(s, step))
  {
    match step
    case LookUp(thread, ip, allowEnqueue, now) => LookUpKeepsExact(s, thread, ip, allowEnqueue, now);
    case Unavailable(ip, now, ttl) =>
      if ip != "" {
        UnavailableLeaves(s, ip, now, ttl);
        var after := Apply(s, step);
        StoreKeepsExact(s, after, after.stores[|s.stores|]);
      }
    case Store(task, result, now, ttl) =>
      if task in s.tables.tasks && !s.tables.tasks[task].stored {
        StoreLeaves(s, task, result, now, ttl);
        var after := Apply(s, step);
        StoreKeepsExact(s, after, after.stores[|s.stores|]);
      }
    case EnqueueNow(thread) =>
    case Finish(task) =>
  }

  lemma {:induction false} RunKeepsExact(s: State, steps: seq<Step>)
    requires CacheIsExact(s)
    ensures CacheIsExact(Run(s, steps))
    decreases |steps|
  {
    if steps != [] {
      StepKeepsExact(s, steps[0]);
      RunKeepsExact(Apply(s, steps[0]), steps[1..]);
    }
  }

  /**
   After any interleaving a look-up is served from the cache exactly when the newest result stored for its IP is still
   within its time to live and no look-up since has found it expired; it is then served that result.
   */
  lemma ServedExactlyWhen(steps: seq<Step>, thread: int, ip: string, allowEnqueue: bool, now: int)
    requires thread !in Run(START, steps).waiting && ip != ""
    ensures var s := Run(START, steps);
            var answers := Apply(s, LookUp(thread, ip, allowEnqueue, now)).answers;
            && |answers| == |s.answers| + 1
            && (answers[|s.answers|].answer.cached ==> exists k :: IsNewest(s.stores, ip, k))
            && (forall k :: IsNewest(s.stores, ip, k) ==>
                  && (answers[|s.answers|].answer.cached <==> now < s.stores[k].at + s.stores[k].ttl && !Dropped(s.answers, s.stores, ip, k))
                  && (answers[|s.answers|].answer.cached ==> answers[|s.answers|].answer == s.stores[k].assessment.(cached := true)))
  {
    var s := Run(START, steps);
    RunKeepsExact(START, steps);
    LookUpLeaves(s, thread, ip, allowEnqueue, now);
  }

  // ---------- what is refreshed ----------

  lemma {:induction false} RunJoins(s: State, first: seq<Step>, later: seq<Step>)
    ensures Run(s, first + later) == Run(Run(s, first), later)
    decreases |first|
  {
    if first == [] {
      assert first + later == later;
    } else {
      assert (first + later)[1..] == first[1..] + later;
      RunJoins(Apply(s, first[0]), first[1..], later);
    }
  }

  lemma {:induction false} StillWaiting(s: State, thread: int, between: seq<Step>)
    requires thread in s.waiting && EnqueueNow(thread) !in between
    ensures thread in Run(s, between).waiting && Run(s, between).waiting[thread] == s.waiting[thread]
    decreases |between|
  {
    if between != [] {
      assert between[0] in between;
      StillWaiting(Apply(s, between[0]), thread, between[1..]);
    }
  }

  /**
   Whoever may enqueue and finds nothing fresh finds a refresh of the IP live already, or one is live once the
   caller's second section has run, whatever ran in between.
   */
  lemma MissIsRefreshed(before: seq<Step>, thread: int, ip: string, now: int, between: seq<Step>)
    requires thread !in Run(START, before).waiting && ip != ""
    requires !Fresh(Run(START, before).tables, ip, now)
    requires EnqueueNow(thread) !in between
    ensures var all := before + [LookUp(thread, ip, true, now)] + between + [EnqueueNow(thread)];
            || RefreshLive(Run(START, before).tables.tasks, ip)
            || RefreshLive(Run(START, all).tables.tasks, ip)
  {
    var s, step := Run(START, before), LookUp(thread, ip, true, now);
    RunKeeps(START, before);
    if ip in s.tables.inFlight {
      InFlightIsLive(s.tables, ip);
    } else {
      LookUpLeaves(s, thread, ip, true, now);
      assert Run(s, [step]) == Apply(s, step);
      RunJoins(START, before, [step]);
      RunJoins(START, before + [step], between);
      StillWaiting(Apply(s, step), thread, between);
      RunJoins(START, before + [step] + between, [EnqueueNow(thread)]);
      EnqueueLeavesARefresh(before + [step] + between, thread);
      var mid := Run(START, before + [step] + between);
      assert Run(mid, [EnqueueNow(thread)]) == Apply(mid, EnqueueNow(thread));
    }
  }

  ghost predicate Permits(step: Step, ip: string) {
    step.LookUp? && step.ip == ip && step.allowEnqueue
  }

  /** Where no look-up of an IP may enqueue, no refresh of it is ever submitted. */
  lemma {:induction false} NothingSubmitted(s: State, steps: seq<Step>, ip: string)
    requires ip !in s.waiting.Values && s.submitted[ip] == 0
    requires forall i :: 0 <= i < |steps| ==> !Permits(steps[i], ip)
    ensures Run(s, steps).submitted[ip] == 0 && ip !in Run(s, steps).waiting.Values
    decreases |steps|
  {
    if steps != [] {
      var after := Apply(s, steps[0]);
      assert !Permits(steps[0], ip);
      assert steps[0].EnqueueNow? && steps[0].thread in s.waiting ==> s.waiting[steps[0].thread] in s.waiting.Values;
      forall thread | thread in after.waiting
        ensures after.waiting[thread] != ip
      {
        assert thread in s.waiting && after.waiting[thread] == s.waiting[thread] ==> s.waiting[thread] in s.waiting.Values;
      }
      NothingSubmitted(after, steps[1..], ip);
    }
  }
}
