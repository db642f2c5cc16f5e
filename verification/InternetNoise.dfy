/**
 The internet-noise cache: answers, background refreshes and the in-flight table, one lock section at a time.
 A caller runs a look-up section and sometimes, later, an enqueue section; a refresh task runs a store section
 (unless its lookup raised) and then a pop section. Sections of any threads interleave freely.
 */
module InternetNoise {
  import opened Common

  datatype Kind = Commodity | Malicious | Neutral

  datatype LookupStatus = Unknown | ProviderUnavailable | Stale | RefreshPending | LookedUp(text: string)

  datatype Assessment = Assessment(kind: Kind, status: LookupStatus, cached: bool, stale: Option<Kind>)

  datatype Entry = Entry(assessment: Assessment, expiresAt: int)

  /** A refresh handed to the executor and not yet popped. */
  datatype Task = Task(ip: string, stored: bool)

  /** What the look-up section found under the lock. */
  datatype Looked = Hit(assessment: Assessment) | Missed(expired: Option<Assessment>, inFlight: bool)

  datatype Tables = Tables(cache: map<string, Entry>, inFlight: map<string, int>, tasks: map<int, Task>, nextTask: int, hits: nat)

  const UNKNOWN := Assessment(Neutral, Unknown, false, None)
  const UNAVAILABLE := Assessment(Neutral, ProviderUnavailable, false, None)
  const MIN_TTL := 60

  function Ttl(configured: int): int {
    Max(configured, MIN_TTL)
  }

  function Look(t: Tables, ip: string, now: int): Looked {
    if ip in t.cache && t.cache[ip].expiresAt > now then Hit(t.cache[ip].assessment)
    else Missed(if ip in t.cache then Some(t.cache[ip].assessment) else None, ip in t.inFlight)
  }

  function AfterLook(t: Tables, ip: string, now: int): Tables {
    if Look(t, ip, now).Hit? then t.(hits := t.hits + 1) else t.(cache := t.cache - {ip})
  }

  /** Whether the caller goes on to its enqueue section. */
  predicate WillEnqueue(looked: Looked, allowEnqueue: bool) {
    looked.Missed? && allowEnqueue && !looked.inFlight
  }

  /** The caller's answer is fixed by what it saw under the lock. */
  function AnswerOf(looked: Looked, allowEnqueue: bool): Assessment {
    match looked
    case Hit(a) => a.(cached := true)
    case Missed(Some(expired), _) => Assessment(Neutral, Stale, false, Some(expired.kind))
    case Missed(None, inFlight) => if allowEnqueue && !inFlight then Assessment(Neutral, RefreshPending, false, None) else UNKNOWN
  }

  function Enqueue(t: Tables, ip: string): Tables {
    if ip in t.inFlight then t
    else t.(inFlight := t.inFlight[ip := t.nextTask], tasks := t.tasks[t.nextTask := Task(ip, false)], nextTask := t.nextTask + 1)
  }

  function StoreEntry(t: Tables, ip: string, a: Assessment, expiresAt: int): Tables {
    t.(cache := t.cache[ip := Entry(a, expiresAt)])
  }

  /** The task's store section; its lookup result is whatever the provider gave. */
  function StoreTask(t: Tables, id: int, a: Assessment, expiresAt: int): Tables
    requires id in t.tasks
  {
    StoreEntry(t, t.tasks[id].ip, a, expiresAt).(tasks := t.tasks[id := t.tasks[id].(stored := true)])
  }

  /** The task's finally: pop by IP. */
  function Pop(t: Tables, id: int): Tables
    requires id in t.tasks
  {
    t.(inFlight := t.inFlight - {t.tasks[id].ip}, tasks := t.tasks - {id})
  }

  /** The module's globals. Each method is one lock section, or a caller running alone. */
  class NoiseCache {
    var cache: map<string, Entry>
    var inFlight: map<string, int>
    var tasks: map<int, Task>
    var nextTask: int
    var hits: nat

    ghost function View(): Tables
      reads this
    {
      Tables(cache, inFlight, tasks, nextTask, hits)
    }

    constructor ()
      ensures View() == Tables(map[], map[], map[], 0, 0)
    {
      cache, inFlight, tasks, nextTask, hits := map[], map[], map[], 0, 0;
    }

    method LookUpSection(ip: string, now: int) returns (looked: Looked)
      modifies this
      ensures looked == Look(old(View()), ip, now) && View() == AfterLook(old(View()), ip, now)
    {
      var expired: Option<Assessment> := None;
      if ip in cache {
        var cached := cache[ip];
        if cached.expiresAt > now {
          hits := hits + 1;
          return Hit(cached.assessment);
        }
        expired := Some(cached.assessment);
      }
      cache := cache - {ip};
      return Missed(expired, ip in inFlight);
    }

    method EnqueueRefresh(ip: string)
      modifies this
      ensures View() == Enqueue(old(View()), ip)
    {
      if ip in inFlight { return; }
      var future := nextTask;
      tasks, nextTask := tasks[future := Task(ip, false)], nextTask + 1;
      inFlight := inFlight[ip := future];
    }

    method StoreSection(ip: string, a: Assessment, now: int, ttl: int)
      modifies this
      ensures View() == StoreEntry(old(View()), ip, a, now + Ttl(ttl))
    {
      cache := cache[ip := Entry(a, now + Ttl(ttl))];
    }

    /** _refresh_task: `result` is None when the lookup raised. */
    method RefreshTask(id: int, result: Option<Assessment>, now: int, ttl: int)
      requires id in tasks
      modifies this
      ensures var before := old(View());
              View() == Pop(if result.Some? then StoreTask(before, id, result.value, now + Ttl(ttl)) else before, id)
    {
      var ip := tasks[id].ip;
      if result.Some? {
        StoreSection(ip, result.value, now, ttl);
        tasks := tasks[id := tasks[id].(stored := true)];
      }
      inFlight := inFlight - {ip};
      tasks := tasks - {id};
    }

    /** get_internet_noise_assessment on a stripped address, with no other thread in between. */
    method GetInternetNoiseAssessment(ip: string, hasKey: bool, allowEnqueue: bool, now: int, ttl: int) returns (a: Assessment)
      modifies this
      ensures var before := old(View());
              if ip == "" then a == UNKNOWN && View() == before
              else if !hasKey then a == UNAVAILABLE && View() == StoreEntry(before, ip, UNAVAILABLE, now + Ttl(ttl))
              else
                && a == AnswerOf(Look(before, ip, now), allowEnqueue)
                && View() == if WillEnqueue(Look(before, ip, now), allowEnqueue) then Enqueue(AfterLook(before, ip, now), ip)
                             else AfterLook(before, ip, now)
    {
      if ip == "" { return UNKNOWN; }
      if !hasKey {
        StoreSection(ip, UNAVAILABLE, now, ttl);
        return UNAVAILABLE;
      }
      var looked := LookUpSection(ip, now);
      if looked.Hit? { return looked.assessment.(cached := true); }
      if looked.expired.Some? {
        if allowEnqueue && !looked.inFlight { EnqueueRefresh(ip); }
        return Assessment(Neutral, Stale, false, Some(looked.expired.value.kind));
      }
      if allowEnqueue && !looked.inFlight {
        EnqueueRefresh(ip);
        return Assessment(Neutral, RefreshPending, false, None);
      }
      return UNKNOWN;
    }
  }

  // ---------- interleavings ----------

  /** `seen` is how many stores had happened when the answer was fixed. */
  datatype Answered = Answered(ip: string, now: int, seen: nat, answer: Assessment)
  datatype Stored = Stored(ip: string, assessment: Assessment, at: int, ttl: int)

  /** The tables, the callers between their two sections, and the history of answers, stores, submissions and pops. */
  datatype State = State(
    tables: Tables,
    waiting: map<int, string>,
    answers: seq<Answered>,
    stores: seq<Stored>,
    submitted: multiset<string>,
    finished: multiset<string>)

  datatype Step =
    | LookUp(thread: int, ip: string, allowEnqueue: bool, now: int)
    | EnqueueNow(thread: int)
    | Unavailable(ip: string, now: int, ttl: int)
    | Store(task: int, result: Assessment, now: int, ttl: int)
    | Finish(task: int)

  function Apply(s: State, step: Step): State {
    match step
    case LookUp(thread, ip, allowEnqueue, now) =>
      if thread in s.waiting || ip == "" then s
      else s.(tables := AfterLook(s.tables, ip, now),
              waiting := if WillEnqueue(Look(s.tables, ip, now), allowEnqueue) then s.waiting[thread := ip] else s.waiting,
              answers := s.answers + [Answered(ip, now, |s.stores|, AnswerOf(Look(s.tables, ip, now), allowEnqueue))])
    case EnqueueNow(thread) =>
      if thread !in s.waiting then s
      else s.(tables := Enqueue(s.tables, s.waiting[thread]),
              waiting := s.waiting - {thread},
              submitted := if s.waiting[thread] in s.tables.inFlight then s.submitted else s.submitted + multiset{s.waiting[thread]})
    case Unavailable(ip, now, ttl) =>
      if ip == "" then s
      else s.(tables := StoreEntry(s.tables, ip, UNAVAILABLE, now + Ttl(ttl)), stores := s.stores + [Stored(ip, UNAVAILABLE, now, Ttl(ttl))])
    case Store(task, result, now, ttl) =>
      if task !in s.tables.tasks || s.tables.tasks[task].stored then s
      else s.(tables := StoreTask(s.tables, task, result, now + Ttl(ttl)),
              stores := s.stores + [Stored(s.tables.tasks[task].ip, result, now, Ttl(ttl))])
    case Finish(task) =>
      if task !in s.tables.tasks then s
      else s.(tables := Pop(s.tables, task), finished := s.finished + multiset{s.tables.tasks[task].ip})
  }

  function Run(s: State, steps: seq<Step>): State
    decreases |steps|
  {
    if steps == [] then s else Run(Apply(s, steps[0]), steps[1..])
  }

  const START := State(Tables(map[], map[], map[], 0, 0), map[], [], [], multiset{}, multiset{})

  /** In-flight entries and live tasks name each other. */
  ghost predicate SingleFlight(t: Tables) {
    && (forall ip :: ip in t.inFlight ==> t.inFlight[ip] in t.tasks && t.tasks[t.inFlight[ip]].ip == ip)
    && (forall id :: id in t.tasks ==> id < t.nextTask && t.tasks[id].ip in t.inFlight && t.inFlight[t.tasks[id].ip] == id)
  }

  /** Every submission but the live one has finished. */
  ghost predicate Counted(s: State) {
    forall ip :: s.submitted[ip] == s.finished[ip] + if ip in s.tables.inFlight then 1 else 0
  }

  function NewestStore(stores: seq<Stored>, ip: string): Option<Stored> {
    if stores == [] then None
    else if stores[|stores| - 1].ip == ip then Some(stores[|stores| - 1])
    else NewestStore(stores[..|stores| - 1], ip)
  }

  ghost predicate CacheIsNewest(t: Tables, stores: seq<Stored>) {
    forall ip :: ip in t.cache ==>
      var newest := NewestStore(stores, ip);
      newest.Some? && t.cache[ip] == Entry(newest.value.assessment, newest.value.at + newest.value.ttl)
  }

  /** Not from the cache and neutral, or the newest result stored for the IP so far, still within its TTL. */
  ghost predicate Justified(a: Answered, stores: seq<Stored>) {
    if !a.answer.cached then a.answer.kind == Neutral
    else
      && a.seen <= |stores|
      && var newest := NewestStore(stores[..a.seen], a.ip);
         newest.Some? && a.answer == newest.value.assessment.(cached := true) && a.now < newest.value.at + newest.value.ttl
  }

  ghost predicate AnswersJustified(answers: seq<Answered>, stores: seq<Stored>) {
    forall i :: 0 <= i < |answers| ==> Justified(answers[i], stores)
  }

  function CachedAnswers(answers: seq<Answered>): nat {
    if answers == [] then 0
    else CachedAnswers(answers[..|answers| - 1]) + if answers[|answers| - 1].answer.cached then 1 else 0
  }

  ghost predicate Invariant(s: State) {
    && SingleFlight(s.tables)
    && Counted(s)
    && CacheIsNewest(s.tables, s.stores)
    && AnswersJustified(s.answers, s.stores)
    && CachedAnswers(s.answers) == s.tables.hits
  }

  /** The answer fixed under the lock is justified by the stores so far. */
  lemma AnswerIsJustified(t: Tables, stores: seq<Stored>, ip: string, allowEnqueue: bool, now: int)
    requires CacheIsNewest(t, stores)
    ensures Justified(Answered(ip, now, |stores|, AnswerOf(Look(t, ip, now), allowEnqueue)), stores)
    ensures AnswerOf(Look(t, ip, now), allowEnqueue).cached <==> Look(t, ip, now).Hit?
  {
    assert stores[..|stores|] == stores;
  }

  lemma LookUpKeeps(s: State, thread: int, ip: string, allowEnqueue: bool, now: int)
    requires Invariant(s)
    ensures Invariant(Apply(s, LookUp(thread, ip, allowEnqueue, now)))
  {
    hide NewestStore, Justified, AnswerOf;
    AnswerIsJustified(s.tables, s.stores, ip, allowEnqueue, now);
    var after := Apply(s, LookUp(thread, ip, allowEnqueue, now));
    if after != s {
      assert after.answers[..|s.answers|] == s.answers;
    }
  }

  lemma StoreKeeps(stores: seq<Stored>, added: Stored, t: Tables, answers: seq<Answered>)
    requires CacheIsNewest(t, stores) && AnswersJustified(answers, stores)
    ensures CacheIsNewest(StoreEntry(t, added.ip, added.assessment, added.at + added.ttl), stores + [added])
    ensures AnswersJustified(answers, stores + [added])
  {
    var all := stores + [added];
    assert all[..|stores|] == stores;
    forall i | 0 <= i < |answers|
      ensures Justified(answers[i], all)
    {
      assert Justified(answers[i], stores);
      assert answers[i].seen <= |stores| ==> all[..answers[i].seen] == stores[..answers[i].seen];
    }
  }

  lemma EnqueueKeeps(s: State, thread: int)
    requires Invariant(s)
    ensures Invariant(Apply(s, EnqueueNow(thread)))
  {
  }

  lemma FinishKeeps(s: State, task: int)
    requires Invariant(s)
    ensures Invariant(Apply(s, Finish(task)))
  {
  }

  lemma StepKeeps(s: State, step: Step)
    requires Invariant(s)
    ensures Invariant(Apply(s, step))
  {
    match step
    case LookUp(thread, ip, allowEnqueue, now) => LookUpKeeps(s, thread, ip, allowEnqueue, now);
    case EnqueueNow(thread) => EnqueueKeeps(s, thread);
    case Unavailable(ip, now, ttl) => StoreKeeps(s.stores, Stored(ip, UNAVAILABLE, now, Ttl(ttl)), s.tables, s.answers);
    case Store(task, result, now, ttl) =>
      if task in s.tables.tasks {
        StoreKeeps(s.stores, Stored(s.tables.tasks[task].ip, result, now, Ttl(ttl)), s.tables, s.answers);
      }
    case Finish(task) => FinishKeeps(s, task);
  }

  lemma {:induction false} RunKeeps(s: State, steps: seq<Step>)
    requires Invariant(s)
    ensures Invariant(Run(s, steps))
    decreases |steps|
  {
    if steps != [] {
      StepKeeps(s, steps[0]);
      RunKeeps(Apply(s, steps[0]), steps[1..]);
    }
  }

  /** Under every interleaving at most one unfinished refresh exists per IP, and it is in flight exactly until it pops itself. */
  lemma OneRefreshPerIp(steps: seq<Step>, ip: string)
    ensures var s := Run(START, steps);
            && (forall a, b :: a in s.tables.tasks && b in s.tables.tasks && s.tables.tasks[a].ip == s.tables.tasks[b].ip ==> a == b)
            && (ip in s.tables.inFlight <==> exists id :: id in s.tables.tasks && s.tables.tasks[id].ip == ip)
            && s.submitted[ip] == s.finished[ip] + if ip in s.tables.inFlight then 1 else 0
  {
    RunKeeps(START, steps);
  }

  /**
   Whatever interleaves, an answer that is not neutral is the newest result stored for its IP when it was given, and
   that result was still within its TTL; the hit counter counts exactly the answers served from the cache.
   */
  lemma AnswersAreFresh(steps: seq<Step>, i: nat)
    requires i < |Run(START, steps).answers|
    ensures var s := Run(START, steps);
            && Justified(s.answers[i], s.stores)
            && CachedAnswers(s.answers) == s.tables.hits
  {
    RunKeeps(START, steps);
  }

  ghost predicate RefreshLive(tasks: map<int, Task>, ip: string) {
    exists id :: id in tasks && tasks[id].ip == ip
  }

  lemma InFlightIsLive(t: Tables, ip: string)
    requires SingleFlight(t) && ip in t.inFlight
    ensures RefreshLive(t.tasks, ip)
  {
    var id := t.inFlight[ip];
    assert id in t.tasks && t.tasks[id].ip == ip;
  }

  /** Whoever is told that a refresh is due finds one live once its enqueue section has run, whatever ran in between. */
  lemma EnqueueLeavesARefresh(steps: seq<Step>, thread: int)
    requires thread in Run(START, steps).waiting
    ensures var s := Run(START, steps); RefreshLive(Apply(s, EnqueueNow(thread)).tables.tasks, s.waiting[thread])
  {
    RunKeeps(START, steps);
    var s := Run(START, steps);
    EnqueueKeeps(s, thread);
    InFlightIsLive(Apply(s, EnqueueNow(thread)).tables, s.waiting[thread]);
  }
}
