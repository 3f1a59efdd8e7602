/** The read-through plan cache: Redis in front of the tenants table, with a five-minute lifetime and
    explicit invalidation by every writer of the plan. Keys of different tenants are independent,
    so the interleavings are those of one tenant. Instants are integers (seconds). */
module PlanCache {
  import opened Options

  const TTL: int := 300

  /** A cached plan. `readAt`, when the database was read for it, and `setAt`, when it was cached, serve
      the analysis only. */
  datatype Entry = Entry(plan: string, expires: int, readAt: int, setAt: int)

  /** What a cache read finds: an expired entry is gone, and an empty plan counts as a miss. */
  function Hit(entry: Option<Entry>, now: int): Option<string>
  {
    if entry.Some? && now < entry.value.expires && entry.value.plan != "" then Some(entry.value.plan) else None
  }

  function Cached(plan: string, readAt: int, setAt: int): Entry
  {
    Entry(plan, setAt + TTL, readAt, setAt)
  }

  /** A cached plan answers for five minutes, 300 seconds, and no longer; an empty one never does. */
  lemma CachedForFiveMinutes(plan: string, readAt: int, setAt: int, now: int)
    ensures Hit(Some(Cached(plan, readAt, setAt)), now) == if now < setAt + 300 && plan != "" then Some(plan) else None
  {
  }

  // ------------------------------------------------------ the calls, run alone

  /** What may go wrong in one lookup, and the instants of its database read and cache write. */
  datatype Env = Env(getOk: bool, dbOk: bool, setOk: bool, readAt: int, setAt: int)

  /** Without Redis every command to it goes the way of a failed one. */
  function Reachable(env: Env, connected: bool): Env
  {
    env.(getOk := env.getOk && connected, setOk := env.setOk && connected)
  }

  /** One lookup: what it leaves in the cache, and its answer, which is None on an error. A hit answers
      from the cache; anything else answers from the table, and fails only with it. */
  function LookedUp(entry: Option<Entry>, plan: Option<string>, now: int, env: Env): (Option<Entry>, Option<string>)
  {
    var hit := if env.getOk then Hit(entry, now) else None;
    if hit.Some? then (entry, hit)
    else if !env.dbOk || plan.None? then (entry, None)
    else (if env.setOk then Some(Cached(plan.value, env.readAt, env.setAt)) else entry, plan)
  }

  class Store {
    var plans: map<nat, string>
    var redis: map<nat, Entry>
    const connected: bool

    constructor (plans: map<nat, string>, connected: bool)
      ensures this.plans == plans && redis == map[] && this.connected == connected
    {
      this.plans := plans;
      redis := map[];
      this.connected := connected;
    }

    function EntryOf(tenant: nat): Option<Entry>
      reads this
    {
      if connected && tenant in redis then Some(redis[tenant]) else None
    }

    function PlanOf(tenant: nat): Option<string>
      reads this
    {
      if tenant in plans then Some(plans[tenant]) else None
    }

    method GetCachedPlan(tenant: nat, now: int, env: Env) returns (plan: Option<string>)
      modifies this`redis
      ensures var (entry, answer) := LookedUp(old(EntryOf(tenant)), PlanOf(tenant), now, Reachable(env, connected));
        plan == answer && EntryOf(tenant) == entry
      ensures forall other :: other != tenant ==> EntryOf(other) == old(EntryOf(other))
      ensures !connected ==> redis == old(redis)
    {
      if connected {
        if env.getOk && tenant in redis && now < redis[tenant].expires && redis[tenant].plan != "" {
          return Some(redis[tenant].plan);
        }
      }
      if !env.dbOk || tenant !in plans {
        return None;
      }
      plan := Some(plans[tenant]);
      if connected {
        if env.setOk {
          redis := redis[tenant := Cached(plan.value, env.readAt, env.setAt)];
        }
      }
    }

    method InvalidatePlanCache(tenant: nat, delOk: bool) returns (ok: bool)
      modifies this`redis
      ensures ok <==> !connected || delOk
      ensures redis == if connected && delOk then old(redis) - {tenant} else old(redis)
    {
      if !connected {
        return true;
      }
      if !delOk {
        return false;
      }
      redis := redis - {tenant};
      return true;
    }
  }

  // --------------------------------------------------------- interleavings

  /** The plan column over time: each write, with its instant. */
  datatype Change = Change(at: int, plan: string)

  /** A lookup that missed, and one that has read the table, and which change it saw there, and will now
      write the cache. */
  datatype Reader = Missed | Read(plan: string, readAt: int, seen: nat)

  /** An answer: the plan, when it was given, and when its database read happened and was cached. */
  datatype Answer = Answer(plan: string, at: int, readAt: int, setAt: int)

  /** Of a cached entry: which change its database read saw, and which was the last when it was cached. */
  datatype Origin = Origin(seen: nat, stored: nat)

  /** `pending` gives for each writer still to invalidate the change it has made; `failed` holds the
      changes whose invalidation has failed. */
  datatype State = State(
    now: int, history: seq<Change>, entry: Option<Entry>, origin: Origin, readers: map<nat, Reader>,
    pending: map<nat, nat>, failed: set<nat>, answers: seq<Answer>)

  datatype Step =
    | Tick(seconds: nat)
    | Get(reader: nat, ok: bool)
    | ReadTable(reader: nat, ok: bool)
    | SetCache(reader: nat, ok: bool)
    | WritePlan(writer: nat, plan: string)
    | Invalidate(writer: nat, ok: bool)

  function Plan(s: State): string
    requires s.history != []
  {
    s.history[|s.history| - 1].plan
  }

  function Last(s: State): nat
    requires s.history != []
  {
    |s.history| - 1
  }

  function Next(s: State, step: Step): State
    requires s.history != []
  {
    match step
    case Tick(seconds) => s.(now := s.now + seconds)
    case Get(r, ok) =>
      var hit := if ok then Hit(s.entry, s.now) else None;
      if r in s.readers then s
      else if hit.Some?
      then s.(answers := s.answers + [Answer(hit.value, s.now, s.entry.value.readAt, s.entry.value.setAt)])
      else s.(readers := s.readers[r := Missed])
    case ReadTable(r, ok) =>
      if r !in s.readers || !s.readers[r].Missed? then s
      else if !ok then s.(readers := s.readers - {r})
      else s.(readers := s.readers[r := Read(Plan(s), s.now, Last(s))])
    case SetCache(r, ok) =>
      if r !in s.readers || !s.readers[r].Read? then s
      else
        var w := s.readers[r];
        s.(readers := s.readers - {r},
           entry := if ok then Some(Cached(w.plan, w.readAt, s.now)) else s.entry,
           origin := if ok then Origin(w.seen, Last(s)) else s.origin,
           answers := s.answers + [Answer(w.plan, s.now, w.readAt, s.now)])
    case WritePlan(w, plan) =>
      if w in s.pending then s
      else s.(history := s.history + [Change(s.now, plan)], pending := s.pending[w := |s.history|])
    case Invalidate(w, ok) =>
      if w !in s.pending then s
      else
        s.(pending := s.pending - {w},
           entry := if ok then None else s.entry,
           failed := if ok then s.failed else s.failed + {s.pending[w]})
  }

  function Run(s: State, steps: seq<Step>): (s': State)
    requires s.history != []
    ensures s'.history != []
    decreases |steps|
  {
    if steps == [] then s else Run(Next(s, steps[0]), steps[1..])
  }

  /** The steps of one lookup, run alone; those that are not possible change nothing. */
  function Solo(now: int, env: Env): seq<Step>
    requires now <= env.readAt <= env.setAt
  {
    [Get(0, env.getOk), Tick(env.readAt - now), ReadTable(0, env.dbOk), Tick(env.setAt - env.readAt),
     SetCache(0, env.setOk)]
  }

  function AnswerOf(answers: seq<Answer>): Option<string>
  {
    if answers == [] then None else Some(answers[|answers| - 1].plan)
  }

  lemma SoloSteps(s: State, env: Env) returns (s1: State, s2: State, s3: State, s4: State, s5: State)
    requires s.history != [] && s.readers == map[] && s.answers == []
    requires s.now <= env.readAt <= env.setAt
    ensures var steps := Solo(s.now, env);
      && s1 == Next(s, steps[0]) && s1.history != [] && s2 == Next(s1, steps[1]) && s2.history != []
      && s3 == Next(s2, steps[2]) && s3.history != [] && s4 == Next(s3, steps[3]) && s4.history != []
      && s5 == Next(s4, steps[4]) && s5.history != []
    ensures (s5.entry, AnswerOf(s5.answers)) == LookedUp(s.entry, Some(Plan(s)), s.now, env)
  {
    var steps := Solo(s.now, env);
    s1 := Next(s, steps[0]);
    s2 := Next(s1, steps[1]);
    s3 := Next(s2, steps[2]);
    s4 := Next(s3, steps[3]);
    s5 := Next(s4, steps[4]);
    if s1.readers == map[] {
      assert s5.entry == s.entry && s5.answers == s1.answers;
    } else if !env.dbOk {
      assert s3.readers == map[] && s5.entry == s.entry && s5.answers == [];
    } else {
      assert s4.readers[0] == Read(Plan(s), env.readAt, Last(s));
    }
  }

  /** The call, run alone, is the protocol's steps in order: same cache, same answer. */
  lemma SoloLookupIsProtocol(s: State, env: Env)
    requires s.history != [] && s.readers == map[] && s.answers == []
    requires s.now <= env.readAt <= env.setAt
    ensures var s' := Run(s, Solo(s.now, env));
      (s'.entry, AnswerOf(s'.answers)) == LookedUp(s.entry, Some(Plan(s)), s.now, env)
  {
    hide Next, LookedUp, AnswerOf;
    var s1, s2, s3, s4, s5 := SoloSteps(s, env);
    RunIs(s, Solo(s.now, env), s1, s2, s3, s4, s5);
  }

  /** `plan` was the tenant's plan in the table at instant `at`. */
  ghost predicate WasPlan(history: seq<Change>, plan: string, at: int)
  {
    exists i :: 0 <= i < |history| && InForce(history, i, plan, at)
  }

  ghost predicate InForce(history: seq<Change>, i: nat, plan: string, at: int)
    requires i < |history|
  {
    history[i].plan == plan && history[i].at <= at && (i + 1 < |history| ==> at <= history[i + 1].at)
  }

  lemma LaterWriteKeepsPast(history: seq<Change>, c: Change, plan: string, at: int)
    requires WasPlan(history, plan, at) && at <= c.at
    ensures WasPlan(history + [c], plan, at)
  {
    var i :| 0 <= i < |history| && InForce(history, i, plan, at);
    assert InForce(history + [c], i, plan, at);
  }

  // ------------------------------------------------- how old an answer can be

  /** An answer is right about the instant of its database read, which lies no further back than the
      cache lifetime plus the time that read was in flight. */
  ghost predicate Honest(s: State, a: Answer)
  {
    WasPlan(s.history, a.plan, a.readAt) && a.readAt <= a.setAt <= a.at <= s.now
    && a.at - a.readAt <= 300 + (a.setAt - a.readAt)
  }

  ghost predicate Truthful(s: State)
  {
    && s.history != [] && s.history[|s.history| - 1].at <= s.now
    && (forall r :: r in s.readers && s.readers[r].Read? ==>
          WasPlan(s.history, s.readers[r].plan, s.readers[r].readAt) && s.readers[r].readAt <= s.now)
    && (s.entry.Some? ==> EntryTruthful(s, s.entry.value))
    && (forall i :: 0 <= i < |s.answers| ==> Honest(s, s.answers[i]))
  }

  ghost predicate EntryTruthful(s: State, e: Entry)
  {
    WasPlan(s.history, e.plan, e.readAt) && e.readAt <= e.setAt <= s.now && e.expires == e.setAt + TTL
  }

  lemma WriteKeepsTruth(s: State, w: nat, plan: string)
    requires Truthful(s) && w !in s.pending
    ensures Truthful(Next(s, WritePlan(w, plan)))
  {
    var s', c := Next(s, WritePlan(w, plan)), Change(s.now, plan);
    forall r | r in s'.readers && s'.readers[r].Read?
      ensures WasPlan(s'.history, s'.readers[r].plan, s'.readers[r].readAt)
    {
      LaterWriteKeepsPast(s.history, c, s.readers[r].plan, s.readers[r].readAt);
    }
    if s.entry.Some? {
      LaterWriteKeepsPast(s.history, c, s.entry.value.plan, s.entry.value.readAt);
    }
    forall i | 0 <= i < |s'.answers| ensures Honest(s', s'.answers[i]) {
      assert Honest(s, s.answers[i]);
      LaterWriteKeepsPast(s.history, c, s.answers[i].plan, s.answers[i].readAt);
    }
  }

  lemma NextKeepsTruth(s: State, step: Step)
    requires Truthful(s)
    ensures Truthful(Next(s, step))
  {
    if step.WritePlan? && step.writer !in s.pending {
      WriteKeepsTruth(s, step.writer, step.plan);
    } else {
      hide WasPlan;
      var s' := Next(s, step);
      forall i | 0 <= i < |s'.answers| ensures Honest(s', s'.answers[i]) {
        if i < |s.answers| {
          assert Honest(s, s.answers[i]);
        }
      }
      CurrentPlanIsInForce(s);
    }
  }

  lemma CurrentPlanIsInForce(s: State)
    requires s.history != [] && s.history[|s.history| - 1].at <= s.now
    ensures WasPlan(s.history, Plan(s), s.now)
  {
    assert InForce(s.history, |s.history| - 1, Plan(s), s.now);
  }

  /** Over any interleaving of lookups, writes and invalidations, failing or not: every plan a lookup
      returns was the tenant's plan at some instant no older than the lifetime plus the time its
      database read was in flight. */
  lemma {:induction false} AnswersAreRecent(s: State, steps: seq<Step>, i: nat)
    requires Truthful(s) && i < |Run(s, steps).answers|
    ensures Honest(Run(s, steps), Run(s, steps).answers[i])
    ensures Truthful(Run(s, steps))
    decreases |steps|
  {
    if steps != [] {
      NextKeepsTruth(s, steps[0]);
      AnswersAreRecent(Next(s, steps[0]), steps[1..], i);
    } else {
      assert Honest(s, s.answers[i]);
    }
  }

  // ------------------------------------------------ when the cache is stale

  /** Change i has been made and the invalidation that belongs to it has not gone through. */
  ghost predicate Uninvalidated(s: State, i: nat)
  {
    i in s.failed || i in s.pending.Values
  }

  /** Readers and the cached entry carry the plan of the change they saw, changes are numbered in the
      order they were made, and each one since the entry was cached is still uninvalidated: a successful
      invalidation would have deleted the entry. */
  ghost predicate Indexed(s: State)
  {
    && s.history != []
    && (forall r :: r in s.readers && s.readers[r].Read? ==>
          s.readers[r].seen <= Last(s) && s.readers[r].plan == s.history[s.readers[r].seen].plan)
    && (forall i: nat :: Uninvalidated(s, i) ==> i <= Last(s))
    && (s.entry.Some? ==>
          && s.origin.seen <= s.origin.stored <= Last(s)
          && s.entry.value.plan == s.history[s.origin.seen].plan
          && forall i: nat :: s.origin.stored < i <= Last(s) ==> Uninvalidated(s, i))
  }

  lemma InvalidationMoves(s: State, w: nat, ok: bool, i: nat)
    requires s.history != [] && w in s.pending
    ensures Uninvalidated(Next(s, Invalidate(w, ok)), i) ==> Uninvalidated(s, i)
    ensures !ok && Uninvalidated(s, i) ==> Uninvalidated(Next(s, Invalidate(w, ok)), i)
  {
    var s' := Next(s, Invalidate(w, ok));
    if i in s.pending.Values {
      var v :| v in s.pending && s.pending[v] == i;
      assert v != w ==> v in s'.pending && s'.pending[v] == i;
    }
  }

  lemma WriteAdds(s: State, w: nat, plan: string, i: nat)
    requires s.history != [] && w !in s.pending
    ensures Uninvalidated(Next(s, WritePlan(w, plan)), i) <==> Uninvalidated(s, i) || i == |s.history|
  {
    var s' := Next(s, WritePlan(w, plan));
    assert s'.pending[w] == |s.history|;
    if i in s.pending.Values {
      var v :| v in s.pending && s.pending[v] == i;
      assert s'.pending[v] == i;
    }
  }

  lemma NextKeepsIndexed(s: State, step: Step)
    requires Indexed(s)
    ensures Indexed(Next(s, step))
  {
    hide Uninvalidated;
    if step.WritePlan? && step.writer !in s.pending {
      forall i: nat ensures Uninvalidated(Next(s, step), i) <==> Uninvalidated(s, i) || i == |s.history| {
        WriteAdds(s, step.writer, step.plan, i);
      }
    } else if step.Invalidate? && step.writer in s.pending {
      forall i: nat
        ensures Uninvalidated(Next(s, step), i) ==> Uninvalidated(s, i)
        ensures !step.ok && Uninvalidated(s, i) ==> Uninvalidated(Next(s, step), i)
      {
        InvalidationMoves(s, step.writer, step.ok, i);
      }
    } else {
      SamePending(s, step);
    }
  }

  lemma SamePending(s: State, step: Step)
    requires s.history != []
    requires !(step.WritePlan? && step.writer !in s.pending) && !(step.Invalidate? && step.writer in s.pending)
    ensures forall i: nat :: Uninvalidated(Next(s, step), i) <==> Uninvalidated(s, i)
  {
  }

  lemma {:induction false} RunKeepsIndexed(s: State, steps: seq<Step>)
    requires Indexed(s)
    ensures Indexed(Run(s, steps))
    decreases |steps|
  {
    if steps != [] {
      NextKeepsIndexed(s, steps[0]);
      RunKeepsIndexed(Next(s, steps[0]), steps[1..]);
    }
  }

  /** What makes an entry out of date: a change between its database read and its being cached, or one
      after that read whose invalidation has failed or is still to come. */
  ghost predicate OutOfDate(s: State)
  {
    s.origin.seen < s.origin.stored || exists i: nat :: s.origin.seen < i && Uninvalidated(s, i)
  }

  /** Over any interleaving, as long as the plans written since the entry's read are new ones, the cached
      plan differs from the table's iff its read overlapped a change, or the invalidation of some later
      change has failed or is still to come. */
  lemma StaleExactly(s: State, steps: seq<Step>)
    requires Indexed(s)
    ensures var e := Run(s, steps);
      e.entry.Some? ==>
        && e.origin.seen < |e.history| && e.entry.value.plan == e.history[e.origin.seen].plan
        && (e.origin.seen < Last(e) <==> OutOfDate(e))
        && ((forall i :: e.origin.seen < i < |e.history| ==> e.history[i].plan != e.entry.value.plan) ==>
              (e.entry.value.plan != Plan(e) <==> OutOfDate(e)))
  {
    RunKeepsIndexed(s, steps);
    var e := Run(s, steps);
    if e.entry.Some? && e.origin.seen == e.origin.stored && e.origin.seen < Last(e) {
      assert Uninvalidated(e, Last(e));
    }
  }

  /** A run in which every invalidation succeeds and no write falls between a table read and the
      cache write that follows it. */
  ghost predicate Disciplined(s: State, steps: seq<Step>)
    requires s.history != []
    decreases |steps|
  {
    steps != [] ==>
      && (steps[0].Invalidate? ==> steps[0].ok)
      && (steps[0].WritePlan? ==> forall r :: r in s.readers ==> !s.readers[r].Read?)
      && Disciplined(Next(s, steps[0]), steps[1..])
  }

  ghost predicate Untainted(s: State)
  {
    && s.history != [] && s.failed == {}
    && (forall r :: r in s.readers && s.readers[r].Read? ==> s.readers[r].seen == Last(s))
    && (s.entry.Some? ==> s.origin.seen == s.origin.stored)
  }

  lemma {:induction false} DisciplineKeepsUntainted(s: State, steps: seq<Step>)
    requires Untainted(s) && Disciplined(s, steps)
    ensures Untainted(Run(s, steps))
    decreases |steps|
  {
    if steps != [] {
      DisciplineKeepsUntainted(Next(s, steps[0]), steps[1..]);
    }
  }

  /** Under that discipline the cached entry equals the database plan whenever no write is waiting
      for its invalidation. */
  lemma CacheTracksTable(s: State, steps: seq<Step>)
    requires Indexed(s) && Untainted(s) && Disciplined(s, steps)
    ensures var e := Run(s, steps);
      e.entry.Some? && e.pending == map[] ==> e.entry.value.plan == Plan(e)
  {
    StaleExactly(s, steps);
    DisciplineKeepsUntainted(s, steps);
  }

  /** Neither half of the discipline can be dropped: a read that overlaps a write caches the old plan
      after the invalidation, ... */
  lemma OverlapLeavesStale(s: State)
    requires s == State(0, [Change(0, "free")], None, Origin(0, 0), map[], map[], {}, [])
    ensures var end := Run(s, [Get(0, true), ReadTable(0, true), WritePlan(1, "estate"), Invalidate(1, true),
                               SetCache(0, true)]);
      end.pending == map[] && Hit(end.entry, end.now) == Some("free") && Plan(end) == "estate"
  {
    var steps := [Get(0, true), ReadTable(0, true), WritePlan(1, "estate"), Invalidate(1, true), SetCache(0, true)];
    var s1 := Next(s, steps[0]);
    var s2 := Next(s1, steps[1]);
    var s3 := Next(s2, steps[2]);
    var s4 := Next(s3, steps[3]);
    var s5 := Next(s4, steps[4]);
    assert s2.readers == map[0 := Read("free", 0, 0)];
    RunIs(s, steps, s1, s2, s3, s4, s5);
  }

  /** ... and a failed invalidation leaves it there. */
  lemma FailureLeavesStale(s: State)
    requires s == State(0, [Change(0, "free")], None, Origin(0, 0), map[], map[], {}, [])
    ensures var end := Run(s, [Get(0, true), ReadTable(0, true), SetCache(0, true), WritePlan(1, "estate"),
                               Invalidate(1, false)]);
      end.pending == map[] && Hit(end.entry, end.now) == Some("free") && Plan(end) == "estate"
  {
    var steps := [Get(0, true), ReadTable(0, true), SetCache(0, true), WritePlan(1, "estate"), Invalidate(1, false)];
    var s1 := Next(s, steps[0]);
    var s2 := Next(s1, steps[1]);
    var s3 := Next(s2, steps[2]);
    var s4 := Next(s3, steps[3]);
    var s5 := Next(s4, steps[4]);
    assert s2.readers == map[0 := Read("free", 0, 0)];
    RunIs(s, steps, s1, s2, s3, s4, s5);
  }

  lemma RunStep(s: State, steps: seq<Step>, n: nat)
    requires n < |steps| && s.history != [] && Next(s, steps[n]).history != []
    ensures Run(s, steps[n..]) == Run(Next(s, steps[n]), steps[n + 1..])
  {
    assert steps[n..][1..] == steps[n + 1..];
  }

  lemma RunIs(s: State, steps: seq<Step>, s1: State, s2: State, s3: State, s4: State, s5: State)
    requires |steps| == 5 && s.history != [] && s1 == Next(s, steps[0])
    requires s1.history != [] && s2 == Next(s1, steps[1])
    requires s2.history != [] && s3 == Next(s2, steps[2])
    requires s3.history != [] && s4 == Next(s3, steps[3])
    requires s4.history != [] && s5 == Next(s4, steps[4]) && s5.history != []
    ensures Run(s, steps) == s5
  {
    hide Next;
    assert steps[0..] == steps;
    RunStep(s, steps, 0);
    RunStep(s1, steps, 1);
    RunStep(s2, steps, 2);
    RunStep(s3, steps, 3);
    RunStep(s4, steps, 4);
  }
}
