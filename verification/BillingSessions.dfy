/** The tenant record when the statements of failures and sweeps interleave. A failed payment is three
    statements (count, stamp, suspend) and a sweep is a query and a later downgrade; between them any
    other session may run. Each statement is atomic. The record is that of one tenant. */
module BillingSessions {
  import opened Options
  import opened TenantBilling

  /** A redeemed trial of a plan. */
  datatype Grant = Grant(plan: Plan, endsAt: int)

  /** What a session has still to do: stamp, suspend, or downgrade what its query listed. */
  datatype Session = ToStamp | ToSuspend | GraceListed | TrialListed(plan: Plan)

  datatype State = State(row: Tenant, sessions: map<nat, Session>, grants: set<Grant>)

  datatype Action =
    | Write(event: Event)
    | Redeem(grant: Grant)
    | Count(sid: nat, now: int)
    | Stamp(sid: nat, now: int, ok: bool)
    | Suspend(sid: nat, ok: bool)
    | ListGrace(sid: nat, now: int)
    | DowngradeGrace(sid: nat, ok: bool)
    | ListTrial(sid: nat, now: int)
    | DowngradeTrial(sid: nat, ok: bool)

  // ------------------------------------------------------------- the steps

  /** The events that are one statement. */
  predicate Single(e: Event)
  {
    e.Checkout? || e.InvoicePaid? || e.SubscriptionUpdated? || e.SubscriptionDeleted? || e.TrialStart?
  }

  predicate Buys(a: Action)
  {
    a.Write? && a.event.Checkout?
  }

  predicate Pays(a: Action)
  {
    a.Write? && a.event.InvoicePaid?
  }

  predicate Leaves(a: Action)
  {
    a.Write? && a.event.SubscriptionDeleted?
  }

  predicate Holds(s: State, sid: nat, w: Session)
  {
    sid in s.sessions && s.sessions[sid] == w
  }

  predicate Counts(s: State, a: Action)
  {
    a.Count? && a.sid !in s.sessions
  }

  predicate Stamps(s: State, a: Action)
  {
    a.Stamp? && a.ok && Holds(s, a.sid, ToStamp)
  }

  predicate Suspends(s: State, a: Action)
  {
    a.Suspend? && a.ok && Holds(s, a.sid, ToSuspend)
  }

  predicate Downgrades(s: State, a: Action)
  {
    a.DowngradeGrace? && a.ok && Holds(s, a.sid, GraceListed)
  }

  /** The trial downgrade looks at the plan again, as its query did. */
  predicate TakesTrial(s: State, a: Action)
  {
    a.DowngradeTrial? && a.ok && Holds(s, a.sid, TrialListed(s.row.plan))
  }

  function RowAfter(s: State, a: Action): Tenant
  {
    if a.Write? && Single(a.event) then Apply(s.row, a.event)
    else if Counts(s, a) then FailureCounted(s.row)
    else if Stamps(s, a) then Stamped(s.row, a.now)
    else if Suspends(s, a) then SuspendedRow(s.row)
    else if Downgrades(s, a) then Downgraded(s.row, Free)
    else if TakesTrial(s, a) then s.row.(plan := Free)
    else s.row
  }

  predicate TrialEnded(grants: set<Grant>, plan: Plan, now: int)
  {
    exists g :: g in grants && g.plan == plan && g.endsAt < now
  }

  /** A session goes on to what its first statement found, and ends with its second. */
  function SessionsAfter(s: State, a: Action): map<nat, Session>
  {
    match a
    case Count(sid, now) =>
      var n := s.row.failureCount + 1;
      if sid in s.sessions then s.sessions
      else if n == 1 then s.sessions[sid := ToStamp]
      else if n >= 3 && DaysSinceFirst(s.row, now) >= 7 then s.sessions[sid := ToSuspend]
      else s.sessions
    case Stamp(sid, _, _) => if Holds(s, sid, ToStamp) then s.sessions - {sid} else s.sessions
    case Suspend(sid, _) => if Holds(s, sid, ToSuspend) then s.sessions - {sid} else s.sessions
    case ListGrace(sid, now) =>
      if sid !in s.sessions && GraceExpired(s.row, now) then s.sessions[sid := GraceListed] else s.sessions
    case DowngradeGrace(sid, _) => if Holds(s, sid, GraceListed) then s.sessions - {sid} else s.sessions
    case ListTrial(sid, now) =>
      if sid !in s.sessions && TrialEnded(s.grants, s.row.plan, now)
      then s.sessions[sid := TrialListed(s.row.plan)] else s.sessions
    case DowngradeTrial(sid, _) =>
      if sid in s.sessions && s.sessions[sid].TrialListed? then s.sessions - {sid} else s.sessions
    case Write(_) => s.sessions
    case Redeem(_) => s.sessions
  }

  function Next(s: State, a: Action): State
  {
    State(RowAfter(s, a), SessionsAfter(s, a), if a.Redeem? then s.grants + {a.grant} else s.grants)
  }

  /** The state before step n of a run; after its last step for n == |acts|. */
  function At(s: State, acts: seq<Action>, n: nat): State
    requires n <= |acts|
  {
    if n == 0 then s else Next(At(s, acts, n - 1), acts[n - 1])
  }

  // ------------------------------------------------- sessions run alone

  /** A failure that nothing interrupts is the atomic step of the record. */
  lemma SoloFailureIsAtomic(s: State, sid: nat, now: int, stampOk: bool, suspendOk: bool)
    requires sid !in s.sessions
    ensures var end := Next(Next(Next(s, Count(sid, now)), Stamp(sid, now, stampOk)), Suspend(sid, suspendOk));
      end == s.(row := Failed(s.row, now, stampOk, suspendOk))
  {
    var s1 := Next(s, Count(sid, now));
    var s2 := Next(s1, Stamp(sid, now, stampOk));
    assert sid in s1.sessions ==> s1.sessions - {sid} == s.sessions;
    assert sid in s2.sessions ==> s2.sessions - {sid} == s.sessions;
  }

  lemma SoloGraceIsAtomic(s: State, sid: nat, now: int)
    requires sid !in s.sessions
    ensures Next(Next(s, ListGrace(sid, now)), DowngradeGrace(sid, true)) == s.(row := Apply(s.row, GraceCheck(now)))
  {
    assert s.sessions[sid := GraceListed] - {sid} == s.sessions;
  }

  lemma SoloTrialIsAtomic(s: State, sid: nat, now: int)
    requires sid !in s.sessions
    ensures Next(Next(s, ListTrial(sid, now)), DowngradeTrial(sid, true)) ==
      s.(row := if TrialEnded(s.grants, s.row.plan, now) then Apply(s.row, TrialCheck(s.row.plan)) else s.row)
  {
    assert s.sessions[sid := TrialListed(s.row.plan)] - {sid} == s.sessions;
  }

  // ------------------------------------------------------ counting failures

  /** A step that sets the count back to zero. */
  predicate Resets(s: State, a: Action)
  {
    Buys(a) || Pays(a) || Downgrades(s, a)
  }

  predicate ResetAt(s: State, acts: seq<Action>, r: nat)
    requires r < |acts|
  {
    Resets(At(s, acts, r), acts[r])
  }

  /** How many failures are counted from step m on and before step n. */
  function Failures(s: State, acts: seq<Action>, m: nat, n: nat): nat
    requires m <= n <= |acts|
  {
    if n == m then 0 else Failures(s, acts, m, n - 1) + if Counts(At(s, acts, n - 1), acts[n - 1]) then 1 else 0
  }

  function CountAt(s: State, acts: seq<Action>, n: nat): nat
    requires n <= |acts|
  {
    At(s, acts, n).row.failureCount
  }

  lemma CountStep(s: State, acts: seq<Action>, n: nat)
    requires n < |acts|
    ensures CountAt(s, acts, n + 1) ==
      if ResetAt(s, acts, n) then 0
      else CountAt(s, acts, n) + if Counts(At(s, acts, n), acts[n]) then 1 else 0
  {
  }

  ghost predicate NoReset(s: State, acts: seq<Action>, m: nat, n: nat)
    requires m <= n <= |acts|
  {
    forall r: nat :: m <= r < n ==> !ResetAt(s, acts, r)
  }

  lemma {:induction false} CountSinceStart(s: State, acts: seq<Action>, m: nat, n: nat)
    requires m <= n <= |acts| && NoReset(s, acts, m, n)
    ensures CountAt(s, acts, n) == CountAt(s, acts, m) + Failures(s, acts, m, n)
    decreases n
  {
    if m < n {
      CountSinceStart(s, acts, m, n - 1);
      CountStep(s, acts, n - 1);
      assert !ResetAt(s, acts, n - 1);
    }
  }

  lemma {:induction false} CountSinceReset(s: State, acts: seq<Action>, r: nat, n: nat)
    requires r < n <= |acts| && ResetAt(s, acts, r)
    ensures CountAt(s, acts, n) <= Failures(s, acts, r + 1, n)
    decreases n
  {
    CountStep(s, acts, n - 1);
    if r + 1 < n {
      CountSinceReset(s, acts, r, n - 1);
    }
  }

  lemma {:induction false} LastReset(s: State, acts: seq<Action>, m: nat, n: nat) returns (r: nat)
    requires m <= n <= |acts| && !NoReset(s, acts, m, n)
    ensures m <= r < n && ResetAt(s, acts, r) && NoReset(s, acts, r + 1, n)
    decreases n
  {
    r := n - 1;
    if !ResetAt(s, acts, r) {
      r := LastReset(s, acts, m, n - 1);
    }
  }

  /** Some reset from step m on is followed by fewer than `limit` failures before step n. */
  ghost predicate ResetAndFewer(s: State, acts: seq<Action>, m: nat, n: nat, limit: nat)
    requires m <= n <= |acts|
  {
    exists r: nat :: m <= r < n && ResetAt(s, acts, r) && Failures(s, acts, r + 1, n) < limit
  }

  /** A count that stood at `limit` or more has fallen below it iff such a reset came in between. */
  lemma CountFallsExactly(s: State, acts: seq<Action>, m: nat, n: nat, limit: nat)
    requires m <= n <= |acts| && CountAt(s, acts, m) >= limit
    ensures CountAt(s, acts, n) < limit <==> ResetAndFewer(s, acts, m, n, limit)
  {
    if NoReset(s, acts, m, n) {
      CountSinceStart(s, acts, m, n);
    } else {
      var last := LastReset(s, acts, m, n);
      CountSinceStart(s, acts, last + 1, n);
      CountStep(s, acts, last);
      forall r: nat | m <= r < n && ResetAt(s, acts, r) ensures CountAt(s, acts, n) <= Failures(s, acts, r + 1, n) {
        CountSinceReset(s, acts, r, n);
      }
    }
  }

  // --------------------------------------------------- the payment invariant

  /** A suspension that finds fewer than three failures on the row. */
  predicate StaleSuspensionAt(s: State, acts: seq<Action>, k: nat)
    requires k < |acts|
  {
    Suspends(At(s, acts, k), acts[k]) && CountAt(s, acts, k) < 3
  }

  predicate WritesStatus(s: State, a: Action)
  {
    Resets(s, a) || Leaves(a) || Counts(s, a) || Suspends(s, a)
  }

  predicate StatusAt(s: State, acts: seq<Action>, k: nat)
    requires k < |acts|
  {
    WritesStatus(At(s, acts, k), acts[k])
  }

  lemma ConsistentStep(s: State, a: Action)
    ensures Consistent(RowAfter(s, a)) <==>
      if Suspends(s, a) then s.row.failureCount >= 3 else WritesStatus(s, a) || Consistent(s.row)
  {
  }

  /** The record breaks the payment invariant iff some suspension found fewer than three failures and no
      later step has written the status. */
  lemma {:induction false} BrokenByStaleSuspension(s: State, acts: seq<Action>, n: nat)
    requires n <= |acts| && Consistent(s.row)
    ensures !Consistent(At(s, acts, n).row) <==>
      exists k: nat :: k < n && StaleSuspensionAt(s, acts, k) && forall j: nat :: k < j < n ==> !StatusAt(s, acts, j)
  {
    hide Consistent, RowAfter, Suspends, WritesStatus;
    if n > 0 {
      BrokenByStaleSuspension(s, acts, n - 1);
      ConsistentStep(At(s, acts, n - 1), acts[n - 1]);
      SuspensionWritesStatus(At(s, acts, n - 1), acts[n - 1]);
      if StatusAt(s, acts, n - 1) {
        assert !Consistent(At(s, acts, n).row) <==> StaleSuspensionAt(s, acts, n - 1);
      }
    }
  }

  lemma SuspensionWritesStatus(s: State, a: Action)
    ensures Suspends(s, a) ==> WritesStatus(s, a)
  {
  }

  /** Step m counts a failure in session sid and finds the account due for suspension. */
  predicate FoundDue(s: State, acts: seq<Action>, m: nat, sid: nat)
    requires m < |acts|
  {
    var t := At(s, acts, m);
    Counts(t, acts[m]) && acts[m].sid == sid && Holds(Next(t, acts[m]), sid, ToSuspend)
  }

  /** The suspension of that session leaves the invariant broken iff in between a payment, a purchase or a
      grace downgrade has reset the count and fewer than three failures have been counted since. */
  lemma LateSuspensionExactly(s: State, acts: seq<Action>, m: nat, n: nat)
    requires m < n < |acts| && Suspends(At(s, acts, n), acts[n]) && FoundDue(s, acts, m, acts[n].sid)
    ensures !Consistent(At(s, acts, n + 1).row) <==> ResetAndFewer(s, acts, m + 1, n, 3)
  {
    CountStep(s, acts, m);
    ConsistentStep(At(s, acts, n), acts[n]);
    CountFallsExactly(s, acts, m + 1, n, 3);
  }

  /** A session that is to suspend began with a failure that found the account due. */
  lemma {:induction false} SuspensionBegan(s: State, acts: seq<Action>, n: nat, sid: nat) returns (m: nat)
    requires n <= |acts| && s.sessions == map[] && Holds(At(s, acts, n), sid, ToSuspend)
    ensures m < n && FoundDue(s, acts, m, sid)
  {
    m := n - 1;
    if Holds(At(s, acts, m), sid, ToSuspend) {
      m := SuspensionBegan(s, acts, m, sid);
    }
  }

  /** The suspension at step k of an account found due at step m, with a reset and fewer than three
      failures in between. */
  ghost predicate LateSuspension(s: State, acts: seq<Action>, m: nat, k: nat)
    requires m < k < |acts|
  {
    && Suspends(At(s, acts, k), acts[k]) && FoundDue(s, acts, m, acts[k].sid)
    && ResetAndFewer(s, acts, m + 1, k, 3)
  }

  /** Over every interleaving from a consistent record without open sessions: the payment invariant is
      broken iff some account was found due, had its count reset with fewer than three failures since, was
      suspended all the same, and nothing has written its status since then. */
  lemma InvariantBrokenExactly(s: State, acts: seq<Action>, n: nat)
    requires n <= |acts| && Consistent(s.row) && s.sessions == map[]
    ensures !Consistent(At(s, acts, n).row) <==>
      exists m: nat, k: nat :: m < k < n && LateSuspension(s, acts, m, k) && forall j: nat :: k < j < n ==> !StatusAt(s, acts, j)
  {
    hide Consistent, Suspends, FoundDue, ResetAndFewer, StatusAt;
    BrokenByStaleSuspension(s, acts, n);
    forall k: nat | k < n && StaleSuspensionAt(s, acts, k) ensures exists m: nat :: m < k && LateSuspension(s, acts, m, k) {
      var m := StaleIsLate(s, acts, k);
    }
    forall m: nat, k: nat | m < k < n && LateSuspension(s, acts, m, k) ensures StaleSuspensionAt(s, acts, k) {
      LateIsStale(s, acts, m, k);
    }
  }

  lemma StaleIsLate(s: State, acts: seq<Action>, k: nat) returns (m: nat)
    requires k < |acts| && s.sessions == map[] && StaleSuspensionAt(s, acts, k)
    ensures m < k && LateSuspension(s, acts, m, k)
  {
    m := SuspensionBegan(s, acts, k, acts[k].sid);
    CountStep(s, acts, m);
    CountFallsExactly(s, acts, m + 1, k, 3);
  }

  lemma LateIsStale(s: State, acts: seq<Action>, m: nat, k: nat)
    requires m < k < |acts| && LateSuspension(s, acts, m, k)
    ensures StaleSuspensionAt(s, acts, k)
  {
    CountStep(s, acts, m);
    CountFallsExactly(s, acts, m + 1, k, 3);
  }

  /** For one, a payment in between leaves a paid-up tenant suspended on the free plan. */
  lemma PaymentThenLateSuspension(s: State, sid: nat, now: int)
    requires sid !in s.sessions && s.row.failureCount >= 2
    requires s.row.firstFailureAt.Some? && now >= s.row.firstFailureAt.value + 7 * DAY
    ensures var end := Next(Next(Next(s, Count(sid, now)), Write(InvoicePaid)), Suspend(sid, true)).row;
      end.status == Suspended && end.failureCount == 0 && end.plan == Free && !Consistent(end)
  {
  }

  /** From the failure that opens a streak on, as long as nothing resets the count, a failure sets the
      status to suspended iff it is the third or a later one, whatever the instants: the documented rule
      waits for seven days as well. */
  lemma DocumentedSuspensionExactly(s: State, acts: seq<Action>, m: nat, n: nat)
    requires m <= n < |acts| && CountAt(s, acts, m) == 0 && NoReset(s, acts, m, n + 1)
    requires Counts(At(s, acts, m), acts[m]) && Counts(At(s, acts, n), acts[n])
    ensures At(s, acts, n + 1).row.status == Suspended <==> Failures(s, acts, m, n + 1) >= 3
  {
    CountSinceStart(s, acts, m, n + 1);
  }

  // ---------------------------------------------------------------- the stamp

  predicate StampAt(s: State, acts: seq<Action>, k: nat)
    requires k < |acts|
  {
    Stamps(At(s, acts, k), acts[k])
  }

  /** A step that clears the stamp: a purchase or a grace downgrade, not a payment. */
  predicate ClearAt(s: State, acts: seq<Action>, k: nat)
    requires k < |acts|
  {
    Buys(acts[k]) || Downgrades(At(s, acts, k), acts[k])
  }

  lemma StampStep(s: State, acts: seq<Action>, n: nat)
    requires n < |acts|
    ensures At(s, acts, n + 1).row.firstFailureAt.None? <==>
      ClearAt(s, acts, n) || (At(s, acts, n).row.firstFailureAt.None? && !StampAt(s, acts, n))
    ensures StampAt(s, acts, n) ==> !ClearAt(s, acts, n)
  {
  }

  /** The stamp is empty iff it was so at first, or has been cleared since, and no step has stamped since. */
  lemma {:induction false} StampEmptyExactly(s: State, acts: seq<Action>, n: nat)
    requires n <= |acts|
    ensures At(s, acts, n).row.firstFailureAt.None? <==>
      || (s.row.firstFailureAt.None? && forall j: nat :: j < n ==> !StampAt(s, acts, j))
      || exists k: nat :: k < n && ClearAt(s, acts, k) && forall j: nat :: k < j < n ==> !StampAt(s, acts, j)
  {
    hide StampAt, ClearAt, Next;
    if n > 0 {
      StampEmptyExactly(s, acts, n - 1);
      StampStep(s, acts, n - 1);
    }
  }

  /** A failure that opens a streak on an empty stamp. */
  predicate BareCountAt(s: State, acts: seq<Action>, k: nat)
    requires k < |acts|
  {
    && Counts(At(s, acts, k), acts[k]) && CountAt(s, acts, k) == 0
    && At(s, acts, k).row.firstFailureAt.None?
  }

  lemma StampedStep(s: State, acts: seq<Action>, n: nat)
    requires n < |acts|
    ensures FailureStamped(At(s, acts, n + 1).row) <==>
      ResetAt(s, acts, n) || StampAt(s, acts, n)
      || (FailureStamped(At(s, acts, n).row) && !BareCountAt(s, acts, n))
    ensures BareCountAt(s, acts, n) ==> !ResetAt(s, acts, n) && !StampAt(s, acts, n)
  {
  }

  /** Over every interleaving, failures lack their stamp iff the failure that opened the streak found none
      and no session has stamped since: while its session is between its statements, or has failed. */
  lemma {:induction false} UnstampedExactly(s: State, acts: seq<Action>, n: nat)
    requires n <= |acts| && FailureStamped(s.row)
    ensures !FailureStamped(At(s, acts, n).row) <==>
      exists k: nat :: k < n && BareCountAt(s, acts, k)
        && forall j: nat :: k < j < n ==> !ResetAt(s, acts, j) && !StampAt(s, acts, j)
  {
    hide FailureStamped, BareCountAt, StampAt, ResetAt, Next;
    if n > 0 {
      UnstampedExactly(s, acts, n - 1);
      StampedStep(s, acts, n - 1);
    }
  }

  /** A late stamp ends up on a row without failures iff a reset came in between and no failure since:
      then the next streak starts with a stamp older than itself. */
  lemma LateStampExactly(s: State, acts: seq<Action>, m: nat, n: nat)
    requires m < n < |acts| && Counts(At(s, acts, m), acts[m]) && StampAt(s, acts, n) && acts[n].sid == acts[m].sid
    ensures var end := At(s, acts, n + 1).row;
      end.firstFailureAt.Some? && (end.failureCount == 0 <==> ResetAndFewer(s, acts, m + 1, n, 1))
  {
    CountStep(s, acts, m);
    CountStep(s, acts, n);
    CountFallsExactly(s, acts, m + 1, n, 1);
  }

  // --------------------------------------------------------- the seven days

  /** Step k counts the first failure of a streak. */
  predicate OpensAt(s: State, acts: seq<Action>, k: nat)
    requires k < |acts|
  {
    Counts(At(s, acts, k), acts[k]) && CountAt(s, acts, k) == 0
  }

  /** Failures on the row belong to a streak that some step opened and none has ended since. */
  lemma {:induction false} StreakOpens(s: State, acts: seq<Action>, n: nat) returns (k: nat)
    requires n <= |acts| && s.row.failureCount == 0 && CountAt(s, acts, n) > 0
    ensures k < n && OpensAt(s, acts, k) && NoReset(s, acts, k, n)
  {
    CountStep(s, acts, n - 1);
    k := n - 1;
    if CountAt(s, acts, n - 1) > 0 {
      k := StreakOpens(s, acts, n - 1);
    }
  }

  lemma OneOpening(s: State, acts: seq<Action>, j: nat, k: nat)
    requires j < k < |acts| && OpensAt(s, acts, j) && OpensAt(s, acts, k)
    ensures !NoReset(s, acts, j, k)
  {
    if NoReset(s, acts, j, k) {
      CountStep(s, acts, j);
      CountSinceStart(s, acts, j + 1, k);
    }
  }

  predicate Dated(a: Action)
  {
    a.Count? || a.Stamp?
  }

  /** The clock does not go back. */
  ghost predicate ClockForward(acts: seq<Action>)
  {
    forall i, j :: 0 <= i < j < |acts| && Dated(acts[i]) && Dated(acts[j]) ==> acts[i].now <= acts[j].now
  }

  lemma StampStays(s: State, acts: seq<Action>, n: nat)
    requires n < |acts| && !ResetAt(s, acts, n)
    ensures At(s, acts, n + 1).row.firstFailureAt ==
      if StampAt(s, acts, n) && At(s, acts, n).row.firstFailureAt.None? then Some(acts[n].now)
      else At(s, acts, n).row.firstFailureAt
  {
  }

  /** Within a streak the stamp is the one it opened on, or one set since. */
  lemma {:induction false} StampWithinStreak(s: State, acts: seq<Action>, k: nat, m: nat)
    requires k < m <= |acts| && ClockForward(acts) && OpensAt(s, acts, k) && NoReset(s, acts, k, m)
    ensures var first, stamp := At(s, acts, k).row.firstFailureAt, At(s, acts, m).row.firstFailureAt;
      if first.Some? then stamp == first else stamp.Some? ==> stamp.value >= acts[k].now
    decreases m
  {
    assert !ResetAt(s, acts, m - 1);
    StampStays(s, acts, m - 1);
    if k < m - 1 {
      StampWithinStreak(s, acts, k, m - 1);
      assert StampAt(s, acts, m - 1) ==> acts[k].now <= acts[m - 1].now;
    }
  }

  /** The failure at step m belongs to the streak still running at step n, and comes at least seven days
      after the first failure of that streak. */
  ghost predicate Justified(s: State, acts: seq<Action>, m: nat, n: nat)
    requires m < n <= |acts| && acts[m].Count?
  {
    exists k: nat :: k <= m && OpensAt(s, acts, k) && NoReset(s, acts, k, n) && acts[m].now >= acts[k].now + 7 * DAY
  }

  /** The failure at step m comes less than seven days after the first of its streak, which opened on a
      stamp older than itself. */
  ghost predicate Backdated(s: State, acts: seq<Action>, m: nat)
    requires m < |acts| && acts[m].Count?
  {
    exists k: nat :: k <= m && OpensAt(s, acts, k) && NoReset(s, acts, k, m)
      && At(s, acts, k).row.firstFailureAt.Some? && At(s, acts, k).row.firstFailureAt.value < acts[k].now
      && acts[m].now < acts[k].now + 7 * DAY
  }

  lemma JustifiedBy(s: State, acts: seq<Action>, k: nat, m: nat, n: nat)
    requires k <= m < n <= |acts| && acts[m].Count? && OpensAt(s, acts, k) && NoReset(s, acts, k, n)
    ensures Justified(s, acts, m, n) <==> acts[m].now >= acts[k].now + 7 * DAY
  {
    hide OpensAt, ResetAt;
    forall j: nat | j <= m && OpensAt(s, acts, j) && NoReset(s, acts, j, n) ensures j == k {
      SameOpening(s, acts, j, k, m);
    }
  }

  lemma BackdatedBy(s: State, acts: seq<Action>, k: nat, m: nat)
    requires k <= m < |acts| && acts[m].Count? && OpensAt(s, acts, k) && NoReset(s, acts, k, m)
    ensures var stamp := At(s, acts, k).row.firstFailureAt;
      Backdated(s, acts, m) <==>
        stamp.Some? && stamp.value < acts[k].now && acts[m].now < acts[k].now + 7 * DAY
  {
    hide OpensAt, ResetAt;
    forall j: nat | j <= m && OpensAt(s, acts, j) && NoReset(s, acts, j, m) ensures j == k {
      SameOpening(s, acts, j, k, m);
    }
  }

  lemma SuspensionTakesPlan(s: State, acts: seq<Action>, n: nat)
    requires n < |acts| && Suspends(At(s, acts, n), acts[n])
    ensures At(s, acts, n + 1).row.plan == Free
  {
  }

  /** The streak of a failure that finds the account due: its opening, and the stamp it goes by. */
  lemma DueStreak(s: State, acts: seq<Action>, m: nat, sid: nat) returns (k: nat)
    requires m < |acts| && s.row.failureCount == 0 && ClockForward(acts) && FoundDue(s, acts, m, sid)
    ensures acts[m].Count? && k <= m && OpensAt(s, acts, k) && NoReset(s, acts, k, m + 1)
    ensures var first := At(s, acts, k).row.firstFailureAt;
      acts[m].now >= (if first.Some? then first.value else acts[k].now) + 7 * DAY
  {
    DueStamp(s, acts, m, sid);
    k := StreakOpens(s, acts, m + 1);
    hide FoundDue, OpensAt, ResetAt, Next;
    if k < m {
      StampWithinStreak(s, acts, k, m);
    }
  }

  /** The promise of seven days, over every interleaving: an account found due at step m and suspended at
      step n loses its plan before the present streak is seven days old iff a reset came in between, so
      that the suspension belongs to an earlier streak, or the streak opened on an older stamp. */
  lemma EarlySuspensionExactly(s: State, acts: seq<Action>, m: nat, n: nat)
    requires m < n < |acts| && s.row.failureCount == 0 && ClockForward(acts)
    requires Suspends(At(s, acts, n), acts[n]) && FoundDue(s, acts, m, acts[n].sid)
    ensures At(s, acts, n + 1).row.plan == Free
    ensures !Justified(s, acts, m, n) <==> !NoReset(s, acts, m + 1, n) || Backdated(s, acts, m)
  {
    hide FoundDue, OpensAt, ResetAt, Next, Justified, Backdated, ClockForward;
    SuspensionTakesPlan(s, acts, n);
    var k := DueStreak(s, acts, m, acts[n].sid);
    if NoReset(s, acts, m + 1, n) {
      JustifiedBy(s, acts, k, m, n);
      BackdatedBy(s, acts, k, m);
    } else {
      NotJustifiedAfterReset(s, acts, m, n);
    }
  }

  lemma NotJustifiedAfterReset(s: State, acts: seq<Action>, m: nat, n: nat)
    requires m < n <= |acts| && acts[m].Count? && !NoReset(s, acts, m + 1, n)
    ensures !Justified(s, acts, m, n)
  {
  }

  lemma SameOpening(s: State, acts: seq<Action>, j: nat, k: nat, m: nat)
    requires j <= m < |acts| && k <= m && OpensAt(s, acts, j) && OpensAt(s, acts, k)
    requires NoReset(s, acts, j, m) && NoReset(s, acts, k, m)
    ensures j == k
  {
    if j < k {
      OneOpening(s, acts, j, k);
    } else if k < j {
      OneOpening(s, acts, k, j);
    }
  }

  lemma DueStamp(s: State, acts: seq<Action>, m: nat, sid: nat)
    requires m < |acts| && FoundDue(s, acts, m, sid)
    ensures var stamp := At(s, acts, m).row.firstFailureAt;
      && acts[m].Count? && stamp.Some? && acts[m].now >= stamp.value + 7 * DAY
      && CountAt(s, acts, m) >= 2 && CountAt(s, acts, m + 1) > 0
  {
    CountStep(s, acts, m);
  }

  /** For one, a purchase between a failure and its suspension, and three failures after it: the plan is gone
      two seconds into a streak that has its own stamp, and the record is consistent. */
  lemma LateSuspensionEndsNewStreak(s: State, t: int, customer: nat, subscription: nat)
    requires s.sessions == map[] && s.row.failureCount >= 2
    requires s.row.firstFailureAt.Some? && t >= s.row.firstFailureAt.value + 7 * DAY
    ensures var bought := Next(Next(s, Count(0, t)), Write(Checkout(Estate, customer, subscription)));
      var stamped := Next(Next(bought, Count(1, t + 1)), Stamp(1, t + 1, true));
      var failing := Next(Next(stamped, Count(2, t + 2)), Count(3, t + 3));
      var end := Next(failing, Suspend(0, true)).row;
      && failing.row.plan == Estate && end.plan == Free
      && end.failureCount == 3 && end.firstFailureAt == Some(t + 1) && Consistent(end)
  {
    var counted := Next(s, Count(0, t));
    assert counted.sessions == map[0 := ToSuspend];
    var bought := Next(counted, Write(Checkout(Estate, customer, subscription)));
    var started := Next(bought, Count(1, t + 1));
    assert started.sessions == map[0 := ToSuspend, 1 := ToStamp];
    var stamped := Next(started, Stamp(1, t + 1, true));
    assert stamped.sessions == map[0 := ToSuspend];
    var second := Next(stamped, Count(2, t + 2));
    assert second.sessions == map[0 := ToSuspend];
    var third := Next(second, Count(3, t + 3));
    assert Holds(third, 0, ToSuspend);
  }

  // ---------------------------------------------------------- the grace sweep

  predicate DowngradeAt(s: State, acts: seq<Action>, k: nat)
    requires k < |acts|
  {
    Downgrades(At(s, acts, k), acts[k])
  }

  /** A step that writes the grace deadline. */
  predicate DeadlineAt(s: State, acts: seq<Action>, k: nat)
    requires k < |acts|
  {
    ResetAt(s, acts, k) || Leaves(acts[k])
  }

  /** A step that moves a record away from where a grace downgrade leaves it, its plan apart. */
  predicate AccountAt(s: State, acts: seq<Action>, k: nat)
    requires k < |acts|
  {
    var t, a := At(s, acts, k), acts[k];
    Buys(a) || Pays(a) || Leaves(a) || Counts(t, a) || Stamps(t, a) || Suspends(t, a)
  }

  /** Where a grace downgrade leaves a record, its plan apart. */
  predicate Settled(t: Tenant)
  {
    && t.subscription.None? && t.graceEnds.None? && t.failureCount == 0 && t.firstFailureAt.None?
    && t.status == NoPayment
  }

  predicate Overdue(t: Tenant, now: int)
  {
    t.graceEnds.Some? && t.graceEnds.value < now
  }

  /** No deadline is set from step m on to an instant before `now`: the clock does not go back. */
  ghost predicate LaterDeadlines(acts: seq<Action>, m: nat, n: nat, now: int)
    requires m <= n <= |acts|
  {
    forall j: nat :: m <= j < n && Leaves(acts[j]) ==> acts[j].event.now >= now
  }

  lemma {:induction false} StillOverdue(s: State, acts: seq<Action>, m: nat, n: nat, now: int)
    requires m <= n <= |acts| && Overdue(At(s, acts, m).row, now) && LaterDeadlines(acts, m, n, now)
    ensures Overdue(At(s, acts, n).row, now) <==> forall j: nat :: m <= j < n ==> !DeadlineAt(s, acts, j)
    decreases n
  {
    if m < n {
      StillOverdue(s, acts, m, n - 1, now);
      OverdueStep(s, acts, n - 1, now);
      assert Leaves(acts[n - 1]) ==> acts[n - 1].event.now >= now;
    }
  }

  lemma OverdueStep(s: State, acts: seq<Action>, n: nat, now: int)
    requires n < |acts| && (Leaves(acts[n]) ==> acts[n].event.now >= now)
    ensures Overdue(At(s, acts, n + 1).row, now) <==> Overdue(At(s, acts, n).row, now) && !DeadlineAt(s, acts, n)
  {
  }

  lemma SettledStep(s: State, acts: seq<Action>, n: nat)
    requires n < |acts|
    ensures Settled(At(s, acts, n + 1).row) <==>
      DowngradeAt(s, acts, n) || (Settled(At(s, acts, n).row) && !AccountAt(s, acts, n))
    ensures DowngradeAt(s, acts, n) ==> !AccountAt(s, acts, n)
  {
  }

  lemma {:induction false} SettledExactly(s: State, acts: seq<Action>, m: nat, n: nat)
    requires m <= n <= |acts| && !Settled(At(s, acts, m).row)
    ensures Settled(At(s, acts, n).row) <==>
      exists r: nat :: m <= r < n && DowngradeAt(s, acts, r) && forall j: nat :: r < j < n ==> !AccountAt(s, acts, j)
    decreases n
  {
    hide Settled, DowngradeAt, AccountAt, Next;
    if m < n {
      SettledExactly(s, acts, m, n - 1);
      SettledStep(s, acts, n - 1);
    }
  }

  /** The grace sweep does not look again before it downgrades. It does what a sweep that did would do iff
      the tenant is still on a paid plan and nothing has written the deadline since the query, or another
      sweep has come first and the account has stayed where that one left it. */
  lemma GraceDowngradeExactly(s: State, acts: seq<Action>, m: nat, n: nat, now: int)
    requires m < n < |acts| && DowngradeAt(s, acts, n) && acts[m] == ListGrace(acts[n].sid, now)
    requires GraceExpired(At(s, acts, m).row, now) && LaterDeadlines(acts, m, n, now)
    ensures At(s, acts, n + 1).row == Apply(At(s, acts, n).row, GraceCheck(now)) <==>
      if At(s, acts, n).row.plan != Free then forall j: nat :: m <= j < n ==> !DeadlineAt(s, acts, j)
      else exists r: nat :: m <= r < n && DowngradeAt(s, acts, r) && forall j: nat :: r < j < n ==> !AccountAt(s, acts, j)
  {
    StillOverdue(s, acts, m, n, now);
    SettledExactly(s, acts, m, n);
  }

  /** For one, it takes the plan that a tenant has bought since the query. */
  lemma GraceSweepTakesNewPurchase(s: State, sid: nat, now: int, customer: nat, subscription: nat)
    requires sid !in s.sessions && GraceExpired(s.row, now)
    ensures var bought := Next(Next(s, ListGrace(sid, now)), Write(Checkout(Estate, customer, subscription)));
      var end := Next(bought, DowngradeGrace(sid, true)).row;
      && bought.row.plan == Estate && bought.row.status == Active && bought.row.customer == Some(customer)
      && bought.row.subscription == Some(subscription) && !GraceExpired(bought.row, now)
      && end.plan == Free && end.subscription.None?
  {
  }

  // ---------------------------------------------------------- the trial sweep

  /** A step that puts the tenant on a plan of someone's choice. */
  predicate GivesPlan(a: Action)
  {
    a.Write? && (a.event.Checkout? || a.event.SubscriptionUpdated? || a.event.TrialStart?)
  }

  /** A step that takes a plan away. */
  predicate TakeAt(s: State, acts: seq<Action>, k: nat)
    requires k < |acts|
  {
    var t, a := At(s, acts, k), acts[k];
    Suspends(t, a) || Downgrades(t, a) || TakesTrial(t, a)
  }

  lemma PlanStep(s: State, acts: seq<Action>, n: nat)
    requires n < |acts| && !GivesPlan(acts[n])
    ensures At(s, acts, n + 1).row.plan == if TakeAt(s, acts, n) then Free else At(s, acts, n).row.plan
  {
  }

  /** A plan, however come by, lasts until the tenant is given another or a suspension, a grace downgrade
      or a trial downgrade takes it; then the tenant is on the free plan. */
  lemma {:induction false} PlanKeptExactly(s: State, acts: seq<Action>, m: nat, n: nat)
    requires m <= n <= |acts| && At(s, acts, m).row.plan != Free
    requires forall j: nat :: m <= j < n ==> !GivesPlan(acts[j])
    ensures var kept := forall j: nat :: m <= j < n ==> !TakeAt(s, acts, j);
      At(s, acts, n).row.plan == if kept then At(s, acts, m).row.plan else Free
    decreases n
  {
    hide TakeAt, Next;
    if m < n {
      PlanKeptExactly(s, acts, m, n - 1);
      PlanStep(s, acts, n - 1);
    }
  }

  /** A plan given at step m, by a purchase, a change of subscription or a trial, is the tenant's plan from then
      on, until another is given or this one taken. */
  lemma GivenPlanExactly(s: State, acts: seq<Action>, m: nat, n: nat)
    requires m < n <= |acts| && GivesPlan(acts[m]) && acts[m].event.plan != Free
    requires forall j: nat :: m < j < n ==> !GivesPlan(acts[j])
    ensures At(s, acts, n).row.plan ==
      if forall j: nat :: m < j < n ==> !TakeAt(s, acts, j) then acts[m].event.plan else Free
  {
    assert At(s, acts, m + 1).row.plan == acts[m].event.plan;
    PlanKeptExactly(s, acts, m + 1, n);
  }

  /** A trial of a plan is on record at step n and over at `now`. */
  ghost predicate HadTrial(s: State, acts: seq<Action>, n: nat, plan: Plan, now: int)
    requires n <= |acts|
  {
    exists g: Grant :: g.plan == plan && g.endsAt < now && (g in s.grants || Redeem(g) in acts[..n])
  }

  lemma {:induction false} GrantsExactly(s: State, acts: seq<Action>, n: nat, g: Grant)
    requires n <= |acts|
    ensures g in At(s, acts, n).grants <==> g in s.grants || Redeem(g) in acts[..n]
  {
    if n > 0 {
      GrantsExactly(s, acts, n - 1, g);
      assert acts[..n] == acts[..n - 1] + [acts[n - 1]];
    }
  }

  /** At any point of any run, a trial sweep takes the plan iff the tenant has ever redeemed a trial of it
      that is over by now. How it has come by the plan since, and what it pays, do not matter. */
  lemma TrialSweepTakesPlanExactly(s: State, acts: seq<Action>, n: nat, sid: nat, now: int)
    requires n <= |acts| && sid !in At(s, acts, n).sessions && At(s, acts, n).row.plan != Free
    ensures var t := At(s, acts, n);
      Next(Next(t, ListTrial(sid, now)), DowngradeTrial(sid, true)).row ==
        if HadTrial(s, acts, n, t.row.plan, now) then t.row.(plan := Free) else t.row
  {
    var t := At(s, acts, n);
    SoloTrialIsAtomic(t, sid, now);
    forall g ensures g in t.grants <==> g in s.grants || Redeem(g) in acts[..n] {
      GrantsExactly(s, acts, n, g);
    }
  }

  predicate SweepsTrial(a: Action, sid: nat)
  {
    (a.ListTrial? || a.DowngradeTrial?) && a.sid == sid
  }

  predicate ListedTrial(s: State, sid: nat)
  {
    sid in s.sessions && s.sessions[sid].TrialListed?
  }

  lemma ListingStep(s: State, a: Action, sid: nat)
    requires !SweepsTrial(a, sid)
    ensures ListedTrial(Next(s, a), sid) <==> ListedTrial(s, sid)
    ensures ListedTrial(s, sid) ==> Next(s, a).sessions[sid] == s.sessions[sid]
  {
  }

  lemma {:induction false} ListingStays(s: State, acts: seq<Action>, m: nat, n: nat, sid: nat)
    requires m <= n <= |acts| && forall j: nat :: m <= j < n ==> !SweepsTrial(acts[j], sid)
    ensures ListedTrial(At(s, acts, n), sid) <==> ListedTrial(At(s, acts, m), sid)
    ensures ListedTrial(At(s, acts, m), sid) ==> At(s, acts, n).sessions[sid] == At(s, acts, m).sessions[sid]
    decreases n
  {
    hide SweepsTrial, ListedTrial, Next;
    if m < n {
      ListingStays(s, acts, m, n - 1, sid);
      ListingStep(At(s, acts, n - 1), acts[n - 1], sid);
    }
  }

  /** With anything in between: a downgrade at step n, listed at step m, takes the plan iff a trial of the
      plan the tenant had at m was over then, and the tenant is on that plan again, or still, at n. */
  lemma TrialDowngradeExactly(s: State, acts: seq<Action>, m: nat, n: nat, sid: nat, now: int)
    requires m < n < |acts| && acts[m] == ListTrial(sid, now) && acts[n] == DowngradeTrial(sid, true)
    requires sid !in At(s, acts, m).sessions && forall j: nat :: m < j < n ==> !SweepsTrial(acts[j], sid)
    ensures var plan, t := At(s, acts, m).row.plan, At(s, acts, n).row;
      At(s, acts, n + 1).row ==
        if HadTrial(s, acts, m, plan, now) && t.plan == plan then t.(plan := Free) else t
  {
    forall g ensures g in At(s, acts, m).grants <==> g in s.grants || Redeem(g) in acts[..m] {
      GrantsExactly(s, acts, m, g);
    }
    assert HadTrial(s, acts, m, At(s, acts, m).row.plan, now) <==>
      TrialEnded(At(s, acts, m).grants, At(s, acts, m).row.plan, now);
    ListingStays(s, acts, m + 1, n, sid);
  }

  /** For one, a tenant that buys its plan during the trial loses it when the trial is over. */
  lemma TrialSweepTakesBoughtPlan(s: State, sid: nat, endsAt: int, now: int, customer: nat, subscription: nat)
    requires sid !in s.sessions && endsAt < now
    ensures var trial := Next(Next(s, Redeem(Grant(Estate, endsAt))), Write(TrialStart(Estate)));
      var bought := Next(trial, Write(Checkout(Estate, customer, subscription)));
      var end := Next(Next(bought, ListTrial(sid, now)), DowngradeTrial(sid, true)).row;
      end.status == Active && end.subscription == Some(subscription) && end.plan == Free
  {
    var trial := Next(Next(s, Redeem(Grant(Estate, endsAt))), Write(TrialStart(Estate)));
    var bought := Next(trial, Write(Checkout(Estate, customer, subscription)));
    assert Grant(Estate, endsAt) in bought.grants;
    SoloTrialIsAtomic(bought, sid, now);
  }
}
