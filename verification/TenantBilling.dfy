/** The payment record of a tenant as a state machine driven by webhooks and sweeps, and the tenants
    table whose rows are such records. Instants are integers (seconds). */
module TenantBilling {
  import opened Options

  datatype Plan = Free | Attache | PrivyCouncil | Estate

  datatype Status = NoPayment | Active | Failing | Suspended | GracePeriod

  datatype Tenant = Tenant(
    plan: Plan, customer: Option<nat>, subscription: Option<nat>, status: Status,
    failureCount: nat, firstFailureAt: Option<int>, graceEnds: Option<int>)

  const DAY: int := 86_400

  // ----------------------------------------------------- the row statements

  function Provisioned(t: Tenant, plan: Plan, customer: nat, subscription: nat): Tenant
  {
    Tenant(plan, Some(customer), Some(subscription), Active, 0, None, None)
  }

  /** A paid invoice clears the count and the grace deadline, but not the first-failure stamp. */
  function Paid(t: Tenant): Tenant
  {
    t.(status := Active, failureCount := 0, graceEnds := None)
  }

  function FailureCounted(t: Tenant): Tenant
  {
    t.(failureCount := t.failureCount + 1, status := if t.failureCount + 1 >= 3 then Suspended else Failing)
  }

  function Stamped(t: Tenant, now: int): Tenant
  {
    if t.firstFailureAt.None? then t.(firstFailureAt := Some(now)) else t
  }

  function DaysSinceFirst(t: Tenant, now: int): int
  {
    if t.firstFailureAt.None? then 0 else (now - t.firstFailureAt.value) / DAY
  }

  function SuspendedRow(t: Tenant): Tenant
  {
    t.(status := Suspended, plan := Free)
  }

  /** The three statements of a payment failure; the second and third may fail or go to another row. */
  function Failed(t: Tenant, now: int, stampOk: bool, suspendOk: bool): Tenant
  {
    var counted := FailureCounted(t);
    var stamped := if counted.failureCount == 1 && stampOk then Stamped(counted, now) else counted;
    if counted.failureCount >= 3 && DaysSinceFirst(t, now) >= 7 && suspendOk then SuspendedRow(stamped) else stamped
  }

  function GraceStarted(t: Tenant, now: int): Tenant
  {
    t.(graceEnds := Some(now + 7 * DAY), status := GracePeriod)
  }

  function Downgraded(t: Tenant, plan: Plan): Tenant
  {
    if plan == Free
    then t.(plan := Free, subscription := None, graceEnds := None, failureCount := 0, firstFailureAt := None,
            status := NoPayment)
    else t.(plan := plan)
  }

  predicate GraceExpired(t: Tenant, now: int)
  {
    t.graceEnds.Some? && t.graceEnds.value < now && t.plan != Free
  }

  datatype Event =
    | Checkout(plan: Plan, customer: nat, subscription: nat)
    | InvoicePaid
    | InvoiceFailed(now: int, stampOk: bool, suspendOk: bool)
    | SubscriptionUpdated(plan: Plan)
    | SubscriptionDeleted(now: int)
    | GraceCheck(now: int)
    | TrialStart(plan: Plan)
    | TrialCheck(plan: Plan)

  /** One atomic step of one row. */
  function Apply(t: Tenant, e: Event): Tenant
  {
    match e
    case Checkout(plan, customer, subscription) => Provisioned(t, plan, customer, subscription)
    case InvoicePaid => Paid(t)
    case InvoiceFailed(now, stampOk, suspendOk) => Failed(t, now, stampOk, suspendOk)
    case SubscriptionUpdated(plan) => t.(plan := plan)
    case SubscriptionDeleted(now) => GraceStarted(t, now)
    case GraceCheck(now) => if GraceExpired(t, now) then Downgraded(t, Free) else t
    case TrialStart(plan) => t.(plan := plan)
    case TrialCheck(plan) => if t.plan == plan then t.(plan := Free) else t
  }

  function Replay(t: Tenant, events: seq<Event>): Tenant
    decreases |events|
  {
    if events == [] then t else Replay(Apply(t, events[0]), events[1..])
  }

  // ------------------------------------------------------- the invariant

  /** Status, count and deadline agree. */
  predicate Consistent(t: Tenant)
  {
    match t.status
    case NoPayment => t.failureCount == 0 && t.graceEnds.None?
    case Active => t.failureCount == 0 && t.graceEnds.None?
    case Failing => 1 <= t.failureCount <= 2
    case Suspended => t.failureCount >= 3
    case GracePeriod => t.graceEnds.Some?
  }

  predicate FailureStamped(t: Tenant)
  {
    t.failureCount >= 1 ==> t.firstFailureAt.Some?
  }

  /** Kept by every step, whichever statements of a failure go wrong. */
  lemma StepKeepsConsistent(t: Tenant, e: Event)
    requires Consistent(t)
    ensures Consistent(Apply(t, e))
  {
  }

  /** The stamp is lost exactly when the first failure of a streak finds no stamp and fails to set one. */
  lemma StampLostExactly(t: Tenant, e: Event)
    requires FailureStamped(t)
    ensures FailureStamped(Apply(t, e)) <==>
      !(e.InvoiceFailed? && t.failureCount == 0 && t.firstFailureAt.None? && !e.stampOk)
  {
  }

  ghost predicate AllStamp(events: seq<Event>)
  {
    forall i :: 0 <= i < |events| && events[i].InvoiceFailed? ==> events[i].stampOk
  }

  /** The payment invariant, kept by every ordering of atomic steps. */
  lemma {:induction false} PaymentInvariant(t: Tenant, events: seq<Event>)
    requires Consistent(t)
    ensures Consistent(Replay(t, events))
    ensures FailureStamped(t) && AllStamp(events) ==> FailureStamped(Replay(t, events))
    decreases |events|
  {
    if events != [] {
      StepKeepsConsistent(t, events[0]);
      if FailureStamped(t) && AllStamp(events) {
        StampLostExactly(t, events[0]);
        assert AllStamp(events[1..]);
      }
      PaymentInvariant(Apply(t, events[0]), events[1..]);
    }
  }

  // ------------------------------------------------------------- dunning

  /** The row with the instant its present streak of failures began, and whether that beginning found
      the stamp empty and set it. */
  datatype Tracked = Tracked(row: Tenant, since: Option<int>, clean: bool)

  function Track(s: Tracked, e: Event): Tracked
  {
    var row := Apply(s.row, e);
    if row.failureCount == 0 then Tracked(row, None, false)
    else if s.row.failureCount == 0
    then Tracked(row, if e.InvoiceFailed? then Some(e.now) else None,
                 e.InvoiceFailed? && s.row.firstFailureAt.None? && e.stampOk)
    else Tracked(row, s.since, s.clean)
  }

  function TrackAll(s: Tracked, events: seq<Event>): Tracked
    decreases |events|
  {
    if events == [] then s else TrackAll(Track(s, events[0]), events[1..])
  }

  /** Failures carry nondecreasing instants, from `from` on. */
  ghost predicate Timed(events: seq<Event>, from: int)
    decreases |events|
  {
    events != [] ==>
      if events[0].InvoiceFailed? then from <= events[0].now && Timed(events[1..], events[0].now)
      else Timed(events[1..], from)
  }

  ghost predicate StampFollowsStreak(s: Tracked, upTo: int)
  {
    && (s.row.firstFailureAt.Some? ==> s.row.firstFailureAt.value <= upTo)
    && (s.row.failureCount == 0 <==> s.since.None?)
    && (s.since.Some? ==> s.since.value <= upTo)
    && (s.since.Some? && s.clean ==> s.row.firstFailureAt == s.since)
    && (s.since.Some? && s.row.firstFailureAt.Some? ==> s.row.firstFailureAt.value <= s.since.value)
  }

  function UpTo(e: Event, from: int): int
  {
    if e.InvoiceFailed? then e.now else from
  }

  lemma TrackStep(s: Tracked, e: Event, from: int)
    requires StampFollowsStreak(s, from) && (e.InvoiceFailed? ==> from <= e.now)
    ensures StampFollowsStreak(Track(s, e), UpTo(e, from))
  {
  }

  /** In every run the stamp is the start of the present streak if that start set it, and never lies
      after it. */
  lemma {:induction false} StampTracksStreak(s: Tracked, events: seq<Event>, from: int) returns (upTo: int)
    requires StampFollowsStreak(s, from) && Timed(events, from)
    ensures from <= upTo && StampFollowsStreak(TrackAll(s, events), upTo)
    decreases |events|
  {
    if events == [] {
      upTo := from;
    } else {
      TrackStep(s, events[0], from);
      upTo := StampTracksStreak(Track(s, events[0]), events[1..], UpTo(events[0], from));
    }
  }

  /** A failure takes the plan away exactly when it is at least the third of its streak and the stamp
      lies seven full days back. */
  lemma PlanTakenExactly(t: Tenant, now: int)
    requires t.plan != Free
    ensures Failed(t, now, true, true).plan == Free <==>
      t.failureCount >= 2 && t.firstFailureAt.Some? && now >= t.firstFailureAt.value + 604_800
  {
  }

  /** The promise of seven days from the first failure of a streak fails exactly where the stamp is older
      than that failure: iff so, some third failure within the seven days takes the plan. */
  lemma PlanTakenEarlyExactly(s: Tracked, from: int)
    requires StampFollowsStreak(s, from) && s.since.Some? && s.row.plan != Free && s.row.failureCount >= 2
    requires from < s.since.value + 7 * DAY
    ensures (exists now :: from <= now < s.since.value + 7 * DAY && Failed(s.row, now, true, true).plan == Free)
      <==> s.row.firstFailureAt.Some? && s.row.firstFailureAt.value < s.since.value
    ensures s.clean ==> forall now :: Failed(s.row, now, true, true).plan == Free <==> now >= s.since.value + 7 * DAY
  {
    forall now ensures Failed(s.row, now, true, true).plan == Free <==>
      s.row.firstFailureAt.Some? && now >= s.row.firstFailureAt.value + 7 * DAY
    {
      PlanTakenExactly(s.row, now);
    }
    if s.row.firstFailureAt.Some? && s.row.firstFailureAt.value < s.since.value {
      var now := s.since.value + 7 * DAY - 1;
      assert Failed(s.row, now, true, true).plan == Free;
    }
  }

  /** That such a stamp exists is no exception: a paid invoice leaves the old stamp behind, and
      of three failures within two seconds the third takes the plan. */
  lemma StaleStampTakesPlanEarly(t: Tenant, later: int)
    requires Consistent(t) && t.status == Active && t.firstFailureAt.None? && t.plan != Free
    requires later >= 7 * DAY
    ensures var fail := (at: int) => InvoiceFailed(at, true, true);
      var s := TrackAll(Tracked(t, None, false), [fail(0), InvoicePaid, fail(later), fail(later + 1), fail(later + 2)]);
      s.row.plan == Free && s.since == Some(later) && !s.clean
  {
    var fail := (at: int) => InvoiceFailed(at, true, true);
    var all := [fail(0), InvoicePaid, fail(later), fail(later + 1), fail(later + 2)];
    var s0 := Tracked(t, None, false);
    var s1 := Track(s0, all[0]);
    var s2 := Track(s1, all[1]);
    var s3 := Track(s2, all[2]);
    var s4 := Track(s3, all[3]);
    assert s2.row.failureCount == 0 && s2.row.firstFailureAt == Some(0);
    assert s4.row.failureCount == 2 && s4.since == Some(later) && s4.row.firstFailureAt == Some(0);
    TrackSuffix(s0, all, 0);
    TrackSuffix(s1, all, 1);
    TrackSuffix(s2, all, 2);
    TrackSuffix(s3, all, 3);
    TrackSuffix(s4, all, 4);
    assert all[0..] == all && all[5..] == [];
  }

  lemma TrackSuffix(s: Tracked, events: seq<Event>, n: nat)
    requires n < |events|
    ensures TrackAll(s, events[n..]) == TrackAll(Track(s, events[n]), events[n + 1..])
  {
    assert events[n..][1..] == events[n + 1..];
  }

  // ------------------------------------------------------------ the grace period

  /** None of these events changes the deadline or the plan. */
  ghost predicate Undisturbed(t: Tenant, events: seq<Event>)
    decreases |events|
  {
    events != [] ==>
      var t' := Apply(t, events[0]);
      t'.graceEnds == t.graceEnds && t'.plan == t.plan && Undisturbed(t', events[1..])
  }

  lemma {:induction false} GraceStays(t: Tenant, events: seq<Event>)
    requires Undisturbed(t, events)
    ensures Replay(t, events).graceEnds == t.graceEnds && Replay(t, events).plan == t.plan
    decreases |events|
  {
    if events != [] {
      GraceStays(Apply(t, events[0]), events[1..]);
    }
  }

  /** The promise of the grace period: a paid plan whose subscription is deleted at an instant, with nothing
      rewriting the deadline or the plan since, is taken by a check iff that comes more than 604800 seconds,
      seven days, later. */
  lemma GraceLastsSevenDays(t: Tenant, deleted: int, between: seq<Event>, now: int)
    requires t.plan != Free && Undisturbed(Apply(t, SubscriptionDeleted(deleted)), between)
    ensures var end := Apply(Replay(Apply(t, SubscriptionDeleted(deleted)), between), GraceCheck(now));
      && (end.plan == Free <==> now > deleted + 604_800) && (end.plan == t.plan <==> now <= deleted + 604_800)
  {
    GraceStays(Apply(t, SubscriptionDeleted(deleted)), between);
  }

  // ---------------------------------------------------------------- the table

  type Table = map<nat, Tenant>

  /** A trial redemption as the sweep's query sees it. */
  datatype Trial = Trial(tenant: nat, appliedPlan: Plan, endsAt: int)

  datatype TableOp =
    | OnTenant(id: nat, event: Event)
    | PaidFor(customer: nat)
    | FailedFor(customer: nat, now: int, picked: nat, stampOk: bool, suspendOk: bool)
    | DeletedFor(customer: nat, now: int)
    | GraceSweep(now: int, failing: set<nat>)
    | TrialSweep(now: int, trials: seq<Trial>, failing: set<nat>)

  /** What a table operation means for one row. Only the row the failure update returns is stamped
      and suspended, although every row of the customer is counted. */
  ghost function EventFor(op: TableOp, id: nat, t: Tenant): Option<Event>
  {
    match op
    case OnTenant(who, e) => if id == who then Some(e) else None
    case PaidFor(c) => if t.customer == Some(c) then Some(InvoicePaid) else None
    case FailedFor(c, now, picked, stampOk, suspendOk) =>
      if t.customer == Some(c) then Some(InvoiceFailed(now, stampOk && id == picked, suspendOk && id == picked)) else None
    case DeletedFor(c, now) => if t.customer == Some(c) then Some(SubscriptionDeleted(now)) else None
    case GraceSweep(now, failing) => if id in failing then None else Some(GraceCheck(now))
    case TrialSweep(now, trials, failing) =>
      if id !in failing && TrialOver(trials, now, id, t.plan) then Some(TrialCheck(t.plan)) else None
  }

  ghost predicate TrialOver(trials: seq<Trial>, now: int, id: nat, plan: Plan)
  {
    exists t :: t in trials && t.tenant == id && t.appliedPlan == plan && t.endsAt < now
  }

  ghost function RowAfter(op: TableOp, id: nat, t: Tenant): Tenant
  {
    match EventFor(op, id, t)
    case None => t
    case Some(e) => Apply(t, e)
  }

  ghost function TableAfter(rows: Table, op: TableOp): Table
  {
    map id | id in rows :: RowAfter(op, id, rows[id])
  }

  /** Every operation keeps every row consistent. */
  lemma TableKeepsConsistent(rows: Table, op: TableOp)
    requires forall id :: id in rows ==> Consistent(rows[id])
    ensures forall id :: id in TableAfter(rows, op) ==> Consistent(TableAfter(rows, op)[id])
  {
  }

  /** With one row to a customer, and the stamp written, every row stays stamped as well. */
  lemma TableKeepsStamped(rows: Table, op: TableOp)
    requires forall id :: id in rows ==> FailureStamped(rows[id])
    requires op.OnTenant? && op.event.InvoiceFailed? ==> op.event.stampOk
    requires op.FailedFor? ==>
      op.stampOk && forall id :: id in rows && rows[id].customer == Some(op.customer) ==> id == op.picked
    ensures forall id :: id in TableAfter(rows, op) ==> FailureStamped(TableAfter(rows, op)[id])
  {
    forall id | id in rows ensures FailureStamped(RowAfter(op, id, rows[id])) {
      var e := EventFor(op, id, rows[id]);
      if e.Some? {
        StampLostExactly(rows[id], e.value);
      }
    }
  }

  ghost function TableRun(rows: Table, ops: seq<TableOp>): Table
    decreases |ops|
  {
    if ops == [] then rows else TableRun(TableAfter(rows, ops[0]), ops[1..])
  }

  /** Every ordering of operations on the whole table keeps every row consistent. */
  lemma {:induction false} TableInvariant(rows: Table, ops: seq<TableOp>)
    requires forall id :: id in rows ==> Consistent(rows[id])
    ensures forall id :: id in TableRun(rows, ops) ==> Consistent(TableRun(rows, ops)[id])
    decreases |ops|
  {
    if ops != [] {
      TableKeepsConsistent(rows, ops[0]);
      TableInvariant(TableAfter(rows, ops[0]), ops[1..]);
    }
  }

  /** Where rows share a customer, failures mark them all, but only the row the update returns is stamped
      and downgraded: one that is never returned keeps its plan through any number of failures. */
  lemma {:induction false} NeverPickedKeepsPlan(rows: Table, ops: seq<TableOp>, id: nat)
    requires id in rows && rows[id].customer.Some?
    requires forall i :: 0 <= i < |ops| ==>
      ops[i].FailedFor? && ops[i].customer == rows[id].customer.value && ops[i].picked != id
    ensures var end := TableRun(rows, ops);
      && id in end && end[id].failureCount == rows[id].failureCount + |ops|
      && end[id] == rows[id].(failureCount := end[id].failureCount, status := end[id].status)
      && (ops != [] && end[id].failureCount >= 3 ==> end[id].status == Suspended)
    decreases |ops|
  {
    if ops != [] {
      var next := TableAfter(rows, ops[0]);
      assert next[id] == FailureCounted(rows[id]);
      NeverPickedKeepsPlan(next, ops[1..], id);
    }
  }

  /** The stamp that failures of a run go by: the one the row has, or the one the first of them leaves, if
      that opens a streak on this row and writes it. */
  function StampOf(t: Tenant, ops: seq<TableOp>, id: nat): Option<int>
    requires ops != [] ==> ops[0].FailedFor?
  {
    if t.firstFailureAt.None? && ops != [] && t.failureCount == 0 && ops[0].picked == id && ops[0].stampOk
    then Some(ops[0].now) else t.firstFailureAt
  }

  /** Failure i of a run takes the plan: the update returns this row, the suspension goes through, it is at
      least the third in a row, and seven days have passed since the stamp. */
  predicate TakesPlanAt(t: Tenant, ops: seq<TableOp>, id: nat, i: nat)
    requires i < |ops| && ops[0].FailedFor? && ops[i].FailedFor?
  {
    && ops[i].picked == id && ops[i].suspendOk && t.failureCount + i >= 2
    && StampOf(t, ops, id).Some? && ops[i].now >= StampOf(t, ops, id).value + 7 * DAY
  }

  ghost predicate FailuresOf(ops: seq<TableOp>, customer: Option<nat>)
  {
    forall i :: 0 <= i < |ops| ==> ops[i].FailedFor? && customer == Some(ops[i].customer)
  }

  /** Over any run of failures of a customer, whatever row the update returns each time and whichever
      statements go through, a row ends on the free plan iff one of the failures takes its plan. */
  lemma {:induction false} FailuresTakePlanExactly(rows: Table, ops: seq<TableOp>, id: nat)
    requires id in rows && FailuresOf(ops, rows[id].customer)
    ensures id in TableRun(rows, ops)
    ensures TableRun(rows, ops)[id].plan ==
      if exists i: nat :: i < |ops| && TakesPlanAt(rows[id], ops, id, i) then Free else rows[id].plan
    decreases |ops|
  {
    if ops != [] {
      var t, next, rest := rows[id], TableAfter(rows, ops[0]), ops[1..];
      var t' := next[id];
      assert t' == Failed(t, ops[0].now, ops[0].stampOk && id == ops[0].picked, ops[0].suspendOk && id == ops[0].picked);
      FailuresTakePlanExactly(next, rest, id);
      FirstFailure(t, ops, id);
      assert StampOf(t', rest, id) == StampOf(t, ops, id);
      forall i: nat | i < |rest| ensures TakesPlanAt(t', rest, id, i) <==> TakesPlanAt(t, ops, id, i + 1) {
        assert ops[i + 1] == rest[i];
      }
      if k: nat :| k < |ops| && TakesPlanAt(t, ops, id, k) {
        assert k > 0 ==> TakesPlanAt(t', rest, id, k - 1);
      }
    }
  }

  lemma FirstFailure(t: Tenant, ops: seq<TableOp>, id: nat)
    requires ops != [] && ops[0].FailedFor?
    ensures var op := ops[0];
      var t' := Failed(t, op.now, op.stampOk && id == op.picked, op.suspendOk && id == op.picked);
      && t'.plan == (if TakesPlanAt(t, ops, id, 0) then Free else t.plan)
      && t'.failureCount == t.failureCount + 1 && t'.customer == t.customer
      && t'.firstFailureAt == StampOf(t, ops, id)
  {
  }

  /** So with every statement going through, a paid plan without failures is lost iff the update returns its
      row for the first failure, and again for the third or a later one seven days on. */
  lemma PlanLostFromCleanRow(rows: Table, ops: seq<TableOp>, id: nat)
    requires id in rows && FailuresOf(ops, rows[id].customer) && ops != []
    requires forall i :: 0 <= i < |ops| ==> ops[i].stampOk && ops[i].suspendOk
    requires rows[id].plan != Free && rows[id].failureCount == 0 && rows[id].firstFailureAt.None?
    ensures id in TableRun(rows, ops)
    ensures TableRun(rows, ops)[id].plan == Free <==>
      ops[0].picked == id && exists i: nat :: 2 <= i < |ops| && ops[i].picked == id && ops[i].now >= ops[0].now + 7 * DAY
  {
    FailuresTakePlanExactly(rows, ops, id);
    if i: nat :| 2 <= i < |ops| && ops[i].picked == id && ops[i].now >= ops[0].now + 7 * DAY {
      assert ops[0].picked == id ==> TakesPlanAt(rows[id], ops, id, i);
    }
  }

  /** A trial sweep takes the plan of exactly those tenants, of the ones whose downgrade goes through, that have
      redeemed a trial of the plan they are on that ended before now, and changes nothing else. */
  lemma TrialSweepExactly(rows: Table, trials: seq<Trial>, now: int, failing: set<nat>, id: nat)
    requires id in rows
    ensures var end, plan := TableAfter(rows, TrialSweep(now, trials, failing)), rows[id].plan;
      id in end && end[id] ==
        if id !in failing && (exists t :: t in trials && t.tenant == id && t.appliedPlan == plan && t.endsAt < now)
        then rows[id].(plan := Free) else rows[id]
  {
  }

  /** A deletion and a later sweep, each over the whole table: a paid tenant of the customer whose downgrade
      goes through is on the free plan afterwards iff seven days have passed, and keeps its plan otherwise. */
  lemma SweepTakesPlanAfterSevenDays(rows: Table, customer: nat, deleted: int, now: int, failing: set<nat>, id: nat)
    requires id in rows && rows[id].customer == Some(customer) && rows[id].plan != Free && id !in failing
    ensures var end := TableAfter(TableAfter(rows, DeletedFor(customer, deleted)), GraceSweep(now, failing));
      id in end && end[id].plan == if now > deleted + 604_800 then Free else rows[id].plan
  {
  }

  ghost predicate KnownCustomer(rows: Table, customer: nat)
  {
    exists id :: id in rows && rows[id].customer == Some(customer)
  }

  class Tenants {
    var rows: Table

    constructor (rows: Table)
      ensures this.rows == rows
    {
      this.rows := rows;
    }

    method ProvisionPlan(id: nat, plan: Plan, customer: nat, subscription: nat) returns (ok: bool)
      modifies this
      ensures ok <==> id in old(rows)
      ensures rows == TableAfter(old(rows), OnTenant(id, Checkout(plan, customer, subscription)))
      ensures ok ==> rows[id] == Tenant(plan, Some(customer), Some(subscription), Active, 0, None, None)
    {
      if id !in rows {
        return false;
      }
      rows := rows[id := rows[id].(plan := plan, customer := Some(customer), subscription := Some(subscription),
                                  status := Active, failureCount := 0, firstFailureAt := None, graceEnds := None)];
      return true;
    }

    method AdjustLimits(id: nat, plan: Plan) returns (ok: bool)
      modifies this
      ensures ok <==> id in old(rows)
      ensures rows == TableAfter(old(rows), OnTenant(id, SubscriptionUpdated(plan)))
    {
      if id !in rows {
        return false;
      }
      rows := rows[id := rows[id].(plan := plan)];
      return true;
    }

    method DowngradeToPlan(id: nat, plan: Plan)
      modifies this
      ensures rows == if id in old(rows) then old(rows)[id := Downgraded(old(rows)[id], plan)] else old(rows)
      ensures id in old(rows) && plan == Free ==>
        rows[id] == Tenant(Free, old(rows)[id].customer, None, NoPayment, 0, None, None)
      ensures id in old(rows) && plan != Free ==> rows[id] == old(rows)[id].(plan := plan)
    {
      if id in rows {
        if plan == Free {
          rows := rows[id := rows[id].(plan := plan, subscription := None, graceEnds := None, failureCount := 0,
                                      firstFailureAt := None, status := NoPayment)];
        } else {
          rows := rows[id := rows[id].(plan := plan)];
        }
      }
    }

    method HandleInvoicePaid(customer: nat)
      modifies this
      ensures rows == TableAfter(old(rows), PaidFor(customer))
    {
      rows := map id | id in rows ::
        if rows[id].customer == Some(customer)
        then rows[id].(status := Active, failureCount := 0, graceEnds := None) else rows[id];
    }

    /** `picked` is the row the update happens to return first; none means an unknown customer. The
        flags say which of the three statements go through. */
    method HandlePaymentFailure(customer: nat, now: int, countOk: bool, stampOk: bool, suspendOk: bool)
        returns (ok: bool, ghost picked: nat)
      modifies this
      ensures KnownCustomer(old(rows), customer) ==>
        picked in old(rows) && old(rows)[picked].customer == Some(customer)
      ensures rows ==
        if countOk then TableAfter(old(rows), FailedFor(customer, now, picked, stampOk, suspendOk)) else old(rows)
      ensures !ok <==>
        !countOk || !KnownCustomer(old(rows), customer)
        || (old(rows)[picked].failureCount + 1 >= 3 && DaysSinceFirst(old(rows)[picked], now) >= 7 && !suspendOk)
    {
      hide TableAfter;
      ghost var was := rows;
      var matching := set id | id in rows && rows[id].customer == Some(customer);
      if matching == {} {
        assert forall id :: id in rows ==> id !in matching;
        NobodyFails(rows, customer, now, 0, stampOk, suspendOk);
        return false, 0;
      }
      var tenantID :| tenantID in matching;
      if !countOk {
        return false, tenantID;
      }
      var daysSinceFirst := DaysSinceFirst(rows[tenantID], now);
      picked := tenantID;
      rows := map id | id in rows :: if id in matching then FailureCounted(rows[id]) else rows[id];
      var failureCount := rows[tenantID].failureCount;
      if failureCount == 1 && stampOk {
        rows := rows[tenantID := Stamped(rows[tenantID], now)];
      }
      ok := true;
      if failureCount >= 3 && daysSinceFirst >= 7 {
        if suspendOk {
          rows := rows[tenantID := rows[tenantID].(status := Suspended, plan := Free)];
        } else {
          ok := false;
        }
      }
      assert rows[tenantID] == Failed(was[tenantID], now, stampOk, suspendOk);
      FailureRows(was, rows, customer, now, picked, stampOk, suspendOk);
    }

    method StartGracePeriod(customer: nat, now: int)
      modifies this
      ensures rows == TableAfter(old(rows), DeletedFor(customer, now))
      ensures forall id :: id in rows && rows[id].customer == Some(customer) ==>
        rows[id] == old(rows)[id].(graceEnds := Some(now + 604_800), status := GracePeriod)
    {
      rows := map id | id in rows ::
        if rows[id].customer == Some(customer)
        then rows[id].(graceEnds := Some(now + 7 * DAY), status := GracePeriod) else rows[id];
    }

    /** The grace sweep, run without interference; the downgrades of `failing` tenants go wrong. */
    method CheckGraceExpiry(now: int, failing: set<nat>)
      modifies this
      ensures rows == TableAfter(old(rows), GraceSweep(now, failing))
      ensures forall id :: id in rows && id !in failing ==> !GraceExpired(rows[id], now)
    {
      ghost var was := rows;
      var expired := set id | id in rows && GraceExpired(rows[id], now);
      ghost var all := expired;
      while expired != {}
        invariant expired <= all && rows.Keys == was.Keys
        invariant forall id :: id in rows ==>
          rows[id] == (if id in all && id !in expired && id !in failing then Downgraded(was[id], Free) else was[id])
        decreases expired
      {
        var tenantID :| tenantID in expired;
        expired := expired - {tenantID};
        if tenantID in failing {
          continue;
        }
        DowngradeToPlan(tenantID, Free);
      }
    }

    method ProvisionTrial(id: nat, plan: Plan)
      modifies this
      ensures rows == TableAfter(old(rows), OnTenant(id, TrialStart(plan)))
    {
      if id in rows {
        rows := rows[id := rows[id].(plan := plan)];
      }
    }

    /** The trial sweep: list the expired trials whose plan is still in force, then downgrade each
        listed tenant that still has that plan. The downgrades of `failing` tenants go wrong. */
    method CheckTrialExpiry(now: int, trials: seq<Trial>, failing: set<nat>)
      modifies this
      ensures rows == TableAfter(old(rows), TrialSweep(now, trials, failing))
      ensures forall id :: id in rows && id !in failing && rows[id].plan != Free ==>
        !TrialOver(trials, now, id, rows[id].plan)
    {
      hide TableAfter, TrialOver;
      ghost var was := rows;
      var expired := Listed(rows, trials, now, |trials|);
      for i := 0 to |expired|
        invariant rows.Keys == was.Keys
        invariant forall id :: id in rows ==>
          rows[id] == (if id !in failing && Names(expired[..i], id, was[id].plan) then was[id].(plan := Free) else was[id])
      {
        var et := expired[i];
        assert expired[..i + 1] == expired[..i] + [et];
        if et.tenant in failing {
          continue;
        }
        if et.tenant in rows && rows[et.tenant].plan == et.appliedPlan {
          rows := rows[et.tenant := rows[et.tenant].(plan := Free)];
        }
      }
      assert expired[..|expired|] == expired;
      TrialRows(was, rows, trials, now, failing);
    }
  }

  lemma NobodyFails(rows: Table, customer: nat, now: int, picked: nat, stampOk: bool, suspendOk: bool)
    requires !KnownCustomer(rows, customer)
    ensures TableAfter(rows, FailedFor(customer, now, picked, stampOk, suspendOk)) == rows
  {
  }

  /** What the failure update, the stamp and the suspension amount to together. */
  lemma FailureRows(was: Table, rows: Table, customer: nat, now: int, picked: nat, stampOk: bool, suspendOk: bool)
    requires rows.Keys == was.Keys && picked in was && was[picked].customer == Some(customer)
    requires rows[picked] == Failed(was[picked], now, stampOk, suspendOk)
    requires forall id :: id in was && id != picked ==>
      rows[id] == if was[id].customer == Some(customer) then FailureCounted(was[id]) else was[id]
    ensures rows == TableAfter(was, FailedFor(customer, now, picked, stampOk, suspendOk))
  {
  }

  /** The sweep's query over the first n trial redemptions. */
  function Listed(rows: Table, trials: seq<Trial>, now: int, n: nat): seq<Trial>
    requires n <= |trials|
  {
    if n == 0 then []
    else
      var t := trials[n - 1];
      Listed(rows, trials, now, n - 1)
      + if t.endsAt < now && t.tenant in rows && rows[t.tenant].plan == t.appliedPlan then [t] else []
  }

  ghost predicate Names(trials: seq<Trial>, id: nat, plan: Plan)
  {
    exists t :: t in trials && t.tenant == id && t.appliedPlan == plan
  }

  lemma {:induction false} ListedMembers(rows: Table, trials: seq<Trial>, now: int, n: nat)
    requires n <= |trials|
    ensures forall t :: t in Listed(rows, trials, now, n) <==>
      (t in trials[..n] && t.endsAt < now && t.tenant in rows && rows[t.tenant].plan == t.appliedPlan)
  {
    if n > 0 {
      ListedMembers(rows, trials, now, n - 1);
      assert trials[..n] == trials[..n - 1] + [trials[n - 1]];
    }
  }

  /** What the sweep's updates amount to together. */
  lemma TrialRows(was: Table, rows: Table, trials: seq<Trial>, now: int, failing: set<nat>)
    requires rows.Keys == was.Keys
    requires forall id :: id in was ==>
      rows[id] == (if id !in failing && Names(Listed(was, trials, now, |trials|), id, was[id].plan)
                   then was[id].(plan := Free) else was[id])
    ensures rows == TableAfter(was, TrialSweep(now, trials, failing))
    ensures forall id :: id in rows && id !in failing && rows[id].plan != Free ==>
      !TrialOver(trials, now, id, rows[id].plan)
  {
    ListedMembers(was, trials, now, |trials|);
    assert trials[..|trials|] == trials;
    forall id | id in was
      ensures Names(Listed(was, trials, now, |trials|), id, was[id].plan) <==> TrialOver(trials, now, id, was[id].plan)
    {
    }
  }
}
