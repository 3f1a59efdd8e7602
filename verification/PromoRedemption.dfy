/** Promo-code redemption as a claim protocol between concurrent sessions. The committed tables are
    maps; a transaction works on a private copy of the promo-code row, which it has locked by its
    claiming UPDATE, and publishes row and redemption together when it commits. A session that wants
    to claim a locked row waits, and then sees the newly committed row. */
module PromoRedemption {
  import opened Options

  datatype PromoType = Discount | Trial | UnknownType(name: string)

  datatype Code = Code(
    promoType: PromoType, trialDays: Option<nat>, plan: string, maxUses: Option<int>, currentUses: int,
    validFrom: int, validUntil: Option<int>, active: bool)

  /** The unique key of the redemptions table. */
  datatype Key = Key(code: nat, user: nat)

  datatype Redemption = Redemption(tenant: nat, appliedPlan: string, trialEnd: Option<int>)

  datatype Db = Db(codes: map<nat, Code>, redemptions: map<Key, Redemption>)

  datatype Request = Request(code: nat, user: nat, tenant: nat)

  datatype Outcome =
    | InvalidCode
    | NotEligible
    | ClaimFailed
    | NoLongerAvailable
    | NotInserted
    | CommitFailed
    | Aborted
    | Redeemed(applied: bool)

  /** Where a session stands; `snapshot` is the row it looked up before any transaction. */
  datatype Session =
    | LookedUp(req: Request, snapshot: Code)
    | Checked(req: Request, snapshot: Code, at: int)
    | Begun(req: Request, snapshot: Code, at: int)
    | Claimed(req: Request, snapshot: Code, at: int, working: Code)
    | Inserted(req: Request, snapshot: Code, at: int, working: Code, row: Redemption)
    | Committed(req: Request, snapshot: Code, at: int)
    | Done(outcome: Outcome)

  datatype System = System(db: Db, sessions: map<nat, Session>, locks: map<nat, nat>)

  const DAY: int := 86_400

  // ------------------------------------------------------------ the checks

  /** The eligibility check: the looked-up row, the clock, and the redemption history. */
  predicate Eligible(code: Code, redeemed: bool, now: int)
  {
    && code.active
    && now >= code.validFrom
    && !(code.validUntil.Some? && now > code.validUntil.value)
    && !(code.maxUses.Some? && code.currentUses >= code.maxUses.value)
    && !redeemed
  }

  predicate Claimable(code: Code)
  {
    code.maxUses.None? || code.currentUses < code.maxUses.value
  }

  /** The row to insert: none for an unknown type, and none for a trial without a length, on which
      the original stops with a nil dereference before it inserts. */
  function RowFor(req: Request, snapshot: Code, now: int): Option<Redemption>
  {
    match snapshot.promoType
    case Discount => Some(Redemption(req.tenant, snapshot.plan, None))
    case Trial =>
      if snapshot.trialDays.None? then None
      else Some(Redemption(req.tenant, snapshot.plan, Some(now + snapshot.trialDays.value * DAY)))
    case UnknownType(_) => None
  }

  // ------------------------------------------------------------- the steps

  /** `ok` says whether the statement behind a step goes through. */
  datatype Action =
    | Lookup(sid: nat, req: Request, ok: bool)
    | Check(sid: nat, now: int, ok: bool)
    | Begin(sid: nat, ok: bool)
    | Claim(sid: nat, ok: bool)
    | Insert(sid: nat, now: int, ok: bool)
    | Commit(sid: nat, ok: bool)
    | ApplyBenefit(sid: nat, ok: bool)
    | Abort(sid: nat)
    | Create(code: nat, row: Code)
    | Deactivate(code: nat)

  function Moved(s: System, sid: nat, w: Session): System
  {
    s.(sessions := s.sessions[sid := w])
  }

  function Finish(s: System, sid: nat, outcome: Outcome): System
  {
    Moved(s, sid, Done(outcome))
  }

  /** A rollback forgets the private copy and frees the row. */
  function Rollback(s: System, sid: nat, code: nat, outcome: Outcome): System
  {
    System(s.db, s.sessions[sid := Done(outcome)], s.locks - {code})
  }

  function AfterLookup(s: System, sid: nat, req: Request, ok: bool): System
  {
    if !ok || req.code !in s.db.codes then Finish(s, sid, InvalidCode)
    else Moved(s, sid, LookedUp(req, s.db.codes[req.code]))
  }

  /** The check, whose query of the redemption history may fail. */
  function AfterCheck(s: System, sid: nat, now: int, ok: bool): System
    requires sid in s.sessions && s.sessions[sid].LookedUp?
  {
    var w := s.sessions[sid];
    if Eligible(w.snapshot, Key(w.req.code, w.req.user) in s.db.redemptions, now) && ok
    then Moved(s, sid, Checked(w.req, w.snapshot, now))
    else Finish(s, sid, NotEligible)
  }

  /** The claiming UPDATE: lock the row and add one use, if the committed row still allows it. */
  function AfterClaim(s: System, sid: nat): System
    requires sid in s.sessions && s.sessions[sid].Begun?
  {
    var w := s.sessions[sid];
    if w.req.code in s.db.codes && Claimable(s.db.codes[w.req.code])
    then
      var row := s.db.codes[w.req.code];
      System(s.db,
             s.sessions[sid := Claimed(w.req, w.snapshot, w.at, row.(currentUses := row.currentUses + 1))],
             s.locks[w.req.code := sid])
    else Finish(s, sid, NoLongerAvailable)
  }

  /** The redemption row, which the unique key refuses to a user who already has one. */
  function AfterInsert(s: System, sid: nat, now: int, ok: bool): System
    requires sid in s.sessions && s.sessions[sid].Claimed?
  {
    var w := s.sessions[sid];
    var row := RowFor(w.req, w.snapshot, now);
    if row.None? || Key(w.req.code, w.req.user) in s.db.redemptions || !ok
    then Rollback(s, sid, w.req.code, NotInserted)
    else Moved(s, sid, Inserted(w.req, w.snapshot, w.at, w.working, row.value))
  }

  /** Both writes become visible at once, and the row is free again. */
  function AfterCommit(s: System, sid: nat): System
    requires sid in s.sessions && s.sessions[sid].Inserted?
  {
    var w := s.sessions[sid];
    System(Db(s.db.codes[w.req.code := w.working],
              s.db.redemptions[Key(w.req.code, w.req.user) := w.row]),
           s.sessions[sid := Committed(w.req, w.snapshot, w.at)],
           s.locks - {w.req.code})
  }

  function WithCode(s: System, code: nat, row: Code): System
  {
    s.(db := s.db.(codes := s.db.codes[code := row]))
  }

  predicate HoldsLock(w: Session)
  {
    w.Claimed? || w.Inserted?
  }

  function At(s: System, sid: nat): Session
  {
    if sid in s.sessions then s.sessions[sid] else Done(Aborted)
  }

  /** One atomic step; a step that is not possible in the present state changes nothing. */
  function Next(s: System, a: Action): System
  {
    match a
    case Lookup(sid, req, ok) => if sid in s.sessions then s else AfterLookup(s, sid, req, ok)
    case Check(sid, now, ok) => if At(s, sid).LookedUp? then AfterCheck(s, sid, now, ok) else s
    case Begin(sid, ok) =>
      var w := At(s, sid);
      if !w.Checked? then s
      else Moved(s, sid, if ok then Begun(w.req, w.snapshot, w.at) else Done(Aborted))
    case Claim(sid, ok) =>
      if !At(s, sid).Begun? then s
      else if !ok then Finish(s, sid, ClaimFailed)
      else if At(s, sid).req.code !in s.locks then AfterClaim(s, sid) else s
    case Insert(sid, now, ok) => if At(s, sid).Claimed? then AfterInsert(s, sid, now, ok) else s
    case Commit(sid, ok) =>
      if !At(s, sid).Inserted? then s
      else if ok then AfterCommit(s, sid)
      else Rollback(s, sid, At(s, sid).req.code, CommitFailed)
    case ApplyBenefit(sid, ok) => if At(s, sid).Committed? then Finish(s, sid, Redeemed(ok)) else s
    case Abort(sid) =>
      var w := At(s, sid);
      if w.Done? || w.Committed? then s
      else if HoldsLock(w) then Rollback(s, sid, w.req.code, Aborted)
      else Finish(s, sid, Aborted)
    case Create(code, row) =>
      if code in s.db.codes then s else WithCode(s, code, row.(currentUses := 0, active := true))
    case Deactivate(code) =>
      if code !in s.db.codes || code in s.locks then s
      else WithCode(s, code, s.db.codes[code].(active := false))
  }

  function Run(s: System, actions: seq<Action>): System
    decreases |actions|
  {
    if actions == [] then s else Run(Next(s, actions[0]), actions[1..])
  }

  const EMPTY: System := System(Db(map[], map[]), map[], map[])

  // ------------------------------------------------------- the invariant

  ghost function KeysOf(redemptions: map<Key, Redemption>, code: nat): set<Key>
  {
    set k | k in redemptions && k.code == code
  }

  /** The committed tables: uses equal redemption rows and stay within the maximum. */
  ghost predicate Conserved(db: Db)
  {
    && (forall c :: c in db.codes ==> db.codes[c].currentUses == |KeysOf(db.redemptions, c)|)
    && (forall c :: c in db.codes && db.codes[c].maxUses.Some? ==>
          db.codes[c].currentUses <= (if db.codes[c].maxUses.value < 0 then 0 else db.codes[c].maxUses.value))
    && (forall k :: k in db.redemptions ==> k.code in db.codes)
  }

  /** A session past its claim owns the lock of its row, and its private copy is the committed row
      with one more use. */
  ghost predicate LocksHeld(s: System)
  {
    && (forall c :: c in s.locks ==>
          s.locks[c] in s.sessions && HoldsLock(s.sessions[s.locks[c]]) && s.sessions[s.locks[c]].req.code == c)
    && (forall sid :: sid in s.sessions && HoldsLock(s.sessions[sid]) ==> Owns(s, sid))
  }

  ghost predicate Owns(s: System, sid: nat)
    requires sid in s.sessions && HoldsLock(s.sessions[sid])
  {
    var w := s.sessions[sid];
    && w.req.code in s.locks && s.locks[w.req.code] == sid
    && w.req.code in s.db.codes && Claimable(s.db.codes[w.req.code])
    && w.working == s.db.codes[w.req.code].(currentUses := s.db.codes[w.req.code].currentUses + 1)
    && (w.Inserted? ==> Key(w.req.code, w.req.user) !in s.db.redemptions)
  }

  ghost predicate Inv(s: System)
  {
    Conserved(s.db) && LocksHeld(s)
  }

  lemma CountOneMore(redemptions: map<Key, Redemption>, k: Key, row: Redemption, code: nat)
    requires k !in redemptions
    ensures |KeysOf(redemptions[k := row], code)| == |KeysOf(redemptions, code)| + if k.code == code then 1 else 0
  {
    if k.code == code {
      assert KeysOf(redemptions[k := row], code) == KeysOf(redemptions, code) + {k};
    } else {
      assert KeysOf(redemptions[k := row], code) == KeysOf(redemptions, code);
    }
  }

  lemma MoveKeeps(s: System, sid: nat, w: Session)
    requires Inv(s) && !HoldsLock(w) && (sid in s.sessions ==> !HoldsLock(s.sessions[sid]))
    ensures Inv(Moved(s, sid, w))
  {
    forall other | other in s.sessions[sid := w] && HoldsLock(s.sessions[sid := w][other])
      ensures Owns(Moved(s, sid, w), other)
    {
      assert Owns(s, other);
    }
  }

  lemma RollbackKeeps(s: System, sid: nat, outcome: Outcome)
    requires Inv(s) && sid in s.sessions && HoldsLock(s.sessions[sid])
    ensures Inv(Rollback(s, sid, s.sessions[sid].req.code, outcome))
  {
    var s' := Rollback(s, sid, s.sessions[sid].req.code, outcome);
    assert Owns(s, sid);
    forall other | other in s'.sessions && HoldsLock(s'.sessions[other]) ensures Owns(s', other) {
      assert Owns(s, other);
    }
  }

  lemma ClaimKeeps(s: System, sid: nat)
    requires Inv(s) && sid in s.sessions && s.sessions[sid].Begun? && s.sessions[sid].req.code !in s.locks
    ensures Inv(AfterClaim(s, sid))
  {
    hide Conserved;
    var s' := AfterClaim(s, sid);
    forall other | other in s'.sessions && HoldsLock(s'.sessions[other]) ensures Owns(s', other) {
      if other != sid {
        assert Owns(s, other);
      }
    }
  }

  lemma InsertKeeps(s: System, sid: nat, now: int, ok: bool)
    requires Inv(s) && sid in s.sessions && s.sessions[sid].Claimed?
    ensures Inv(AfterInsert(s, sid, now, ok))
  {
    hide Conserved;
    RollbackKeeps(s, sid, NotInserted);
    var s' := AfterInsert(s, sid, now, ok);
    assert Owns(s, sid);
    if s'.sessions[sid].Inserted? {
      forall other | other in s'.sessions && HoldsLock(s'.sessions[other]) ensures Owns(s', other) {
        assert Owns(s, other);
      }
    }
  }

  lemma CommitKeeps(s: System, sid: nat)
    requires Inv(s) && sid in s.sessions && s.sessions[sid].Inserted?
    ensures Inv(AfterCommit(s, sid))
  {
    var w, s' := s.sessions[sid], AfterCommit(s, sid);
    var k := Key(w.req.code, w.req.user);
    assert Owns(s, sid);
    forall c | c in s'.db.codes
      ensures s'.db.codes[c].currentUses == |KeysOf(s'.db.redemptions, c)|
    {
      CountOneMore(s.db.redemptions, k, w.row, c);
    }
    forall other | other in s'.sessions && HoldsLock(s'.sessions[other]) ensures Owns(s', other) {
      assert Owns(s, other);
    }
  }

  lemma AdminKeeps(s: System, code: nat, row: Code)
    requires Inv(s) && code !in s.locks
    requires if code in s.db.codes then row == s.db.codes[code].(active := false) else row.currentUses == 0
    ensures Inv(WithCode(s, code, row))
  {
    var s' := WithCode(s, code, row);
    if code !in s.db.codes {
      assert KeysOf(s.db.redemptions, code) == {};
    }
    forall sid | sid in s'.sessions && HoldsLock(s'.sessions[sid]) ensures Owns(s', sid) {
      assert Owns(s, sid);
    }
  }

  lemma LockedCodesExist(s: System, code: nat)
    requires Inv(s) && code !in s.db.codes
    ensures code !in s.locks
  {
  }

  /** What every step keeps. */
  lemma NextKeeps(s: System, a: Action)
    requires Inv(s)
    ensures Inv(Next(s, a))
  {
    hide Inv, AfterClaim, AfterInsert, AfterCommit, Rollback, WithCode, Eligible, Moved;
    match a
    case Lookup(sid, req, ok) =>
      if sid !in s.sessions {
        MoveKeeps(s, sid, if ok && req.code in s.db.codes then LookedUp(req, s.db.codes[req.code]) else Done(InvalidCode));
      }
    case Check(sid, now, ok) =>
      if At(s, sid).LookedUp? {
        var w := At(s, sid);
        MoveKeeps(s, sid, Checked(w.req, w.snapshot, now));
        MoveKeeps(s, sid, Done(NotEligible));
      }
    case Begin(sid, ok) =>
      var w := At(s, sid);
      if w.Checked? {
        MoveKeeps(s, sid, if ok then Begun(w.req, w.snapshot, w.at) else Done(Aborted));
      }
    case Claim(sid, ok) =>
      if At(s, sid).Begun? {
        MoveKeeps(s, sid, Done(ClaimFailed));
        if At(s, sid).req.code !in s.locks {
          ClaimKeeps(s, sid);
        }
      }
    case Insert(sid, now, ok) =>
      if At(s, sid).Claimed? {
        InsertKeeps(s, sid, now, ok);
      }
    case Commit(sid, ok) =>
      if At(s, sid).Inserted? {
        CommitKeeps(s, sid);
        RollbackKeeps(s, sid, CommitFailed);
      }
    case ApplyBenefit(sid, ok) =>
      if At(s, sid).Committed? {
        MoveKeeps(s, sid, Done(Redeemed(ok)));
      }
    case Abort(sid) =>
      if HoldsLock(At(s, sid)) {
        RollbackKeeps(s, sid, Aborted);
      } else {
        MoveKeeps(s, sid, Done(Aborted));
      }
    case Create(code, row) =>
      if code !in s.db.codes {
        LockedCodesExist(s, code);
        AdminKeeps(s, code, row.(currentUses := 0, active := true));
      }
    case Deactivate(code) =>
      if code in s.db.codes && code !in s.locks {
        AdminKeeps(s, code, s.db.codes[code].(active := false));
      }
  }

  /** In every state reached by any interleaving of any number of sessions and admin steps, the
      uses of each code equal its redemption rows and never exceed its maximum. */
  lemma {:induction false} AlwaysConserved(s: System, actions: seq<Action>)
    requires Inv(s)
    ensures Inv(Run(s, actions)) && Conserved(Run(s, actions).db)
    decreases |actions|
  {
    if actions != [] {
      NextKeeps(s, actions[0]);
      AlwaysConserved(Next(s, actions[0]), actions[1..]);
    }
  }

  /** That invariant holds to begin with. */
  lemma EmptyIsSound()
    ensures Inv(EMPTY)
  {
  }

  // --------------------------------------------- what eligibility means here

  ghost predicate PassedCheck(w: Session)
  {
    w.Checked? || w.Begun? || HoldsLock(w) || w.Committed? ==>
      && w.snapshot.active && w.snapshot.validFrom <= w.at
      && (w.snapshot.validUntil.Some? ==> w.at <= w.snapshot.validUntil.value)
      && (w.snapshot.maxUses.Some? ==> w.snapshot.currentUses < w.snapshot.maxUses.value)
  }

  lemma PassedStep(s: System, a: Action, sid: nat)
    requires sid in s.sessions && PassedCheck(s.sessions[sid])
    ensures sid in Next(s, a).sessions && PassedCheck(Next(s, a).sessions[sid])
  {
  }

  lemma NewSession(s: System, a: Action, sid: nat)
    requires sid !in s.sessions && sid in Next(s, a).sessions
    ensures PassedCheck(Next(s, a).sessions[sid])
  {
  }

  /** Whoever redeems found, at the instant of its check, the row it had looked up active, within its dates
      and below its maximum. */
  lemma {:induction false} RedeemersWereEligible(s: System, actions: seq<Action>)
    requires forall sid :: sid in s.sessions ==> PassedCheck(s.sessions[sid])
    ensures forall sid :: sid in Run(s, actions).sessions ==> PassedCheck(Run(s, actions).sessions[sid])
    decreases |actions|
  {
    hide Next, PassedCheck;
    if actions != [] {
      forall sid | sid in Next(s, actions[0]).sessions ensures PassedCheck(Next(s, actions[0]).sessions[sid]) {
        if sid in s.sessions {
          PassedStep(s, actions[0], sid);
        } else {
          NewSession(s, actions[0], sid);
        }
      }
      RedeemersWereEligible(Next(s, actions[0]), actions[1..]);
    }
  }

  /** A claim that reaches a free row succeeds iff fewer redemptions of the code have been committed
      than its maximum allows: neither activity nor dates count any more. */
  lemma ClaimSucceedsExactly(s: System, sid: nat)
    requires Inv(s) && At(s, sid).Begun? && At(s, sid).req.code !in s.locks
    ensures var code := At(s, sid).req.code;
      At(Next(s, Claim(sid, true)), sid).Claimed? <==>
      code in s.db.codes && (s.db.codes[code].maxUses.Some? ==>
        |KeysOf(s.db.redemptions, code)| < s.db.codes[code].maxUses.value)
  {
    assert Conserved(s.db);
  }

  /** Whether some Deactivate step of a run takes effect on a code. */
  ghost predicate Deactivated(s: System, actions: seq<Action>, code: nat)
    decreases |actions|
  {
    actions != [] &&
    ((actions[0] == Deactivate(code) && code in s.db.codes && code !in s.locks)
     || Deactivated(Next(s, actions[0]), actions[1..], code))
  }

  lemma ActiveStep(s: System, a: Action, code: nat)
    requires Inv(s) && code in s.db.codes
    ensures code in Next(s, a).db.codes
    ensures Next(s, a).db.codes[code].active <==>
      s.db.codes[code].active && !(a == Deactivate(code) && code !in s.locks)
  {
    if a.Commit? && At(s, a.sid).Inserted? {
      assert Owns(s, a.sid);
    }
  }

  /** A code active at the start of a run is active at its end iff no deactivation took effect: in
      particular no commit revives a code, although it writes the whole row back. */
  lemma {:induction false} ActiveUnlessDeactivated(s: System, actions: seq<Action>, code: nat)
    requires Inv(s) && code in s.db.codes
    ensures code in Run(s, actions).db.codes
    ensures Run(s, actions).db.codes[code].active <==> s.db.codes[code].active && !Deactivated(s, actions, code)
    decreases |actions|
  {
    if actions != [] {
      ActiveStep(s, actions[0], code);
      NextKeeps(s, actions[0]);
      ActiveUnlessDeactivated(Next(s, actions[0]), actions[1..], code);
    }
  }

  /** Once a session has looked up its code, it works on that request and that row to its end. */
  lemma {:induction false} SnapshotStays(s: System, actions: seq<Action>, sid: nat)
    requires sid in s.sessions
    ensures sid in Run(s, actions).sessions
    ensures var w, w' := s.sessions[sid], Run(s, actions).sessions[sid];
      w'.Done? || (!w.Done? && w'.req == w.req && w'.snapshot == w.snapshot)
    decreases |actions|
  {
    if actions != [] {
      SnapshotStays(Next(s, actions[0]), actions[1..], sid);
    }
  }

  ghost predicate Recorded(s: System)
  {
    forall sid :: sid in s.sessions && s.sessions[sid].Committed? ==>
      Key(s.sessions[sid].req.code, s.sessions[sid].req.user) in s.db.redemptions
  }

  lemma {:induction false} CommittedIsRecorded(s: System, actions: seq<Action>)
    requires Recorded(s)
    ensures Recorded(Run(s, actions))
    decreases |actions|
  {
    if actions != [] {
      CommittedIsRecorded(Next(s, actions[0]), actions[1..]);
    }
  }

  /** A session that has just looked up its code and is committed at the end of a run has its redemption
      on record, and the code it redeemed is active there iff no deactivation took effect in the run. The
      check in between looks at the row as it was. */
  lemma RedeemedExactly(s: System, actions: seq<Action>, sid: nat)
    requires Inv(s) && Recorded(s) && sid in s.sessions && s.sessions[sid].LookedUp?
    requires s.sessions[sid].req.code in s.db.codes && s.sessions[sid].snapshot == s.db.codes[s.sessions[sid].req.code]
    requires At(Run(s, actions), sid).Committed?
    ensures var end, req := Run(s, actions), s.sessions[sid].req;
      && req.code in end.db.codes && Key(req.code, req.user) in end.db.redemptions
      && (end.db.codes[req.code].active <==> !Deactivated(s, actions, req.code))
  {
    hide Inv, Deactivated, Recorded;
    var w := s.sessions[sid];
    SnapshotStays(s, actions, sid);
    CommittedIsRecorded(s, actions);
    CommittedHasKey(Run(s, actions), sid);
    CommittedWasEligible(s, actions, sid);
    ActiveUnlessDeactivated(s, actions, w.req.code);
  }

  lemma CommittedHasKey(s: System, sid: nat)
    requires Recorded(s) && At(s, sid).Committed?
    ensures Key(At(s, sid).req.code, At(s, sid).req.user) in s.db.redemptions
  {
  }

  /** The check is passed on the row as looked up, whatever other sessions do meanwhile. */
  lemma {:induction false} CommittedWasEligible(s: System, actions: seq<Action>, sid: nat)
    requires sid in s.sessions && PassedCheck(s.sessions[sid]) && At(Run(s, actions), sid).Committed?
    ensures PassedCheck(At(Run(s, actions), sid))
    decreases |actions|
  {
    hide Next, PassedCheck;
    if actions != [] {
      PassedStep(s, actions[0], sid);
      CommittedWasEligible(Next(s, actions[0]), actions[1..], sid);
    }
  }

  /** A code can still be redeemed after it has been deactivated, if the check came first. */
  lemma RedeemedAfterDeactivation(row: Code, req: Request)
    requires row == Code(Discount, None, "attache", Some(1), 0, 0, None, true) && req == Request(7, 1, 1)
    ensures var s := System(Db(map[7 := row], map[]), map[], map[]);
      var end := Run(s, [Lookup(0, req, true), Check(0, 5, true), Begin(0, true), Deactivate(7),
                         Claim(0, true), Insert(0, 6, true), Commit(0, true)]);
      Inv(s) && 7 in end.db.codes && !end.db.codes[7].active && Key(7, 1) in end.db.redemptions
  {
    var s0 := System(Db(map[7 := row], map[]), map[], map[]);
    assert KeysOf(s0.db.redemptions, 7) == {};
    var acts := [Lookup(0, req, true), Check(0, 5, true), Begin(0, true), Deactivate(7),
                 Claim(0, true), Insert(0, 6, true), Commit(0, true)];
    var s1 := Next(s0, acts[0]);
    var s2 := Next(s1, acts[1]);
    var s3 := Next(s2, acts[2]);
    var s4 := Next(s3, acts[3]);
    var s5 := Next(s4, acts[4]);
    var s6 := Next(s5, acts[5]);
    var s7 := Next(s6, acts[6]);
    assert s4.sessions[0] == Begun(req, row, 5) && !s4.db.codes[7].active;
    assert s5.sessions[0].Claimed? && s6.sessions[0].Inserted?;
    RunIs(acts, s0, s1, s2, s3, s4, s5, s6, s7);
  }

  lemma RunIs(acts: seq<Action>, s0: System, s1: System, s2: System, s3: System, s4: System, s5: System, s6: System,
              s7: System)
    requires |acts| == 7 && s1 == Next(s0, acts[0]) && s2 == Next(s1, acts[1]) && s3 == Next(s2, acts[2])
    requires s4 == Next(s3, acts[3]) && s5 == Next(s4, acts[4]) && s6 == Next(s5, acts[5]) && s7 == Next(s6, acts[6])
    ensures Run(s0, acts) == s7
  {
    hide Next;
    assert acts[0..] == acts && acts[7..] == [];
    RunStep(s0, acts, 0);
    RunStep(s1, acts, 1);
    RunStep(s2, acts, 2);
    RunStep(s3, acts, 3);
    RunStep(s4, acts, 4);
    RunStep(s5, acts, 5);
    RunStep(s6, acts, 6);
  }

  // --------------------------------------------------- one call from start to end

  /** The instants of the two clock readings, and which of the statements and calls go through. */
  datatype Env = Env(
    checkAt: int, insertAt: int, lookupOk: bool, historyOk: bool, beginOk: bool, claimOk: bool, insertOk: bool,
    commitOk: bool, benefitOk: bool)

  /** The tables and the outcome after one call, when `others` is what the tables have become, by
      other sessions' commits, at the moment of the claim. */
  function Applied(db: Db, others: Db, req: Request, env: Env): (Db, Outcome)
  {
    var k := Key(req.code, req.user);
    if !env.lookupOk || req.code !in db.codes then (db, InvalidCode)
    else if !Eligible(db.codes[req.code], k in db.redemptions, env.checkAt) || !env.historyOk then (db, NotEligible)
    else if !env.beginOk then (db, Aborted)
    else Transacted(db.codes[req.code], others, req, env)
  }

  /** The transaction, for the row `promo` looked up earlier. */
  function Transacted(promo: Code, others: Db, req: Request, env: Env): (Db, Outcome)
  {
    var k := Key(req.code, req.user);
    if !env.claimOk then (others, ClaimFailed)
    else if req.code !in others.codes || !Claimable(others.codes[req.code]) then (others, NoLongerAvailable)
    else
      var row := RowFor(req, promo, env.insertAt);
      if row.None? || k in others.redemptions || !env.insertOk then (others, NotInserted)
      else if !env.commitOk then (others, CommitFailed)
      else
        var code := others.codes[req.code];
        (Db(others.codes[req.code := code.(currentUses := code.currentUses + 1)], others.redemptions[k := row.value]),
         Redeemed(env.benefitOk))
  }

  predicate AllGoThrough(env: Env)
  {
    && env.lookupOk && env.historyOk && env.beginOk && env.claimOk && env.insertOk && env.commitOk && env.benefitOk
  }

  /** A discount, or a trial of a given length. */
  predicate Redeemable(code: Code)
  {
    code.promoType == Discount || (code.promoType == Trial && code.trialDays.Some?)
  }

  /** When every statement goes through and no other session intervenes, a call redeems iff the code exists,
      is active, within its dates and below its maximum, the user has not had it, and it is a discount or a
      trial with a length. Then one use and one redemption are added, with the end of the trial that many
      times 86400 seconds on; otherwise the tables stay as they were. */
  lemma RedeemsExactly(db: Db, req: Request, env: Env)
    requires AllGoThrough(env)
    ensures var (db', outcome) := Applied(db, db, req, env);
      && (outcome == Redeemed(true) <==>
            && req.code in db.codes && db.codes[req.code].active && db.codes[req.code].validFrom <= env.checkAt
            && (db.codes[req.code].validUntil.Some? ==> env.checkAt <= db.codes[req.code].validUntil.value)
            && (db.codes[req.code].maxUses.Some? ==> db.codes[req.code].currentUses < db.codes[req.code].maxUses.value)
            && Key(req.code, req.user) !in db.redemptions && Redeemable(db.codes[req.code]))
      && (outcome != Redeemed(true) ==> db' == db)
      && (outcome == Redeemed(true) ==>
            var code := db.codes[req.code];
            var end := if code.promoType == Discount then None else Some(env.insertAt + code.trialDays.value * 86_400);
            && db'.codes == db.codes[req.code := code.(currentUses := code.currentUses + 1)]
            && db'.redemptions == db.redemptions[Key(req.code, req.user) := Redemption(req.tenant, code.plan, end)])
  {
  }

  class PromoService {
    var db: Db

    constructor (db: Db)
      ensures this.db == db
    {
      this.db := db;
    }

    method Apply(req: Request, env: Env, others: Db) returns (outcome: Outcome)
      modifies this
      ensures (db, outcome) == Applied(old(db), others, req, env)
    {
      if !env.lookupOk || req.code !in db.codes {
        return InvalidCode;
      }
      var promo := db.codes[req.code];
      var eligible := CheckEligibility(promo, req.user, req.code, env.checkAt, env.historyOk);
      if !eligible {
        return NotEligible;
      }
      if !env.beginOk {
        return Aborted;
      }
      db := others;
      if !env.claimOk {
        return ClaimFailed;
      }
      if req.code !in db.codes || !(db.codes[req.code].maxUses.None? ||
                                    db.codes[req.code].currentUses < db.codes[req.code].maxUses.value) {
        return NoLongerAvailable;
      }
      var claimed := db.codes[req.code].(currentUses := db.codes[req.code].currentUses + 1);
      var trialEnd := None;
      match promo.promoType {
        case Discount =>
        case Trial =>
          if promo.trialDays.None? {
            return NotInserted;
          }
          trialEnd := Some(env.insertAt + promo.trialDays.value * DAY);
        case UnknownType(_) =>
          return NotInserted;
      }
      if Key(req.code, req.user) in db.redemptions || !env.insertOk {
        return NotInserted;
      }
      if !env.commitOk {
        return CommitFailed;
      }
      db := Db(db.codes[req.code := claimed],
               db.redemptions[Key(req.code, req.user) := Redemption(req.tenant, promo.plan, trialEnd)]);
      return Redeemed(env.benefitOk);
    }

    method CheckEligibility(promo: Code, user: nat, code: nat, now: int, historyOk: bool) returns (ok: bool)
      ensures ok <==>
        && promo.active && promo.validFrom <= now && (promo.validUntil.Some? ==> now <= promo.validUntil.value)
        && (promo.maxUses.Some? ==> promo.currentUses < promo.maxUses.value)
        && historyOk && Key(code, user) !in db.redemptions
    {
      if !promo.active {
        return false;
      }
      if now < promo.validFrom {
        return false;
      }
      if promo.validUntil.Some? && now > promo.validUntil.value {
        return false;
      }
      if promo.maxUses.Some? && promo.currentUses >= promo.maxUses.value {
        return false;
      }
      if !historyOk {
        return false;
      }
      if Key(code, user) in db.redemptions {
        return false;
      }
      return true;
    }
  }

  function Solo(req: Request, env: Env): seq<Action>
  {
    [Lookup(0, req, env.lookupOk), Check(0, env.checkAt, env.historyOk), Begin(0, env.beginOk), Claim(0, env.claimOk),
     Insert(0, env.insertAt, env.insertOk), Commit(0, env.commitOk), ApplyBenefit(0, env.benefitOk)]
  }

  /** A session that is done takes no further step. */
  lemma {:induction false} DoneStays(s: System, actions: seq<Action>, outcome: Outcome)
    requires At(s, 0) == Done(outcome) && 0 in s.sessions
    requires forall i :: 0 <= i < |actions| ==>
      !actions[i].Create? && !actions[i].Deactivate? && actions[i].sid == 0
    ensures Run(s, actions) == s
    decreases |actions|
  {
    if actions != [] {
      assert Next(s, actions[0]) == s;
      DoneStays(s, actions[1..], outcome);
    }
  }

  lemma RunStep(s: System, actions: seq<Action>, n: nat)
    requires n < |actions|
    ensures Run(s, actions[n..]) == Run(Next(s, actions[n]), actions[n + 1..])
  {
    assert actions[n..][1..] == actions[n + 1..];
  }

  /** The call, run alone, is the protocol's steps in order. */
  lemma SoloCallIsProtocol(db: Db, req: Request, env: Env)
    ensures var s := Run(System(db, map[], map[]), Solo(req, env));
      s.db == Applied(db, db, req, env).0 && At(s, 0) == Done(Applied(db, db, req, env).1)
  {
    var acts, s0 := Solo(req, env), System(db, map[], map[]);
    assert acts[0..] == acts;
    RunStep(s0, acts, 0);
    var s1 := Next(s0, acts[0]);
    if !env.lookupOk || req.code !in db.codes {
      DoneStays(s1, acts[1..], InvalidCode);
    } else {
      var promo := db.codes[req.code];
      RunStep(s1, acts, 1);
      var s2 := Next(s1, acts[1]);
      if !Eligible(promo, Key(req.code, req.user) in db.redemptions, env.checkAt) || !env.historyOk {
        DoneStays(s2, acts[2..], NotEligible);
      } else {
        RunStep(s2, acts, 2);
        var s3 := Next(s2, acts[2]);
        if !env.beginOk {
          DoneStays(s3, acts[3..], Aborted);
        } else {
          assert s3 == System(db, map[0 := Begun(req, promo, env.checkAt)], map[]);
          SoloTransaction(db, req, env);
        }
      }
    }
  }

  /** The system of one session, which holds the lock of its code or none. */
  function Alone(db: Db, w: Session, locks: map<nat, nat>): System
  {
    System(db, map[0 := w], locks)
  }

  lemma SoloClaim(db: Db, req: Request, promo: Code, at: int, ok: bool)
    requires req.code in db.codes && db.codes[req.code] == promo && Claimable(promo)
    ensures Next(Alone(db, Begun(req, promo, at), map[]), Claim(0, ok)) ==
      if !ok then Alone(db, Done(ClaimFailed), map[])
      else Alone(db, Claimed(req, promo, at, promo.(currentUses := promo.currentUses + 1)), map[req.code := 0])
  {
  }

  lemma SoloInsert(db: Db, req: Request, promo: Code, at: int, working: Code, now: int, ok: bool)
    requires Key(req.code, req.user) !in db.redemptions
    ensures Next(Alone(db, Claimed(req, promo, at, working), map[req.code := 0]), Insert(0, now, ok)) ==
      if RowFor(req, promo, now).None? || !ok then Alone(db, Done(NotInserted), map[])
      else Alone(db, Inserted(req, promo, at, working, RowFor(req, promo, now).value), map[req.code := 0])
  {
  }

  lemma SoloCommit(db: Db, req: Request, promo: Code, at: int, working: Code, row: Redemption, ok: bool)
    ensures Next(Alone(db, Inserted(req, promo, at, working, row), map[req.code := 0]), Commit(0, ok)) ==
      if !ok then Alone(db, Done(CommitFailed), map[])
      else Alone(Db(db.codes[req.code := working], db.redemptions[Key(req.code, req.user) := row]),
                 Committed(req, promo, at), map[])
  {
  }

  lemma SoloBenefit(db: Db, req: Request, promo: Code, at: int, ok: bool)
    ensures Next(Alone(db, Committed(req, promo, at), map[]), ApplyBenefit(0, ok)) == Alone(db, Done(Redeemed(ok)), map[])
  {
  }

  lemma SoloTransaction(db: Db, req: Request, env: Env)
    requires req.code in db.codes && Claimable(db.codes[req.code])
    requires Key(req.code, req.user) !in db.redemptions
    ensures var s := Run(Alone(db, Begun(req, db.codes[req.code], env.checkAt), map[]), Solo(req, env)[3..]);
      var (db', outcome) := Transacted(db.codes[req.code], db, req, env);
      s.db == db' && At(s, 0) == Done(outcome)
  {
    hide Next, RowFor;
    var acts, promo, at := Solo(req, env), db.codes[req.code], env.checkAt;
    var working := promo.(currentUses := promo.currentUses + 1);
    var s3 := Alone(db, Begun(req, promo, at), map[]);
    RunStep(s3, acts, 3);
    SoloClaim(db, req, promo, at, env.claimOk);
    var s4 := Next(s3, acts[3]);
    if !env.claimOk {
      DoneStays(s4, acts[4..], ClaimFailed);
    } else {
      RunStep(s4, acts, 4);
      SoloInsert(db, req, promo, at, working, env.insertAt, env.insertOk);
      var s5 := Next(s4, acts[4]);
      var row := RowFor(req, promo, env.insertAt);
      if row.None? || !env.insertOk {
        DoneStays(s5, acts[5..], NotInserted);
      } else {
        RunStep(s5, acts, 5);
        SoloCommit(db, req, promo, at, working, row.value, env.commitOk);
        var s6 := Next(s5, acts[5]);
        if !env.commitOk {
          DoneStays(s6, acts[6..], CommitFailed);
        } else {
          RunStep(s6, acts, 6);
          SoloBenefit(s6.db, req, promo, at, env.benefitOk);
          assert acts[7..] == [];
        }
      }
    }
  }
}
