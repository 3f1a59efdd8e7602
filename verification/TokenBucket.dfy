/** The per-IP token bucket that guards the whole API. The clock and the token count are reals
    (seconds, tokens); the original uses float64 and rounding is not modelled. */
module TokenBucket {
  datatype Address = Address(text: string)

  /** The two fields of a bucket that change. */
  datatype Level = Level(tokens: real, lastFill: real)

  type Levels = map<Address, Level>

  const IDLE_SECONDS: real := 600.0

  function Capped(tokens: real, max: real): real
  {
    if tokens > max then max else tokens
  }

  function Rate(rpm: int): real
  {
    rpm as real / 60.0
  }

  /** The tokens that flow in over a span of time. */
  function Gain(rpm: int, seconds: real): real
  {
    seconds * rpm as real / 60.0
  }

  /** The tokens a bucket offers at `now`. */
  function Offer(rpm: int, b: Level, now: real): real
  {
    Capped(b.tokens + Gain(rpm, now - b.lastFill), rpm as real)
  }

  function Spent(rpm: int, b: Level, now: real): (Level, bool)
  {
    var t := Offer(rpm, b, now);
    if t >= 1.0 then (Level(t - 1.0, now), true) else (Level(t, now), false)
  }

  function Served(rpm: int, m: Levels, ip: Address, createAt: real, now: real): (Levels, bool)
  {
    var b := if ip in m then m[ip] else Level(rpm as real, createAt);
    (m[ip := Spent(rpm, b, now).0], Spent(rpm, b, now).1)
  }

  function Swept(m: Levels, now: real): Levels
  {
    map ip | ip in m && m[ip].lastFill >= now - IDLE_SECONDS :: m[ip]
  }

  class Bucket {
    var tokens: real
    var lastFill: real
    const maxTokens: real
    const fillRate: real

    constructor (rpm: int, now: real)
      ensures tokens == rpm as real && lastFill == now
      ensures maxTokens == rpm as real && fillRate == Rate(rpm)
    {
      tokens := rpm as real;
      lastFill := now;
      maxTokens := rpm as real;
      fillRate := rpm as real / 60.0;
    }

    method Allow(ghost rpm: int, now: real) returns (ok: bool)
      requires maxTokens == rpm as real && fillRate == Rate(rpm)
      modifies this
      ensures (Level(tokens, lastFill), ok) == Spent(rpm, old(Level(tokens, lastFill)), now)
    {
      var elapsed := now - lastFill;
      tokens := tokens + elapsed * fillRate;
      assert elapsed * Rate(rpm) == Gain(rpm, elapsed);
      if tokens > maxTokens {
        tokens := maxTokens;
      }
      assert tokens == Offer(rpm, old(Level(tokens, lastFill)), now);
      lastFill := now;
      if tokens >= 1.0 {
        tokens := tokens - 1.0;
        return true;
      }
      return false;
    }
  }

  class RateLimiter {
    var buckets: map<Address, Bucket>
    const rpm: int

    ghost predicate Valid()
      reads this, buckets.Values
    {
      && (forall ip :: ip in buckets ==>
            buckets[ip].maxTokens == rpm as real && buckets[ip].fillRate == Rate(rpm))
      && (forall x, y :: x in buckets && y in buckets && x != y ==> buckets[x] != buckets[y])
    }

    ghost function View(): Levels
      reads this, buckets.Values
    {
      map ip | ip in buckets :: Level(buckets[ip].tokens, buckets[ip].lastFill)
    }

    constructor (rpm: int)
      ensures Valid() && View() == map[] && this.rpm == rpm
    {
      buckets := map[];
      this.rpm := rpm;
    }

    method Allow(ip: Address, createAt: real, now: real) returns (ok: bool)
      requires Valid()
      modifies this, buckets.Values
      ensures Valid() && fresh(buckets.Values - old(buckets.Values))
      ensures (View(), ok) == Served(rpm, old(View()), ip, createAt, now)
    {
      ghost var was := View();
      if ip !in buckets {
        var b := new Bucket(rpm, createAt);
        buckets := buckets[ip := b];
      }
      var b := buckets[ip];
      ghost var level := Level(b.tokens, b.lastFill);
      ok := b.Allow(rpm, now);
      assert View() == was[ip := Spent(rpm, level, now).0];
    }

    method Cleanup(now: real)
      requires Valid()
      modifies this`buckets
      ensures Valid() && buckets.Values <= old(buckets.Values)
      ensures View() == Swept(old(View()), now)
      ensures forall ip :: ip in View() <==> ip in old(View()) && now - old(View())[ip].lastFill <= 600.0
    {
      var cutoff := now - IDLE_SECONDS;
      ghost var was := buckets;
      var ips := buckets.Keys;
      while ips != {}
        invariant ips <= was.Keys
        invariant forall ip :: ip in buckets <==> ip in was && (ip in ips || was[ip].lastFill >= cutoff)
        invariant forall ip :: ip in buckets ==> buckets[ip] == was[ip]
        decreases ips
      {
        var ip :| ip in ips;
        if buckets[ip].lastFill < cutoff {
          buckets := buckets - {ip};
        }
        ips := ips - {ip};
      }
    }
  }

  // -------------------------------------------------------------- the level

  /** What `ip` could spend at `now`; an absent bucket is a full one. */
  function Balance(rpm: int, m: Levels, ip: Address, now: real): real
  {
    if ip in m then Offer(rpm, m[ip], now) else rpm as real
  }

  /** What every operation keeps: 0 <= tokens <= rpm, and no bucket is filled in the future. */
  ghost predicate Sound(rpm: int, m: Levels, now: real)
  {
    forall ip :: ip in m ==> 0.0 <= m[ip].tokens <= rpm as real && m[ip].lastFill <= now
  }

  lemma GainGrows(rpm: int, a: real, b: real)
    requires rpm >= 0 && a <= b
    ensures Gain(rpm, a) <= Gain(rpm, b)
    ensures Gain(rpm, 0.0) == 0.0
  {
    assert 0.0 <= (b - a) * rpm as real;
    assert b * rpm as real - a * rpm as real == (b - a) * rpm as real;
  }

  lemma GainAdds(rpm: int, a: real, b: real)
    ensures Gain(rpm, a + b) == Gain(rpm, a) + Gain(rpm, b)
  {
  }

  /** The offer later on follows from the offer now: it accrues at the fill rate up to the cap. */
  lemma OfferLater(rpm: int, b: Level, now: real, later: real)
    requires rpm >= 0 && b.lastFill <= now <= later
    ensures Offer(rpm, b, later) == Capped(Offer(rpm, b, now) + Gain(rpm, later - now), rpm as real)
  {
    GainAdds(rpm, now - b.lastFill, later - now);
    GainGrows(rpm, 0.0, later - now);
  }

  lemma OfferInRange(rpm: int, b: Level, now: real)
    requires rpm >= 0 && b.lastFill <= now && 0.0 <= b.tokens <= rpm as real
    ensures 0.0 <= b.tokens <= Offer(rpm, b, now) <= rpm as real
  {
    GainGrows(rpm, 0.0, now - b.lastFill);
  }

  lemma BalanceLater(rpm: int, m: Levels, ip: Address, now: real, later: real)
    requires rpm >= 0 && Sound(rpm, m, now) && now <= later
    ensures Balance(rpm, m, ip, later) == Capped(Balance(rpm, m, ip, now) + Gain(rpm, later - now), rpm as real)
    ensures 0.0 <= Balance(rpm, m, ip, now) <= rpm as real
  {
    GainGrows(rpm, 0.0, later - now);
    if ip in m {
      OfferLater(rpm, m[ip], now, later);
      OfferInRange(rpm, m[ip], now);
    }
  }

  // ------------------------------------------------------------------- runs

  datatype Op = Request(ip: Address, createAt: real, at: real) | Cleanup(at: real)

  ghost predicate Timed(ops: seq<Op>, now: real)
  {
    ops != [] ==>
      && (ops[0].Request? ==> now <= ops[0].createAt <= ops[0].at)
      && now <= ops[0].at && Timed(ops[1..], ops[0].at)
  }

  function Apply(rpm: int, m: Levels, op: Op): Levels
  {
    if op.Request? then Served(rpm, m, op.ip, op.createAt, op.at).0 else Swept(m, op.at)
  }

  function Passes(rpm: int, m: Levels, op: Op): bool
    requires op.Request?
  {
    Served(rpm, m, op.ip, op.createAt, op.at).1
  }

  function Verdicts(rpm: int, m: Levels, ops: seq<Op>): seq<bool>
    decreases |ops|
  {
    if ops == [] then []
    else (if ops[0].Request? then [Passes(rpm, m, ops[0])] else []) + Verdicts(rpm, Apply(rpm, m, ops[0]), ops[1..])
  }

  /** How many requests of `ip` a run admits in the closed interval [from, to]. */
  function AdmittedIn(rpm: int, m: Levels, ops: seq<Op>, ip: Address, from: real, to: real): nat
    decreases |ops|
  {
    if ops == [] then 0
    else
      var op := ops[0];
      (if op.Request? && op.ip == ip && Passes(rpm, m, op) && from <= op.at <= to then 1 else 0)
      + AdmittedIn(rpm, Apply(rpm, m, op), ops[1..], ip, from, to)
  }

  lemma SpentLevel(rpm: int, b: Level, now: real)
    requires rpm >= 0 && b.lastFill <= now && 0.0 <= b.tokens <= rpm as real
    ensures var (b', ok) := Spent(rpm, b, now);
      && (ok <==> Offer(rpm, b, now) >= 1.0)
      && 0.0 <= b'.tokens <= rpm as real && b'.lastFill == now
      && Offer(rpm, b', now) == Offer(rpm, b, now) - if ok then 1.0 else 0.0
  {
    OfferInRange(rpm, b, now);
    GainGrows(rpm, 0.0, 0.0);
  }

  /** A bucket idle for more than ten minutes is full again. */
  lemma IdleIsFull(rpm: int, b: Level, now: real)
    requires rpm >= 0 && 0.0 <= b.tokens && now - b.lastFill >= IDLE_SECONDS
    ensures Offer(rpm, b, now) == rpm as real
  {
    GainGrows(rpm, IDLE_SECONDS, now - b.lastFill);
    assert Gain(rpm, IDLE_SECONDS) == 10.0 * rpm as real;
  }

  /** One operation in terms of the balance alone. A request is admitted iff the balance of its IP
      is at least one, and then costs one; cleanup moves no balance. */
  lemma ApplyBalance(rpm: int, m: Levels, op: Op, now: real, ip: Address)
    requires rpm >= 0 && Sound(rpm, m, now) && Timed([op], now)
    ensures op.Request? ==> (Passes(rpm, m, op) <==> Balance(rpm, m, op.ip, op.at) >= 1.0)
    ensures Balance(rpm, Apply(rpm, m, op), ip, op.at) ==
      Balance(rpm, m, ip, op.at) - if op.Request? && op.ip == ip && Passes(rpm, m, op) then 1.0 else 0.0
  {
    if op.Request? {
      var b := if op.ip in m then m[op.ip] else Level(rpm as real, op.createAt);
      OfferInRange(rpm, b, op.at);
      SpentLevel(rpm, b, op.at);
    } else if ip in m && ip !in Swept(m, op.at) {
      IdleIsFull(rpm, m[ip], op.at);
    }
  }

  /** tokens stay in [0, rpm] */
  lemma ApplySound(rpm: int, m: Levels, op: Op, now: real)
    requires rpm >= 0 && Sound(rpm, m, now) && Timed([op], now)
    ensures Sound(rpm, Apply(rpm, m, op), op.at)
  {
    if op.Request? {
      SpentLevel(rpm, if op.ip in m then m[op.ip] else Level(rpm as real, op.createAt), op.at);
    }
  }

  // -------------------------------------------------------- the rate bound

  /** The most that can be admitted in [from, to] from `now` on. */
  function Budget(rpm: int, balance: real, now: real, from: real, to: real): real
  {
    if from > to || now > to then 0.0
    else if now < from then rpm as real + Gain(rpm, to - from)
    else balance + Gain(rpm, to - now)
  }

  /** Waiting never raises the budget, and one admission uses up one unit of it. */
  lemma BudgetShrinks(rpm: int, balance: real, now: real, later: real, from: real, to: real)
    requires rpm >= 0 && 0.0 <= balance <= rpm as real && now <= later
    ensures 0.0 <= Budget(rpm, Capped(balance + Gain(rpm, later - now), rpm as real), later, from, to)
                <= Budget(rpm, balance, now, from, to)
  {
    GainGrows(rpm, 0.0, later - now);
    if from <= to && later <= to {
      GainAdds(rpm, later - now, to - later);
      GainGrows(rpm, 0.0, to - later);
      GainGrows(rpm, 0.0, to - from);
      if from <= later {
        GainGrows(rpm, to - later, to - from);
      }
    } else if from <= to {
      GainGrows(rpm, 0.0, to - from);
      if now <= to {
        GainGrows(rpm, 0.0, to - now);
      }
    }
  }

  lemma {:induction false} AdmittedFrom(rpm: int, m: Levels, ops: seq<Op>, now: real, ip: Address, from: real, to: real)
    requires rpm >= 0 && Sound(rpm, m, now) && Timed(ops, now)
    ensures AdmittedIn(rpm, m, ops, ip, from, to) as real <= Budget(rpm, Balance(rpm, m, ip, now), now, from, to)
    decreases |ops|
  {
    BalanceLater(rpm, m, ip, now, now);
    if ops == [] {
      BudgetShrinks(rpm, Balance(rpm, m, ip, now), now, now, from, to);
      GainGrows(rpm, 0.0, 0.0);
    } else {
      var op := ops[0];
      ApplySound(rpm, m, op, now);
      ApplyBalance(rpm, m, op, now, ip);
      BalanceLater(rpm, m, ip, now, op.at);
      BudgetShrinks(rpm, Balance(rpm, m, ip, now), now, op.at, from, to);
      AdmittedFrom(rpm, Apply(rpm, m, op), ops[1..], op.at, ip, from, to);
    }
  }

  lemma BudgetFromStart(rpm: int, balance: real, now: real, from: real, to: real)
    requires rpm >= 0 && 0.0 <= balance <= rpm as real && from <= to
    ensures Budget(rpm, balance, now, from, to) <= rpm as real + Gain(rpm, to - from)
  {
    GainGrows(rpm, 0.0, to - from);
    if from <= now <= to {
      GainGrows(rpm, to - now, to - from);
    }
  }

  /** In every run, across creation, refill, spending and cleanup, one IP gets at most
      rpm + D * rpm / 60 requests through in any interval of D seconds. */
  lemma RateBound(rpm: int, ops: seq<Op>, now: real, ip: Address, from: real, to: real)
    requires rpm >= 0 && Timed(ops, now) && from <= to
    ensures AdmittedIn(rpm, map[], ops, ip, from, to) as real <= rpm as real + (to - from) * rpm as real / 60.0
  {
    AdmittedFrom(rpm, map[], ops, now, ip, from, to);
    BudgetFromStart(rpm, rpm as real, now, from, to);
  }

  /** While an IP makes no request, its balance grows by rpm tokens a minute until it is full. */
  lemma RefillExactly(rpm: int, m: Levels, ip: Address, now: real, later: real)
    requires rpm >= 0 && Sound(rpm, m, now) && now <= later
    ensures var grown := Balance(rpm, m, ip, now) + (later - now) * rpm as real / 60.0;
      Balance(rpm, m, ip, later) == if grown < rpm as real then grown else rpm as real
  {
    BalanceLater(rpm, m, ip, now, later);
  }

  /** A request passes iff the balance reaches one, with the inflow since any earlier instant counted in. */
  lemma AdmitsExactly(rpm: int, m: Levels, op: Op, now: real)
    requires rpm >= 1 && Sound(rpm, m, now) && Timed([op], now) && op.Request?
    ensures Passes(rpm, m, op) <==> Balance(rpm, m, op.ip, now) + (op.at - now) * rpm as real / 60.0 >= 1.0
  {
    ApplyBalance(rpm, m, op, now, op.ip);
    RefillExactly(rpm, m, op.ip, now, op.at);
  }

  /** An IP without a bucket may spend rpm tokens at once: that many requests pass, and one more does not. */
  lemma NewcomerBurst(rpm: int, m: Levels, ip: Address, at: real, n: nat)
    requires ip !in m && n < rpm
    ensures Balance(rpm, Burst(rpm, m, ip, at, n), ip, at) == (rpm - n) as real
    ensures Passes(rpm, Burst(rpm, m, ip, at, n), Request(ip, at, at))
    ensures n == rpm - 1 ==> !Passes(rpm, Burst(rpm, m, ip, at, rpm), Request(ip, at, at))
  {
    BurstBalance(rpm, m, ip, at, n);
    BurstBalance(rpm, m, ip, at, n + 1);
    hide Balance, Passes;
    LevelNow(rpm, Burst(rpm, m, ip, at, n), ip, at, (rpm - n) as real);
    LevelNow(rpm, Burst(rpm, m, ip, at, n + 1), ip, at, (rpm - n - 1) as real);
  }

  lemma LevelNow(rpm: int, m: Levels, ip: Address, at: real, tokens: real)
    requires ip in m ==> m[ip] == Level(tokens, at)
    requires ip !in m ==> tokens == rpm as real
    requires tokens <= rpm as real
    ensures Balance(rpm, m, ip, at) == tokens && (Passes(rpm, m, Request(ip, at, at)) <==> tokens >= 1.0)
  {
    assert Gain(rpm, 0.0) == 0.0;
  }

  /** The levels after n requests of one IP at one instant. */
  function Burst(rpm: int, m: Levels, ip: Address, at: real, n: nat): Levels
  {
    if n == 0 then m else Apply(rpm, Burst(rpm, m, ip, at, n - 1), Request(ip, at, at))
  }

  lemma {:induction false} BurstBalance(rpm: int, m: Levels, ip: Address, at: real, n: nat)
    requires ip !in m && n <= rpm
    ensures var after := Burst(rpm, m, ip, at, n);
      if n == 0 then after == m else ip in after && after[ip] == Level((rpm - n) as real, at)
    decreases n
  {
    GainGrows(rpm, 0.0, 0.0);
    if n > 0 {
      BurstBalance(rpm, m, ip, at, n - 1);
    }
  }

  /** With a rate below one request a minute nothing is ever admitted, cleanup or not. */
  lemma {:induction false} NothingBelowOne(rpm: int, m: Levels, ops: seq<Op>, ip: Address, from: real, to: real)
    requires rpm < 1
    ensures AdmittedIn(rpm, m, ops, ip, from, to) == 0
    decreases |ops|
  {
    if ops != [] {
      NothingBelowOne(rpm, Apply(rpm, m, ops[0]), ops[1..], ip, from, to);
    }
  }

  // ------------------------------------------------- cleanup is invisible

  function WithoutCleanups(ops: seq<Op>): seq<Op>
  {
    if ops == [] then []
    else if ops[0].Request? then [ops[0]] + WithoutCleanups(ops[1..])
    else WithoutCleanups(ops[1..])
  }

  ghost predicate SameBalances(rpm: int, m: Levels, n: Levels, now: real)
  {
    forall ip :: Balance(rpm, m, ip, now) == Balance(rpm, n, ip, now)
  }

  lemma SameLater(rpm: int, m: Levels, n: Levels, now: real, later: real)
    requires rpm >= 0 && Sound(rpm, m, now) && Sound(rpm, n, now) && SameBalances(rpm, m, n, now) && now <= later
    ensures SameBalances(rpm, m, n, later)
  {
    forall ip ensures Balance(rpm, m, ip, later) == Balance(rpm, n, ip, later) {
      BalanceLater(rpm, m, ip, now, later);
      BalanceLater(rpm, n, ip, now, later);
      assert Balance(rpm, m, ip, now) == Balance(rpm, n, ip, now);
    }
  }

  lemma SameAfterRequest(rpm: int, m: Levels, n: Levels, op: Op, now: real)
    requires rpm >= 0 && Sound(rpm, m, now) && Sound(rpm, n, now) && SameBalances(rpm, m, n, now)
    requires op.Request? && Timed([op], now)
    ensures Passes(rpm, m, op) == Passes(rpm, n, op)
    ensures SameBalances(rpm, Apply(rpm, m, op), Apply(rpm, n, op), op.at)
  {
    SameLater(rpm, m, n, now, op.at);
    ApplyBalance(rpm, m, op, now, op.ip);
    ApplyBalance(rpm, n, op, now, op.ip);
    assert Balance(rpm, m, op.ip, op.at) == Balance(rpm, n, op.ip, op.at);
    forall ip ensures Balance(rpm, Apply(rpm, m, op), ip, op.at) == Balance(rpm, Apply(rpm, n, op), ip, op.at) {
      ApplyBalance(rpm, m, op, now, ip);
      ApplyBalance(rpm, n, op, now, ip);
      assert Balance(rpm, m, ip, op.at) == Balance(rpm, n, ip, op.at);
    }
  }

  lemma SameAfterCleanup(rpm: int, m: Levels, n: Levels, op: Op, now: real)
    requires rpm >= 0 && Sound(rpm, m, now) && Sound(rpm, n, now) && SameBalances(rpm, m, n, now)
    requires op.Cleanup? && Timed([op], now)
    ensures SameBalances(rpm, Apply(rpm, m, op), n, op.at)
  {
    SameLater(rpm, m, n, now, op.at);
    forall ip ensures Balance(rpm, Apply(rpm, m, op), ip, op.at) == Balance(rpm, n, ip, op.at) {
      ApplyBalance(rpm, m, op, now, ip);
      assert Balance(rpm, m, ip, op.at) == Balance(rpm, n, ip, op.at);
    }
  }

  lemma {:induction false} SameVerdicts(rpm: int, m: Levels, n: Levels, ops: seq<Op>, now: real)
    requires rpm >= 0 && Sound(rpm, m, now) && Sound(rpm, n, now) && SameBalances(rpm, m, n, now)
    requires Timed(ops, now)
    ensures Verdicts(rpm, m, ops) == Verdicts(rpm, n, WithoutCleanups(ops))
    decreases |ops|
  {
    if ops != [] {
      var op := ops[0];
      var m' := Apply(rpm, m, op);
      ApplySound(rpm, m, op, now);
      if op.Request? {
        ApplySound(rpm, n, op, now);
        SameAfterRequest(rpm, m, n, op, now);
        SameVerdicts(rpm, m', Apply(rpm, n, op), ops[1..], op.at);
        assert WithoutCleanups(ops)[0] == op && WithoutCleanups(ops)[1..] == WithoutCleanups(ops[1..]);
      } else {
        SameAfterCleanup(rpm, m, n, op, now);
        SameVerdicts(rpm, m', n, ops[1..], op.at);
      }
    }
  }

  lemma {:induction false} SameRejections(rpm: int, m: Levels, n: Levels, ops: seq<Op>)
    requires rpm < 1
    ensures Verdicts(rpm, m, ops) == Verdicts(rpm, n, WithoutCleanups(ops))
    decreases |ops|
  {
    if ops != [] {
      var op := ops[0];
      if op.Request? {
        SameRejections(rpm, Apply(rpm, m, op), Apply(rpm, n, op), ops[1..]);
        assert WithoutCleanups(ops)[0] == op && WithoutCleanups(ops)[1..] == WithoutCleanups(ops[1..]);
      } else {
        SameRejections(rpm, Apply(rpm, m, op), n, ops[1..]);
      }
    }
  }

  /** Cleanup passes, inserted anywhere in a run, change no verdict: a bucket idle for more than
      ten minutes would have refilled to full anyway. */
  lemma CleanupIsInvisible(rpm: int, ops: seq<Op>, now: real)
    requires Timed(ops, now)
    ensures Verdicts(rpm, map[], ops) == Verdicts(rpm, map[], WithoutCleanups(ops))
  {
    if rpm >= 0 {
      SameVerdicts(rpm, map[], map[], ops, now);
    } else {
      SameRejections(rpm, map[], map[], ops);
    }
  }
}
