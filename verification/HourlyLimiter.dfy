/** The hourly notification limiter. Redis is a map from key to counter with an optional expiry
    instant; a key past its expiry is absent. Instants are Unix seconds. */
module HourlyLimiter {
  import opened Options

  datatype Channel = Sms | WhatsApp | Push | Signal | Other(name: string)

  datatype Subject = Subject(channel: Channel, user: nat)

  /** The key "ratelimit:<channel>:<user>:<hour>". */
  datatype Key = Key(subject: Subject, hour: nat)

  datatype Counter = Counter(count: nat, expires: Option<int>)

  type Redis = map<Key, Counter>

  const HOUR: int := 3600
  const TTL: int := 7200

  function LimitOf(c: Channel): Option<nat>
  {
    match c
    case Sms => Some(10)
    case WhatsApp => Some(20)
    case Push => Some(50)
    case Signal => Some(10)
    case Other(_) => None
  }

  /** The counter the server sees under a key at an instant. */
  function Seen(r: Redis, k: Key, at: int): nat
  {
    if k in r && !(r[k].expires.Some? && r[k].expires.value <= at) then r[k].count else 0
  }

  /** INCR keeps the expiry of a live key and starts a lapsed key afresh, without one. */
  function Incr(r: Redis, k: Key, at: int): Redis
  {
    var n := Seen(r, k, at);
    r[k := Counter(n + 1, if n > 0 then r[k].expires else None)]
  }

  /** EXPIRE touches live keys only. */
  function Expire(r: Redis, k: Key, at: int): Redis
  {
    if Seen(r, k, at) > 0 then r[k := Counter(r[k].count, Some(at + TTL))] else r
  }

  /** One call up to its verdict: the clock reading that picks the bucket, the instant at which the
      server runs INCR, and whether that succeeds. */
  datatype Call = Call(who: Subject, now: nat, incrAt: int, incrOk: bool)

  /** What the server runs: the INCR of a call, or an EXPIRE, which a call sends after its INCR. */
  datatype Op = Count(call: Call) | Expiry(key: Key, at: int)

  function KeyOf(c: Call): Key
  {
    Key(c.who, c.now / 3600)
  }

  function After(r: Redis, op: Op): Redis
  {
    match op
    case Count(c) => if LimitOf(c.who.channel).None? || !c.incrOk then r else Incr(r, KeyOf(c), c.incrAt)
    case Expiry(k, at) => Expire(r, k, at)
  }

  function Allowed(r: Redis, c: Call): bool
  {
    match LimitOf(c.who.channel)
    case None => true
    case Some(limit) => !c.incrOk || Seen(r, KeyOf(c), c.incrAt) + 1 <= limit
  }

  /** What one call sends: an expiry follows exactly if it counted the first send. */
  function Sent(r: Redis, c: Call, expireAt: int, expireOk: bool): seq<Op>
  {
    if LimitOf(c.who.channel).Some? && c.incrOk && Seen(r, KeyOf(c), c.incrAt) == 0 && expireOk
    then [Count(c), Expiry(KeyOf(c), expireAt)] else [Count(c)]
  }

  class RateLimiter {
    var rdb: Redis
    const connected: bool

    constructor (connected: bool)
      ensures rdb == map[] && this.connected == connected
    {
      rdb := map[];
      this.connected := connected;
    }

    method Allow(call: Call, expireAt: int, expireOk: bool) returns (ok: bool)
      modifies this`rdb
      ensures connected ==>
        ok == Allowed(old(rdb), call) && rdb == Final(old(rdb), Sent(old(rdb), call, expireAt, expireOk))
      ensures !connected ==> ok && rdb == old(rdb)
    {
      if !connected {
        return true;
      }
      OneOrTwo(rdb, call, expireAt, expireOk);
      var limit := LimitOf(call.who.channel);
      if limit.None? {
        return true;
      }
      var hourBucket := call.now / HOUR;
      var key := Key(call.who, hourBucket);
      if !call.incrOk {
        return true;
      }
      rdb := Incr(rdb, key, call.incrAt);
      var count := rdb[key].count;
      if count == 1 && expireOk {
        rdb := Expire(rdb, key, expireAt);
      }
      return count <= limit.value;
    }
  }

  // ------------------------------------------------------------------- runs

  /** A call's INCR reaches the server after its clock reading and less than an hour after the hour of
      its bucket has ended; an EXPIRE comes after the hour of its bucket has begun. Calls may overlap
      in any way, and an EXPIRE may come late, more than once or never. */
  ghost predicate Prompt(op: Op)
  {
    match op
    case Count(c) => c.now <= c.incrAt < (KeyOf(c).hour + 2) * HOUR
    case Expiry(k, at) => k.hour * HOUR <= at
  }

  /** What keeps a counter alive: it never expires before the hour after its own has ended. */
  ghost predicate LongLived(r: Redis)
  {
    forall k :: k in r && r[k].expires.Some? ==> r[k].expires.value >= (k.hour + 2) * HOUR
  }

  function Final(r: Redis, ops: seq<Op>): Redis
    decreases |ops|
  {
    if ops == [] then r else Final(After(r, ops[0]), ops[1..])
  }

  lemma OneOrTwo(r: Redis, c: Call, expireAt: int, expireOk: bool)
    ensures var ops, r' := Sent(r, c, expireAt, expireOk), After(r, Count(c));
      Final(r, ops) == if |ops| == 2 then Expire(r', KeyOf(c), expireAt) else r'
  {
    var ops := Sent(r, c, expireAt, expireOk);
    if |ops| == 2 {
      var last := [Expiry(KeyOf(c), expireAt)];
      assert ops[1..] == last && last[1..] == [];
      assert Final(After(r, ops[0]), last) == Final(After(After(r, ops[0]), last[0]), []);
    }
  }

  function CountAllowed(r: Redis, ops: seq<Op>, k: Key): nat
    decreases |ops|
  {
    if ops == [] then 0
    else
      var op := ops[0];
      (if op.Count? && KeyOf(op.call) == k && Allowed(r, op.call) then 1 else 0)
      + CountAllowed(After(r, op), ops[1..], k)
  }

  /** The calls in one bucket whose INCR succeeded, or failed. */
  function CountTried(ops: seq<Op>, k: Key, ok: bool): nat
  {
    if ops == [] then 0
    else
      var op := ops[0];
      (if op.Count? && KeyOf(op.call) == k && op.call.incrOk == ok then 1 else 0) + CountTried(ops[1..], k, ok)
  }

  ghost predicate AllPrompt(ops: seq<Op>)
  {
    forall i :: 0 <= i < |ops| ==> Prompt(ops[i])
  }

  function Counted(op: Op, k: Key): nat
  {
    if op.Count? && k == KeyOf(op.call) && op.call.incrOk && LimitOf(op.call.who.channel).Some? then 1 else 0
  }

  function RawCount(r: Redis, k: Key): nat
  {
    if k in r then r[k].count else 0
  }

  /** The two-hour expiry never resets a counter that a prompt call can still reach: the count the
      server sees is the count of all sends so far, and every operation adds exactly its own. */
  lemma NeverReset(r: Redis, op: Op)
    requires LongLived(r) && Prompt(op)
    ensures op.Count? ==> Seen(r, KeyOf(op.call), op.call.incrAt) == RawCount(r, KeyOf(op.call))
    ensures LongLived(After(r, op))
    ensures forall k :: RawCount(After(r, op), k) == RawCount(r, k) + Counted(op, k)
  {
  }

  function Min(a: int, b: int): int
  {
    if a <= b then a else b
  }

  function Positive(a: int): nat
  {
    if a > 0 then a else 0
  }

  /** The exact number of sends let through in a bucket whose counter stands at some value. */
  lemma {:induction false} AllowedExactlyFrom(r: Redis, ops: seq<Op>, k: Key, limit: nat)
    requires LongLived(r) && AllPrompt(ops) && LimitOf(k.subject.channel) == Some(limit)
    ensures CountAllowed(r, ops, k) ==
      Positive(Min(limit - RawCount(r, k), CountTried(ops, k, true))) + CountTried(ops, k, false)
    decreases |ops|
  {
    if ops != [] {
      var op := ops[0];
      assert Prompt(op);
      NeverReset(r, op);
      assert AllPrompt(ops[1..]);
      AllowedExactlyFrom(After(r, op), ops[1..], k, limit);
    }
  }

  /** Over any run of prompt operations, however the calls overlap, one user and channel gets exactly
      min(limit, attempts) sends through in an hour bucket, plus one for each attempt that fails open
      on a Redis error. */
  lemma AllowedExactly(ops: seq<Op>, k: Key, limit: nat)
    requires AllPrompt(ops) && LimitOf(k.subject.channel) == Some(limit)
    ensures CountAllowed(map[], ops, k) ==
      Min(limit, CountTried(ops, k, true)) + CountTried(ops, k, false)
  {
    AllowedExactlyFrom(map[], ops, k, limit);
  }

  // ------------------------------------------------------- stalled calls

  lemma {:induction false} RunKeepsLongLived(r: Redis, ops: seq<Op>)
    requires LongLived(r) && AllPrompt(ops)
    ensures LongLived(Final(r, ops))
    decreases |ops|
  {
    if ops != [] {
      assert Prompt(ops[0]);
      NeverReset(r, ops[0]);
      assert AllPrompt(ops[1..]);
      RunKeepsLongLived(After(r, ops[0]), ops[1..]);
    }
  }

  /** After some prompt run, the server sees fewer sends at `at` than it has counted under `k`. */
  ghost predicate CanForget(k: Key, at: int)
  {
    exists ops :: AllPrompt(ops) && Seen(Final(map[], ops), k, at) != RawCount(Final(map[], ops), k)
  }

  /** One send that was counted, and expired, right at the start of its hour. */
  function FirstOfHour(k: Key): seq<Op>
  {
    [Count(Call(k.subject, k.hour * HOUR, k.hour * HOUR, true)), Expiry(k, k.hour * HOUR)]
  }

  lemma FirstOfHourLapses(k: Key)
    requires LimitOf(k.subject.channel).Some?
    ensures AllPrompt(FirstOfHour(k))
    ensures Final(map[], FirstOfHour(k)) == map[k := Counter(1, Some((k.hour + 2) * HOUR))]
  {
    var c := Call(k.subject, k.hour * HOUR, k.hour * HOUR, true);
    assert c.now / 3600 == k.hour;
    OneOrTwo(map[], c, k.hour * HOUR, true);
    assert Sent(map[], c, k.hour * HOUR, true) == FirstOfHour(k);
  }

  /** A call can find the counter of its own bucket gone iff its INCR arrives an hour or more after
      the hour of its bucket has ended. It need not have stalled for much over an hour. */
  lemma StallExactly(c: Call)
    requires c.now <= c.incrAt && LimitOf(c.who.channel).Some?
    ensures CanForget(KeyOf(c), c.incrAt) <==> c.incrAt >= (KeyOf(c).hour + 2) * HOUR
  {
    var k := KeyOf(c);
    if c.incrAt >= (k.hour + 2) * HOUR {
      FirstOfHourLapses(k);
      assert Seen(Final(map[], FirstOfHour(k)), k, c.incrAt) != RawCount(Final(map[], FirstOfHour(k)), k);
    } else {
      forall ops | AllPrompt(ops) ensures Seen(Final(map[], ops), k, c.incrAt) == RawCount(Final(map[], ops), k) {
        RunKeepsLongLived(map[], ops);
        NeverReset(Final(map[], ops), Count(c));
      }
    }
  }

  lemma {:induction false} RunConcat(r: Redis, a: seq<Op>, b: seq<Op>, k: Key)
    ensures Final(r, a + b) == Final(Final(r, a), b)
    ensures CountAllowed(r, a + b, k) == CountAllowed(r, a, k) + CountAllowed(Final(r, a), b, k)
    decreases |a|
  {
    if a == [] {
      assert a + b == b;
    } else {
      assert (a + b)[1..] == a[1..] + b;
      RunConcat(After(r, a[0]), a[1..], b, k);
    }
  }

  function Repeat(op: Op, n: nat): seq<Op>
  {
    if n == 0 then [] else [op] + Repeat(op, n - 1)
  }

  lemma {:induction false} RepeatCounts(r: Redis, c: Call, n: nat, limit: nat)
    requires LimitOf(c.who.channel) == Some(limit) && c.incrOk && KeyOf(c) in r
    requires r[KeyOf(c)].expires.Some? && r[KeyOf(c)].expires.value > c.incrAt
    requires 0 < r[KeyOf(c)].count && r[KeyOf(c)].count + n <= limit
    ensures CountAllowed(r, Repeat(Count(c), n), KeyOf(c)) == n
    ensures var r' := Final(r, Repeat(Count(c), n));
      KeyOf(c) in r' && r'[KeyOf(c)].expires == r[KeyOf(c)].expires
    decreases n
  {
    if n > 0 {
      var ops := Repeat(Count(c), n);
      assert ops[1..] == Repeat(Count(c), n - 1);
      RepeatCounts(After(r, Count(c)), c, n - 1, limit);
    }
  }

  lemma OneStep(r: Redis, c: Call, k: Key)
    requires KeyOf(c) == k && Allowed(r, c)
    ensures CountAllowed(r, [Count(c)], k) == 1
  {
    assert [Count(c)][1..] == [];
    assert CountAllowed(After(r, Count(c)), [], k) == 0;
  }

  /** And every such call can be the one send too many: after a full hour of prompt calls it is let
      through as well. */
  lemma StalledCallStartsAfresh(c: Call, limit: nat) returns (ops: seq<Op>)
    requires c.now <= c.incrAt && c.incrOk && LimitOf(c.who.channel) == Some(limit)
    requires c.incrAt >= (KeyOf(c).hour + 2) * HOUR
    ensures AllPrompt(ops) && NoErrors(ops)
    ensures CountAllowed(map[], ops + [Count(c)], KeyOf(c)) == limit + 1
  {
    var k := KeyOf(c);
    var first := Call(c.who, k.hour * HOUR, k.hour * HOUR, true);
    assert first.now / 3600 == k.hour;
    var start, more := FirstOfHour(k), Repeat(Count(first), limit - 1);
    FirstOfHourLapses(k);
    var r := Final(map[], start);
    RepeatCounts(r, first, limit - 1, limit);
    ops := start + more;
    RunConcat(map[], start, more, k);
    RunConcat(map[], ops, [Count(c)], k);
    FirstOfHourAllowed(k);
    OneStep(Final(r, more), c, k);
    RepeatMembers(Count(first), limit - 1);
    assert Prompt(Count(first));
  }

  lemma FirstOfHourAllowed(k: Key)
    requires LimitOf(k.subject.channel).Some?
    ensures CountAllowed(map[], FirstOfHour(k), k) == 1
  {
    var ops := FirstOfHour(k);
    assert ops[0].call.now / 3600 == k.hour;
    assert ops[1..] == [Expiry(k, k.hour * HOUR)] && ops[1..][1..] == [];
    assert CountAllowed(After(map[], ops[0]), ops[1..], k) == CountAllowed(After(After(map[], ops[0]), ops[1]), [], k);
  }

  lemma {:induction false} RepeatMembers(op: Op, n: nat)
    ensures forall i :: 0 <= i < |Repeat(op, n)| ==> Repeat(op, n)[i] == op
  {
    if n > 0 {
      RepeatMembers(op, n - 1);
    }
  }

  // --------------------------------------------------------- rolling window

  /** Sends of one user and channel whose clock reading lies in [from, from + 3600). */
  function CountRolling(r: Redis, ops: seq<Op>, who: Subject, from: nat): nat
    decreases |ops|
  {
    if ops == [] then 0
    else
      var op := ops[0];
      (if op.Count? && op.call.who == who && from <= op.call.now < from + 3600 && Allowed(r, op.call) then 1 else 0)
      + CountRolling(After(r, op), ops[1..], who, from)
  }

  lemma {:induction false} RollingTouchesTwoBuckets(r: Redis, ops: seq<Op>, who: Subject, from: nat)
    ensures CountRolling(r, ops, who, from) <=
      CountAllowed(r, ops, Key(who, from / 3600)) + CountAllowed(r, ops, Key(who, from / 3600 + 1))
    decreases |ops|
  {
    if ops != [] {
      var op := ops[0];
      assert op.Count? && from <= op.call.now < from + HOUR ==>
        op.call.now / 3600 == from / 3600 || op.call.now / 3600 == from / 3600 + 1;
      RollingTouchesTwoBuckets(After(r, op), ops[1..], who, from);
    }
  }

  ghost predicate NoErrors(ops: seq<Op>)
  {
    forall i :: 0 <= i < |ops| && ops[i].Count? ==> ops[i].call.incrOk
  }

  lemma {:induction false} NoErrorsNoneTried(ops: seq<Op>, k: Key)
    requires NoErrors(ops)
    ensures CountTried(ops, k, false) == 0
  {
    if ops != [] {
      assert ops[0].Count? ==> ops[0].call.incrOk;
      NoErrorsNoneTried(ops[1..], k);
    }
  }

  /** With no Redis errors, at most 2 * limit sends fall in any rolling 3600 seconds. */
  lemma RollingBound(ops: seq<Op>, who: Subject, limit: nat, from: nat)
    requires AllPrompt(ops) && NoErrors(ops) && LimitOf(who.channel) == Some(limit)
    ensures CountRolling(map[], ops, who, from) <= 2 * limit
  {
    var j, k := Key(who, from / 3600), Key(who, from / 3600 + 1);
    RollingTouchesTwoBuckets(map[], ops, who, from);
    AllowedExactly(ops, j, limit);
    AllowedExactly(ops, k, limit);
    NoErrorsNoneTried(ops, j);
    NoErrorsNoneTried(ops, k);
  }

  /** In numbers: in an hour bucket a user gets 10 text messages, 20 WhatsApp messages, 50 pushes and 10 Signal
      messages through, or as many as it tries if they are fewer, and any number on other channels. */
  lemma ChannelBudgets(ops: seq<Op>, k: Key)
    requires AllPrompt(ops) && NoErrors(ops)
    ensures var tried := CountTried(ops, k, true);
      CountAllowed(map[], ops, k) == match k.subject.channel
        case Sms => Min(10, tried)
        case WhatsApp => Min(20, tried)
        case Push => Min(50, tried)
        case Signal => Min(10, tried)
        case Other(_) => tried
  {
    NoErrorsNoneTried(ops, k);
    var limit := LimitOf(k.subject.channel);
    if limit.Some? {
      AllowedExactly(ops, k, limit.value);
    } else {
      UnlimitedAllowed(map[], ops, k);
    }
  }

  lemma {:induction false} UnlimitedAllowed(r: Redis, ops: seq<Op>, k: Key)
    requires LimitOf(k.subject.channel).None?
    ensures CountAllowed(r, ops, k) == CountTried(ops, k, true) + CountTried(ops, k, false)
    decreases |ops|
  {
    if ops != [] {
      UnlimitedAllowed(After(r, ops[0]), ops[1..], k);
    }
  }
}
