/** The per-IP sliding-window limiter for the authentication endpoints.
    Instants are integers (nanoseconds), read from a clock that never goes back.
    One request reads the clock twice: once for the cutoff and once for the stamp. */
module SlidingWindow {
  /** The remote address a request comes from. */
  datatype Address = Address(text: string)

  type Windows = map<Address, seq<int>>

  datatype Config = Config(limit: int, duration: int)

  /** The attempts made strictly after the cutoff, in their order. */
  function Kept(attempts: seq<int>, cutoff: int): seq<int>
  {
    if attempts == [] then []
    else
      var rest := Kept(attempts[..|attempts| - 1], cutoff);
      var t := attempts[|attempts| - 1];
      if t > cutoff then rest + [t] else rest
  }

  function Attempts(w: Windows, ip: Address): seq<int>
  {
    if ip in w then w[ip] else []
  }

  /** What one request does to the windows, and whether it is let through. */
  function Served(cfg: Config, w: Windows, ip: Address, readAt: int, stampAt: int): (Windows, bool)
  {
    var valid := Kept(Attempts(w, ip), readAt - cfg.duration);
    if |valid| >= cfg.limit then (w[ip := valid], false) else (w[ip := valid + [stampAt]], true)
  }

  /** What one cleanup pass leaves behind. */
  function Swept(cfg: Config, w: Windows, now: int): Windows
  {
    map ip | ip in w && Kept(w[ip], now - cfg.duration) != [] :: Kept(w[ip], now - cfg.duration)
  }

  class AuthRateLimiter {
    var windows: Windows
    const cfg: Config

    constructor (limit: int, duration: int)
      ensures windows == map[] && cfg == Config(limit, duration)
    {
      windows := map[];
      cfg := Config(limit, duration);
    }

    /** The body of the middleware up to the verdict. */
    method Handle(ip: Address, readAt: int, stampAt: int) returns (admitted: bool)
      modifies this`windows
      ensures (windows, admitted) == Served(cfg, old(windows), ip, readAt, stampAt)
    {
      if ip !in windows {
        windows := windows[ip := []];
      }
      var cutoff := readAt - cfg.duration;
      var valid := Prune(windows[ip], cutoff);
      windows := windows[ip := valid];
      assert windows == old(windows)[ip := valid];
      if |windows[ip]| >= cfg.limit {
        return false;
      }
      windows := windows[ip := windows[ip] + [stampAt]];
      assert windows == old(windows)[ip := valid + [stampAt]];
      return true;
    }

    method Cleanup(now: int)
      modifies this`windows
      ensures windows == Swept(cfg, old(windows), now)
    {
      var cutoff := now - cfg.duration;
      ghost var was := windows;
      var ips := windows.Keys;
      while ips != {}
        invariant ips <= was.Keys
        invariant forall ip :: ip in windows <==> ip in was && (ip in ips || Kept(was[ip], cutoff) != [])
        invariant forall ip :: ip in windows ==> windows[ip] == if ip in ips then was[ip] else Kept(was[ip], cutoff)
        decreases ips
      {
        var ip :| ip in ips;
        var valid := Prune(windows[ip], cutoff);
        if |valid| == 0 {
          windows := windows - {ip};
        } else {
          windows := windows[ip := valid];
        }
        ips := ips - {ip};
      }
    }
  }

  /** The pruning loop, shared by the request path and the cleanup pass. */
  method Prune(attempts: seq<int>, cutoff: int) returns (valid: seq<int>)
    ensures valid == Kept(attempts, cutoff)
  {
    valid := [];
    for i := 0 to |attempts|
      invariant valid == Kept(attempts[..i], cutoff)
    {
      assert attempts[..i + 1][..i] == attempts[..i];
      if attempts[i] > cutoff {
        valid := valid + [attempts[i]];
      }
    }
    assert attempts[..|attempts|] == attempts;
  }

  // ---------------------------------------------------------------- pruning

  lemma {:induction false} KeptAppend(a: seq<int>, x: int, cutoff: int)
    ensures Kept(a + [x], cutoff) == Kept(a, cutoff) + if x > cutoff then [x] else []
  {
    assert (a + [x])[..|a|] == a;
  }

  /** Pruning early is harmless: a later, larger cutoff removes everything an earlier one did. */
  lemma {:induction false} KeptKept(a: seq<int>, early: int, late: int)
    requires early <= late
    ensures Kept(Kept(a, early), late) == Kept(a, late)
  {
    if a != [] {
      var init, t := a[..|a| - 1], a[|a| - 1];
      KeptKept(init, early, late);
      if t > early {
        KeptAppend(Kept(init, early), t, late);
      }
    }
  }

  // ------------------------------------------------------------------- runs

  datatype Op = Request(ip: Address, readAt: int, stampAt: int) | Cleanup(at: int)

  function StartOf(op: Op): int
  {
    if op.Request? then op.readAt else op.at
  }

  /** The list with the stamp added, if the request was admitted. */
  function Stamped(a: seq<int>, stampAt: int, admitted: bool): seq<int>
  {
    if admitted then a + [stampAt] else a
  }

  function EndOf(op: Op): int
  {
    if op.Request? then op.stampAt else op.at
  }

  /** Clock readings never decrease along a run that starts at `now`. */
  ghost predicate Timed(ops: seq<Op>, now: int)
    decreases |ops|
  {
    ops != [] ==>
      match ops[0]
      case Request(_, r, s) => now <= r <= s && Timed(ops[1..], s)
      case Cleanup(at) => now <= at && Timed(ops[1..], at)
  }

  function Apply(cfg: Config, w: Windows, op: Op): Windows
  {
    match op
    case Request(ip, r, s) => Served(cfg, w, ip, r, s).0
    case Cleanup(at) => Swept(cfg, w, at)
  }

  function Final(cfg: Config, w: Windows, ops: seq<Op>): Windows
    decreases |ops|
  {
    if ops == [] then w else Final(cfg, Apply(cfg, w, ops[0]), ops[1..])
  }

  /** The verdicts of a run, one for each request in it. */
  function Verdicts(cfg: Config, w: Windows, ops: seq<Op>): seq<bool>
    decreases |ops|
  {
    if ops == [] then []
    else
      (if ops[0].Request? then [Served(cfg, w, ops[0].ip, ops[0].readAt, ops[0].stampAt).1] else [])
      + Verdicts(cfg, Apply(cfg, w, ops[0]), ops[1..])
  }

  /** `log` followed by the stamps of the requests from `ip` that a run lets through. */
  function Admitted(cfg: Config, w: Windows, ops: seq<Op>, ip: Address, log: seq<int>): seq<int>
    decreases |ops|
  {
    if ops == [] then log
    else
      var op := ops[0];
      var admitted := op.Request? && op.ip == ip && Served(cfg, w, ip, op.readAt, op.stampAt).1;
      Admitted(cfg, Apply(cfg, w, op), ops[1..], ip, Stamped(log, EndOf(op), admitted))
  }

  // ------------------------------------- the limiter that forgets nothing

  /** The reference: every admission is remembered for ever, nothing is pruned or cleaned up, and
      a request passes iff fewer than `limit` earlier admissions lie after `readAt - duration`. */
  function Passes(cfg: Config, history: Windows, ip: Address, readAt: int): bool
  {
    |Kept(Attempts(history, ip), readAt - cfg.duration)| < cfg.limit
  }

  function Remember(cfg: Config, history: Windows, op: Op): Windows
  {
    if op.Request? && Passes(cfg, history, op.ip, op.readAt)
    then history[op.ip := Attempts(history, op.ip) + [op.stampAt]] else history
  }

  function IdealVerdicts(cfg: Config, history: Windows, ops: seq<Op>): seq<bool>
    decreases |ops|
  {
    if ops == [] then []
    else
      (if ops[0].Request? then [Passes(cfg, history, ops[0].ip, ops[0].readAt)] else [])
      + IdealVerdicts(cfg, Remember(cfg, history, ops[0]), ops[1..])
  }

  function History(cfg: Config, history: Windows, ops: seq<Op>): Windows
    decreases |ops|
  {
    if ops == [] then history else History(cfg, Remember(cfg, history, ops[0]), ops[1..])
  }

  /** The stored windows are the full history as seen from any cutoff still to come. */
  ghost predicate Tracks(cfg: Config, w: Windows, history: Windows, now: int)
  {
    forall ip :: Kept(Attempts(w, ip), now - cfg.duration) == Kept(Attempts(history, ip), now - cfg.duration)
  }

  lemma TracksLater(cfg: Config, w: Windows, history: Windows, now: int, later: int)
    requires Tracks(cfg, w, history, now) && now <= later
    ensures Tracks(cfg, w, history, later)
  {
    forall ip ensures Kept(Attempts(w, ip), later - cfg.duration) == Kept(Attempts(history, ip), later - cfg.duration) {
      KeptKept(Attempts(w, ip), now - cfg.duration, later - cfg.duration);
      KeptKept(Attempts(history, ip), now - cfg.duration, later - cfg.duration);
    }
  }

  ghost predicate LetIn(cfg: Config, history: Windows, op: Op, ip: Address)
  {
    op.Request? && op.ip == ip && Passes(cfg, history, ip, op.readAt)
  }

  lemma RememberAt(cfg: Config, history: Windows, op: Op, ip: Address)
    ensures Attempts(Remember(cfg, history, op), ip) ==
      Stamped(Attempts(history, ip), EndOf(op), LetIn(cfg, history, op, ip))
  {
  }

  /** One operation, seen from one IP. */
  lemma ApplyAt(cfg: Config, w: Windows, op: Op, ip: Address)
    ensures Attempts(Apply(cfg, w, op), ip) ==
      if op.Request? && op.ip != ip then Attempts(w, ip)
      else Stamped(Kept(Attempts(w, ip), StartOf(op) - cfg.duration), EndOf(op),
                   op.Request? && Served(cfg, w, ip, op.readAt, op.stampAt).1)
  {
  }

  lemma StepAgrees(a: seq<int>, h: seq<int>, c: int, late: int, stampAt: int, admitted: bool)
    requires c <= late && Kept(a, late) == Kept(h, late)
    ensures Kept(Stamped(Kept(a, c), stampAt, admitted), late) == Kept(Stamped(h, stampAt, admitted), late)
  {
    KeptKept(a, c, late);
    KeptAppend(Kept(a, c), stampAt, late);
    KeptAppend(h, stampAt, late);
  }

  lemma TracksApplyAt(cfg: Config, w: Windows, history: Windows, op: Op, ip: Address, late: int)
    requires late >= StartOf(op) - cfg.duration
    requires op.Request? ==> Served(cfg, w, op.ip, op.readAt, op.stampAt).1 == Passes(cfg, history, op.ip, op.readAt)
    requires Kept(Attempts(w, ip), late) == Kept(Attempts(history, ip), late)
    ensures Kept(Attempts(Apply(cfg, w, op), ip), late) == Kept(Attempts(Remember(cfg, history, op), ip), late)
  {
    ApplyAt(cfg, w, op, ip);
    RememberAt(cfg, history, op, ip);
    StepAgrees(Attempts(w, ip), Attempts(history, ip), StartOf(op) - cfg.duration, late, EndOf(op),
               LetIn(cfg, history, op, ip));
  }

  lemma TracksApply(cfg: Config, w: Windows, history: Windows, op: Op, now: int)
    requires Tracks(cfg, w, history, now) && Timed([op], now)
    ensures Tracks(cfg, Apply(cfg, w, op), Remember(cfg, history, op), EndOf(op))
    ensures op.Request? ==> Served(cfg, w, op.ip, op.readAt, op.stampAt).1 == Passes(cfg, history, op.ip, op.readAt)
  {
    TracksLater(cfg, w, history, now, StartOf(op));
    TracksLater(cfg, w, history, now, EndOf(op));
    var w', h', late := Apply(cfg, w, op), Remember(cfg, history, op), EndOf(op) - cfg.duration;
    if op.Request? {
      assert Kept(Attempts(w, op.ip), StartOf(op) - cfg.duration) == Kept(Attempts(history, op.ip), StartOf(op) - cfg.duration);
    }
    forall ip ensures Kept(Attempts(w', ip), late) == Kept(Attempts(h', ip), late) {
      assert Kept(Attempts(w, ip), late) == Kept(Attempts(history, ip), late);
      TracksApplyAt(cfg, w, history, op, ip, late);
    }
  }

  /** The pruned, cleaned-up limiter decides exactly as the one that forgets nothing. */
  lemma {:induction false} RefinesFullHistory(cfg: Config, w: Windows, history: Windows, ops: seq<Op>, now: int)
    requires Tracks(cfg, w, history, now) && Timed(ops, now)
    ensures Verdicts(cfg, w, ops) == IdealVerdicts(cfg, history, ops)
    decreases |ops|
  {
    if ops != [] {
      var op := ops[0];
      TracksApply(cfg, w, history, op, now);
      RefinesFullHistory(cfg, Apply(cfg, w, op), Remember(cfg, history, op), ops[1..], EndOf(op));
    }
  }

  /** What the full history gains over a run is exactly what the real limiter admits. */
  lemma {:induction false} HistoryIsAdmissions(cfg: Config, w: Windows, history: Windows, ops: seq<Op>, now: int, ip: Address)
    requires Tracks(cfg, w, history, now) && Timed(ops, now)
    ensures Attempts(History(cfg, history, ops), ip) == Admitted(cfg, w, ops, ip, Attempts(history, ip))
    decreases |ops|
  {
    if ops != [] {
      var op := ops[0];
      TracksApply(cfg, w, history, op, now);
      RememberAt(cfg, history, op, ip);
      HistoryIsAdmissions(cfg, Apply(cfg, w, op), Remember(cfg, history, op), ops[1..], EndOf(op), ip);
    }
  }

  // ------------------------------------------------- cleanup is invisible

  function WithoutCleanups(ops: seq<Op>): seq<Op>
  {
    if ops == [] then []
    else (if ops[0].Request? then [ops[0]] else []) + WithoutCleanups(ops[1..])
  }

  lemma {:induction false} WithoutCleanupsIdeal(cfg: Config, history: Windows, ops: seq<Op>)
    ensures IdealVerdicts(cfg, history, WithoutCleanups(ops)) == IdealVerdicts(cfg, history, ops)
    decreases |ops|
  {
    if ops != [] {
      var rest := WithoutCleanups(ops[1..]);
      WithoutCleanupsIdeal(cfg, Remember(cfg, history, ops[0]), ops[1..]);
      if ops[0].Request? {
        assert ([ops[0]] + rest)[1..] == rest;
      } else {
        assert [] + rest == rest;
      }
    }
  }

  lemma {:induction false} WithoutCleanupsTimed(ops: seq<Op>, now: int, earlier: int)
    requires Timed(ops, now) && earlier <= now
    ensures Timed(WithoutCleanups(ops), earlier)
    decreases |ops|
  {
    if ops != [] {
      var rest := WithoutCleanups(ops[1..]);
      if ops[0].Request? {
        WithoutCleanupsTimed(ops[1..], ops[0].stampAt, ops[0].stampAt);
        assert ([ops[0]] + rest)[1..] == rest;
      } else {
        WithoutCleanupsTimed(ops[1..], ops[0].at, earlier);
        assert [] + rest == rest;
      }
    }
  }

  /** Cleanup passes, inserted anywhere in a run, change no verdict. */
  lemma CleanupIsInvisible(cfg: Config, ops: seq<Op>, now: int)
    requires Timed(ops, now)
    ensures Verdicts(cfg, map[], ops) == Verdicts(cfg, map[], WithoutCleanups(ops))
  {
    RefinesFullHistory(cfg, map[], map[], ops, now);
    WithoutCleanupsTimed(ops, now, now);
    RefinesFullHistory(cfg, map[], map[], WithoutCleanups(ops), now);
    WithoutCleanupsIdeal(cfg, map[], ops);
  }

  // -------------------------------------------------------- the rate bound

  /** How many stamps lie in the half-open window [from, from + width). */
  function CountIn(stamps: seq<int>, from: int, width: int): nat
  {
    if stamps == [] then 0
    else
      var t := stamps[|stamps| - 1];
      CountIn(stamps[..|stamps| - 1], from, width) + if from <= t < from + width then 1 else 0
  }

  lemma {:induction false} CountAtMostKept(stamps: seq<int>, from: int, width: int, cutoff: int)
    requires cutoff < from
    ensures CountIn(stamps, from, width) <= |Kept(stamps, cutoff)|
  {
    if stamps != [] {
      CountAtMostKept(stamps[..|stamps| - 1], from, width, cutoff);
    }
  }

  lemma {:induction false} CountAppend(a: seq<int>, x: int, from: int, width: int)
    ensures CountIn(a + [x], from, width) == CountIn(a, from, width) + if from <= x < from + width then 1 else 0
  {
    assert (a + [x])[..|a|] == a;
  }

  lemma {:induction false} HistoryBound(cfg: Config, history: Windows, ops: seq<Op>, now: int, ip: Address, from: int)
    requires Timed(ops, now)
    requires CountIn(Attempts(history, ip), from, cfg.duration) <= Max(cfg.limit)
    ensures CountIn(Attempts(History(cfg, history, ops), ip), from, cfg.duration) <= Max(cfg.limit)
    decreases |ops|
  {
    if ops != [] {
      var op := ops[0];
      if op.Request? && op.ip == ip && Passes(cfg, history, ip, op.readAt) {
        var a := Attempts(history, ip);
        CountAppend(a, op.stampAt, from, cfg.duration);
        if from <= op.stampAt < from + cfg.duration {
          CountAtMostKept(a, from, cfg.duration, op.readAt - cfg.duration);
        }
      }
      HistoryBound(cfg, Remember(cfg, history, op), ops[1..], EndOf(op), ip, from);
    }
  }

  function Max(limit: int): nat
  {
    if limit < 0 then 0 else limit
  }

  /** In every run and every half-open window as long as the configured duration, at most `limit`
      requests of one IP are admitted, although check and append read the clock separately. */
  lemma AtMostLimitPerWindow(cfg: Config, ops: seq<Op>, now: int, ip: Address, from: int)
    requires Timed(ops, now)
    ensures CountIn(Admitted(cfg, map[], ops, ip, []), from, cfg.duration) <= Max(cfg.limit)
  {
    HistoryIsAdmissions(cfg, map[], map[], ops, now, ip);
    HistoryBound(cfg, map[], ops, now, ip, from);
  }

  // ------------------------------------------------------ the exact verdict

  lemma {:induction false} KeptIsCount(a: seq<int>, cutoff: int, top: int, width: int)
    requires UpTo(a, top) && top <= cutoff + width
    ensures |Kept(a, cutoff)| == CountIn(a, cutoff + 1, width)
  {
    if a != [] {
      KeptIsCount(a[..|a| - 1], cutoff, top, width);
    }
  }

  lemma {:induction false} HistoryUpTo(cfg: Config, history: Windows, ops: seq<Op>, now: int, ip: Address, upTo: int)
    requires Timed(ops, now) && UpTo(Attempts(history, ip), now) && now <= upTo
    requires forall i :: 0 <= i < |ops| ==> EndOf(ops[i]) <= upTo
    ensures UpTo(Attempts(History(cfg, history, ops), ip), upTo)
    decreases |ops|
  {
    if ops != [] {
      var op := ops[0];
      RememberAt(cfg, history, op, ip);
      assert EndOf(op) <= upTo;
      HistoryUpTo(cfg, Remember(cfg, history, op), ops[1..], EndOf(op), ip, upTo);
    }
  }

  lemma {:induction false} RunTracks(cfg: Config, w: Windows, history: Windows, ops: seq<Op>, now: int, later: int)
    requires Tracks(cfg, w, history, now) && Timed(ops, now) && now <= later
    requires forall i :: 0 <= i < |ops| ==> EndOf(ops[i]) <= later
    ensures Tracks(cfg, Final(cfg, w, ops), History(cfg, history, ops), later)
    decreases |ops|
  {
    if ops == [] {
      TracksLater(cfg, w, history, now, later);
    } else {
      var op := ops[0];
      TracksApply(cfg, w, history, op, now);
      assert EndOf(op) <= later;
      RunTracks(cfg, Apply(cfg, w, op), Remember(cfg, history, op), ops[1..], EndOf(op), later);
    }
  }

  /** After any run, the next request of an IP passes iff fewer than `limit` requests of that IP have been
      admitted in the window of the configured length that ends with its own clock reading. */
  lemma VerdictExactly(cfg: Config, ops: seq<Op>, now: int, ip: Address, readAt: int, stampAt: int)
    requires Timed(ops, now) && now <= readAt && forall i :: 0 <= i < |ops| ==> EndOf(ops[i]) <= readAt
    ensures Served(cfg, Final(cfg, map[], ops), ip, readAt, stampAt).1 <==>
      CountIn(Admitted(cfg, map[], ops, ip, []), readAt - cfg.duration + 1, cfg.duration) < cfg.limit
  {
    var w, history := Final(cfg, map[], ops), History(cfg, map[], ops);
    RunTracks(cfg, map[], map[], ops, now, readAt);
    assert Kept(Attempts(w, ip), readAt - cfg.duration) == Kept(Attempts(history, ip), readAt - cfg.duration);
    HistoryIsAdmissions(cfg, map[], map[], ops, now, ip);
    HistoryUpTo(cfg, map[], ops, now, ip, readAt);
    KeptIsCount(Attempts(history, ip), readAt - cfg.duration, readAt, cfg.duration);
  }

  // ------------------------------------------------------ the stored lists

  ghost predicate Sorted(a: seq<int>)
  {
    forall i, j :: 0 <= i < j < |a| ==> a[i] <= a[j]
  }

  ghost predicate UpTo(a: seq<int>, top: int)
  {
    forall i :: 0 <= i < |a| ==> a[i] <= top
  }

  /** What every operation keeps about one stored list. */
  ghost predicate WellKept(cfg: Config, a: seq<int>, now: int)
  {
    Sorted(a) && UpTo(a, now) && |a| <= Max(cfg.limit)
  }

  lemma {:induction false} KeptUpTo(a: seq<int>, cutoff: int, top: int)
    requires UpTo(a, top)
    ensures UpTo(Kept(a, cutoff), top) && |Kept(a, cutoff)| <= |a|
  {
    if a != [] {
      KeptUpTo(a[..|a| - 1], cutoff, top);
    }
  }

  lemma {:induction false} KeptSorted(a: seq<int>, cutoff: int)
    requires Sorted(a)
    ensures Sorted(Kept(a, cutoff))
  {
    if a != [] {
      KeptSorted(a[..|a| - 1], cutoff);
      KeptUpTo(a[..|a| - 1], cutoff, a[|a| - 1]);
    }
  }

  lemma StampedIsWellKept(cfg: Config, a: seq<int>, now: int, stampAt: int, admitted: bool)
    requires WellKept(cfg, a, now) && now <= stampAt && (admitted ==> |a| < cfg.limit)
    ensures WellKept(cfg, Stamped(a, stampAt, admitted), stampAt)
  {
  }

  lemma ApplyKeepsLists(cfg: Config, w: Windows, op: Op, now: int, ip: Address)
    requires Timed([op], now) && WellKept(cfg, Attempts(w, ip), now)
    ensures WellKept(cfg, Attempts(Apply(cfg, w, op), ip), EndOf(op))
  {
    ApplyAt(cfg, w, op, ip);
    var a, c := Attempts(w, ip), StartOf(op) - cfg.duration;
    KeptUpTo(a, c, now);
    KeptSorted(a, c);
    if op.Cleanup? || op.ip == ip {
      StampedIsWellKept(cfg, Kept(a, c), now, EndOf(op),
                        op.Request? && Served(cfg, w, ip, op.readAt, op.stampAt).1);
    }
  }

  /** The stored attempts stay sorted and never exceed the limit. */
  lemma {:induction false} StoredListsInvariant(cfg: Config, w: Windows, ops: seq<Op>, now: int)
    requires Timed(ops, now)
    requires forall ip :: ip in w ==> WellKept(cfg, w[ip], now)
    ensures forall ip :: ip in Final(cfg, w, ops) ==>
      Sorted(Final(cfg, w, ops)[ip]) && |Final(cfg, w, ops)[ip]| <= Max(cfg.limit)
    decreases |ops|
  {
    if ops != [] {
      var op := ops[0];
      var w' := Apply(cfg, w, op);
      forall ip | ip in w' ensures WellKept(cfg, w'[ip], EndOf(op)) {
        ApplyKeepsLists(cfg, w, op, now, ip);
      }
      StoredListsInvariant(cfg, w', ops[1..], EndOf(op));
    }
  }
}
