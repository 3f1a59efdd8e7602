/** The restart supervisor: exponential backoff with a cap, reset after a stable run, dead letter
    after too many failures in a row. Durations are integer nanoseconds. */
module Supervisor {
  datatype Config = Config(baseBackoff: int, maxBackoff: int, maxFailures: int, stableThreshold: int)

  /** One round of the supervision loop as the environment plays it: whether the context is already
      cancelled, how the service run ends and how long it took, whether the context is cancelled by
      then, the random draw in [0, 1), and whether the context is cancelled during the wait. */
  datatype Round = Round(
    cancelledBefore: bool, failed: bool, ran: int, cancelledAfter: bool, draw: real, cancelledInWait: bool)

  /** What one completed round came to. */
  datatype Entry =
    | Restarted
    | Waited(failures: nat, backoff: int, slept: int)
    | DeadLettered(failures: nat)

  datatype Ending = Cancelled | Paused | StillRunning

  function Min(a: int, b: int): int
  {
    if b < a then b else a
  }

  function Pow2(n: nat): nat
  {
    if n == 0 then 1 else 2 * Pow2(n - 1)
  }

  // ------------------------------------------------------------- the source

  function NextBackoffCapped(current: int, max: int): int
  {
    var next := current * 2;
    if next > max then max else next
  }

  /** The wait actually slept: a factor between 0.8 and 1.2, truncated to whole nanoseconds. */
  function ApplyJitter(d: int, draw: real): int
  {
    (d as real * (0.8 + draw * 0.4)).Floor
  }

  /** The loop, run against a finite script of rounds; `log` has one entry for each completed round. */
  method RunWithSupervisor(cfg: Config, script: seq<Round>) returns (log: seq<Entry>, ending: Ending)
    ensures |log| <= |script| && Describes(cfg, script, log)
    ensures ending == Paused <==> log != [] && log[|log| - 1].DeadLettered?
    ensures ending == StillRunning ==> |log| == |script|
    ensures ending == Cancelled ==> |log| < |script| && CutShort(script[|log|])
  {
    var consecutiveFailures := 0;
    var backoff := cfg.baseBackoff;
    log := [];
    var i := 0;
    while i < |script|
      invariant 0 <= i == |log| <= |script|
      invariant consecutiveFailures == Streak(cfg, script[..i])
      invariant backoff == Backoff(cfg, consecutiveFailures + 1)
      invariant Describes(cfg, script, log)
      invariant log == [] || !log[|log| - 1].DeadLettered?
    {
      hide Backoff, NextBackoffCapped, ApplyJitter, Describes;
      var round := script[i];
      StreakStep(cfg, script, i);
      if round.cancelledBefore {
        return log, Cancelled;
      }
      if round.cancelledAfter {
        return log, Cancelled;
      }
      i := i + 1;
      if !round.failed {
        consecutiveFailures := 0;
        backoff := cfg.baseBackoff;
        DescribesMore(cfg, script, log, Restarted);
        log := log + [Restarted];
        continue;
      }
      if round.ran >= cfg.stableThreshold {
        consecutiveFailures := 0;
        backoff := cfg.baseBackoff;
      }
      consecutiveFailures := consecutiveFailures + 1;
      if consecutiveFailures >= cfg.maxFailures {
        DescribesMore(cfg, script, log, DeadLettered(consecutiveFailures));
        log := log + [DeadLettered(consecutiveFailures)];
        return log, Paused;
      }
      var jittered := ApplyJitter(backoff, round.draw);
      if round.cancelledInWait {
        return log, Cancelled;
      }
      BackoffDoubles(cfg, consecutiveFailures);
      DescribesMore(cfg, script, log, Waited(consecutiveFailures, backoff, jittered));
      log := log + [Waited(consecutiveFailures, backoff, jittered)];
      backoff := NextBackoffCapped(backoff, cfg.maxBackoff);
    }
    return log, StillRunning;
  }

  // --------------------------------------------------------- what it promises

  predicate Uncut(r: Round, entry: Entry)
  {
    !r.cancelledBefore && !r.cancelledAfter && (entry.Waited? ==> !r.cancelledInWait)
  }

  predicate CutShort(r: Round)
  {
    r.cancelledBefore || r.cancelledAfter || r.cancelledInWait
  }

  /** Failures since the last clean exit or stable run, the failed stable run itself included. */
  function Streak(cfg: Config, rounds: seq<Round>): nat
  {
    if rounds == [] then 0
    else
      var r := rounds[|rounds| - 1];
      if !r.failed then 0
      else if r.ran >= cfg.stableThreshold then 1
      else Streak(cfg, rounds[..|rounds| - 1]) + 1
  }

  lemma StreakStep(cfg: Config, script: seq<Round>, i: nat)
    requires i < |script|
    ensures Streak(cfg, script[..i + 1]) ==
      if !script[i].failed then 0
      else if script[i].ran >= cfg.stableThreshold then 1
      else Streak(cfg, script[..i]) + 1
  {
    assert script[..i + 1][..i] == script[..i];
  }

  /** The cap at the f-th failure: the maximum, except that doubling drives a negative one down. */
  function Cap(cfg: Config, f: nat): int
  {
    if cfg.maxBackoff >= 0 || f < 2 then cfg.maxBackoff else cfg.maxBackoff * Pow2(f - 2)
  }

  /** The backoff owed at the f-th failure of a streak, in closed form. */
  function Backoff(cfg: Config, f: nat): int
    requires f > 0
  {
    if f == 1 then cfg.baseBackoff else Min(cfg.baseBackoff * Pow2(f - 1), Cap(cfg, f))
  }

  /** What the log must say of the last of some rounds, which no cancellation cut short. */
  ghost predicate Explains(cfg: Config, rounds: seq<Round>, entry: Entry)
    requires rounds != []
  {
    var r, f := rounds[|rounds| - 1], Streak(cfg, rounds);
    Uncut(r, entry) &&
    if !r.failed then entry == Restarted
    else if f >= cfg.maxFailures then entry == DeadLettered(f)
    else entry == Waited(f, Backoff(cfg, f), ApplyJitter(Backoff(cfg, f), r.draw))
  }

  /** Every entry is explained by the streak at its round, and only the last can be a dead letter. */
  ghost predicate Describes(cfg: Config, script: seq<Round>, log: seq<Entry>)
  {
    && |log| <= |script|
    && (forall i :: 0 <= i < |log| ==> Explains(cfg, script[..i + 1], log[i]))
    && (forall i :: 0 <= i < |log| - 1 ==> !log[i].DeadLettered?)
  }

  /** Doubling with a cap is the closed form, whether or not the base itself exceeds the cap. */
  lemma BackoffDoubles(cfg: Config, f: nat)
    requires f > 0
    ensures NextBackoffCapped(Backoff(cfg, f), cfg.maxBackoff) == Backoff(cfg, f + 1)
  {
    assert cfg.baseBackoff * Pow2(f) == 2 * (cfg.baseBackoff * Pow2(f - 1));
    if f > 1 {
      assert cfg.maxBackoff * Pow2(f - 1) == 2 * (cfg.maxBackoff * Pow2(f - 2));
      Pow2Grows(f - 2, f - 1);
      if cfg.maxBackoff < 0 {
        assert cfg.maxBackoff * Pow2(f - 1) <= cfg.maxBackoff * 1;
      }
    }
  }

  /** One more explained entry. */
  lemma DescribesMore(cfg: Config, script: seq<Round>, log: seq<Entry>, entry: Entry)
    requires Describes(cfg, script, log) && |log| < |script| && (log == [] || !log[|log| - 1].DeadLettered?)
    requires Explains(cfg, script[..|log| + 1], entry)
    ensures Describes(cfg, script, log + [entry])
  {
  }

  /** With base <= max the first wait is capped like the others. */
  lemma CappedFromTheStart(cfg: Config, f: nat)
    requires f > 0 && cfg.baseBackoff <= cfg.maxBackoff && cfg.maxBackoff >= 0
    ensures Backoff(cfg, f) == Min(cfg.baseBackoff * Pow2(f - 1), cfg.maxBackoff)
  {
  }

  /** The streak, said without recursion: it is f > 0 iff the last f rounds failed, the last f - 1 of
      them early, and the first of the f began a streak: it was stable, or followed a clean exit, or
      was the very first round. */
  ghost predicate IsStreak(cfg: Config, rounds: seq<Round>, f: nat)
  {
    var n := |rounds|;
    && 0 < f <= n
    && (forall i :: n - f <= i < n ==> rounds[i].failed)
    && (forall i :: n - f < i < n ==> rounds[i].ran < cfg.stableThreshold)
    && (rounds[n - f].ran >= cfg.stableThreshold || f == n || !rounds[n - f - 1].failed)
  }

  lemma {:induction false} StreakExactly(cfg: Config, rounds: seq<Round>, f: nat)
    requires f > 0
    ensures Streak(cfg, rounds) == f <==> IsStreak(cfg, rounds, f)
  {
    if rounds != [] {
      var n, init := |rounds|, rounds[..|rounds| - 1];
      var r := rounds[n - 1];
      if r.failed && r.ran < cfg.stableThreshold {
        if f > 1 {
          StreakExactly(cfg, init, f - 1);
          assert forall i :: 0 <= i < n - 1 ==> init[i] == rounds[i];
          if IsStreak(cfg, init, f - 1) {
            assert IsStreak(cfg, rounds, f);
          }
        } else if n > 1 && rounds[n - 2].failed {
          assert init[n - 2] == rounds[n - 2];
        }
      } else if r.failed {
        assert f > 1 ==> !IsStreak(cfg, rounds, f);
      } else {
        assert !IsStreak(cfg, rounds, f);
      }
    }
  }

  /** At each wait 1 <= f < maxFailures and f, backoff are the streak and its closed form; the service
      is dead-lettered exactly when a failed round brings the streak to maxFailures. */
  lemma EveryEntryExact(cfg: Config, script: seq<Round>, log: seq<Entry>, i: nat)
    requires Describes(cfg, script, log) && i < |log|
    ensures log[i].Waited? ==>
      && 1 <= log[i].failures < cfg.maxFailures && IsStreak(cfg, script[..i + 1], log[i].failures)
      && log[i].backoff == Backoff(cfg, log[i].failures)
    ensures log[i].DeadLettered? <==> script[i].failed && Streak(cfg, script[..i + 1]) >= cfg.maxFailures
    ensures log[i].DeadLettered? && cfg.maxFailures >= 1 ==>
      log[i].failures == cfg.maxFailures && IsStreak(cfg, script[..i + 1], cfg.maxFailures)
  {
    var rounds := script[..i + 1];
    assert rounds[|rounds| - 1] == script[i];
    assert Explains(cfg, rounds, log[i]);
    if log[i].Waited? {
      StreakExactly(cfg, rounds, log[i].failures);
    }
    if log[i].DeadLettered? && cfg.maxFailures >= 1 {
      assert rounds[..i] == script[..i];
      if i > 0 {
        assert Explains(cfg, script[..i], log[i - 1]);
        assert script[..i][i - 1] == script[i - 1];
      }
      StreakExactly(cfg, rounds, log[i].failures);
    }
  }

  // ---------------------------------------------------- total waiting time

  lemma JitterBounds(d: int, draw: real)
    requires d >= 0 && 0.0 <= draw < 1.0
    ensures 0.8 * d as real - 1.0 < ApplyJitter(d, draw) as real <= 1.2 * d as real
  {
    assert d as real * (draw * 0.4) <= d as real * 0.4;
    assert d as real * (0.8 + draw * 0.4) == 0.8 * d as real + d as real * (draw * 0.4);
  }

  /** The slept time is the backoff scaled by the draw, from 0.8 of it at 0 to 1.2 of it at 1, rounded down to a
      whole nanosecond. */
  lemma JitterExact(d: int, draw: real)
    ensures var scaled := d as real * 0.8 + d as real * draw * 0.4;
      scaled - 1.0 < ApplyJitter(d, draw) as real <= scaled
    ensures ApplyJitter(d, 0.5) == d
  {
    assert d as real * (0.8 + draw * 0.4) == d as real * 0.8 + d as real * draw * 0.4;
    assert d as real * (0.8 + 0.5 * 0.4) == d as real;
  }

  /** The sum of the first f backoffs of a streak. */
  function BackoffSum(cfg: Config, f: nat): int
  {
    if f == 0 then 0 else BackoffSum(cfg, f - 1) + Backoff(cfg, f)
  }

  /** The time slept over the last f entries. */
  function SleptLast(log: seq<Entry>, f: nat): int
    requires f <= |log| && forall i :: |log| - f <= i < |log| ==> log[i].Waited?
  {
    if f == 0 then 0 else SleptLast(log[..|log| - 1], f - 1) + log[|log| - 1].slept
  }

  /** While a streak stands at f, all its f rounds were waits, and the time slept in them is at most
      1.2 times the sum of their backoffs. */
  lemma {:induction false} StreakWaitBound(cfg: Config, script: seq<Round>, log: seq<Entry>, f: nat)
    requires Describes(cfg, script, log) && cfg.baseBackoff >= 0 && cfg.maxBackoff >= 0
    requires log == [] || !log[|log| - 1].DeadLettered?
    requires f == Streak(cfg, script[..|log|]) && forall i :: 0 <= i < |script| ==> 0.0 <= script[i].draw < 1.0
    ensures f <= |log| && (forall i :: |log| - f <= i < |log| ==> log[i].Waited?)
    ensures SleptLast(log, f) as real <= 1.2 * BackoffSum(cfg, f) as real
    decreases |log|
  {
    if f > 0 {
      var n, init := |log|, log[..|log| - 1];
      assert script[..n][..n - 1] == script[..n - 1];
      assert Explains(cfg, script[..n - 1 + 1], log[n - 1]);
      assert cfg.baseBackoff * Pow2(f - 1) >= 0;
      JitterBounds(Backoff(cfg, f), script[n - 1].draw);
      if f > 1 {
        StreakWaitBound(cfg, script, init, f - 1);
        assert log[n - 1].Waited?;
      }
    }
  }

  /** So the whole wait before a dead letter is bounded by the configuration alone. */
  lemma DeadLetterWaitBound(cfg: Config, script: seq<Round>, log: seq<Entry>)
    requires Describes(cfg, script, log) && cfg.baseBackoff >= 0 && cfg.maxBackoff >= 0 && cfg.maxFailures >= 2
    requires log != [] && log[|log| - 1].DeadLettered?
    requires forall i :: 0 <= i < |script| ==> 0.0 <= script[i].draw < 1.0
    ensures var init, f := log[..|log| - 1], cfg.maxFailures - 1;
      && f <= |init| && (forall i :: |init| - f <= i < |init| ==> init[i].Waited?)
      && SleptLast(init, f) as real <= 1.2 * BackoffSum(cfg, f) as real
  {
    var n, init := |log|, log[..|log| - 1];
    EveryEntryExact(cfg, script, log, n - 1);
    assert Explains(cfg, script[..n - 1 + 1], log[n - 1]);
    assert script[..n][..n - 1] == script[..n - 1];
    assert Describes(cfg, script, init);
    StreakWaitBound(cfg, script, init, cfg.maxFailures - 1);
  }

  // ------------------------------------------------- the stand-alone helper

  const SECOND: int := 1_000_000_000

  /** Converting a float outside the range of a 64-bit duration gives an implementation-defined
      value; `outOfRange` stands for it. */
  function ToDuration(d: int, outOfRange: int): int
  {
    if d < 0x8000_0000_0000_0000 then d else outOfRange
  }

  function CalculateBackoff(failureCount: nat, outOfRange: int): int
  {
    var d := ToDuration(2 * SECOND * Pow2(failureCount), outOfRange);
    if d > 300 * SECOND then 300 * SECOND else d
  }

  lemma {:induction false} Pow2Grows(m: nat, n: nat)
    requires m <= n
    ensures 1 <= Pow2(m) <= Pow2(n)
    decreases n
  {
    if m < n {
      Pow2Grows(m, n - 1);
    } else if m > 0 {
      Pow2Grows(m - 1, n - 1);
    }
  }

  lemma Pow2At33()
    ensures Pow2(8) == 256 && Pow2(32) == 0x1_0000_0000 && Pow2(33) == 0x2_0000_0000
  {
    assert Pow2(4) == 16;
    assert Pow2(8) == 256;
    assert Pow2(12) == 4096;
    assert Pow2(16) == 65536;
    assert Pow2(20) == 0x10_0000;
    assert Pow2(24) == 0x100_0000;
    assert Pow2(28) == 0x1000_0000;
    assert Pow2(32) == 0x1_0000_0000;
  }

  /** The helper agrees with the supervisor's own backoff, under the default base of 2 seconds and cap
      of 5 minutes and however the platform converts, for failure counts up to 32 and no further. */
  lemma HelperAgreesExactly(n: nat, cfg: Config)
    requires cfg.baseBackoff == 2 * SECOND && cfg.maxBackoff == 300 * SECOND
    ensures (forall outOfRange :: CalculateBackoff(n, outOfRange) == Backoff(cfg, n + 1)) <==> n <= 32
  {
    Pow2At33();
    CappedFromTheStart(cfg, n + 1);
    if n <= 32 {
      Pow2Grows(n, 32);
    } else {
      Pow2Grows(33, n);
      Pow2Grows(8, n);
      assert CalculateBackoff(n, -1) == -1;
    }
  }
}
