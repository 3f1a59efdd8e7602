/** The Google calendar sync: pages fetched through a bounded retry loop and replayed into the event
    store, with one full resync when the sync token has expired. The server is a script of call
    results; when it runs out the context has ended and every further call fails for good. */
module CalendarSync {
  import opened Options

  /** A listed event, with whether it can be normalised and whether its store write succeeds. */
  datatype Item = Item(id: nat, cancelled: bool, event: nat, normOk: bool, writeOk: bool)

  datatype Page = Page(items: seq<Item>, nextPageToken: string, nextSyncToken: string)

  /** An error, as far as the sync looks at it: 410 Gone, worth a retry, and its Retry-After. */
  datatype ApiError = ApiError(gone: bool, retryable: bool, retryAfter: int)

  datatype CallResult = Success(page: Page) | Failure(error: ApiError)

  /** The stored events of one account, by provider event id. */
  type Events = map<nat, nat>

  const CONTEXT_ENDED: ApiError := ApiError(false, false, 0)

  // ----------------------------------------------------------------- retries

  datatype RetryPolicy = RetryPolicy(maxRetries: int, baseDelay: int, maxDelay: int)

  function Pow2(n: nat): nat
  {
    if n == 0 then 1 else 2 * Pow2(n - 1)
  }

  /** Two's-complement wrap-around of a 64-bit integer. */
  function Wrap64(n: int): int
  {
    (n + 0x8000_0000_0000_0000) % 0x1_0000_0000_0000_0000 - 0x8000_0000_0000_0000
  }

  function DelayAfter(rp: RetryPolicy, attempt: nat, err: ApiError): int
  {
    var delay := if err.retryAfter > 0 then err.retryAfter else Wrap64(rp.baseDelay * Pow2(attempt));
    if delay > rp.maxDelay then rp.maxDelay else delay
  }

  function Budget(rp: RetryPolicy): nat
  {
    if rp.maxRetries < 0 then 0 else rp.maxRetries + 1
  }

  predicate RetryableAt(server: seq<CallResult>, k: nat)
    requires k < |server|
  {
    server[k].Failure? && server[k].error.retryable
  }

  /** The wait after the failed call `call`, the `attempt`-th of its request: never above the maximum. */
  predicate SleptAfter(rp: RetryPolicy, server: seq<CallResult>, call: int, attempt: int, delay: int)
  {
    && 0 <= attempt && 0 <= call < |server| && RetryableAt(server, call)
    && delay == DelayAfter(rp, attempt, server[call].error) && delay <= rp.maxDelay
  }

  /** After the calls from `from` up to `next`, a request has its answer: the last call succeeded or
      failed for good, or the budget is spent. */
  predicate Answered(rp: RetryPolicy, server: seq<CallResult>, from: nat, next: nat)
    requires from <= next <= |server|
  {
    from < next && (!RetryableAt(server, next - 1) || next - from == Budget(rp))
  }

  /** The retry loop over the calls from position `from` on. It retries after transient errors only, stops
      at the first answer, and waits once after every call that it follows up. Only without a budget or
      when the context ends does it come back without an answer. */
  method Do(rp: RetryPolicy, server: seq<CallResult>, from: nat)
      returns (result: CallResult, next: nat, sleeps: seq<int>)
    requires from <= |server|
    ensures from <= next <= |server| && next - from <= Budget(rp)
    ensures forall k :: from <= k < next - 1 ==> RetryableAt(server, k)
    ensures if Answered(rp, server, from, next) then result == server[next - 1] && |sleeps| == next - from - 1
      else result == Failure(CONTEXT_ENDED) && |sleeps| == next - from && (next == |server| || Budget(rp) == 0)
    ensures forall k :: 0 <= k < |sleeps| ==> SleptAfter(rp, server, from + k, k, sleeps[k])
  {
    next := from;
    sleeps := [];
    var attempt := 0;
    while attempt <= rp.maxRetries
      invariant 0 <= attempt == next - from == |sleeps| <= Budget(rp) && next <= |server|
      invariant forall k :: from <= k < next ==> RetryableAt(server, k)
      invariant attempt <= rp.maxRetries || attempt == 0
      invariant forall k :: 0 <= k < |sleeps| ==> SleptAfter(rp, server, from + k, k, sleeps[k])
    {
      if next == |server| {
        assert next > from ==> RetryableAt(server, next - 1);
        return Failure(CONTEXT_ENDED), next, sleeps;
      }
      result := server[next];
      next := next + 1;
      if result.Success? {
        return;
      }
      if !result.error.retryable || attempt == rp.maxRetries {
        return;
      }
      var delay := Wrap64(rp.baseDelay * Pow2(attempt));
      if result.error.retryAfter > 0 {
        delay := result.error.retryAfter;
      }
      if delay > rp.maxDelay {
        delay := rp.maxDelay;
      }
      assert SleptAfter(rp, server, from + attempt, attempt, delay);
      sleeps := sleeps + [delay];
      attempt := attempt + 1;
    }
    return Failure(CONTEXT_ENDED), next, sleeps;
  }

  lemma {:induction false} Pow2Positive(n: nat)
    ensures Pow2(n) >= 1
  {
    if n > 0 {
      Pow2Positive(n - 1);
    }
  }

  /** The wait is the documented capped exponential iff the doubled delay fits in 64 bits, or wraps
      around to something at or above the cap. */
  lemma DelayIsCappedExponential(rp: RetryPolicy, attempt: nat, err: ApiError)
    requires err.retryAfter <= 0 && rp.baseDelay >= 0 && rp.maxDelay < 0x8000_0000_0000_0000
    ensures var d := rp.baseDelay * Pow2(attempt);
      DelayAfter(rp, attempt, err) == (if d > rp.maxDelay then rp.maxDelay else d) <==>
      d < 0x8000_0000_0000_0000 || Wrap64(d) >= rp.maxDelay
  {
    Pow2Positive(attempt);
    assert rp.baseDelay * Pow2(attempt) >= 0;
  }

  /** A server that asks for a delay gets it, up to the cap. */
  lemma RetryAfterWins(rp: RetryPolicy, attempt: nat, err: ApiError)
    requires err.retryAfter > 0
    ensures DelayAfter(rp, attempt, err) <= rp.maxDelay && DelayAfter(rp, attempt, err) <= err.retryAfter
    ensures DelayAfter(rp, attempt, err) in {rp.maxDelay, err.retryAfter}
  {
  }

  // ------------------------------------------------------------------ replay

  predicate Effective(item: Item)
  {
    item.writeOk && (item.cancelled || item.normOk)
  }

  function Replayed(store: Events, item: Item): Events
  {
    if !Effective(item) then store
    else if item.cancelled then store - {item.id}
    else store[item.id := item.event]
  }

  function Fold(store: Events, items: seq<Item>): Events
  {
    if items == [] then store else Replayed(Fold(store, items[..|items| - 1]), items[|items| - 1])
  }

  /** The items of the successful calls from position `from` up to `to`, in order. */
  function ItemsBetween(server: seq<CallResult>, from: nat, upTo: nat): seq<Item>
    requires from <= upTo <= |server|
  {
    if upTo == from then []
    else ItemsBetween(server, from, upTo - 1) + (if server[upTo - 1].Success? then server[upTo - 1].page.items else [])
  }

  datatype SyncResult = Synced(token: string) | SyncError

  class SyncEngine {
    var events: Events
    var savedToken: Option<string>
    const rp: RetryPolicy

    constructor (rp: RetryPolicy, events: Events, savedToken: Option<string>)
      ensures this.rp == rp && this.events == events && this.savedToken == savedToken
    {
      this.rp := rp;
      this.events := events;
      this.savedToken := savedToken;
    }

    method DeleteEvent(item: Item)
      modifies this`events
      ensures events == if item.writeOk then old(events) - {item.id} else old(events)
    {
      if item.writeOk {
        events := events - {item.id};
      }
    }

    method UpsertEvent(item: Item)
      modifies this`events
      ensures events == if item.writeOk then old(events)[item.id := item.event] else old(events)
    {
      if item.writeOk {
        events := events[item.id := item.event];
      }
    }

    /** An update of an existing row only. */
    method ClearSyncState(ok: bool)
      modifies this`savedToken
      ensures savedToken == if ok && old(savedToken).Some? then Some("") else old(savedToken)
    {
      if ok && savedToken.Some? {
        savedToken := Some("");
      }
    }

    method SaveSyncState(token: string, ok: bool)
      modifies this`savedToken
      ensures savedToken == if ok then Some(token) else old(savedToken)
    {
      if ok {
        savedToken := Some(token);
      }
    }

    method ReplayPage(items: seq<Item>)
      modifies this`events
      ensures events == Fold(old(events), items)
    {
      ghost var was := events;
      for i := 0 to |items|
        invariant events == Fold(was, items[..i])
      {
        assert items[..i + 1][..i] == items[..i];
        var item := items[i];
        if item.cancelled {
          DeleteEvent(item);
          continue;
        }
        if !item.normOk {
          continue;
        }
        UpsertEvent(item);
      }
      assert items[..|items|] == items;
    }

    /** One page request within a pass that began at call `from`, with its retries. */
    method RequestPage(server: seq<CallResult>, ghost from: nat, start: nat) returns (call: CallResult, next: nat)
      requires from <= start <= |server|
      requires from < start ==> server[start - 1].Success? && !EndsSync(server[start - 1])
      ensures start <= next <= |server| && next - start <= Budget(rp)
      ensures Lists(server, from, start, next, if call.Success? then call.page.items else [])
      ensures call.Success? ==> start < next && server[next - 1] == call && !FailedForGood(rp, server, from, next)
      ensures call.Failure? && from < next ==> !EndsSync(server[next - 1])
      ensures call.Failure? && call.error.gone ==>
        start < next && IsGone(server[next - 1]) && FailedForGood(rp, server, from, next)
      ensures call.Failure? && !call.error.gone ==>
        && (next == |server| || Budget(rp) == 0 || FailedForGood(rp, server, from, next))
        && !(FailedForGood(rp, server, from, next) && IsGone(server[next - 1]))
    {
      hide FailedForGood, SleptAfter;
      var sleeps;
      call, next, sleeps := Do(rp, server, start);
      OneRequestLists(server, from, start, next);
      NotFailedYet(rp, server, from, start);
      AnswerIsFinal(rp, server, from, start, next);
    }

    /** One sync from call `from` on. Whatever the outcome, the store is the prior store with every
        item of every successful call replayed in order. `passes` counts the passes over the
        calendar, `requests` the page requests, each retried within its budget; `goneAt` is the call
        that reported the sync token expired, if the saved one was cleared. An error has one of three
        causes: the context has ended, there is no retry budget, or a request has failed for good; and a
        first report of an expired token leads to a second pass, unless clearing the token fails. */
    method DoGoogleSync(server: seq<CallResult>, from: nat, retried: bool, clearOk: bool)
        returns (result: SyncResult, next: nat, passes: nat, requests: nat, cleared: bool, ghost goneAt: nat)
      requires from <= |server|
      modifies this
      ensures from <= next <= |server|
      ensures Replays(old(events), events, server, from, next)
      ensures result.Synced? ==> from < next && EndsSync(server[next - 1]) && server[next - 1].page.nextSyncToken == result.token
      ensures result.SyncError? ==> next == from || !EndsSync(server[next - 1])
      ensures result.SyncError? ==> next == |server| || Budget(rp) == 0 || FailedForGood(rp, server, from, next)
      ensures FailedForGood(rp, server, from, next) && IsGone(server[next - 1]) ==> retried || !clearOk || passes == 2
      ensures 1 <= passes <= (if retried then 1 else 2) && WithinBudget(next - from, requests, Budget(rp))
      ensures cleared <==> passes == 2
      ensures cleared ==>
        clearOk && from <= goneAt < next && IsGone(server[goneAt]) && FailedForGood(rp, server, from, goneAt + 1)
      ensures savedToken == if cleared && old(savedToken).Some? then Some("") else old(savedToken)
      decreases !retried
    {
      hide FailedForGood, WithinBudget, Budget, Replays, Lists;
      next, passes, requests, cleared, goneAt := from, 1, 0, false, 0;
      NoneWithin(Budget(rp));
      ReplaysNothing(events, server, from);
      ghost var was := events;
      while true
        invariant from <= next <= |server|
        invariant Replays(was, events, server, from, next)
        invariant WithinBudget(next - from, requests, Budget(rp))
        invariant passes == 1 && !cleared && savedToken == old(savedToken)
        invariant from < next ==> server[next - 1].Success? && !EndsSync(server[next - 1])
        decreases |server| - next
      {
        ghost var start, before := next, events;
        var call;
        call, next := RequestPage(server, from, next);
        OneWithin(next - start, Budget(rp));
        BudgetAdds(start - from, requests, next - start, 1, Budget(rp));
        requests := requests + 1;
        if call.Failure? {
          ReplaysSame(was, events, server, from, start, next);
          if call.error.gone {
            goneAt := next - 1;
            if retried {
              return SyncError, next, passes, requests, cleared, goneAt;
            }
            ClearSyncState(clearOk);
            if !clearOk {
              return SyncError, next, passes, requests, cleared, goneAt;
            }
            ghost var middle := next;
            var more, again, clearedAgain;
            ghost var goneAgain;
            result, next, again, more, clearedAgain, goneAgain := DoGoogleSync(server, next, true, clearOk);
            ReplaysMore(was, before, events, server, from, middle, next);
            FailedFromEarlier(rp, server, from, middle, next);
            BudgetAdds(middle - from, requests, next - middle, more, Budget(rp));
            return result, next, 1 + again, requests + more, true, middle - 1;
          }
          return SyncError, next, passes, requests, cleared, goneAt;
        }
        ReplayPage(call.page.items);
        ReplaysPage(was, before, events, server, from, start, next, call.page.items);
        if call.page.nextPageToken != "" {
          continue;
        }
        return Synced(call.page.nextSyncToken), next, passes, requests, cleared, goneAt;
      }
    }

    /** The whole sync of one account. It succeeds iff it comes to a last page and can save its token, and
        comes to less only for the causes of an error above. A token is saved only after a pass has
        replayed its last page, and otherwise the old one stays, or is blank after an expiry. */
    method SyncGoogle(server: seq<CallResult>, buildOk: bool, clearOk: bool, saveOk: bool)
        returns (ok: bool, next: nat, cleared: bool)
      modifies this
      ensures next <= |server| && events == Fold(old(events), ItemsBetween(server, 0, next))
      ensures (ok || savedToken != (if cleared && old(savedToken).Some? then Some("") else old(savedToken))) ==>
        next > 0 && server[next - 1].Success? && server[next - 1].page.nextPageToken == ""
      ensures savedToken == old(savedToken)
        || (cleared && savedToken == Some(""))
        || (next > 0 && EndsSync(server[next - 1])
            && savedToken == Some(server[next - 1].page.nextSyncToken) && savedToken != Some(""))
      ensures ok && next > 0 && server[next - 1].page.nextSyncToken != "" ==>
        savedToken == Some(server[next - 1].page.nextSyncToken)
      ensures next > 0 && EndsSync(server[next - 1]) ==> (ok <==> server[next - 1].page.nextSyncToken == "" || saveOk)
      ensures buildOk && !(next > 0 && EndsSync(server[next - 1])) ==>
        !ok && (next == |server| || Budget(rp) == 0 || FailedForGood(rp, server, 0, next))
      ensures FailedForGood(rp, server, 0, next) && IsGone(server[next - 1]) ==> cleared || !clearOk
    {
      if !buildOk {
        return false, 0, false;
      }
      var result, passes, requests;
      ghost var goneAt;
      result, next, passes, requests, cleared, goneAt := DoGoogleSync(server, 0, false, clearOk);
      if result.SyncError? {
        return false, next, cleared;
      }
      if result.token != "" {
        SaveSyncState(result.token, saveOk);
        if !saveOk {
          return false, next, cleared;
        }
      }
      return true, next, cleared;
    }
  }

  predicate IsGone(call: CallResult)
  {
    call.Failure? && call.error.gone
  }

  /** A call result that ends a pass: the last page. */
  predicate EndsSync(call: CallResult)
  {
    call.Success? && call.page.nextPageToken == ""
  }

  /** The last call up to `next` has failed and is not to be retried: its error is not transient, or all
      of a retry budget has gone into transient errors. */
  predicate FailedForGood(rp: RetryPolicy, server: seq<CallResult>, from: nat, next: nat)
    requires from <= next <= |server|
  {
    && from < next && server[next - 1].Failure?
    && (server[next - 1].error.retryable ==>
          next - from >= Budget(rp) && forall k :: next - Budget(rp) <= k < next ==> RetryableAt(server, k))
  }

  lemma NotFailedYet(rp: RetryPolicy, server: seq<CallResult>, from: nat, start: nat)
    requires from <= start <= |server| && (from < start ==> server[start - 1].Success?)
    ensures !FailedForGood(rp, server, from, start)
  {
  }

  lemma FailedFromEarlier(rp: RetryPolicy, server: seq<CallResult>, from: nat, middle: nat, next: nat)
    requires from <= middle <= next <= |server|
    ensures FailedForGood(rp, server, middle, next) ==> FailedForGood(rp, server, from, next)
  {
  }

  /** In a request that starts after a page or at the very beginning, an answer that is a failure is a
      failure for good, and an unanswered request has not failed for good. */
  lemma AnswerIsFinal(rp: RetryPolicy, server: seq<CallResult>, from: nat, start: nat, next: nat)
    requires from <= start <= next <= |server| && next - start <= Budget(rp)
    requires from < start ==> server[start - 1].Success?
    requires forall k :: start <= k < next - 1 ==> RetryableAt(server, k)
    ensures start < next ==>
      (FailedForGood(rp, server, from, next) <==> Answered(rp, server, start, next) && server[next - 1].Failure?)
    ensures start == next ==> !FailedForGood(rp, server, from, next)
  {
    assert from < start ==> !RetryableAt(server, start - 1);
  }

  /** From `start` up to `next`, the calls have listed these items. */
  ghost predicate Lists(server: seq<CallResult>, from: nat, start: nat, next: nat, items: seq<Item>)
    requires from <= start <= next <= |server|
  {
    ItemsBetween(server, from, next) == ItemsBetween(server, from, start) + items
  }

  /** The store `events` is the store `was` with every item of every successful call from `from` up to
      `upTo` replayed in order. */
  ghost predicate Replays(was: Events, events: Events, server: seq<CallResult>, from: nat, upTo: nat)
    requires from <= upTo <= |server|
  {
    events == Fold(was, ItemsBetween(server, from, upTo))
  }

  lemma ReplaysNothing(was: Events, server: seq<CallResult>, from: nat)
    requires from <= |server|
    ensures Replays(was, was, server, from, from)
  {
  }

  lemma ReplaysPage(was: Events, before: Events, events: Events, server: seq<CallResult>, from: nat, start: nat,
                    next: nat, items: seq<Item>)
    requires from <= start <= next <= |server| && Replays(was, before, server, from, start)
    requires events == Fold(before, items) && Lists(server, from, start, next, items)
    ensures Replays(was, events, server, from, next)
  {
    FoldConcat(was, ItemsBetween(server, from, start), items);
  }

  lemma ReplaysSame(was: Events, events: Events, server: seq<CallResult>, from: nat, start: nat, next: nat)
    requires from <= start <= next <= |server| && Replays(was, events, server, from, start)
    requires Lists(server, from, start, next, [])
    ensures Replays(was, events, server, from, next)
  {
    assert ItemsBetween(server, from, start) + [] == ItemsBetween(server, from, start);
  }

  lemma ReplaysMore(was: Events, before: Events, events: Events, server: seq<CallResult>, from: nat, middle: nat,
                    next: nat)
    requires from <= middle <= next <= |server|
    requires Replays(was, before, server, from, middle) && Replays(before, events, server, middle, next)
    ensures Replays(was, events, server, from, next)
  {
    FoldConcat(was, ItemsBetween(server, from, middle), ItemsBetween(server, middle, next));
    BetweenConcat(server, from, middle, next);
  }

  // ------------------------------------------------------- loop arithmetic

  predicate WithinBudget(calls: nat, requests: nat, budget: nat)
  {
    calls <= requests * budget
  }

  lemma NoneWithin(budget: nat)
    ensures WithinBudget(0, 0, budget)
  {
  }

  lemma OneWithin(calls: nat, budget: nat)
    requires calls <= budget
    ensures WithinBudget(calls, 1, budget)
  {
  }

  lemma BudgetAdds(a: nat, m: nat, b: nat, n: nat, budget: nat)
    requires WithinBudget(a, m, budget) && WithinBudget(b, n, budget)
    ensures WithinBudget(a + b, m + n, budget)
  {
  }

  lemma {:induction false} FoldConcat(store: Events, a: seq<Item>, b: seq<Item>)
    ensures Fold(store, a + b) == Fold(Fold(store, a), b)
  {
    if b == [] {
      assert a + b == a;
    } else {
      assert (a + b)[..|a + b| - 1] == a + b[..|b| - 1];
      FoldConcat(store, a, b[..|b| - 1]);
    }
  }

  lemma {:induction false} BetweenConcat(server: seq<CallResult>, from: nat, middle: nat, upTo: nat)
    requires from <= middle <= upTo <= |server|
    ensures ItemsBetween(server, from, upTo) == ItemsBetween(server, from, middle) + ItemsBetween(server, middle, upTo)
    decreases upTo
  {
    if middle < upTo {
      BetweenConcat(server, from, middle, upTo - 1);
    }
  }

  lemma {:induction false} FailuresListNothing(server: seq<CallResult>, from: nat, start: nat, upTo: nat)
    requires from <= start <= upTo <= |server| && forall k :: start <= k < upTo ==> RetryableAt(server, k)
    ensures ItemsBetween(server, from, upTo) == ItemsBetween(server, from, start)
    decreases upTo
  {
    if start < upTo {
      assert RetryableAt(server, upTo - 1);
      FailuresListNothing(server, from, start, upTo - 1);
    }
  }

  /** One page request lists the items of its last call, if that succeeded, and nothing else. */
  lemma OneRequestLists(server: seq<CallResult>, from: nat, start: nat, next: nat)
    requires from <= start <= next <= |server| && forall k :: start <= k < next - 1 ==> RetryableAt(server, k)
    ensures ItemsBetween(server, from, next) ==
      if start < next && server[next - 1].Success?
      then ItemsBetween(server, from, start) + server[next - 1].page.items else ItemsBetween(server, from, start)
  {
    if start < next {
      FailuresListNothing(server, from, start, next - 1);
    }
  }

  // --------------------------------------------------- what a replay amounts to

  /** Where an item for an id last took effect, if anywhere. */
  function LastEffective(items: seq<Item>, id: nat): Option<Item>
  {
    if items == [] then None
    else
      var item := items[|items| - 1];
      if item.id == id && Effective(item) then Some(item) else LastEffective(items[..|items| - 1], id)
  }

  /** The last effective version of each id wins: it is stored if live and absent if cancelled, and an
      id without one keeps its prior entry. */
  lemma {:induction false} LastVersionWins(store: Events, items: seq<Item>, id: nat)
    ensures match LastEffective(items, id)
      case None => (id in Fold(store, items) <==> id in store) && (id in store ==> Fold(store, items)[id] == store[id])
      case Some(item) =>
        if item.cancelled then id !in Fold(store, items)
        else id in Fold(store, items) && Fold(store, items)[id] == item.event
  {
    if items != [] {
      LastVersionWins(store, items[..|items| - 1], id);
    }
  }

  /** With every write going through and every live event normalised, the last listed version of each id
      wins: stored if live, absent if cancelled. */
  lemma {:induction false} LastListedWins(store: Events, items: seq<Item>, id: nat, k: nat)
    requires forall i :: 0 <= i < |items| ==> items[i].writeOk && (items[i].cancelled || items[i].normOk)
    requires k < |items| && items[k].id == id && forall j :: k < j < |items| ==> items[j].id != id
    ensures if items[k].cancelled then id !in Fold(store, items)
      else id in Fold(store, items) && Fold(store, items)[id] == items[k].event
  {
    if k < |items| - 1 {
      LastListedWins(store, items[..|items| - 1], id, k);
    }
  }

  ghost predicate LastAt(items: seq<Item>, id: nat, k: nat)
  {
    && k < |items| && items[k].id == id && Effective(items[k])
    && forall j :: k < j < |items| ==> !(items[j].id == id && Effective(items[j]))
  }

  /** LastEffective is what its name says. */
  lemma {:induction false} LastEffectiveExactly(items: seq<Item>, id: nat, item: Item)
    ensures LastEffective(items, id) == Some(item) <==> exists k: nat :: LastAt(items, id, k) && items[k] == item
  {
    if items != [] {
      var n, init := |items|, items[..|items| - 1];
      LastEffectiveExactly(init, id, item);
      if items[n - 1].id == id && Effective(items[n - 1]) {
        assert LastAt(items, id, n - 1);
      } else {
        forall k: nat | k < n - 1 ensures LastAt(items, id, k) <==> LastAt(init, id, k) {
          assert init[k] == items[k];
          assert forall j :: k < j < n - 1 ==> init[j] == items[j];
        }
      }
    }
  }

  lemma {:induction false} LastEffectiveConcat(a: seq<Item>, b: seq<Item>, id: nat)
    ensures LastEffective(a + b, id) == if LastEffective(b, id).Some? then LastEffective(b, id) else LastEffective(a, id)
  {
    if b == [] {
      assert a + b == a;
    } else {
      assert (a + b)[..|a + b| - 1] == a + b[..|b| - 1];
      LastEffectiveConcat(a, b[..|b| - 1], id);
    }
  }

  /** The pages an expired token cuts short leave a trace after the resync exactly on the ids that the
      resync does not list with effect. */
  lemma AbortedPassLeavesTraceExactly(store: Events, aborted: seq<Item>, resync: seq<Item>, id: nat)
    ensures LastEffective(resync, id).Some? ==>
      (id in Fold(store, aborted + resync) <==> id in Fold(store, resync)) &&
      (id in Fold(store, resync) ==> Fold(store, aborted + resync)[id] == Fold(store, resync)[id])
    ensures LastEffective(resync, id).None? ==>
      (id in Fold(store, aborted + resync) <==> id in Fold(store, aborted)) &&
      (id in Fold(store, aborted) ==> Fold(store, aborted + resync)[id] == Fold(store, aborted)[id])
  {
    LastEffectiveConcat(aborted, resync, id);
    LastVersionWins(store, aborted + resync, id);
    LastVersionWins(store, resync, id);
    LastVersionWins(store, aborted, id);
  }
}
