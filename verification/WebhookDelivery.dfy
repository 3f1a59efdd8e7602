/** Webhook deliveries: the event id is recorded first, then the handler runs. */
module WebhookDelivery {
  /** One delivery of an event: whether recording its id succeeds, and how the handler would end. */
  datatype Delivery = Delivery(id: nat, recordOk: bool, handlerOk: bool)

  datatype Answer = Done | Duplicate | HandlerError

  function AnswerTo(recorded: set<nat>, d: Delivery): Answer
  {
    if d.recordOk && d.id in recorded then Duplicate else if d.handlerOk then Done else HandlerError
  }

  function Recorded(recorded: set<nat>, d: Delivery): set<nat>
  {
    if d.recordOk then recorded + {d.id} else recorded
  }

  class WebhookHandler {
    var recorded: set<nat>

    constructor ()
      ensures recorded == {}
    {
      recorded := {};
    }

    method HandleWebhook(d: Delivery) returns (answer: Answer)
      modifies this
      ensures answer == AnswerTo(old(recorded), d) && recorded == Recorded(old(recorded), d)
    {
      var isDuplicate := false;
      if d.recordOk {
        isDuplicate := d.id in recorded;
        recorded := recorded + {d.id};
      }
      if isDuplicate {
        return Duplicate;
      }
      if !d.handlerOk {
        return HandlerError;
      }
      return Done;
    }
  }

  /** How often the handler completes for an event over a run of deliveries. */
  function Effects(recorded: set<nat>, ds: seq<Delivery>, id: nat): nat
    decreases |ds|
  {
    if ds == [] then 0
    else
      (if ds[0].id == id && AnswerTo(recorded, ds[0]) == Done then 1 else 0)
      + Effects(Recorded(recorded, ds[0]), ds[1..], id)
  }

  /** Deliveries of an event whose id could not be recorded but whose handler completes. */
  function Unrecorded(ds: seq<Delivery>, id: nat): nat
  {
    if ds == [] then 0
    else (if ds[0].id == id && !ds[0].recordOk && ds[0].handlerOk then 1 else 0) + Unrecorded(ds[1..], id)
  }

  /** Whether the first delivery of an event whose id is recorded completes its handler. */
  predicate FirstRecordedCompletes(ds: seq<Delivery>, id: nat)
  {
    ds != [] &&
      if ds[0].id == id && ds[0].recordOk then ds[0].handlerOk else FirstRecordedCompletes(ds[1..], id)
  }

  lemma {:induction false} EffectsFrom(recorded: set<nat>, ds: seq<Delivery>, id: nat)
    ensures Effects(recorded, ds, id) ==
      Unrecorded(ds, id) + if id !in recorded && FirstRecordedCompletes(ds, id) then 1 else 0
    decreases |ds|
  {
    if ds != [] {
      EffectsFrom(Recorded(recorded, ds[0]), ds[1..], id);
    }
  }

  /** Over any run of deliveries an event takes effect exactly as often as it slips past the record,
      plus once if its first recorded delivery completes. So no event recorded once runs twice, and
      an event whose first delivery fails is lost: its retries are answered as duplicates. */
  lemma EffectsExactly(ds: seq<Delivery>, id: nat)
    ensures Effects({}, ds, id) == Unrecorded(ds, id) + if FirstRecordedCompletes(ds, id) then 1 else 0
  {
    EffectsFrom({}, ds, id);
  }

  ghost predicate AlwaysRecorded(ds: seq<Delivery>)
  {
    forall i :: 0 <= i < |ds| ==> ds[i].recordOk
  }

  /** While the record works, effect means first delivery completed, whatever the retries do. */
  lemma {:induction false} LostUnlessFirstCompletes(ds: seq<Delivery>, id: nat)
    requires AlwaysRecorded(ds)
    ensures Effects({}, ds, id) <= 1
    ensures Effects({}, ds, id) == 1 <==>
      exists i :: 0 <= i < |ds| && ds[i].id == id && ds[i].handlerOk && forall k :: 0 <= k < i ==> ds[k].id != id
    decreases |ds|
  {
    EffectsExactly(ds, id);
    NothingUnrecorded(ds, id);
    FirstIndex(ds, id);
  }

  lemma {:induction false} NothingUnrecorded(ds: seq<Delivery>, id: nat)
    requires AlwaysRecorded(ds)
    ensures Unrecorded(ds, id) == 0
  {
    if ds != [] {
      assert ds[0].recordOk;
      NothingUnrecorded(ds[1..], id);
    }
  }

  lemma {:induction false} FirstIndex(ds: seq<Delivery>, id: nat)
    requires AlwaysRecorded(ds)
    ensures FirstRecordedCompletes(ds, id) <==>
      exists i :: 0 <= i < |ds| && ds[i].id == id && ds[i].handlerOk && forall k :: 0 <= k < i ==> ds[k].id != id
  {
    if ds != [] {
      var rest := ds[1..];
      FirstIndex(rest, id);
      assert ds[0].recordOk;
      if ds[0].id != id {
        if FirstRecordedCompletes(rest, id) {
          var i :| 0 <= i < |rest| && rest[i].id == id && rest[i].handlerOk && forall k :: 0 <= k < i ==> rest[k].id != id;
          assert ds[i + 1] == rest[i];
          assert forall k :: 0 < k < i + 1 ==> ds[k] == rest[k - 1];
        }
        if i :| 0 <= i < |ds| && ds[i].id == id && ds[i].handlerOk && forall k :: 0 <= k < i ==> ds[k].id != id {
          assert rest[i - 1] == ds[i];
          assert forall k :: 0 <= k < i - 1 ==> rest[k] == ds[k + 1];
        }
      }
    }
  }
}
