/** Fan-out of an event to its subscribers inside a request transaction: one loop inserts
    the delivery rows, a second publishes their jobs, and only then can the request commit. */
module EmitEvent {
  import opened Wrappers
  import opened Delivery

  type Id = nat

  datatype Endpoint = Endpoint(id: Id, organization: Id, active: bool, events: seq<string>) {
    predicate Subscribes(organization: Id, eventType: string) {
      this.organization == organization && active && eventType in events
    }
  }

  datatype Payload<D> = Payload(eventId: Id, eventType: string, data: D)

  datatype DeliveryRow<D> = DeliveryRow(id: Id, endpoint: Id, payload: Payload<D>, row: Row)

  /** The subscribed endpoints, in query order. */
  function Subscribers(endpoints: seq<Endpoint>, organization: Id, eventType: string): seq<Endpoint> {
    if endpoints == [] then []
    else
      var init, last := endpoints[..|endpoints| - 1], endpoints[|endpoints| - 1];
      Subscribers(init, organization, eventType) +
      if last.Subscribes(organization, eventType) then [last] else []
  }

  lemma {:induction false} SubscribersAre(endpoints: seq<Endpoint>, organization: Id, eventType: string, e: Endpoint)
    ensures e in Subscribers(endpoints, organization, eventType) <==>
            e in endpoints && e.organization == organization && e.active && eventType in e.events
  {
    if endpoints != [] {
      var init := endpoints[..|endpoints| - 1];
      SubscribersAre(init, organization, eventType, e);
      assert endpoints == init + [endpoints[|endpoints| - 1]];
    }
  }

  /** Where the subscribers stand in the query result: in ascending order, each row of it that belongs to
      the organization, is active and lists the type, and no other. */
  lemma {:induction false} SubscribersAt(endpoints: seq<Endpoint>, organization: Id, eventType: string)
    returns (at: seq<nat>)
    ensures |at| == |Subscribers(endpoints, organization, eventType)|
    ensures forall k :: 0 <= k < |at| ==>
              at[k] < |endpoints| && endpoints[at[k]] == Subscribers(endpoints, organization, eventType)[k]
    ensures forall k, l :: 0 <= k < l < |at| ==> at[k] < at[l]
    ensures forall i :: 0 <= i < |endpoints| ==>
              (i in at <==> && endpoints[i].organization == organization && endpoints[i].active
                            && eventType in endpoints[i].events)
  {
    if endpoints == [] {
      at := [];
    } else {
      var init, last := endpoints[..|endpoints| - 1], endpoints[|endpoints| - 1];
      at := SubscribersAt(init, organization, eventType);
      assert forall i :: 0 <= i < |init| ==> init[i] == endpoints[i];
      assert forall i :: i in at ==> i < |init|;
      if last.Subscribes(organization, eventType) {
        at := at + [|init|];
      }
    }
  }

  /** The rows for the first subscribers, with the k-th generated id `ids(k)` on the k-th row. */
  function RowsFor<D>(subscribers: seq<Endpoint>, payload: Payload<D>, ids: nat -> Id): (rows: seq<DeliveryRow<D>>)
    ensures |rows| == |subscribers|
    ensures forall k :: 0 <= k < |rows| ==> rows[k] == DeliveryRow(ids(k), subscribers[k].id, payload, FRESH)
  {
    seq(|subscribers|, k requires 0 <= k < |subscribers| => DeliveryRow(ids(k), subscribers[k].id, payload, FRESH))
  }

  function Prefix(ids: nat -> Id, n: nat): (s: seq<Id>)
    ensures |s| == n && forall k :: 0 <= k < n ==> s[k] == ids(k)
  {
    seq(n, k requires 0 <= k => ids(k))
  }

  /** The committed delivery table and the broker queue, which no transaction covers. */
  class Backend<D(!new)> {
    var deliveries: seq<DeliveryRow<D>>
    var jobs: seq<Id>

    constructor ()
      ensures deliveries == [] && jobs == []
    {
      deliveries, jobs := [], [];
    }

    /** The rows to insert, after publishing a job for each; the broker refuses the
        `refusal`-th message, if there is one, and that aborts the use case. */
    method Emit(endpoints: seq<Endpoint>, organization: Id, payload: Payload<D>, ids: nat -> Id, refusal: Option<nat>)
      returns (inserted: seq<DeliveryRow<D>>, accepted: bool)
      modifies this`jobs
      ensures var subscribers := Subscribers(endpoints, organization, payload.eventType);
              && inserted == RowsFor(subscribers, payload, ids)
              && accepted == (refusal.None? || refusal.value >= |subscribers|)
              && jobs == old(jobs) + Prefix(ids, if accepted then |subscribers| else refusal.value)
      ensures forall k :: 0 <= k < |inserted| ==>
                && inserted[k].id == ids(k) && inserted[k].payload == payload
                && inserted[k].row == Row(Pending, 0, None, None, None)
    {
      inserted := [];
      var deliveryIds := [];
      for i := 0 to |endpoints|
        invariant inserted == RowsFor(Subscribers(endpoints[..i], organization, payload.eventType), payload, ids)
        invariant deliveryIds == Prefix(ids, |inserted|)
      {
        assert endpoints[..i + 1][..i] == endpoints[..i];
        if !endpoints[i].Subscribes(organization, payload.eventType) {
          continue;
        }
        var delivery := DeliveryRow(ids(|inserted|), endpoints[i].id, payload, FRESH);
        inserted := inserted + [delivery];
        deliveryIds := deliveryIds + [delivery.id];
      }
      assert endpoints[..|endpoints|] == endpoints;
      for k := 0 to |deliveryIds|
        invariant jobs == old(jobs) + Prefix(ids, k)
        invariant refusal.None? || refusal.value >= k
      {
        if refusal == Some(k) {
          return inserted, false;
        }
        jobs := jobs + [deliveryIds[k]];
        assert Prefix(ids, k + 1) == Prefix(ids, k) + [ids(k)];
      }
      accepted := true;
    }

    /** A request that emits one event: committed if nothing fails, rolled back otherwise. */
    method Request(endpoints: seq<Endpoint>, organization: Id, payload: Payload<D>, ids: nat -> Id,
                   refusal: Option<nat>, laterFailure: bool)
      returns (committed: bool)
      modifies this
      ensures var rows := RowsFor(Subscribers(endpoints, organization, payload.eventType), payload, ids);
              && (committed <==> !laterFailure && (refusal.None? || refusal.value >= |rows|))
              && deliveries == old(deliveries) + (if committed then rows else [])
              && old(jobs) <= jobs
              && (committed ==> jobs == old(jobs) + Prefix(ids, |rows|))
      ensures forall k :: |old(deliveries)| <= k < |deliveries| ==>
                && deliveries[k].id == ids(k - |old(deliveries)|) && deliveries[k].payload == payload
                && deliveries[k].row == Row(Pending, 0, None, None, None)
      ensures Covered(old(deliveries), old(jobs)) ==> Covered(deliveries, jobs)
    {
      var inserted, accepted := Emit(endpoints, organization, payload, ids, refusal);
      committed := accepted && !laterFailure;
      if committed {
        deliveries := deliveries + inserted;
      }
      if Covered(old(deliveries), old(jobs)) {
        RequestKeepsCovered(old(deliveries), old(jobs), Subscribers(endpoints, organization, payload.eventType),
                            payload, ids, deliveries, jobs, committed);
      }
    }
  }

  /** Every committed delivery has a job in the broker's history. */
  ghost predicate Covered<D(!new)>(deliveries: seq<DeliveryRow<D>>, jobs: seq<Id>) {
    forall d :: d in deliveries ==> d.id in jobs
  }

  /** Requests keep every committed delivery covered, whatever fails. */
  lemma RequestKeepsCovered<D(!new)>(
    deliveries: seq<DeliveryRow<D>>, jobs: seq<Id>, subscribers: seq<Endpoint>, payload: Payload<D>, ids: nat -> Id,
    deliveries': seq<DeliveryRow<D>>, jobs': seq<Id>, committed: bool)
    requires Covered(deliveries, jobs) && jobs <= jobs'
    requires deliveries' == deliveries + if committed then RowsFor(subscribers, payload, ids) else []
    requires committed ==> jobs' == jobs + Prefix(ids, |subscribers|)
    ensures Covered(deliveries', jobs')
  {
  }
}
