/** Synchronising subscriptions from Stripe events: each event is marked and applied in one
    transaction, so repeats are ignored and failures leave nothing behind. */
module Billing {
  import opened Wrappers
  import Cursor

  type OrgId = Cursor.Uuid

  /** The parts of an event object that are looked at; None stands for absent or falsy. */
  datatype Object = Object(
    metadataOrganization: Option<string>,
    clientReference: Option<string>,
    customer: Option<string>,
    id: Option<string>,
    status: Option<string>,
    price: Option<string>,
    periodEnd: Option<int>)

  datatype Event = Event(id: string, kind: string, payload: Object)

  datatype Subscription = Subscription(
    organization: OrgId, plan: string, status: string,
    customer: Option<string>, subscriptionId: Option<string>, periodEnd: Option<int>)

  datatype Audit = Audit(organization: OrgId, eventId: string, kind: string)

  /** `organizations` are the rows a subscription or audit entry may refer to. */
  datatype Database = Database(
    organizations: set<OrgId>, markers: set<string>, subscriptions: seq<Subscription>, audits: seq<Audit>)

  datatype Prices = Prices(pro: string, business: string)

  datatype Error = MalformedOrganization | UnknownOrganization | CustomerTaken | SubscriptionTaken

  function StatusOf(raw: string): string {
    match raw
    case "trialing" => "trialing"
    case "active" => "active"
    case "past_due" => "past_due"
    case "unpaid" => "past_due"
    case "canceled" => "cancelled"
    case _ => "inactive"
  }

  /** `UUID(str(raw))`, in its canonical spelling. */
  function OrganizationFrom(raw: string): Option<OrgId> {
    var (id, rest) :- Cursor.ParseUuid(raw);
    if rest == "" then Some(id) else None
  }

  /** The row index of the first subscription that satisfies `p`, or the number of rows. */
  function FirstRow(rows: seq<Subscription>, p: Subscription -> bool): (i: nat)
    ensures i <= |rows|
    ensures i < |rows| ==> p(rows[i])
    ensures forall j :: 0 <= j < i ==> !p(rows[j])
  {
    if rows == [] then 0 else if p(rows[0]) then 0 else 1 + FirstRow(rows[1..], p)
  }

  function RowOf(rows: seq<Subscription>, organization: OrgId): (i: nat)
    ensures i <= |rows|
    ensures i < |rows| ==> rows[i].organization == organization
    ensures forall j :: 0 <= j < i ==> rows[j].organization != organization
  {
    FirstRow(rows, (r: Subscription) => r.organization == organization)
  }

  /** Metadata first, then the client reference, then the organization known for the customer. */
  function Resolve(db: Database, payload: Object): Result<Option<OrgId>, Error> {
    var raw := if payload.metadataOrganization.Some? then payload.metadataOrganization else payload.clientReference;
    if raw.Some? then
      var organization := OrganizationFrom(raw.value);
      if organization.None? then Failure(MalformedOrganization) else Success(organization)
    else if payload.customer.None? then Success(None)
    else
      var i := FirstRow(db.subscriptions, (r: Subscription) => r.customer == payload.customer);
      Success(if i < |db.subscriptions| then Some(db.subscriptions[i].organization) else None)
  }

  function Default(organization: OrgId): Subscription {
    Subscription(organization, "free", "inactive", None, None, None)
  }

  function WithDefault(rows: seq<Subscription>, organization: OrgId): (rows': seq<Subscription>)
    ensures RowOf(rows', organization) == RowOf(rows, organization) < |rows'|
  {
    if RowOf(rows, organization) < |rows| then rows
    else
      var rows' := rows + [Default(organization)];
      assert rows'[|rows|] == Default(organization);
      assert forall j :: 0 <= j < |rows| ==> rows'[j] == rows[j];
      rows'
  }

  /** What an event does to its organization's subscription. */
  function Updated(s: Subscription, e: Event, prices: Prices): Subscription {
    if e.kind == "checkout.session.completed" then
      s.(customer := e.payload.customer, status := "active")
    else if "customer.subscription." <= e.kind then
      s.(subscriptionId := e.payload.id,
         customer := e.payload.customer,
         status := if e.kind == "customer.subscription.deleted" then "cancelled"
                   else if e.payload.status.None? then "inactive" else StatusOf(e.payload.status.value),
         plan := if e.payload.price == Some(prices.pro) then "pro"
                 else if e.payload.price == Some(prices.business) then "business" else s.plan,
         periodEnd := if e.payload.periodEnd.Some? then e.payload.periodEnd else s.periodEnd)
    else if e.kind == "invoice.payment_failed" then s.(status := "past_due")
    else s
  }

  /** The unique columns: another row with the same non-null value refuses the flush. */
  predicate CustomerClash(rows: seq<Subscription>, i: nat)
    requires i < |rows|
  {
    exists j :: 0 <= j < |rows| && j != i && rows[i].customer.Some? && rows[j].customer == rows[i].customer
  }

  predicate SubscriptionClash(rows: seq<Subscription>, i: nat)
    requires i < |rows|
  {
    exists j :: && 0 <= j < |rows| && j != i
                && rows[i].subscriptionId.Some? && rows[j].subscriptionId == rows[i].subscriptionId
  }

  /** Mark the event and apply it to the organization it concerns, if any. */
  function ApplyTo(db: Database, e: Event, concerned: Option<OrgId>, prices: Prices): Result<Database, Error> {
    match concerned
    case None => Success(db.(markers := db.markers + {e.id}))
    case Some(organization) =>
      if organization !in db.organizations then Failure(UnknownOrganization)
      else
        var rows := WithDefault(db.subscriptions, organization);
        var i := RowOf(rows, organization);
        var rows' := rows[i := Updated(rows[i], e, prices)];
        if CustomerClash(rows', i) then Failure(CustomerTaken)
        else if SubscriptionClash(rows', i) then Failure(SubscriptionTaken)
        else Success(db.(markers := db.markers + {e.id}, subscriptions := rows',
                         audits := db.audits + [Audit(organization, e.id, e.kind)]))
  }

  /** The whole step; the caller has made sure that the event is not marked. */
  function Apply(db: Database, e: Event, prices: Prices): Result<Database, Error> {
    match Resolve(db, e.payload)
    case Failure(error) => Failure(error)
    case Success(concerned) => ApplyTo(db, e, concerned, prices)
  }

  // ------------------------------------------------- the code

  class Store {
    var db: Database

    constructor (organizations: set<OrgId>)
      ensures db == Database(organizations, {}, [], [])
    {
      db := Database(organizations, {}, [], []);
    }

    method GetOrCreateSubscription(organization: OrgId) returns (r: Result<nat, Error>)
      modifies this
      ensures (exists j :: 0 <= j < |old(db).subscriptions| && old(db).subscriptions[j].organization == organization)
              ==> r.Success? && db == old(db)
      ensures (forall j :: 0 <= j < |old(db).subscriptions| ==> old(db).subscriptions[j].organization != organization)
              && r.Success? ==>
                && db.subscriptions ==
                   old(db).subscriptions + [Subscription(organization, "free", "inactive", None, None, None)]
                && r.value == |old(db).subscriptions|
      ensures r.Success? ==> r.value < |db.subscriptions| && db.subscriptions[r.value].organization == organization
      ensures r.Failure? ==>
                && r.error == UnknownOrganization && organization !in db.organizations && db == old(db)
                && RowOf(db.subscriptions, organization) == |db.subscriptions|
      ensures r.Success? ==>
                && db == old(db).(subscriptions := WithDefault(old(db).subscriptions, organization))
                && r.value == RowOf(db.subscriptions, organization) < |db.subscriptions|
                && (RowOf(old(db).subscriptions, organization) == |old(db).subscriptions| ==>
                      organization in db.organizations)
    {
      var i := RowOf(db.subscriptions, organization);
      if i == |db.subscriptions| {
        if organization !in db.organizations {
          return Failure(UnknownOrganization);
        }
        db := db.(subscriptions := db.subscriptions + [Default(organization)]);
        assert db.subscriptions[i] == Default(organization);
        assert forall j :: 0 <= j < i ==> db.subscriptions[j] == old(db).subscriptions[j];
      }
      return Success(i);
    }

    /** One webhook request: True when the event was processed, False when it is a repeat; an error
        rolls the whole request back, the marker included. */
    method ProcessStripeEvent(e: Event, prices: Prices) returns (r: Result<bool, Error>)
      requires forall s :: s in db.subscriptions ==> s.organization in db.organizations
      modifies this
      ensures e.id in old(db).markers ==> r == Success(false) && db == old(db)
      ensures e.id !in old(db).markers ==>
                match Apply(old(db), e, prices)
                case Success(db') => r == Success(true) && db == db'
                case Failure(error) => r == Failure(error) && db == old(db)
    {
      hide Updated, Resolve, RowOf, CustomerClash, SubscriptionClash;
      if e.id in db.markers {
        return Success(false);
      }
      var saved := db;
      db := db.(markers := db.markers + {e.id});
      var resolved := Resolve(db, e.payload);
      ResolveIgnoresMarkers(saved, db.markers, e.payload);
      if resolved.Failure? {
        db := saved;
        return Failure(resolved.error);
      }
      if resolved.value.None? {
        return Success(true);
      }
      var organization := resolved.value.value;
      var row := GetOrCreateSubscription(organization);
      if row.Failure? {
        db := saved;
        return Failure(row.error);
      }
      var i := row.value;
      var subscription := db.subscriptions[i];
      KnownOrganization(saved, organization);
      assert organization in db.organizations;
      subscription := Synchronise(subscription, e, prices);
      db := db.(subscriptions := db.subscriptions[i := subscription]);
      if CustomerClash(db.subscriptions, i) {
        db := saved;
        return Failure(CustomerTaken);
      }
      if SubscriptionClash(db.subscriptions, i) {
        db := saved;
        return Failure(SubscriptionTaken);
      }
      db := db.(audits := db.audits + [Audit(organization, e.id, e.kind)]);
      return Success(true);
    }
  }

  /** The field updates of one event, by its kind. */
  method Synchronise(s: Subscription, e: Event, prices: Prices) returns (subscription: Subscription)
    ensures subscription == Updated(s, e, prices)
  {
    subscription := s;
    if e.kind == "checkout.session.completed" {
      subscription := subscription.(customer := e.payload.customer);
      subscription := subscription.(status := "active");
    } else if "customer.subscription." <= e.kind {
      subscription := subscription.(subscriptionId := e.payload.id);
      subscription := subscription.(customer := e.payload.customer);
      if e.kind == "customer.subscription.deleted" {
        subscription := subscription.(status := "cancelled");
      } else {
        var rawStatus := if e.payload.status.Some? then e.payload.status.value else "inactive";
        subscription := subscription.(status := StatusOf(rawStatus));
      }
      if e.payload.price == Some(prices.pro) {
        subscription := subscription.(plan := "pro");
      } else if e.payload.price == Some(prices.business) {
        subscription := subscription.(plan := "business");
      }
      if e.payload.periodEnd.Some? {
        subscription := subscription.(periodEnd := e.payload.periodEnd);
      }
    } else if e.kind == "invoice.payment_failed" {
      subscription := subscription.(status := "past_due");
    }
  }

  // ------------------------------------------------- what an event means for a subscription

  /** The status that an event of this kind sets, whatever the row was. */
  function StatusSetBy(e: Event): Option<string> {
    if e.kind == "checkout.session.completed" then Some("active")
    else if e.kind == "customer.subscription.deleted" then Some("cancelled")
    else if "customer.subscription." <= e.kind then
      Some(if e.payload.status.Some? then StatusOf(e.payload.status.value) else "inactive")
    else if e.kind == "invoice.payment_failed" then Some("past_due")
    else None
  }

  /** Column by column: the status is the event's alone; the plan changes only to that of a configured
      price, and a period end is never lost; only checkout and subscription events touch the Stripe ids;
      other kinds leave the row alone.  Applying an event twice is applying it once. */
  lemma UpdateMeaning(s: Subscription, e: Event, prices: Prices)
    ensures var u := Updated(s, e, prices);
            && u.organization == s.organization
            && u.status == (if StatusSetBy(e).Some? then StatusSetBy(e).value else s.status)
            && (u.plan != s.plan ==>
                  && "customer.subscription." <= e.kind && e.payload.price.Some?
                  && (u.plan == "pro" ==> e.payload.price == Some(prices.pro))
                  && (u.plan != "pro" ==> u.plan == "business" && e.payload.price == Some(prices.business)))
            && ("customer.subscription." <= e.kind ==>
                  && u.subscriptionId == e.payload.id && u.customer == e.payload.customer
                  && (e.payload.price == Some(prices.pro) ==> u.plan == "pro")
                  && (e.payload.price == Some(prices.business) && prices.business != prices.pro ==>
                        u.plan == "business")
                  && (e.payload.periodEnd.Some? ==> u.periodEnd == e.payload.periodEnd)
                  && (e.payload.periodEnd.None? ==> u.periodEnd == s.periodEnd))
            && (e.kind == "checkout.session.completed" ==> u.customer == e.payload.customer)
            && (!("customer.subscription." <= e.kind) ==>
                  u.subscriptionId == s.subscriptionId && u.periodEnd == s.periodEnd)
            && (e.kind != "checkout.session.completed" && !("customer.subscription." <= e.kind) ==>
                  u.customer == s.customer)
            && (StatusSetBy(e).None? ==> u == s)
            && Updated(u, e, prices) == u
  {
    KindsApart(e.kind);
  }

  lemma KindsApart(kind: string)
    ensures kind == "checkout.session.completed" || kind == "invoice.payment_failed" ==>
              !("customer.subscription." <= kind)
    ensures kind == "customer.subscription.deleted" ==> "customer.subscription." <= kind
    ensures "checkout.session.completed" != "invoice.payment_failed"
  {
    assert "customer.subscription."[1] == 'u';
    assert "checkout.session.completed"[1] == 'h' && "invoice.payment_failed"[1] == 'n';
  }

  lemma StatusWords(raw: string)
    ensures raw == "trialing" || raw == "active" || raw == "past_due" ==> StatusOf(raw) == raw
    ensures raw == "unpaid" ==> StatusOf(raw) == "past_due"
    ensures raw == "canceled" ==> StatusOf(raw) == "cancelled"
    ensures raw !in {"trialing", "active", "past_due", "unpaid", "canceled"} ==> StatusOf(raw) == "inactive"
  {
    assert |"unpaid"| == 6 == |"active"| && "unpaid"[0] == 'u' && "active"[0] == 'a';
    assert |"trialing"| == 8 == |"past_due"| == |"canceled"|;
    assert "trialing"[0] == 't' && "past_due"[0] == 'p' && "canceled"[0] == 'c';
  }

  /** The status an event sets, spelled out: the table of Stripe's states, with everything not in it inactive. */
  lemma StatusTable(e: Event)
    ensures e.kind == "checkout.session.completed" ==> StatusSetBy(e) == Some("active")
    ensures e.kind == "customer.subscription.deleted" ==> StatusSetBy(e) == Some("cancelled")
    ensures e.kind == "invoice.payment_failed" ==> StatusSetBy(e) == Some("past_due")
    ensures "customer.subscription." <= e.kind && e.kind != "customer.subscription.deleted" ==>
              StatusSetBy(e) == Some(
                if e.payload.status in {Some("trialing"), Some("active"), Some("past_due")} then e.payload.status.value
                else if e.payload.status == Some("unpaid") then "past_due"
                else if e.payload.status == Some("canceled") then "cancelled"
                else "inactive")
    ensures !("customer.subscription." <= e.kind) && e.kind !in {"checkout.session.completed", "invoice.payment_failed"}
            ==> StatusSetBy(e) == None
  {
    hide StatusOf;
    KindsApart(e.kind);
    if e.payload.status.Some? {
      StatusWords(e.payload.status.value);
    }
  }

  lemma ResolveIgnoresMarkers(db: Database, markers: set<string>, payload: Object)
    ensures Resolve(db.(markers := markers), payload) == Resolve(db, payload)
  {
  }

  /** The organization an event concerns: the one its metadata names, else the client reference, else
      the one whose row has its customer; a name that is no UUID is refused. */
  lemma ResolveMeaning(db: Database, payload: Object, id: OrgId)
    ensures var raw := if payload.metadataOrganization.Some? then payload.metadataOrganization
                       else payload.clientReference;
            var r := Resolve(db, payload);
            && (raw == Some(Cursor.PrintUuid(id, "")) ==> r == Success(Some(id)))
            && (r.Failure? ==> raw.Some? && r.error == MalformedOrganization)
            && (raw.None? ==>
                  && r.Success?
                  && (payload.customer.None? ==> r.value.None?)
                  && (payload.customer.Some? && r.value.None? ==>
                        forall i :: 0 <= i < |db.subscriptions| ==> db.subscriptions[i].customer != payload.customer)
                  && (r.value.Some? ==>
                        exists i :: && 0 <= i < |db.subscriptions| && db.subscriptions[i].customer == payload.customer
                                    && db.subscriptions[i].organization == r.value.value))
  {
    hide Cursor.PrintUuid, Cursor.ParseUuid;
    Cursor.UuidRoundTrip(id, "");
  }

  /** What the transaction of an event commits besides the row: its marker, and an audit entry if it
      concerns an organization. */
  lemma ApplyRecords(db: Database, e: Event, prices: Prices)
    requires Apply(db, e, prices).Success?
    ensures var end, concerned := Apply(db, e, prices).value, Resolve(db, e.payload).value;
            && end.markers == db.markers + {e.id} && end.organizations == db.organizations
            && (concerned.None? ==> end.audits == db.audits && end.subscriptions == db.subscriptions)
            && (concerned.Some? ==>
                  && concerned.value in db.organizations
                  && end.audits == db.audits + [Audit(concerned.value, e.id, e.kind)])
  {
    hide Updated, Resolve, WithDefault, CustomerClash, SubscriptionClash;
  }

  /** When an event that concerns a known organization is refused: its new customer, or else its new
      subscription id, belongs to the row of another one. */
  lemma ApplyRefused(db: Database, e: Event, prices: Prices, organization: OrgId)
    requires Consistent(db) && organization in db.organizations && Resolve(db, e.payload) == Success(Some(organization))
    ensures var u := Updated(SubscriptionOf(db.subscriptions, organization), e, prices);
            var sameCustomer := u.customer.Some? &&
              exists j :: && 0 <= j < |db.subscriptions| && db.subscriptions[j].organization != organization
                          && db.subscriptions[j].customer == u.customer;
            var sameId := u.subscriptionId.Some? &&
              exists j :: && 0 <= j < |db.subscriptions| && db.subscriptions[j].organization != organization
                          && db.subscriptions[j].subscriptionId == u.subscriptionId;
            var r := Apply(db, e, prices);
            && (r.Failure? <==> sameCustomer || sameId)
            && (r.Failure? ==> r.error == if sameCustomer then CustomerTaken else SubscriptionTaken)
  {
    hide Updated, RowOf, Resolve;
    var rows := WithDefault(db.subscriptions, organization);
    var i := RowOf(rows, organization);
    var u := Updated(rows[i], e, prices);
    DefaultAgrees(db.subscriptions, organization, organization);
    UpdateMeaning(rows[i], e, prices);
    DefaultKeepsConsistent(db, organization);
    var rows' := rows[i := u];
    assert forall j :: 0 <= j < |rows| && j != i ==> j < |db.subscriptions| && rows'[j] == db.subscriptions[j];
    assert forall j :: 0 <= j < |db.subscriptions| && j != i ==> db.subscriptions[j].organization != organization;
  }

  lemma KnownOrganization(db: Database, organization: OrgId)
    requires forall s :: s in db.subscriptions ==> s.organization in db.organizations
    ensures RowOf(db.subscriptions, organization) < |db.subscriptions| ==> organization in db.organizations
  {
  }

  // ------------------------------------------------- sequences of deliveries

  /** One delivery by Stripe; `crashes` when the request fails for a reason of its own. */
  datatype Delivery = Delivery(event: Event, crashes: bool)

  function Deliver(db: Database, d: Delivery, prices: Prices): Database {
    if d.crashes || d.event.id in db.markers then db
    else match Apply(db, d.event, prices)
      case Success(db') => db'
      case Failure(_) => db
  }

  function DeliverAll(db: Database, ds: seq<Delivery>, prices: Prices): Database {
    if ds == [] then db
    else Deliver(DeliverAll(db, ds[..|ds| - 1], prices), ds[|ds| - 1], prices)
  }

  /** The events that took effect, in the order of their first commit. */
  function Committed(db: Database, ds: seq<Delivery>, prices: Prices): seq<Event> {
    if ds == [] then []
    else
      var init, d := ds[..|ds| - 1], ds[|ds| - 1];
      var before := DeliverAll(db, init, prices);
      Committed(db, init, prices) +
      if !d.crashes && d.event.id !in before.markers && Apply(before, d.event, prices).Success? then [d.event] else []
  }

  /** Applying each event once, without looking at markers. */
  function Fold(db: Database, es: seq<Event>, prices: Prices): Option<Database> {
    if es == [] then Some(db)
    else
      var before :- Fold(db, es[..|es| - 1], prices);
      match Apply(before, es[|es| - 1], prices)
      case Success(db') => Some(db')
      case Failure(_) => None
  }

  /** The subscription that `get_or_create_subscription` yields for an organization. */
  function SubscriptionOf(rows: seq<Subscription>, organization: OrgId): Subscription {
    var i := RowOf(rows, organization);
    if i < |rows| then rows[i] else Default(organization)
  }

  lemma DefaultAgrees(rows: seq<Subscription>, organization: OrgId, other: OrgId)
    ensures SubscriptionOf(WithDefault(rows, organization), other) == SubscriptionOf(rows, other)
  {
    hide FirstRow;
    var rows' := WithDefault(rows, organization);
    assert forall j :: 0 <= j < |rows| ==> rows'[j] == rows[j];
  }

  /** An event updates the subscription of the organization it resolves to, and no other. */
  lemma ApplyFrame(db: Database, e: Event, prices: Prices, organization: OrgId)
    requires Apply(db, e, prices).Success?
    ensures var before := SubscriptionOf(db.subscriptions, organization);
            SubscriptionOf(Apply(db, e, prices).value.subscriptions, organization) ==
            if Resolve(db, e.payload) == Success(Some(organization)) then Updated(before, e, prices) else before
  {
    hide Updated, RowOf, Resolve, WithDefault, CustomerClash, SubscriptionClash;
    var resolved := Resolve(db, e.payload).value;
    if resolved.Some? {
      var rows := WithDefault(db.subscriptions, resolved.value);
      var i := RowOf(rows, resolved.value);
      DefaultAgrees(db.subscriptions, resolved.value, organization);
      UpdateMeaning(rows[i], e, prices);
      RowsAgree(rows, i, Updated(rows[i], e, prices), organization);
    }
  }

  lemma RowsAgree(rows: seq<Subscription>, i: nat, s: Subscription, organization: OrgId)
    requires i < |rows| && RowOf(rows, rows[i].organization) == i && s.organization == rows[i].organization
    ensures SubscriptionOf(rows[i := s], organization) ==
            if organization == s.organization then s else SubscriptionOf(rows, organization)
  {
    hide FirstRow;
    assert forall j :: 0 <= j < |rows| ==> rows[i := s][j].organization == rows[j].organization;
  }

  /** The status set by the last committed event of the organization that sets one. */
  function LastStatus(db: Database, ds: seq<Delivery>, prices: Prices, organization: OrgId): Option<string> {
    if ds == [] then None
    else
      var init, d := ds[..|ds| - 1], ds[|ds| - 1];
      var before := DeliverAll(db, init, prices);
      if && !d.crashes && d.event.id !in before.markers && Apply(before, d.event, prices).Success?
         && Resolve(before, d.event.payload) == Success(Some(organization)) && StatusSetBy(d.event).Some?
      then StatusSetBy(d.event)
      else LastStatus(db, init, prices, organization)
  }

  /** After any deliveries an organization's status is that of its last committed event that sets one. */
  lemma {:induction false} LastEventDecides(db: Database, ds: seq<Delivery>, prices: Prices, organization: OrgId)
    ensures var last := LastStatus(db, ds, prices, organization);
            SubscriptionOf(DeliverAll(db, ds, prices).subscriptions, organization).status ==
            if last.Some? then last.value else SubscriptionOf(db.subscriptions, organization).status
  {
    hide Apply, Resolve, SubscriptionOf, Updated, StatusSetBy;
    if ds != [] {
      var init, d := ds[..|ds| - 1], ds[|ds| - 1];
      LastEventDecides(db, init, prices, organization);
      var before := DeliverAll(db, init, prices);
      if Apply(before, d.event, prices).Success? {
        ApplyFrame(before, d.event, prices, organization);
        UpdateMeaning(SubscriptionOf(before.subscriptions, organization), d.event, prices);
      }
    }
  }

  function Ids(es: seq<Event>): set<string> {
    if es == [] then {} else Ids(es[..|es| - 1]) + {es[|es| - 1].id}
  }

  lemma {:induction false} IdsHold(es: seq<Event>, i: nat)
    requires i < |es|
    ensures es[i].id in Ids(es)
    decreases |es|
  {
    if i < |es| - 1 {
      IdsHold(es[..|es| - 1], i);
    }
  }

  ghost predicate DistinctIds(es: seq<Event>) {
    forall i, j :: 0 <= i < j < |es| ==> es[i].id != es[j].id
  }

  lemma ApplyMarks(db: Database, e: Event, prices: Prices)
    requires Apply(db, e, prices).Success?
    ensures Apply(db, e, prices).value.markers == db.markers + {e.id}
    ensures Apply(db, e, prices).value.organizations == db.organizations
  {
  }

  /** After any deliveries, with repeats and with failures rolled back, the database is the fold of
      the apply step over the committed events, whose ids are distinct and exactly the new markers. */
  lemma {:induction false} DuplicateFreeFold(db: Database, ds: seq<Delivery>, prices: Prices)
    ensures var es := Committed(db, ds, prices);
            var end := DeliverAll(db, ds, prices);
            && Fold(db, es, prices) == Some(end)
            && DistinctIds(es)
            && Ids(es) !! db.markers
            && end.markers == db.markers + Ids(es)
  {
    hide Apply;
    if ds != [] {
      var init, d := ds[..|ds| - 1], ds[|ds| - 1];
      DuplicateFreeFold(db, init, prices);
      var before := DeliverAll(db, init, prices);
      var es := Committed(db, init, prices);
      if !d.crashes && d.event.id !in before.markers && Apply(before, d.event, prices).Success? {
        ApplyMarks(before, d.event, prices);
        FoldAppend(db, es, d.event, prices);
        DistinctAppend(es, d.event);
      } else {
        assert es + [] == es;
      }
    }
  }

  lemma FoldAppend(db: Database, es: seq<Event>, e: Event, prices: Prices)
    ensures Ids(es + [e]) == Ids(es) + {e.id}
    ensures Fold(db, es + [e], prices) ==
            match Fold(db, es, prices)
            case None => None
            case Some(before) =>
              match Apply(before, e, prices)
              case Success(db') => Some(db')
              case Failure(_) => None
  {
  }

  lemma DistinctAppend(es: seq<Event>, e: Event)
    requires DistinctIds(es) && e.id !in Ids(es)
    ensures DistinctIds(es + [e])
  {
    forall i | 0 <= i < |es|
      ensures es[i].id != e.id
    {
      IdsHold(es, i);
    }
  }

  /** Each event id takes effect at most once, and once it has, delivering it again changes nothing. */
  lemma RepeatIgnored(db: Database, ds: seq<Delivery>, e: Event, again: Delivery, prices: Prices)
    requires e in Committed(db, ds, prices) && again.event.id == e.id
    ensures DeliverAll(db, ds + [again], prices) == DeliverAll(db, ds, prices)
  {
    hide Apply;
    DuplicateFreeFold(db, ds, prices);
    assert (ds + [again])[..|ds|] == ds;
    var es := Committed(db, ds, prices);
    var i :| 0 <= i < |es| && es[i] == e;
    IdsHold(es, i);
  }

  // ------------------------------------------------- what every state keeps

  const STATUSES := {"inactive", "trialing", "active", "past_due", "cancelled"}

  const PLANS := {"free", "pro", "business"}

  /** One subscription per organization, allowed plans and statuses, unique Stripe ids, no dangling owner. */
  ghost predicate Consistent(db: Database) {
    && (forall i, j :: 0 <= i < j < |db.subscriptions| ==>
          && db.subscriptions[i].organization != db.subscriptions[j].organization
          && (db.subscriptions[i].customer.Some? ==> db.subscriptions[i].customer != db.subscriptions[j].customer)
          && (db.subscriptions[i].subscriptionId.Some? ==>
                db.subscriptions[i].subscriptionId != db.subscriptions[j].subscriptionId))
    && (forall i :: 0 <= i < |db.subscriptions| ==>
          && db.subscriptions[i].status in STATUSES && db.subscriptions[i].plan in PLANS
          && db.subscriptions[i].organization in db.organizations)
  }

  lemma ApplyKeepsConsistent(db: Database, e: Event, prices: Prices)
    requires Consistent(db) && Apply(db, e, prices).Success?
    ensures Consistent(Apply(db, e, prices).value)
  {
    hide Updated, RowOf, Resolve, WithDefault, Consistent, CustomerClash, SubscriptionClash;
    var resolved := Resolve(db, e.payload).value;
    if resolved.None? {
      MarkersKeepConsistent(db, db.markers + {e.id}, db.audits);
    } else {
      var organization := resolved.value;
      var rows := WithDefault(db.subscriptions, organization);
      DefaultKeepsConsistent(db, organization);
      var i := RowOf(rows, organization);
      UpdatedAllowed(db.(subscriptions := rows), i, e, prices);
      UpdateKeepsConsistent(db.(subscriptions := rows), i, Updated(rows[i], e, prices));
      MarkersKeepConsistent(db.(subscriptions := rows[i := Updated(rows[i], e, prices)]), db.markers + {e.id},
                            db.audits + [Audit(organization, e.id, e.kind)]);
    }
  }

  lemma MarkersKeepConsistent(db: Database, markers: set<string>, audits: seq<Audit>)
    requires Consistent(db)
    ensures Consistent(db.(markers := markers, audits := audits))
  {
  }

  lemma UpdatedAllowed(db: Database, i: nat, e: Event, prices: Prices)
    requires Consistent(db) && i < |db.subscriptions|
    ensures var s := Updated(db.subscriptions[i], e, prices);
            s.organization == db.subscriptions[i].organization && s.status in STATUSES && s.plan in PLANS
  {
  }

  lemma DefaultKeepsConsistent(db: Database, organization: OrgId)
    requires Consistent(db) && organization in db.organizations
    ensures Consistent(db.(subscriptions := WithDefault(db.subscriptions, organization)))
    ensures var rows := WithDefault(db.subscriptions, organization); RowOf(rows, organization) < |rows|
  {
    var rows := WithDefault(db.subscriptions, organization);
    assert rows != db.subscriptions ==> rows[|rows| - 1] == Default(organization);
  }

  lemma UpdateKeepsConsistent(db: Database, i: nat, s: Subscription)
    requires Consistent(db) && i < |db.subscriptions|
    requires s.organization == db.subscriptions[i].organization && s.status in STATUSES && s.plan in PLANS
    requires !CustomerClash(db.subscriptions[i := s], i) && !SubscriptionClash(db.subscriptions[i := s], i)
    ensures Consistent(db.(subscriptions := db.subscriptions[i := s]))
  {
  }

  /** Consistency holds after any sequence of deliveries. */
  lemma {:induction false} AlwaysConsistent(db: Database, ds: seq<Delivery>, prices: Prices)
    requires Consistent(db)
    ensures Consistent(DeliverAll(db, ds, prices))
  {
    hide Apply, Consistent;
    if ds != [] {
      var before := DeliverAll(db, ds[..|ds| - 1], prices);
      var e := ds[|ds| - 1].event;
      AlwaysConsistent(db, ds[..|ds| - 1], prices);
      if Apply(before, e, prices).Success? {
        ApplyKeepsConsistent(before, e, prices);
      }
    }
  }
}
