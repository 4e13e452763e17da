/** Stripe events whose requests overlap: the marker's unique key serialises deliveries of one event,
    but two events of one organization both read its subscription without a lock, and each writes only
    the columns that it changed from what it read. */
module BillingOverlap {
  import opened Wrappers
  import opened Billing

  // ------------------------------------------------- columns

  datatype Column = Plan | Status | Customer | SubscriptionId | PeriodEnd

  datatype Value = Text(text: string) | Id(id: Option<string>) | Time(time: Option<int>)

  function Get(s: Subscription, c: Column): Value {
    match c
    case Plan => Text(s.plan)
    case Status => Text(s.status)
    case Customer => Id(s.customer)
    case SubscriptionId => Id(s.subscriptionId)
    case PeriodEnd => Time(s.periodEnd)
  }

  /** The value that an event assigns to a column, whatever the row says; None when it leaves it alone. */
  function Wanted(e: Event, c: Column, prices: Prices): Option<Value> {
    var subscription := "customer.subscription." <= e.kind;
    match c
    case Status => if StatusSetBy(e).None? then None else Some(Text(StatusSetBy(e).value))
    case Plan =>
      if !subscription || e.kind == "checkout.session.completed" then None
      else if e.payload.price == Some(prices.pro) then Some(Text("pro"))
      else if e.payload.price == Some(prices.business) then Some(Text("business"))
      else None
    case Customer =>
      if subscription || e.kind == "checkout.session.completed" then Some(Id(e.payload.customer)) else None
    case SubscriptionId =>
      if subscription && e.kind != "checkout.session.completed" then Some(Id(e.payload.id)) else None
    case PeriodEnd =>
      if subscription && e.kind != "checkout.session.completed" && e.payload.periodEnd.Some? then
        Some(Time(e.payload.periodEnd))
      else None
  }

  lemma UpdatedColumn(s: Subscription, e: Event, prices: Prices, c: Column)
    ensures Get(Updated(s, e, prices), c) ==
            if Wanted(e, c, prices).Some? then Wanted(e, c, prices).value else Get(s, c)
    ensures Updated(s, e, prices).organization == s.organization
  {
  }

  function Written<T(==)>(stored: T, loaded: T, wanted: T): T {
    if wanted == loaded then stored else wanted
  }

  /** The UPDATE of a flush, over the row as it is stored by then. */
  function Flushed(stored: Subscription, loaded: Subscription, wanted: Subscription): Subscription {
    Subscription(
      stored.organization,
      Written(stored.plan, loaded.plan, wanted.plan),
      Written(stored.status, loaded.status, wanted.status),
      Written(stored.customer, loaded.customer, wanted.customer),
      Written(stored.subscriptionId, loaded.subscriptionId, wanted.subscriptionId),
      Written(stored.periodEnd, loaded.periodEnd, wanted.periodEnd))
  }

  lemma FlushedColumn(stored: Subscription, loaded: Subscription, wanted: Subscription, c: Column)
    ensures Get(Flushed(stored, loaded, wanted), c) ==
            if Get(wanted, c) == Get(loaded, c) then Get(stored, c) else Get(wanted, c)
  {
  }

  lemma SameColumns(a: Subscription, b: Subscription)
    ensures a == b <==> a.organization == b.organization && forall c :: Get(a, c) == Get(b, c)
  {
    if forall c :: Get(a, c) == Get(b, c) {
      assert Get(a, Plan) == Get(b, Plan) && Get(a, Status) == Get(b, Status);
      assert Get(a, Customer) == Get(b, Customer) && Get(a, SubscriptionId) == Get(b, SubscriptionId);
      assert Get(a, PeriodEnd) == Get(b, PeriodEnd);
    }
  }

  /** What an event did to a subscription: the row it loaded, and the row that was stored when it
      committed; `alone` if no other event of the organization committed in between. */
  datatype Touch = Touch(organization: OrgId, loaded: Subscription, stored: Subscription, alone: bool) {
    function Row(e: Event, prices: Prices): Subscription { Flushed(stored, loaded, Updated(loaded, e, prices)) }
  }

  /** The event leaves the column alone, changes it from what it loaded, or finds its value stored already. */
  predicate Agrees(e: Event, touch: Touch, c: Column, prices: Prices) {
    var wanted := Wanted(e, c, prices);
    wanted.None? || wanted.value != Get(touch.loaded, c) || wanted.value == Get(touch.stored, c)
  }

  /** A committing event leaves a column as applying it to the stored row would, if and only if it agrees. */
  lemma ColumnIff(e: Event, touch: Touch, c: Column, prices: Prices)
    ensures Get(touch.Row(e, prices), c) == Get(Updated(touch.stored, e, prices), c) <==> Agrees(e, touch, c, prices)
  {
    hide Updated, Flushed, Wanted, Get;
    UpdatedColumn(touch.loaded, e, prices, c);
    UpdatedColumn(touch.stored, e, prices, c);
    FlushedColumn(touch.stored, touch.loaded, Updated(touch.loaded, e, prices), c);
  }

  ghost predicate AgreesInAll(e: Event, touch: Touch, prices: Prices) {
    forall c :: Agrees(e, touch, c, prices)
  }

  lemma RowIff(e: Event, touch: Touch, prices: Prices)
    ensures touch.Row(e, prices) == Updated(touch.stored, e, prices) <==> AgreesInAll(e, touch, prices)
  {
    hide Updated, Agrees, Get;
    UpdatedColumn(touch.stored, e, prices, Plan);
    SameColumns(touch.Row(e, prices), Updated(touch.stored, e, prices));
    forall c
      ensures Get(touch.Row(e, prices), c) == Get(Updated(touch.stored, e, prices), c) <==> Agrees(e, touch, c, prices)
    {
      ColumnIff(e, touch, c, prices);
    }
  }

  // ------------------------------------------------- overlapping requests

  type TxId = nat

  /** Where an open request stands after its marker was inserted. */
  datatype Stage =
    | Marked
    | Resolved(concerned: Option<OrgId>)
    | Loaded(organization: OrgId, row: Option<Subscription>, at: nat)

  datatype Tx = Tx(event: Event, stage: Stage)

  /** A committed event, what it touched, and the database after it. */
  datatype Commit = Commit(event: Event, touch: Option<Touch>, after: Database)

  datatype System = System(db: Database, open: map<TxId, Tx>, history: seq<Commit>)

  datatype Step =
    | Mark(tx: TxId, event: Event)
    | Resolving(tx: TxId)
    | Load(tx: TxId)
    | Committing(tx: TxId)
    | Abort(tx: TxId)

  predicate Blocked(s: System, id: string) {
    exists t :: t in s.open && s.open[t].event.id == id
  }

  function To(s: System, t: TxId, stage: Stage): System
    requires t in s.open
  {
    s.(open := s.open[t := s.open[t].(stage := stage)])
  }

  function Close(s: System, t: TxId): System {
    s.(open := s.open - {t})
  }

  predicate Touches(c: Commit, organization: OrgId) {
    c.touch.Some? && c.touch.value.organization == organization
  }

  /** What the commit leaves in the tables. */
  function After(db: Database, e: Event, touch: Option<Touch>, prices: Prices): Database {
    match touch
    case None => db.(markers := db.markers + {e.id})
    case Some(touch) =>
      var rows := WithDefault(db.subscriptions, touch.organization);
      var i := RowOf(rows, touch.organization);
      db.(markers := db.markers + {e.id}, subscriptions := rows[i := touch.Row(e, prices)],
          audits := db.audits + [Audit(touch.organization, e.id, e.kind)])
  }

  predicate Clashes(db: Database, organization: OrgId) {
    var i := RowOf(db.subscriptions, organization);
    i < |db.subscriptions| && (CustomerClash(db.subscriptions, i) || SubscriptionClash(db.subscriptions, i))
  }

  function TouchOf(s: System, organization: OrgId, row: Option<Subscription>, at: nat): Touch {
    Touch(organization, if row.Some? then row.value else Default(organization),
          SubscriptionOf(s.db.subscriptions, organization),
          forall i :: 0 <= i < |s.history| && at <= i ==> !Touches(s.history[i], organization))
  }

  function Committed(s: System, t: TxId, touch: Option<Touch>, prices: Prices): System
    requires t in s.open
  {
    var after := After(s.db, s.open[t].event, touch, prices);
    System(after, s.open - {t}, s.history + [Commit(s.open[t].event, touch, after)])
  }

  /** The system after a step; None when the step is impossible, has to wait, or can only end in an abort. */
  function Next(s: System, step: Step, prices: Prices): Option<System> {
    match step
    case Mark(t, e) =>
      if t in s.open || Blocked(s, e.id) || e.id in s.db.markers then None
      else Some(s.(open := s.open[t := Tx(e, Marked)]))
    case Resolving(t) =>
      if t !in s.open || !s.open[t].stage.Marked? then None
      else (match Resolve(s.db, s.open[t].event.payload)
            case Failure(_) => Some(Close(s, t))
            case Success(concerned) => Some(To(s, t, Resolved(concerned))))
    case Load(t) =>
      if t !in s.open || !s.open[t].stage.Resolved? || s.open[t].stage.concerned.None? then None
      else
        var organization := s.open[t].stage.concerned.value;
        var i := RowOf(s.db.subscriptions, organization);
        if i < |s.db.subscriptions| then Some(To(s, t, Loaded(organization, Some(s.db.subscriptions[i]), |s.history|)))
        else if organization !in s.db.organizations then Some(Close(s, t))
        else Some(To(s, t, Loaded(organization, None, |s.history|)))
    case Committing(t) =>
      if t !in s.open then None
      else (match s.open[t].stage
            case Resolved(None) => Some(Committed(s, t, None, prices))
            case Loaded(organization, row, at) =>
              var present := RowOf(s.db.subscriptions, organization) < |s.db.subscriptions|;
              var u := Committed(s, t, Some(TouchOf(s, organization, row, at)), prices);
              if row.Some? != present || Clashes(u.db, organization) then None else Some(u)
            case _ => None)
    case Abort(t) =>
      if t in s.open then Some(Close(s, t)) else None
  }

  ghost predicate Reaches(s: System, steps: seq<Step>, t: System, prices: Prices)
    decreases |steps|
  {
    if steps == [] then s == t
    else Next(s, steps[0], prices).Some? && Reaches(Next(s, steps[0], prices).value, steps[1..], t, prices)
  }

  /** A consistent database and no open request. */
  ghost predicate Initial(s: System) {
    Consistent(s.db) && s.open == map[] && s.history == []
  }

  // ------------------------------------------------- what every state keeps

  /** The database before the k-th commit. */
  function Before(db: Database, history: seq<Commit>, k: nat): Database
    requires k <= |history|
  {
    if k == 0 then db else history[k - 1].after
  }

  /** One commit after another: its event was not marked, and it wrote over the row that was stored. */
  ghost predicate CommitOk(db: Database, c: Commit, prices: Prices) {
    && Consistent(db) && c.event.id !in db.markers && c.after == After(db, c.event, c.touch, prices)
    && (c.touch.Some? ==>
          var touch := c.touch.value;
          && touch.organization in db.organizations && touch.loaded.organization == touch.organization
          && touch.stored == SubscriptionOf(db.subscriptions, touch.organization)
          && !Clashes(c.after, touch.organization)
          && (touch.alone ==> touch.loaded == touch.stored))
    && (NamesOrganization(c.event.payload) ==> Resolve(db, c.event.payload) == Success(Concerned(c)))
  }

  function Concerned(c: Commit): Option<OrgId> {
    if c.touch.Some? then Some(c.touch.value.organization) else None
  }

  /** The payload itself says which organization it concerns, or that it concerns none. */
  predicate NamesOrganization(payload: Object) {
    payload.metadataOrganization.Some? || payload.clientReference.Some? || payload.customer.None?
  }

  ghost predicate Chained(db: Database, history: seq<Commit>, prices: Prices) {
    forall k :: 0 <= k < |history| ==> CommitOk(Before(db, history, k), history[k], prices)
  }

  ghost predicate TxOk(s: System, tx: Tx) {
    && tx.event.id !in s.db.markers
    && (tx.stage.Resolved? && NamesOrganization(tx.event.payload) ==>
          Resolve(s.db, tx.event.payload) == Success(tx.stage.concerned))
    && (tx.stage.Loaded? ==>
          var organization, row := tx.stage.organization, tx.stage.row;
          && organization in s.db.organizations && tx.stage.at <= |s.history|
          && (row.Some? ==> row.value.organization == organization)
          && (NamesOrganization(tx.event.payload) ==> Resolve(s.db, tx.event.payload) == Success(Some(organization)))
          && var touch := TouchOf(s, organization, row, tx.stage.at);
             touch.alone ==> touch.loaded == touch.stored)
  }

  ghost predicate OpenOk(s: System) {
    && (forall t :: t in s.open ==> TxOk(s, s.open[t]))
    && (forall t, u :: t in s.open && u in s.open && t != u ==> s.open[t].event.id != s.open[u].event.id)
  }

  ghost predicate Inv(db: Database, s: System, prices: Prices) {
    && Consistent(s.db) && s.db == Before(db, s.history, |s.history|)
    && Chained(db, s.history, prices) && OpenOk(s)
  }

  lemma NamedResolve(a: Database, b: Database, payload: Object)
    requires NamesOrganization(payload)
    ensures Resolve(a, payload) == Resolve(b, payload)
  {
  }

  lemma StageKeeps(db: Database, s: System, t: TxId, tx: Tx, prices: Prices)
    requires Inv(db, s, prices) && TxOk(s, tx)
    requires forall u :: u in s.open && u != t ==> s.open[u].event.id != tx.event.id
    ensures Inv(db, s.(open := s.open[t := tx]), prices)
  {
    hide Consistent, Chained, Resolve;
  }

  lemma CloseKeeps(db: Database, s: System, t: TxId, prices: Prices)
    requires Inv(db, s, prices)
    ensures Inv(db, Close(s, t), prices)
  {
    hide Consistent, Chained, Resolve;
  }

  lemma LoadOk(s: System, t: TxId)
    requires t in s.open && TxOk(s, s.open[t]) && Consistent(s.db)
    requires s.open[t].stage.Resolved? && s.open[t].stage.concerned.Some?
    ensures var organization := s.open[t].stage.concerned.value;
            var i := RowOf(s.db.subscriptions, organization);
            && (i < |s.db.subscriptions| ==>
                  TxOk(s, s.open[t].(stage := Loaded(organization, Some(s.db.subscriptions[i]), |s.history|))))
            && (i == |s.db.subscriptions| && organization in s.db.organizations ==>
                  TxOk(s, s.open[t].(stage := Loaded(organization, None, |s.history|))))
  {
    hide Resolve;
  }

  /** A commit changes the subscription of the organization it touches to its row, and no other. */
  lemma AfterFrame(db: Database, e: Event, touch: Option<Touch>, prices: Prices, organization: OrgId)
    requires touch.Some? ==> touch.value.stored.organization == touch.value.organization
    ensures SubscriptionOf(After(db, e, touch, prices).subscriptions, organization) ==
            if touch.Some? && touch.value.organization == organization then touch.value.Row(e, prices)
            else SubscriptionOf(db.subscriptions, organization)
    ensures After(db, e, touch, prices).markers == db.markers + {e.id}
    ensures After(db, e, touch, prices).organizations == db.organizations
  {
    hide RowOf, WithDefault, SubscriptionOf, Updated;
    if touch.Some? {
      var org := touch.value.organization;
      var rows := WithDefault(db.subscriptions, org);
      DefaultAgrees(db.subscriptions, org, organization);
      RowsAgree(rows, RowOf(rows, org), touch.value.Row(e, prices), organization);
    }
  }

  lemma SubscriptionOrganization(rows: seq<Subscription>, organization: OrgId)
    ensures SubscriptionOf(rows, organization).organization == organization
  {
    hide FirstRow;
  }

  lemma AfterKeys(db: Database, e: Event, touch: Option<Touch>, prices: Prices)
    ensures After(db, e, touch, prices).markers == db.markers + {e.id}
    ensures After(db, e, touch, prices).organizations == db.organizations
    ensures After(db, e, touch, prices).audits ==
            db.audits + if touch.Some? then [Audit(touch.value.organization, e.id, e.kind)] else []
  {
    hide WithDefault, Updated;
  }

  /** What others loaded stays what is stored, unless the commit touches their organization. */
  lemma OthersStayOk(s: System, t: TxId, touch: Option<Touch>, prices: Prices, u: TxId)
    requires OpenOk(s) && t in s.open && u in s.open && u != t
    requires touch.Some? ==> touch.value.stored.organization == touch.value.organization
    ensures TxOk(Committed(s, t, touch, prices), s.open[u])
  {
    hide Resolve, SubscriptionOf, After;
    var s' := Committed(s, t, touch, prices);
    var tx := s.open[u];
    AfterKeys(s.db, s.open[t].event, touch, prices);
    if NamesOrganization(tx.event.payload) {
      NamedResolve(s.db, s'.db, tx.event.payload);
    }
    if tx.stage.Loaded? {
      AfterFrame(s.db, s.open[t].event, touch, prices, tx.stage.organization);
      assert s'.history[|s.history|] == Commit(s.open[t].event, touch, s'.db);
      assert forall i :: 0 <= i < |s.history| ==> s'.history[i] == s.history[i];
    }
  }

  lemma WantedAllowed(e: Event, prices: Prices)
    ensures StatusSetBy(e).Some? ==> StatusSetBy(e).value in STATUSES
    ensures var plan := Wanted(e, Plan, prices); plan.Some? ==> plan.value.Text? && plan.value.text in PLANS
  {
  }

  /** The columns that are written have allowed values, and the others had them. */
  lemma RowAllowed(e: Event, touch: Touch, prices: Prices)
    requires touch.stored.status in STATUSES && touch.stored.plan in PLANS
    ensures touch.Row(e, prices).status in STATUSES && touch.Row(e, prices).plan in PLANS
    ensures touch.Row(e, prices).organization == touch.stored.organization
  {
    hide Updated;
    WantedAllowed(e, prices);
    UpdatedColumn(touch.loaded, e, prices, Status);
    UpdatedColumn(touch.loaded, e, prices, Plan);
  }

  lemma AfterKeepsConsistent(db: Database, e: Event, touch: Option<Touch>, prices: Prices)
    requires Consistent(db)
    requires touch.Some? ==>
               && touch.value.organization in db.organizations
               && touch.value.stored == SubscriptionOf(db.subscriptions, touch.value.organization)
               && !Clashes(After(db, e, touch, prices), touch.value.organization)
    ensures Consistent(After(db, e, touch, prices))
  {
    hide Updated, WithDefault, RowOf, Consistent, CustomerClash, SubscriptionClash;
    if touch.Some? {
      var org := touch.value.organization;
      var rows := WithDefault(db.subscriptions, org);
      var row := touch.value.Row(e, prices);
      DefaultKeepsConsistent(db, org);
      var i := RowOf(rows, org);
      DefaultAgrees(db.subscriptions, org, org);
      RowIsAllowed(db.(subscriptions := rows), i);
      RowAllowed(e, touch.value, prices);
      SameRow(rows, i, row);
      UpdateKeepsConsistent(db.(subscriptions := rows), i, row);
      MarkersKeepConsistent(db.(subscriptions := rows[i := row]), db.markers + {e.id},
                            db.audits + [Audit(org, e.id, e.kind)]);
    } else {
      MarkersKeepConsistent(db, db.markers + {e.id}, db.audits);
    }
  }

  lemma RowIsAllowed(db: Database, i: nat)
    requires Consistent(db) && i < |db.subscriptions|
    ensures db.subscriptions[i].status in STATUSES && db.subscriptions[i].plan in PLANS
  {
  }

  lemma SameRow(rows: seq<Subscription>, i: nat, s: Subscription)
    requires i < |rows| && RowOf(rows, s.organization) == i
    ensures RowOf(rows[i := s], s.organization) == i
  {
    hide RowOf;
    assert forall j :: 0 <= j < |rows| ==> rows[i := s][j].organization == rows[j].organization;
    var k := RowOf(rows[i := s], s.organization);
    assert rows[i := s][i].organization == s.organization;
  }

  lemma ChainedAppend(db: Database, history: seq<Commit>, c: Commit, prices: Prices)
    requires Chained(db, history, prices) && CommitOk(Before(db, history, |history|), c, prices)
    ensures Chained(db, history + [c], prices) && Before(db, history + [c], |history| + 1) == c.after
  {
    hide CommitOk;
    var h := history + [c];
    forall k | 0 <= k < |h|
      ensures CommitOk(Before(db, h, k), h[k], prices)
    {
      assert Before(db, h, k) == Before(db, history, k);
    }
  }

  lemma CommitKeeps(db: Database, s: System, t: TxId, touch: Option<Touch>, prices: Prices)
    requires Inv(db, s, prices) && t in s.open
    requires var after := After(s.db, s.open[t].event, touch, prices);
             CommitOk(s.db, Commit(s.open[t].event, touch, after), prices)
    ensures Inv(db, Committed(s, t, touch, prices), prices)
  {
    hide Consistent, Chained, Resolve, After, TxOk, SubscriptionOf;
    var s' := Committed(s, t, touch, prices);
    if touch.Some? {
      SubscriptionOrganization(s.db.subscriptions, touch.value.organization);
    }
    AfterKeepsConsistent(s.db, s.open[t].event, touch, prices);
    ChainedAppend(db, s.history, s'.history[|s.history|], prices);
    AfterKeys(s.db, s.open[t].event, touch, prices);
    forall u | u in s'.open
      ensures TxOk(s', s'.open[u])
    {
      OthersStayOk(s, t, touch, prices, u);
    }
  }

  lemma CommittingKeeps(db: Database, s: System, t: TxId, prices: Prices)
    requires Inv(db, s, prices)
    ensures var next := Next(s, Committing(t), prices); next.Some? ==> Inv(db, next.value, prices)
  {
    hide Consistent, Chained, Resolve, After, SubscriptionOf, Clashes, RowOf;
    if Next(s, Committing(t), prices).None? {
      return;
    }
    assert TxOk(s, s.open[t]);
    var stage := s.open[t].stage;
    if stage.Resolved? {
      CommitKeeps(db, s, t, None, prices);
    } else {
      CommitKeeps(db, s, t, Some(TouchOf(s, stage.organization, stage.row, stage.at)), prices);
    }
  }

  lemma StepKeeps(db: Database, s: System, step: Step, prices: Prices)
    requires Inv(db, s, prices)
    ensures Next(s, step, prices).Some? ==> Inv(db, Next(s, step, prices).value, prices)
  {
    hide Consistent, Chained, Resolve, RowOf, Committed;
    if Next(s, step, prices).None? {
      return;
    }
    match step
    case Mark(t, e) => StageKeeps(db, s, t, Tx(e, Marked), prices);
    case Resolving(t) =>
      assert TxOk(s, s.open[t]);
      var concerned := Resolve(s.db, s.open[t].event.payload);
      if concerned.Failure? {
        CloseKeeps(db, s, t, prices);
      } else {
        StageKeeps(db, s, t, s.open[t].(stage := Resolved(concerned.value)), prices);
      }
    case Load(t) =>
      LoadOk(s, t);
      if Next(s, step, prices).value == Close(s, t) {
        CloseKeeps(db, s, t, prices);
      } else {
        StageKeeps(db, s, t, Next(s, step, prices).value.open[t], prices);
      }
    case Committing(t) => CommittingKeeps(db, s, t, prices);
    case Abort(t) => CloseKeeps(db, s, t, prices);
  }

  lemma {:induction false} InvAlways(db: Database, s: System, steps: seq<Step>, t: System, prices: Prices)
    requires Inv(db, s, prices)
    ensures Reaches(s, steps, t, prices) ==> Inv(db, t, prices)
    decreases |steps|
  {
    hide Inv, Next;
    if steps != [] && Next(s, steps[0], prices).Some? {
      StepKeeps(db, s, steps[0], prices);
      InvAlways(db, Next(s, steps[0], prices).value, steps[1..], t, prices);
    }
  }

  lemma RunKeeps(s: System, steps: seq<Step>, t: System, prices: Prices)
    requires Initial(s) && Reaches(s, steps, t, prices)
    ensures Consistent(t.db) && Chained(s.db, t.history, prices)
    ensures t.db == Before(s.db, t.history, |t.history|)
  {
    hide Consistent, Next;
    InvAlways(s.db, s, steps, t, prices);
  }

  // ------------------------------------------------- every event once

  function MarkersOf(history: seq<Commit>): set<string> {
    if history == [] then {} else MarkersOf(history[..|history| - 1]) + {history[|history| - 1].event.id}
  }

  function AuditsOf(history: seq<Commit>): seq<Audit> {
    if history == [] then []
    else
      var c := history[|history| - 1];
      AuditsOf(history[..|history| - 1]) +
      if c.touch.Some? then [Audit(c.touch.value.organization, c.event.id, c.event.kind)] else []
  }

  lemma ChainedPrefix(db: Database, history: seq<Commit>, k: nat, prices: Prices)
    requires Chained(db, history, prices) && k <= |history|
    ensures Chained(db, history[..k], prices) && Before(db, history[..k], k) == Before(db, history, k)
  {
    hide CommitOk;
    var h := history[..k];
    forall i | 0 <= i < k
      ensures CommitOk(Before(db, h, i), h[i], prices)
    {
      assert Before(db, h, i) == Before(db, history, i);
    }
  }

  lemma CommitKeys(db: Database, c: Commit, prices: Prices)
    requires CommitOk(db, c, prices)
    ensures c.event.id !in db.markers && c.after.markers == db.markers + {c.event.id}
    ensures c.after.audits ==
            db.audits + if c.touch.Some? then [Audit(c.touch.value.organization, c.event.id, c.event.kind)] else []
  {
    hide Consistent, After, Resolve, SubscriptionOf, Clashes;
    AfterKeys(db, c.event, c.touch, prices);
  }

  lemma {:induction false} ChainMarkers(db: Database, history: seq<Commit>, prices: Prices)
    requires Chained(db, history, prices)
    ensures Before(db, history, |history|).markers == db.markers + MarkersOf(history)
    ensures MarkersOf(history) !! db.markers
    decreases |history|
  {
    hide CommitOk;
    if history != [] {
      var k := |history| - 1;
      ChainedPrefix(db, history, k, prices);
      ChainMarkers(db, history[..k], prices);
      CommitKeys(Before(db, history, k), history[k], prices);
    }
  }

  lemma {:induction false} ChainAudits(db: Database, history: seq<Commit>, prices: Prices)
    requires Chained(db, history, prices)
    ensures Before(db, history, |history|).audits == db.audits + AuditsOf(history)
    decreases |history|
  {
    hide CommitOk;
    if history != [] {
      var k := |history| - 1;
      ChainedPrefix(db, history, k, prices);
      ChainAudits(db, history[..k], prices);
      CommitKeys(Before(db, history, k), history[k], prices);
    }
  }

  lemma {:induction false} MarkersHold(history: seq<Commit>, i: nat)
    requires i < |history|
    ensures history[i].event.id in MarkersOf(history)
    decreases |history|
  {
    if i < |history| - 1 {
      MarkersHold(history[..|history| - 1], i);
    }
  }

  lemma ChainDistinct(db: Database, history: seq<Commit>, i: nat, j: nat, prices: Prices)
    requires Chained(db, history, prices) && i < j < |history|
    ensures history[i].event.id != history[j].event.id
  {
    hide Consistent, After, Resolve, SubscriptionOf, Clashes;
    ChainedPrefix(db, history, j, prices);
    ChainMarkers(db, history[..j], prices);
    MarkersHold(history[..j], i);
    assert CommitOk(Before(db, history, j), history[j], prices);
  }

  /** However requests overlap, each event id commits at most once and never again, the markers and the
      audit entries are those of the commits in their order, and the tables stay consistent. */
  lemma EachEventOnce(s: System, steps: seq<Step>, t: System, prices: Prices)
    requires Initial(s) && Reaches(s, steps, t, prices)
    ensures forall i, j :: 0 <= i < j < |t.history| ==> t.history[i].event.id != t.history[j].event.id
    ensures MarkersOf(t.history) !! s.db.markers && t.db.markers == s.db.markers + MarkersOf(t.history)
    ensures t.db.audits == s.db.audits + AuditsOf(t.history)
    ensures Consistent(t.db)
  {
    hide Consistent, Initial, Reaches;
    RunKeeps(s, steps, t, prices);
    ChainMarkers(s.db, t.history, prices);
    ChainAudits(s.db, t.history, prices);
    forall i, j | 0 <= i < j < |t.history|
      ensures t.history[i].event.id != t.history[j].event.id
    {
      ChainDistinct(s.db, t.history, i, j, prices);
    }
  }

  // ------------------------------------------------- when the tables are the fold

  /** Applying the committed events one at a time, in the order of their commits. */
  function FoldTo(db: Database, history: seq<Commit>, prices: Prices): Option<Database> {
    if history == [] then Some(db)
    else
      var c := history[|history| - 1];
      var before :- FoldTo(db, history[..|history| - 1], prices);
      match ApplyTo(before, c.event, Concerned(c), prices)
      case Success(after) => Some(after)
      case Failure(_) => None
  }

  ghost predicate Serial(c: Commit, prices: Prices) {
    c.touch.Some? ==> AgreesInAll(c.event, c.touch.value, prices)
  }

  /** A commit does what applying its event to the tables would do, if and only if it agrees in all columns. */
  lemma SerialIff(db: Database, c: Commit, prices: Prices)
    requires CommitOk(db, c, prices)
    ensures ApplyTo(db, c.event, Concerned(c), prices) == Success(c.after) <==> Serial(c, prices)
  {
    hide Consistent, Resolve, Updated, WithDefault, RowOf, CustomerClash, SubscriptionClash, AgreesInAll;
    if c.touch.Some? {
      var touch := c.touch.value;
      var org := touch.organization;
      RowIff(c.event, touch, prices);
      var rows := WithDefault(db.subscriptions, org);
      var i := RowOf(rows, org);
      DefaultAgrees(db.subscriptions, org, org);
      SubscriptionOrganization(db.subscriptions, org);
      SameRow(rows, i, touch.Row(c.event, prices));
      assert rows[i] == touch.stored;
      assert rows[i := touch.Row(c.event, prices)][i] == touch.Row(c.event, prices);
      assert rows[i := Updated(rows[i], c.event, prices)][i] == Updated(rows[i], c.event, prices);
    }
  }

  lemma {:induction false} SerialFolds(db: Database, history: seq<Commit>, prices: Prices)
    requires Chained(db, history, prices) && forall i :: 0 <= i < |history| ==> Serial(history[i], prices)
    ensures FoldTo(db, history, prices) == Some(Before(db, history, |history|))
    decreases |history|
  {
    hide CommitOk, Serial, ApplyTo;
    if history != [] {
      var k := |history| - 1;
      ChainedPrefix(db, history, k, prices);
      SerialFolds(db, history[..k], prices);
      SerialIff(Before(db, history, k), history[k], prices);
    }
  }

  /** After every commit the database is the fold of the commits so far, if and only if every commit
      changed each column it sets from what it had loaded, or found the value stored already. */
  lemma FoldIff(s: System, steps: seq<Step>, t: System, prices: Prices)
    requires Initial(s) && Reaches(s, steps, t, prices)
    ensures var h := t.history;
            (forall k :: 0 <= k < |h| ==> FoldTo(s.db, h[..k + 1], prices) == Some(h[k].after)) <==>
            (forall k :: 0 <= k < |h| ==> Serial(h[k], prices))
  {
    hide Initial, Reaches, CommitOk, Serial, ApplyTo, FoldTo;
    RunKeeps(s, steps, t, prices);
    var h := t.history;
    if forall k :: 0 <= k < |h| ==> Serial(h[k], prices) {
      forall k | 0 <= k < |h|
        ensures FoldTo(s.db, h[..k + 1], prices) == Some(h[k].after)
      {
        ChainedPrefix(s.db, h, k + 1, prices);
        SerialFolds(s.db, h[..k + 1], prices);
      }
    }
    if forall k :: 0 <= k < |h| ==> FoldTo(s.db, h[..k + 1], prices) == Some(h[k].after) {
      forall k | 0 <= k < |h|
        ensures Serial(h[k], prices)
      {
        FoldedCommit(s.db, h, k, prices);
        SerialIff(Before(s.db, h, k), h[k], prices);
      }
    }
  }

  lemma FoldedCommit(db: Database, history: seq<Commit>, k: nat, prices: Prices)
    requires k < |history|
    requires forall j :: 0 <= j < |history| ==> FoldTo(db, history[..j + 1], prices) == Some(history[j].after)
    ensures var c := history[k];
            ApplyTo(Before(db, history, k), c.event, Concerned(c), prices) == Success(c.after)
  {
    hide ApplyTo;
    assert history[..k + 1][..k] == history[..k];
    if k == 0 {
      assert FoldTo(db, history[..k], prices) == Some(db);
    } else {
      var j := k - 1;
      assert FoldTo(db, history[..j + 1], prices) == Some(history[j].after);
    }
    assert FoldTo(db, history[..k + 1], prices) == Some(history[k].after);
  }

  /** If no other event of the organization committed between an event's read and its commit, for every
      event, the final database is the fold of the events in the order of their commits; if each payload
      itself says what it concerns, it is the fold of the whole apply step. */
  lemma AloneFolds(s: System, steps: seq<Step>, t: System, prices: Prices)
    requires Initial(s) && Reaches(s, steps, t, prices)
    requires forall k :: 0 <= k < |t.history| && t.history[k].touch.Some? ==> t.history[k].touch.value.alone
    ensures FoldTo(s.db, t.history, prices) == Some(t.db)
    ensures (forall k :: 0 <= k < |t.history| ==> NamesOrganization(t.history[k].event.payload)) ==>
              Fold(s.db, EventsOf(t.history), prices) == Some(t.db)
  {
    hide Initial, Reaches, Consistent, Fold, FoldTo;
    RunKeeps(s, steps, t, prices);
    forall k | 0 <= k < |t.history|
      ensures Serial(t.history[k], prices)
    {
      assert CommitOk(Before(s.db, t.history, k), t.history[k], prices);
      AloneIsSerial(t.history[k], prices);
    }
    SerialFolds(s.db, t.history, prices);
    if forall k :: 0 <= k < |t.history| ==> NamesOrganization(t.history[k].event.payload) {
      NamedFold(s.db, t.history, prices);
    }
  }

  lemma AloneIsSerial(c: Commit, prices: Prices)
    requires c.touch.Some? ==> c.touch.value.loaded == c.touch.value.stored
    ensures Serial(c, prices)
  {
    hide Wanted;
  }

  function EventsOf(history: seq<Commit>): seq<Event> {
    if history == [] then [] else EventsOf(history[..|history| - 1]) + [history[|history| - 1].event]
  }

  lemma {:induction false} NamedFold(db: Database, history: seq<Commit>, prices: Prices)
    requires Chained(db, history, prices)
    requires forall k :: 0 <= k < |history| ==>
               NamesOrganization(history[k].event.payload) && Serial(history[k], prices)
    ensures Fold(db, EventsOf(history), prices) == Some(Before(db, history, |history|))
    decreases |history|
  {
    hide Consistent, Serial, ApplyTo, Resolve, After, SubscriptionOf, Clashes;
    if history != [] {
      var k := |history| - 1;
      ChainedPrefix(db, history, k, prices);
      NamedFold(db, history[..k], prices);
      SerialIff(Before(db, history, k), history[k], prices);
      assert CommitOk(Before(db, history, k), history[k], prices);
      FoldAppend(db, EventsOf(history[..k]), history[k].event, prices);
    } else {
      assert EventsOf(history) == [];
    }
  }

  // ------------------------------------------------- one column of one organization

  /** The last commit that sets the column of the organization. */
  function LastSetter(history: seq<Commit>, organization: OrgId, c: Column, prices: Prices): (k: Option<nat>)
    ensures k.Some? ==>
              && k.value < |history| && Touches(history[k.value], organization)
              && Wanted(history[k.value].event, c, prices).Some?
  {
    if history == [] then None
    else
      var last := |history| - 1;
      if Touches(history[last], organization) && Wanted(history[last].event, c, prices).Some? then Some(last)
      else LastSetter(history[..last], organization, c, prices)
  }

  lemma {:induction false} ColumnAfter(
    db: Database, history: seq<Commit>, organization: OrgId, c: Column, prices: Prices)
    requires Chained(db, history, prices)
    ensures var end := Get(SubscriptionOf(Before(db, history, |history|).subscriptions, organization), c);
            var k := LastSetter(history, organization, c, prices);
            && (k.None? ==> end == Get(SubscriptionOf(db.subscriptions, organization), c))
            && (k.Some? ==>
                  var setter := history[k.value];
                  end == Wanted(setter.event, c, prices).value <==> Agrees(setter.event, setter.touch.value, c, prices))
    decreases |history|
  {
    hide Consistent, After, Resolve, SubscriptionOf, Clashes, Updated, Wanted, Get, Flushed;
    if history != [] {
      var k := |history| - 1;
      var before, last := Before(db, history, k), history[k];
      ChainedPrefix(db, history, k, prices);
      ColumnAfter(db, history[..k], organization, c, prices);
      assert CommitOk(before, last, prices);
      if last.touch.Some? {
        SubscriptionOrganization(before.subscriptions, last.touch.value.organization);
      }
      AfterFrame(before, last.event, last.touch, prices, organization);
      if Touches(last, organization) {
        ColumnIff(last.event, last.touch.value, c, prices);
        UpdatedColumn(last.touch.value.loaded, last.event, prices, c);
        UpdatedColumn(last.touch.value.stored, last.event, prices, c);
        FlushedColumn(last.touch.value.stored, last.touch.value.loaded,
                      Updated(last.touch.value.loaded, last.event, prices), c);
      }
    }
  }

  /** After any run, a column of an organization's subscription has the value that the last committed
      event setting it wants, if and only if that event changed it from what it had loaded, or found the
      value stored already; a column that no event set is as it was. */
  lemma LastSetterIff(s: System, steps: seq<Step>, t: System, organization: OrgId, c: Column, prices: Prices)
    requires Initial(s) && Reaches(s, steps, t, prices)
    ensures var end := Get(SubscriptionOf(t.db.subscriptions, organization), c);
            var k := LastSetter(t.history, organization, c, prices);
            && (k.None? ==> end == Get(SubscriptionOf(s.db.subscriptions, organization), c))
            && (k.Some? ==>
                  var setter := t.history[k.value];
                  end == Wanted(setter.event, c, prices).value <==> Agrees(setter.event, setter.touch.value, c, prices))
  {
    hide Initial, Reaches, Chained, Agrees, Wanted, Get, SubscriptionOf;
    RunKeeps(s, steps, t, prices);
    ColumnAfter(s.db, t.history, organization, c, prices);
  }

  // ------------------------------------------------- the input that loses a status

  const ORGANIZATION: OrgId := 7

  function ConcerningCustomer(status: Option<string>): Object {
    Object(None, None, Some("cus"), None, status, None, None)
  }

  const PAYMENT_FAILED := Event("evt_1", "invoice.payment_failed", ConcerningCustomer(None))

  const BACK_TO_ACTIVE := Event("evt_2", "customer.subscription.updated", ConcerningCustomer(Some("active")))

  const ACTIVE := Subscription(ORGANIZATION, "free", "active", Some("cus"), None, None)

  lemma Then(s: System, step: Step, m: System, rest: seq<Step>, t: System, prices: Prices)
    requires Next(s, step, prices) == Some(m) && Reaches(m, rest, t, prices)
    ensures Reaches(s, [step] + rest, t, prices)
  {
    hide Next;
    assert ([step] + rest)[1..] == rest;
  }

  /** A request of the event up to its read of the only row. */
  lemma ReadActive(s: System, t: TxId, e: Event, prices: Prices) returns (steps: seq<Step>, u: System)
    requires s.db.subscriptions == [ACTIVE] && e.payload.customer == Some("cus") && s.history == []
    requires e.payload.metadataOrganization.None? && e.payload.clientReference.None?
    requires t !in s.open && !Blocked(s, e.id) && e.id !in s.db.markers
    ensures u == s.(open := s.open[t := Tx(e, Loaded(ORGANIZATION, Some(ACTIVE), 0))])
    ensures forall rest, v :: Reaches(u, rest, v, prices) ==> Reaches(s, steps + rest, v, prices)
  {
    var marked := s.(open := s.open[t := Tx(e, Marked)]);
    var resolved := s.(open := s.open[t := Tx(e, Resolved(Some(ORGANIZATION)))]);
    u := s.(open := s.open[t := Tx(e, Loaded(ORGANIZATION, Some(ACTIVE), 0))]);
    steps := [Mark(t, e), Resolving(t), Load(t)];
    assert Next(s, Mark(t, e), prices) == Some(marked);
    assert Resolve(s.db, e.payload) == Success(Some(ORGANIZATION));
    assert marked.open[t := Tx(e, Resolved(Some(ORGANIZATION)))] == resolved.open;
    assert Next(marked, Resolving(t), prices) == Some(resolved);
    assert resolved.open[t := Tx(e, Loaded(ORGANIZATION, Some(ACTIVE), 0))] == u.open;
    assert RowOf(resolved.db.subscriptions, ORGANIZATION) == 0;
    assert Next(resolved, Load(t), prices) == Some(u);
    forall rest, v | Reaches(u, rest, v, prices)
      ensures Reaches(s, steps + rest, v, prices)
    {
      Then(resolved, Load(t), u, rest, v, prices);
      Then(marked, Resolving(t), resolved, [Load(t)] + rest, v, prices);
      Then(s, Mark(t, e), marked, [Resolving(t)] + ([Load(t)] + rest), v, prices);
      assert steps + rest == [Mark(t, e)] + ([Resolving(t)] + ([Load(t)] + rest));
    }
  }

  /** One of two requests that read the only row commits. */
  lemma CommitOnly(s: System, t: TxId, at: nat, row: Subscription, prices: Prices) returns (u: System)
    requires s.db.subscriptions == [row] && row.organization == ORGANIZATION
    requires t in s.open && s.open[t].stage == Loaded(ORGANIZATION, Some(ACTIVE), at)
    ensures Next(s, Committing(t), prices) == Some(u) && u.open == s.open - {t} && |u.history| == |s.history| + 1
    ensures u.history[..|s.history|] == s.history
    ensures u.history[|s.history|].event == s.open[t].event
    ensures Concerned(u.history[|s.history|]) == Some(ORGANIZATION)
    ensures u.db.subscriptions == [Flushed(row, ACTIVE, Updated(ACTIVE, s.open[t].event, prices))]
    ensures u.db.organizations == s.db.organizations
  {
    hide Updated;
    u := Committed(s, t, Some(TouchOf(s, ORGANIZATION, Some(ACTIVE), at)), prices);
    assert RowOf(s.db.subscriptions, ORGANIZATION) == 0;
    assert u.db.subscriptions == [Flushed(row, ACTIVE, Updated(ACTIVE, s.open[t].event, prices))];
    assert Flushed(row, ACTIVE, Updated(ACTIVE, s.open[t].event, prices)).organization == ORGANIZATION;
  }

  /** Both events read the active row; the failed payment commits first; the update, which commits last,
      wants the status it had loaded and so writes none.  The row is past due, and the fold is active. */
  lemma StatusLost(prices: Prices) returns (s: System, steps: seq<Step>, t: System)
    ensures Initial(s) && Reaches(s, steps, t, prices)
    ensures SubscriptionOf(t.db.subscriptions, ORGANIZATION).status == "past_due"
    ensures FoldTo(s.db, t.history, prices).Some?
    ensures SubscriptionOf(FoldTo(s.db, t.history, prices).value.subscriptions, ORGANIZATION).status == "active"
  {
    hide Next, Updated, FoldTo, StatusSetBy;
    s := System(Database({ORGANIZATION}, {}, [ACTIVE], []), map[], []);
    var first, s1 := ReadActive(s, 1, PAYMENT_FAILED, prices);
    var second, s2 := ReadActive(s1, 2, BACK_TO_ACTIVE, prices);
    UpdateMeaning(ACTIVE, PAYMENT_FAILED, prices);
    UpdateMeaning(ACTIVE, BACK_TO_ACTIVE, prices);
    StatusesSet();
    var s3 := CommitOnly(s2, 1, 0, ACTIVE, prices);
    var row := s3.db.subscriptions[0];
    t := CommitOnly(s3, 2, 0, row, prices);
    assert row.status == "past_due" && t.db.subscriptions[0].status == "past_due";
    assert RowOf(t.db.subscriptions, ORGANIZATION) == 0;
    assert Reaches(t, [], t, prices);
    Then(s3, Committing(2), t, [], t, prices);
    Then(s2, Committing(1), s3, [Committing(2)] + [], t, prices);
    steps := first + (second + ([Committing(1)] + ([Committing(2)] + [])));
    FoldIsActive(s, t, prices);
  }

  lemma StatusesSet()
    ensures StatusSetBy(PAYMENT_FAILED) == Some("past_due") && StatusSetBy(BACK_TO_ACTIVE) == Some("active")
  {
    assert PAYMENT_FAILED.kind[0] == 'i' && BACK_TO_ACTIVE.kind[..22] == "customer.subscription.";
    assert PAYMENT_FAILED.kind != "customer.subscription.deleted";
    assert |BACK_TO_ACTIVE.kind| != |"checkout.session.completed"|;
    assert |BACK_TO_ACTIVE.kind| == 29 && BACK_TO_ACTIVE.kind[22] == 'u';
    assert "customer.subscription.deleted"[22] == 'd';
  }

  lemma FoldIsActive(s: System, t: System, prices: Prices)
    requires s.db == Database({ORGANIZATION}, {}, [ACTIVE], []) && |t.history| == 2
    requires t.history[0].event == PAYMENT_FAILED && t.history[1].event == BACK_TO_ACTIVE
    requires Concerned(t.history[0]) == Concerned(t.history[1]) == Some(ORGANIZATION)
    ensures FoldTo(s.db, t.history, prices).Some?
    ensures SubscriptionOf(FoldTo(s.db, t.history, prices).value.subscriptions, ORGANIZATION).status == "active"
  {
    hide Updated, StatusSetBy;
    StatusesSet();
    var h := t.history;
    assert h[..1] == [h[0]] && h[..0] == [] && h[..1][..0] == [];
    var one := OnlyRow(s.db, PAYMENT_FAILED, prices);
    var two := OnlyRow(one, BACK_TO_ACTIVE, prices);
    assert FoldTo(s.db, h[..1], prices) == Some(one);
    assert FoldTo(s.db, h, prices) == Some(two);
  }

  lemma OnlyRow(db: Database, e: Event, prices: Prices) returns (after: Database)
    requires |db.subscriptions| == 1 && db.subscriptions[0].organization == ORGANIZATION
    requires ORGANIZATION in db.organizations && StatusSetBy(e).Some?
    ensures ApplyTo(db, e, Some(ORGANIZATION), prices) == Success(after)
    ensures after.subscriptions == [Updated(db.subscriptions[0], e, prices)]
    ensures after.organizations == db.organizations
    ensures after.subscriptions[0].organization == ORGANIZATION
    ensures after.subscriptions[0].status == StatusSetBy(e).value
  {
    hide Updated, StatusSetBy;
    UpdateMeaning(db.subscriptions[0], e, prices);
    after := ApplyTo(db, e, Some(ORGANIZATION), prices).value;
  }
}
