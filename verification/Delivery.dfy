/** One outbound webhook delivery: the row its workers update in two separate
    transactions, the manual retry, and the job chain that Celery drives. */
module Delivery {
  import opened Wrappers

  const MAX_ATTEMPTS := 5
  const MAX_RETRIES := 5

  datatype State = Pending | Delivered | Retrying | Dead

  datatype Row = Row(
    state: State,
    attemptCount: nat,
    responseStatus: Option<int>,
    lastError: Option<string>,
    nextRetryAt: Option<int>)
  {
    predicate Terminal() { state.Delivered? || state.Dead? }
  }

  /** The row `emit_event` inserts. */
  const FRESH := Row(Pending, 0, None, None, None)

  /** What transaction 1 learns about the target; `rejection` is the ValueError of the target check. */
  datatype Target = Missing | Inactive | Active(rejection: Option<string>)

  datatype Response = Ok(status: int) | HttpError(message: string)

  datatype Begun = Invisible | Skipped | Discarded | Attempting

  datatype Outcome = Settled | Failed | GaveUp | Vanished

  datatype RetryError = NotFound | EndpointInactive | AlreadyDelivered

  /** What becomes of the Celery job after one execution. */
  datatype Disposition = Done | Requeue(countdown: nat) | Exhausted

  function Pow2(n: nat): nat { if n == 0 then 1 else 2 * Pow2(n - 1) }

  function Truncated(s: string): string { if |s| <= 2000 then s else s[..2000] }

  // ------------------------------------------------- the transactions, as functions on the row

  function Begin(row: Option<Row>, target: Target): (Option<Row>, Begun) {
    match row
    case None => (None, Invisible)
    case Some(r) =>
      if r.Terminal() then (row, Skipped)
      else match target
        case Missing => (Some(r.(state := Dead)), Discarded)
        case Inactive => (Some(r.(state := Dead)), Discarded)
        case Active(Some(error)) => (Some(r.(state := Dead, lastError := Some(error))), Discarded)
        case Active(None) => (Some(r.(attemptCount := r.attemptCount + 1)), Attempting)
  }

  function Written<T(==)>(stored: T, loaded: T, wanted: T): T {
    if wanted == loaded then stored else wanted
  }

  /** What a flush leaves of the stored row: it writes the columns whose value is no longer the loaded one. */
  function Flushed(stored: Row, loaded: Row, wanted: Row): Row {
    Row(Written(stored.state, loaded.state, wanted.state),
        Written(stored.attemptCount, loaded.attemptCount, wanted.attemptCount),
        Written(stored.responseStatus, loaded.responseStatus, wanted.responseStatus),
        Written(stored.lastError, loaded.lastError, wanted.lastError),
        Written(stored.nextRetryAt, loaded.nextRetryAt, wanted.nextRetryAt))
  }

  /** Transaction 2 locks the row but keeps working on `loaded`, what its session holds since
      transaction 1: the attempt's own number decides, and only changes from `loaded` are written. */
  function Record(stored: Option<Row>, loaded: Row, response: Response, now: int): (Option<Row>, Outcome) {
    match (stored, response)
    case (None, Ok(_)) => (None, Settled)
    case (None, HttpError(_)) => (None, Vanished)
    case (Some(row), Ok(status)) =>
      (Some(Flushed(row, loaded, Row(Delivered, loaded.attemptCount, Some(status), None, None))), Settled)
    case (Some(row), HttpError(message)) =>
      var noted := loaded.(lastError := Some(Truncated(message)));
      if loaded.attemptCount >= MAX_ATTEMPTS then (Some(Flushed(row, loaded, noted.(state := Dead))), GaveUp)
      else
        var next := Some(now + Pow2(loaded.attemptCount) * 5);
        (Some(Flushed(row, loaded, noted.(state := Retrying, nextRetryAt := next))), Failed)
  }

  function Retry(row: Option<Row>, target: Target): Result<Row, RetryError> {
    match row
    case None => Failure(NotFound)
    case Some(r) =>
      if !target.Active? then Failure(EndpointInactive)
      else if r.state.Delivered? then Failure(AlreadyDelivered)
      else Success(r.(state := Retrying, nextRetryAt := None, lastError := None))
  }

  function Countdown(retries: nat): nat {
    var backoff := Pow2(retries) * 5;
    if backoff < 300 then backoff else 300
  }

  /** `self.retry`: another execution while the retry budget lasts. */
  function Reschedule(retries: nat): Disposition {
    if retries < MAX_RETRIES then Requeue(Countdown(retries)) else Exhausted
  }

  function DispositionOf(outcome: Outcome, retries: nat): Disposition {
    if outcome.Failed? then Reschedule(retries) else Done
  }

  /** One execution with nothing else touching the row between its transactions. */
  function Execute(row: Option<Row>, target: Target, response: Response, now: int, retries: nat)
    : (result: (Option<Row>, Disposition))
    ensures result.1.Requeue? ==> retries < MAX_RETRIES && result.1.countdown == Countdown(retries)
    ensures result.0.Some? <==> row.Some?
  {
    var (row1, begun) := Begin(row, target);
    match begun
    case Invisible => (row1, Reschedule(retries))
    case Skipped => (row1, Done)
    case Discarded => (row1, Done)
    case Attempting =>
      var (row2, outcome) := Record(row1, row1.value, response, now);
      (row2, DispositionOf(outcome, retries))
  }

  /** Transaction 2 of an attempt whose row nobody else wrote: a success shows its status, no error and no
      schedule; a refusal shows the message, cut at 2000 characters, and either the end after the fifth
      attempt or the doubled delays of the first four. */
  lemma RecordAlone(row: Row, response: Response, now: int)
    ensures response.Ok? ==>
              Record(Some(row), row, response, now) ==
              (Some(Row(Delivered, row.attemptCount, Some(response.status), None, None)), Settled)
    ensures response.HttpError? ==>
              var text := response.message;
              var error := Some(if |text| <= 2000 then text else text[..2000]);
              Record(Some(row), row, response, now) ==
              if row.attemptCount >= 5 then
                (Some(Row(Dead, row.attemptCount, row.responseStatus, error, row.nextRetryAt)), GaveUp)
              else
                (Some(Row(Retrying, row.attemptCount, row.responseStatus, error,
                          Some(now + [5, 10, 20, 40, 80][row.attemptCount]))), Failed)
  {
    Pow2Table();
  }

  /** What overlapping attempts leave, column by column, of the row as it is stored by then. */
  lemma RecordColumns(row: Row, loaded: Row, response: Response, now: int)
    ensures var (r, _) := Record(Some(row), loaded, response, now);
            && r.Some? && r.value.attemptCount == row.attemptCount
            && (response.Ok? ==>
                  && r.value.state == (if loaded.state == Delivered then row.state else Delivered)
                  && r.value.responseStatus ==
                     (if loaded.responseStatus == Some(response.status) then row.responseStatus
                      else Some(response.status))
                  && r.value.lastError == (if loaded.lastError == None then row.lastError else None)
                  && r.value.nextRetryAt == (if loaded.nextRetryAt == None then row.nextRetryAt else None))
            && (response.HttpError? ==>
                  var n, text := loaded.attemptCount, response.message;
                  var state := if n >= 5 then Dead else Retrying;
                  var error := Some(if |text| <= 2000 then text else text[..2000]);
                  var next := if n >= 5 then loaded.nextRetryAt else Some(now + [5, 10, 20, 40, 80][n]);
                  && r.value.state == (if loaded.state == state then row.state else state)
                  && r.value.responseStatus == row.responseStatus
                  && r.value.lastError == (if loaded.lastError == error then row.lastError else error)
                  && r.value.nextRetryAt == (if loaded.nextRetryAt == next then row.nextRetryAt else next))
  {
    Pow2Table();
  }

  // ------------------------------------------------- the code, on the mutable row

  /** A stored row, or a session's copy of it. */
  class WebhookDelivery {
    var state: State
    var attemptCount: nat
    var responseStatus: Option<int>
    var lastError: Option<string>
    var nextRetryAt: Option<int>

    constructor ()
      ensures RowOf(this) == Some(FRESH)
    {
      state, attemptCount := Pending, 0;
      responseStatus, lastError, nextRetryAt := None, None, None;
    }

    constructor Load(row: Row)
      ensures RowOf(this) == Some(row)
    {
      state, attemptCount := row.state, row.attemptCount;
      responseStatus, lastError, nextRetryAt := row.responseStatus, row.lastError, row.nextRetryAt;
    }
  }

  /** The row behind a reference; null when none is visible. */
  function RowOf(delivery: WebhookDelivery?): Option<Row>
    reads delivery
  {
    if delivery == null then None
    else Some(Row(delivery.state, delivery.attemptCount, delivery.responseStatus, delivery.lastError,
                  delivery.nextRetryAt))
  }

  /** Transaction 1.  An attempt's session keeps its copy of the row for transaction 2. */
  method BeginAttempt(delivery: WebhookDelivery?, target: Target) returns (begun: Begun, current: WebhookDelivery?)
    modifies delivery
    ensures (RowOf(delivery), begun) == Begin(old(RowOf(delivery)), target)
    ensures delivery == null <==> begun.Invisible?
    ensures delivery != null ==>
              && (begun.Skipped? <==> old(delivery.state) in {Delivered, Dead})
              && (begun.Attempting? <==> old(delivery.state) in {Pending, Retrying} && target == Active(None))
              && delivery.state == (if begun.Discarded? then Dead else old(delivery.state))
              && delivery.attemptCount == old(delivery.attemptCount) + (if begun.Attempting? then 1 else 0)
              && delivery.responseStatus == old(delivery.responseStatus)
              && delivery.nextRetryAt == old(delivery.nextRetryAt)
              && delivery.lastError ==
                 if begun.Discarded? && target.Active? then target.rejection else old(delivery.lastError)
    ensures begun.Attempting? <==> current != null
    ensures current != null ==> fresh(current) && RowOf(current) == RowOf(delivery)
  {
    if delivery == null {
      return Invisible, null;
    }
    if delivery.state.Delivered? || delivery.state.Dead? {
      return Skipped, null;
    }
    if !target.Active? {
      delivery.state := Dead;
      return Discarded, null;
    }
    if target.rejection.Some? {
      delivery.state := Dead;
      delivery.lastError := target.rejection;
      return Discarded, null;
    }
    delivery.attemptCount := delivery.attemptCount + 1;
    current := new WebhookDelivery.Load(RowOf(delivery).value);
    return Attempting, current;
  }

  /** The UPDATE at the end of a transaction that changed `current` from `loaded`. */
  method Flush(delivery: WebhookDelivery, loaded: Row, current: WebhookDelivery)
    requires delivery != current
    modifies delivery
    ensures RowOf(delivery) == Some(Flushed(old(RowOf(delivery)).value, loaded, RowOf(current).value))
    ensures delivery.state == if current.state == loaded.state then old(delivery.state) else current.state
    ensures delivery.attemptCount ==
            if current.attemptCount == loaded.attemptCount then old(delivery.attemptCount) else current.attemptCount
    ensures delivery.responseStatus ==
            if current.responseStatus == loaded.responseStatus then old(delivery.responseStatus)
            else current.responseStatus
    ensures delivery.lastError ==
            if current.lastError == loaded.lastError then old(delivery.lastError) else current.lastError
    ensures delivery.nextRetryAt ==
            if current.nextRetryAt == loaded.nextRetryAt then old(delivery.nextRetryAt) else current.nextRetryAt
  {
    if current.state != loaded.state {
      delivery.state := current.state;
    }
    if current.attemptCount != loaded.attemptCount {
      delivery.attemptCount := current.attemptCount;
    }
    if current.responseStatus != loaded.responseStatus {
      delivery.responseStatus := current.responseStatus;
    }
    if current.lastError != loaded.lastError {
      delivery.lastError := current.lastError;
    }
    if current.nextRetryAt != loaded.nextRetryAt {
      delivery.nextRetryAt := current.nextRetryAt;
    }
  }

  /** Transaction 2: `delivery` is the locked row, `current` the session's copy. */
  method RecordOutcome(delivery: WebhookDelivery?, current: WebhookDelivery, response: Response, now: int)
    returns (outcome: Outcome)
    requires delivery != current
    modifies delivery, current
    ensures (RowOf(delivery), outcome) == Record(old(RowOf(delivery)), old(RowOf(current)).value, response, now)
    ensures delivery != null && response.Ok? ==>
              && outcome.Settled? && delivery.attemptCount == old(delivery.attemptCount)
              && delivery.state == (if old(current.state) == Delivered then old(delivery.state) else Delivered)
              && delivery.responseStatus ==
                 (if old(current.responseStatus) == Some(response.status) then old(delivery.responseStatus)
                  else Some(response.status))
              && delivery.lastError == (if old(current.lastError) == None then old(delivery.lastError) else None)
              && delivery.nextRetryAt == if old(current.nextRetryAt) == None then old(delivery.nextRetryAt) else None
    ensures delivery != null && response.HttpError? ==>
              var n, text := old(current.attemptCount), response.message;
              var error := Some(if |text| <= 2000 then text else text[..2000]);
              var state := if n >= 5 then Dead else Retrying;
              && (outcome.GaveUp? <==> n >= 5) && (outcome.Failed? <==> n < 5)
              && delivery.attemptCount == old(delivery.attemptCount)
              && delivery.responseStatus == old(delivery.responseStatus)
              && delivery.state == (if old(current.state) == state then old(delivery.state) else state)
              && delivery.lastError == (if old(current.lastError) == error then old(delivery.lastError) else error)
              && (n >= 5 ==> delivery.nextRetryAt == old(delivery.nextRetryAt))
              && (n < 5 ==>
                    var next := Some(now + [5, 10, 20, 40, 80][n]);
                    delivery.nextRetryAt ==
                    if old(current.nextRetryAt) == next then old(delivery.nextRetryAt) else next)
    ensures delivery == null ==> outcome == if response.Ok? then Settled else Vanished
  {
    Pow2Table();
    var loaded := RowOf(current).value;
    match response
    case HttpError(message) =>
      if delivery == null {
        return Vanished;
      }
      current.lastError := Some(Truncated(message));
      if current.attemptCount >= MAX_ATTEMPTS {
        current.state := Dead;
        outcome := GaveUp;
      } else {
        current.state := Retrying;
        current.nextRetryAt := Some(now + Pow2(current.attemptCount) * 5);
        outcome := Failed;
      }
      Flush(delivery, loaded, current);
    case Ok(status) =>
      if delivery != null {
        current.state := Delivered;
        current.responseStatus := Some(status);
        current.lastError := None;
        current.nextRetryAt := None;
        Flush(delivery, loaded, current);
      }
      return Settled;
  }

  /** The task body and its exception handler, with nothing else touching the row meanwhile. */
  method DeliverWebhook(delivery: WebhookDelivery?, target: Target, response: Response, now: int, retries: nat)
    returns (disposition: Disposition)
    modifies delivery
    ensures (RowOf(delivery), disposition) == Execute(old(RowOf(delivery)), target, response, now, retries)
    ensures delivery != null && response.Ok? && target == Active(None) && old(delivery.state) in {Pending, Retrying} ==>
              && disposition.Done?
              && RowOf(delivery) ==
                 Some(Row(Delivered, old(delivery.attemptCount) + 1, Some(response.status), None, None))
    ensures disposition.Requeue? ==> retries < 5 && disposition.countdown == [5, 10, 20, 40, 80][retries]
    ensures disposition.Exhausted? ==> retries >= 5
    ensures disposition.Done? <==>
              || (delivery != null && old(delivery.state) in {Delivered, Dead})
              || (delivery != null && target != Active(None))
              || (delivery != null && (response.Ok? || old(delivery.attemptCount) >= 4))
  {
    Pow2Table();
    var begun, current := BeginAttempt(delivery, target);
    match begun
    case Invisible =>
      return Reschedule(retries);
    case Skipped =>
      return Done;
    case Discarded =>
      return Done;
    case Attempting =>
      var outcome := RecordOutcome(delivery, current, response, now);
      return DispositionOf(outcome, retries);
  }

  datatype Audit = Audit(organization: nat, actor: nat, action: string, entityType: string, entity: nat)

  /** The manual retry endpoint: an error leaves no trace; success is audited and publishes a job. */
  method RetryDelivery(delivery: WebhookDelivery?, target: Target, organization: nat, actor: nat, id: nat)
    returns (error: Option<RetryError>, audits: seq<Audit>, published: seq<nat>)
    modifies delivery
    ensures match Retry(old(RowOf(delivery)), target)
            case Failure(e) =>
              error == Some(e) && RowOf(delivery) == old(RowOf(delivery)) && audits == [] && published == []
            case Success(row) =>
              && error.None? && RowOf(delivery) == Some(row) && published == [id]
              && audits == [Audit(organization, actor, "webhook.delivery_retried", "webhook_delivery", id)]
    ensures error == Some(NotFound) <==> delivery == null
    ensures error == Some(EndpointInactive) <==> delivery != null && target in {Missing, Inactive}
    ensures error == Some(AlreadyDelivered) <==> delivery != null && target.Active? && old(delivery.state) == Delivered
    ensures error.None? ==>
              && delivery.state == Retrying && delivery.lastError == None && delivery.nextRetryAt == None
              && delivery.attemptCount == old(delivery.attemptCount)
              && delivery.responseStatus == old(delivery.responseStatus)
  {
    audits, published := [], [];
    if delivery == null {
      return Some(NotFound), [], [];
    }
    if !target.Active? {
      return Some(EndpointInactive), [], [];
    }
    if delivery.state.Delivered? {
      return Some(AlreadyDelivered), [], [];
    }
    delivery.state := Retrying;
    delivery.nextRetryAt := None;
    delivery.lastError := None;
    audits := audits + [Audit(organization, actor, "webhook.delivery_retried", "webhook_delivery", id)];
    published := published + [id];
    return None, audits, published;
  }

  // ------------------------------------------------- one job chain without overlap or loss

  /** What one execution of the job meets; `visible` is whether the request has committed. */
  datatype Meets = Meets(visible: bool, target: Target, response: Response, now: int)
  {
    /** The execution makes an attempt and the receiver refuses it. */
    predicate Fails() {
      visible && target == Active(None) && response.HttpError?
    }
  }

  datatype ChainEnd = ChainEnd(row: Row, executions: nat, waited: nat)

  /** The executions from retry number `retries` on, until the job is done or exhausted. */
  function RunChain(row: Row, world: nat -> Meets, retries: nat): (end: ChainEnd)
    requires retries <= MAX_RETRIES
    ensures 1 <= end.executions <= 6 - retries
    decreases MAX_RETRIES - retries
  {
    var (row', disposition) := Lap(row, world(retries), retries);
    match disposition
    case Requeue(countdown) =>
      var rest := RunChain(row', world, retries + 1);
      ChainEnd(rest.row, 1 + rest.executions, countdown + rest.waited)
    case _ => ChainEnd(row', 1, 0)
  }

  /** One execution of the chain: an invisible row is not touched. */
  function Lap(row: Row, m: Meets, retries: nat): (result: (Row, Disposition))
    ensures result.1.Requeue? ==> retries < MAX_RETRIES && result.1.countdown == Countdown(retries)
  {
    var seen := if m.visible then Some(row) else None;
    var (after, disposition) := Execute(seen, m.target, m.response, m.now, retries);
    (if after.Some? then after.value else row, disposition)
  }

  /** A committed row stays visible. */
  ghost predicate CommitsOnce(world: nat -> Meets) {
    forall i: nat, j: nat :: i <= j && world(i).visible ==> world(j).visible
  }

  /** The executions before the row became visible. */
  function Blind(world: nat -> Meets, n: nat): (v: nat)
    ensures v <= n
    ensures v < n ==> world(v).visible
    ensures forall i: nat :: i < v ==> !world(i).visible
  {
    if n == 0 then 0
    else
      var v := Blind(world, n - 1);
      if v < n - 1 || world(n - 1).visible then v else n
  }

  /** The backoff doubles: a chain of n executions waits 5 * (2^(n-1) - 1) seconds in all. */
  lemma {:induction false} ChainWait(row: Row, world: nat -> Meets, retries: nat)
    requires retries <= MAX_RETRIES
    ensures var end := RunChain(row, world, retries);
            end.waited == 5 * (Pow2(retries + end.executions - 1) - Pow2(retries))
    decreases MAX_RETRIES - retries
  {
    hide Lap, Countdown, Pow2;
    var (row', disposition) := Lap(row, world(retries), retries);
    if disposition.Requeue? {
      ChainWait(row', world, retries + 1);
      Doubling(retries);
    }
  }

  lemma Doubling(retries: nat)
    requires retries < MAX_RETRIES
    ensures Countdown(retries) == 5 * Pow2(retries) && Pow2(retries + 1) == 2 * Pow2(retries)
  {
    Pow2Table();
  }

  lemma Pow2Table()
    ensures Pow2(0) == 1 && Pow2(1) == 2 && Pow2(2) == 4 && Pow2(3) == 8 && Pow2(4) == 16 && Pow2(5) == 32
  {
  }

  /** The row an unbroken series of `n` refused attempts leaves. */
  ghost predicate Worn(row: Row, n: nat) {
    && row.attemptCount == n
    && (if n == 0 then row.state.Pending? else row.state.Retrying?)
  }

  /** The visible part of a chain, from retry number `retries` after `n` refused attempts. */
  lemma {:induction false} VisibleChain(row: Row, world: nat -> Meets, retries: nat, n: nat)
    requires n <= 4 && n <= retries <= MAX_RETRIES && Worn(row, n)
    requires forall i: nat :: i >= retries ==> world(i).visible
    ensures var end := RunChain(row, world, retries);
            && (end.row.Terminal() <==>
                  retries == n || retries == n + 1 || exists i: nat :: retries <= i <= MAX_RETRIES && !world(i).Fails())
            && (!end.row.Terminal() ==> Worn(end.row, n + 6 - retries) && end.executions == 6 - retries)
            && (end.row.state.Delivered? <==>
                  var last := retries + end.executions - 1;
                  && world(last).target == Active(None) && world(last).response.Ok?)
    decreases MAX_RETRIES - retries
  {
    hide Lap;
    var (row', disposition) := Lap(row, world(retries), retries);
    VisibleLap(row, world(retries), retries, n);
    if disposition.Requeue? {
      VisibleChain(row', world, retries + 1, n + 1);
    }
  }

  /** One visible execution on a worn row. */
  lemma VisibleLap(row: Row, m: Meets, retries: nat, n: nat)
    requires n <= 4 && Worn(row, n) && m.visible
    ensures var (row', disposition) := Lap(row, m, retries);
            && (m.Fails() && n < 4 ==> Worn(row', n + 1) && disposition == Reschedule(retries))
            && (m.Fails() && n == 4 ==> row'.state.Dead? && disposition.Done?)
            && (!m.Fails() ==> disposition.Done? && row'.Terminal())
            && (row'.state.Delivered? <==> m.target == Active(None) && m.response.Ok?)
  {
  }

  /** An unseen row makes every execution a retry. */
  lemma {:induction false} BlindChain(row: Row, world: nat -> Meets, retries: nat, v: nat)
    requires retries <= v <= 6 && retries <= MAX_RETRIES
    requires forall i: nat :: i < v ==> !world(i).visible
    ensures v <= MAX_RETRIES ==>
              && RunChain(row, world, retries).row == RunChain(row, world, v).row
              && retries + RunChain(row, world, retries).executions == v + RunChain(row, world, v).executions
    ensures v == 6 ==>
              RunChain(row, world, retries).row == row && RunChain(row, world, retries).executions == 6 - retries
    decreases v - retries
  {
    if retries < v && retries < MAX_RETRIES {
      assert Lap(row, world(retries), retries) == (row, Reschedule(retries));
      BlindChain(row, world, retries + 1, v);
    }
  }

  /** How a chain with no overlapping job and no lost worker ends, when `v` executions found no row:
      it takes at most six executions and 155 seconds of countdowns; it leaves the delivery settled
      (delivered or dead) unless v is 2 to 5 and every later execution met a refusal, when the row is
      left retrying after 6 - v attempts, or the row never appeared. */
  lemma ChainOutcome(world: nat -> Meets)
    requires CommitsOnce(world)
    ensures var end := RunChain(FRESH, world, 0);
            var v := Blind(world, 6);
            && end.executions <= 6
            && end.waited == 5 * (Pow2(end.executions - 1) - 1) <= 155
            && (v == 6 ==> end.row == FRESH)
            && (end.row.Terminal() <==> v <= 1 || exists i: nat :: v <= i <= MAX_RETRIES && !world(i).Fails())
            && (2 <= v <= 5 && !end.row.Terminal() ==>
                  end.row.state.Retrying? && end.row.attemptCount == 6 - v && end.executions == 6)
            && (end.row.state.Delivered? <==>
                  var last := world(end.executions - 1);
                  last.visible && last.target == Active(None) && last.response.Ok?)
  {
    hide RunChain, Lap, Pow2, Blind;
    var v := Blind(world, 6);
    var end := RunChain(FRESH, world, 0);
    Pow2Table();
    ChainWait(FRESH, world, 0);
    BlindChain(FRESH, world, 0, v);
    if v <= MAX_RETRIES {
      SeenFrom(world, v);
      VisibleChain(FRESH, world, v, 0);
      assert end.executions - 1 == v + RunChain(FRESH, world, v).executions - 1;
    }
  }

  lemma SeenFrom(world: nat -> Meets, v: nat)
    requires CommitsOnce(world) && world(v).visible
    ensures forall i: nat :: i >= v ==> world(i).visible
  {
  }

  /** The recorded `next_retry_at` counts attempts while the countdown counts retries, so the
      recorded wait is twice the real one when the row was visible at once, exact after one blind
      execution, and too short after more. */
  lemma RecordedRetryTime(row: Row, m: Meets, retries: nat, n: nat)
    requires n < 4 && Worn(row, n) && m.Fails() && n <= retries < MAX_RETRIES
    ensures var (row', disposition) := Lap(row, m, retries);
            && disposition.Requeue? && row'.nextRetryAt.Some?
            && var recorded := row'.nextRetryAt.value - m.now;
            && (retries == n ==> recorded == 2 * disposition.countdown)
            && (retries == n + 1 ==> recorded == disposition.countdown)
            && (retries > n + 1 ==> recorded < disposition.countdown)
  {
    Pow2Table();
  }
}
