/** Database-backed idempotency: acquire, act and complete inside one transaction, and why
    interleaved requests, aborts and the cleanup job amount to "run once, then replay". */
module Idempotency {
  import opened Wrappers
  import Json
  import Text

  type Body = string

  datatype RecordKey = RecordKey(scope: string, key: string)

  datatype Status = Processing | Completed

  datatype Record = Record(
    requestHash: string,
    status: Status,
    responseStatus: Option<int>,
    responseBody: Option<Body>,
    createdAt: int,
    expiresAt: int)

  datatype AcquireError = KeyReused | InProgress | Disappeared

  datatype Acquired = Owned | Replay(status: int, body: Body)

  function NewRecord(requestHash: string, now: int, ttlHours: int): Record {
    Record(requestHash, Processing, None, None, now, now + ttlHours * 3600)
  }

  function Done(record: Record, status: int, body: Body): Record {
    record.(status := Completed, responseStatus := Some(status), responseBody := Some(body))
  }

  /** What the SELECT after a unique-key conflict leads to. */
  function Lookup(table: map<RecordKey, Record>, key: RecordKey, requestHash: string): Result<Acquired, AcquireError> {
    if key !in table then Failure(Disappeared)
    else
      var record := table[key];
      if record.requestHash != requestHash then Failure(KeyReused)
      else if record.status.Completed? && record.responseStatus.Some? && record.responseBody.Some? then
        Success(Replay(record.responseStatus.value, record.responseBody.value))
      else Failure(InProgress)
  }

  /** Each committed record was completed by the transaction that inserted it. */
  ghost predicate AllCompleted(table: map<RecordKey, Record>) {
    forall k :: k in table ==>
      table[k].status.Completed? && table[k].responseStatus == Some(201) && table[k].responseBody.Some?
  }

  // ------------------------------------------------- the code, on one session

  datatype RequestError = Rejected(error: AcquireError) | ActionFailed

  class Session {
    var records: map<RecordKey, Record>
    var effects: seq<Body>

    constructor ()
      ensures records == map[] && effects == []
    {
      records, effects := map[], [];
    }

    method AcquireIdempotency(key: RecordKey, requestHash: string, now: int, ttlHours: int)
      returns (r: Result<Acquired, AcquireError>)
      modifies this`records
      ensures key !in old(records) ==>
                r == Success(Owned) && records == old(records)[key := NewRecord(requestHash, now, ttlHours)]
      ensures key in old(records) ==> r == Lookup(old(records), key, requestHash) && records == old(records)
      ensures key !in old(records) ==>
                && records.Keys == old(records).Keys + {key}
                && (forall k :: k in old(records) ==> records[k] == old(records)[k])
                && records[key].requestHash == requestHash && records[key].status == Processing
                && records[key].responseStatus == None && records[key].responseBody == None
                && records[key].createdAt == now && records[key].expiresAt == now + ttlHours * 3600
      ensures key in old(records) ==>
                var record := old(records)[key];
                && (record.requestHash != requestHash ==> r == Failure(KeyReused))
                && (record.requestHash == requestHash && record.status == Completed &&
                    record.responseStatus.Some? && record.responseBody.Some? ==>
                      r == Success(Replay(record.responseStatus.value, record.responseBody.value)))
                && (record.requestHash == requestHash &&
                    (record.status == Processing || record.responseStatus.None? || record.responseBody.None?) ==>
                      r == Failure(InProgress))
    {
      if key !in records {
        records := records[key := NewRecord(requestHash, now, ttlHours)];
        return Success(Owned);
      }
      var record := records[key];
      if record.requestHash != requestHash {
        return Failure(KeyReused);
      }
      if record.status.Completed? && record.responseStatus.Some? && record.responseBody.Some? {
        return Success(Replay(record.responseStatus.value, record.responseBody.value));
      }
      return Failure(InProgress);
    }

    method CompleteIdempotency(key: RecordKey, status: int, body: Body)
      requires key in records
      modifies this`records
      ensures records == old(records)[key := Done(old(records)[key], status, body)]
      ensures records.Keys == old(records).Keys
      ensures forall k :: k in records && k != key ==> records[k] == old(records)[k]
      ensures var before := old(records)[key];
              records[key] == Record(before.requestHash, Completed, Some(status), Some(body),
                                     before.createdAt, before.expiresAt)
    {
      var record := records[key];
      record := record.(status := Completed, responseStatus := Some(status), responseBody := Some(body));
      records := records[key := record];
    }

    /** One request from acquire to commit or rollback; `action` is what its use case does. */
    method Handle(key: RecordKey, requestHash: string, action: Option<Body>, now: int)
      returns (r: Result<Body, RequestError>)
      requires AllCompleted(records)
      modifies this
      ensures AllCompleted(records)
      ensures r.Failure? ==> records == old(records) && effects == old(effects)
      ensures key in old(records) ==>
                && effects == old(effects) && records == old(records)
                && (r.Success? <==> old(records)[key].requestHash == requestHash)
                && (r.Success? ==> Some(r.value) == old(records)[key].responseBody)
                && (r.Failure? ==> r.error == Rejected(KeyReused))
      ensures key !in old(records) ==>
                && (r.Success? <==> action.Some?)
                && (r.Success? ==>
                      && r.value == action.value
                      && effects == old(effects) + [r.value]
                      && records == old(records)[key := Record(requestHash, Completed, Some(201), Some(r.value),
                                                               now, now + 86_400)])
    {
      var savedRecords, savedEffects := records, effects;
      var acquired := AcquireIdempotency(key, requestHash, now, 24);
      if acquired.Failure? {
        records, effects := savedRecords, savedEffects;
        return Failure(Rejected(acquired.error));
      }
      match acquired.value
      case Replay(_, body) =>
        return Success(body);
      case Owned =>
        if action.None? {
          records, effects := savedRecords, savedEffects;
          return Failure(ActionFailed);
        }
        effects := effects + [action.value];
        CompleteIdempotency(key, 201, action.value);
        return Success(action.value);
    }
  }

  // ------------------------------------------------- interleaved transactions

  type TxId = nat

  /** Where an open request transaction stands. */
  datatype Stage =
    | Began                                   // before its INSERT ... ON CONFLICT DO NOTHING
    | Conflicting                             // the insert met a committed row; before its SELECT ... FOR UPDATE
    | Owning(record: Record)                  // holds an uncommitted record
    | Acted(record: Record, body: Body)       // the use case ran, uncommitted
    | Finished(record: Record, body: Body)    // the record is completed, uncommitted
    | Replaying(body: Body)                   // holds the row lock of a committed record

  datatype Tx = Tx(key: RecordKey, requestHash: string, stage: Stage) {
    /** An uncommitted insert of the key, which blocks every other insert of it. */
    predicate Inserted() { stage.Owning? || stage.Acted? || stage.Finished? }
  }

  /** What became durable, in commit order. */
  datatype Durable =
    | Served(key: RecordKey, requestHash: string, acted: bool, body: Body)
    | Expired(key: RecordKey)

  /** `clock` never goes back. */
  datatype System = System(
    committed: map<RecordKey, Record>, open: map<TxId, Tx>, history: seq<Durable>, clock: int)

  datatype Event =
    | Begin(tx: TxId, key: RecordKey, requestHash: string)
    | Insert(tx: TxId)
    | Select(tx: TxId)
    | Act(tx: TxId, body: Body)
    | Complete(tx: TxId)
    | Commit(tx: TxId)
    | Abort(tx: TxId)
    | Cleanup(keys: seq<RecordKey>)
    | Wait(until: int)

  const INITIAL := System(map[], map[], [], 0)

  predicate Blocked(s: System, key: RecordKey) {
    exists t :: t in s.open && s.open[t].key == key && s.open[t].Inserted()
  }

  predicate Locked(s: System, key: RecordKey) {
    exists t :: t in s.open && s.open[t].key == key && s.open[t].stage.Replaying?
  }

  function To(s: System, t: TxId, stage: Stage): System
    requires t in s.open
  {
    s.(open := s.open[t := s.open[t].(stage := stage)])
  }

  function Close(s: System, t: TxId): System {
    s.(open := s.open - {t})
  }

  /** The system after an event; None when the event is impossible or has to wait. */
  function Next(s: System, e: Event): Option<System> {
    match e
    case Begin(t, key, requestHash) =>
      if t in s.open then None else Some(s.(open := s.open[t := Tx(key, requestHash, Began)]))
    case Insert(t) =>
      if t !in s.open || !s.open[t].stage.Began? || Blocked(s, s.open[t].key) then None
      else if s.open[t].key in s.committed then Some(To(s, t, Conflicting))
      else Some(To(s, t, Owning(NewRecord(s.open[t].requestHash, s.clock, 24))))
    case Select(t) =>
      if t !in s.open || !s.open[t].stage.Conflicting? || Locked(s, s.open[t].key) then None
      else (match Lookup(s.committed, s.open[t].key, s.open[t].requestHash)
            case Success(Replay(_, body)) => Some(To(s, t, Replaying(body)))
            case _ => Some(Close(s, t)))
    case Act(t, body) =>
      if t in s.open && s.open[t].stage.Owning? then Some(To(s, t, Acted(s.open[t].stage.record, body))) else None
    case Complete(t) =>
      if t in s.open && s.open[t].stage.Acted? then
        var stage := s.open[t].stage;
        Some(To(s, t, Finished(Done(stage.record, 201, stage.body), stage.body)))
      else None
    case Commit(t) =>
      if t !in s.open then None
      else
        var tx := s.open[t];
        (match tx.stage
         case Finished(record, body) =>
           Some(Close(s.(committed := s.committed[tx.key := record],
                         history := s.history + [Served(tx.key, tx.requestHash, true, body)]), t))
         case Replaying(body) =>
           Some(Close(s.(history := s.history + [Served(tx.key, tx.requestHash, false, body)]), t))
         case _ => None)
    case Abort(t) =>
      if t in s.open then Some(Close(s, t)) else None
    case Cleanup(keys) =>
      if forall k :: k in keys ==> k in s.committed && s.committed[k].expiresAt < s.clock && !Locked(s, k) then
        Some(Dropped(s, keys))
      else None
    case Wait(until) => if until >= s.clock then Some(s.(clock := until)) else None
  }

  /** The cleanup's DELETE of these rows. */
  function Dropped(s: System, keys: seq<RecordKey>): System
    decreases |keys|
  {
    if keys == [] then s
    else
      var k := keys[0];
      var s' := if k in s.committed then s.(committed := s.committed - {k}, history := s.history + [Expired(k)]) else s;
      Dropped(s', keys[1..])
  }

  ghost predicate Reaches(s: System, es: seq<Event>, t: System)
    decreases |es|
  {
    if es == [] then s == t
    else Next(s, es[0]).Some? && Reaches(Next(s, es[0]).value, es[1..], t)
  }

  // ------------------------------------------------- the sequential map it refines

  datatype Entry = Entry(requestHash: string, body: Body)

  /** "Run once, then replay": a request acts exactly when its key is absent, otherwise it must
      present the stored hash and receives the stored body. */
  function Allowed(table: map<RecordKey, Entry>, d: Durable): Option<map<RecordKey, Entry>> {
    match d
    case Served(key, requestHash, acted, body) =>
      if key !in table then
        if acted then Some(table[key := Entry(requestHash, body)]) else None
      else if !acted && table[key] == Entry(requestHash, body) then Some(table)
      else None
    case Expired(key) =>
      if key in table then Some(table - {key}) else None
  }

  /** The table after a history that the sequential map allows. */
  function Replayed(history: seq<Durable>): Option<map<RecordKey, Entry>> {
    if history == [] then Some(map[])
    else match Replayed(history[..|history| - 1])
      case None => None
      case Some(table) => Allowed(table, history[|history| - 1])
  }

  function Abstract(table: map<RecordKey, Record>): map<RecordKey, Entry> {
    map k | k in table && table[k].responseBody.Some? :: Entry(table[k].requestHash, table[k].responseBody.value)
  }

  /** Committed records are complete; an inserting transaction is alone on its key and the key is
      not committed; a replaying one holds the committed row it read. */
  ghost predicate Inv(s: System) {
    && AllCompleted(s.committed)
    && Replayed(s.history) == Some(Abstract(s.committed))
    && OpenOk(s)
    && OneInserter(s)
  }

  ghost predicate TxOk(s: System, tx: Tx) {
    match tx.stage
    case Owning(record) => tx.key !in s.committed && record.requestHash == tx.requestHash
    case Acted(record, _) => tx.key !in s.committed && record.requestHash == tx.requestHash
    case Finished(record, body) =>
      && tx.key !in s.committed && record.requestHash == tx.requestHash
      && record.status.Completed? && record.responseStatus == Some(201) && record.responseBody == Some(body)
    case Replaying(body) =>
      && tx.key in s.committed && s.committed[tx.key].requestHash == tx.requestHash
      && s.committed[tx.key].responseBody == Some(body)
    case _ => true
  }

  lemma ReplayedAppend(history: seq<Durable>, d: Durable)
    requires Replayed(history).Some?
    ensures Replayed(history + [d]) == Allowed(Replayed(history).value, d)
  {
  }

  ghost predicate OpenOk(s: System) {
    forall t :: t in s.open ==> TxOk(s, s.open[t])
  }

  ghost predicate OneInserter(s: System) {
    forall t, u :: t in s.open && u in s.open && t != u && s.open[t].Inserted() && s.open[u].Inserted() ==>
                     s.open[t].key != s.open[u].key
  }

  lemma StageKeepsInv(s: System, t: TxId, tx: Tx)
    requires Inv(s) && TxOk(s, tx)
    requires tx.Inserted() ==> forall u :: u in s.open && u != t && s.open[u].Inserted() ==> s.open[u].key != tx.key
    ensures Inv(s.(open := s.open[t := tx]))
  {
  }

  lemma CloseKeepsInv(s: System, t: TxId)
    requires Inv(s)
    ensures Inv(Close(s, t))
  {
  }

  lemma AbstractInsert(table: map<RecordKey, Record>, key: RecordKey, record: Record)
    requires record.responseBody.Some?
    ensures Abstract(table[key := record]) ==
            Abstract(table)[key := Entry(record.requestHash, record.responseBody.value)]
  {
  }

  lemma OthersStayOk(s: System, t: TxId, record: Record, history: seq<Durable>)
    requires OpenOk(s) && OneInserter(s) && t in s.open && s.open[t].Inserted()
    requires s.open[t].key !in s.committed
    ensures OpenOk(Close(s.(committed := s.committed[s.open[t].key := record], history := history), t))
  {
  }

  lemma OwnerCommitKeepsInv(s: System, t: TxId)
    requires Inv(s) && t in s.open && s.open[t].stage.Finished?
    ensures Inv(Next(s, Commit(t)).value)
  {
    hide Replayed, Abstract, OpenOk;
    var tx := s.open[t];
    var record, body := tx.stage.record, tx.stage.body;
    assert TxOk(s, tx) by {
      FinishedOk(s, t);
    }
    var d := Served(tx.key, tx.requestHash, true, body);
    ReplayedAppend(s.history, d);
    AbstractKeys(s.committed);
    AbstractInsert(s.committed, tx.key, record);
    OthersStayOk(s, t, record, s.history + [d]);
  }

  lemma FinishedOk(s: System, t: TxId)
    requires OpenOk(s) && t in s.open
    ensures TxOk(s, s.open[t])
  {
  }

  lemma AbstractKeys(table: map<RecordKey, Record>)
    requires AllCompleted(table)
    ensures Abstract(table).Keys == table.Keys
  {
  }

  lemma ReplayCommitKeepsInv(s: System, t: TxId)
    requires Inv(s) && t in s.open && s.open[t].stage.Replaying?
    ensures Inv(Next(s, Commit(t)).value)
  {
    var tx := s.open[t];
    assert TxOk(s, tx);
    ReplayedAppend(s.history, Served(tx.key, tx.requestHash, false, tx.stage.body));
    var served := s.(history := s.history + [Served(tx.key, tx.requestHash, false, tx.stage.body)]);
    forall u | u in served.open
      ensures TxOk(served, served.open[u])
    {
      assert TxOk(s, s.open[u]);
    }
    CloseKeepsInv(served, t);
  }

  lemma {:induction false} CleanupKeepsInv(s: System, keys: seq<RecordKey>)
    requires Inv(s)
    requires forall k :: k in keys ==> !Locked(s, k)
    ensures Inv(Dropped(s, keys))
    decreases |keys|
  {
    if keys != [] {
      var k := keys[0];
      if k in s.committed {
        var s' := s.(committed := s.committed - {k}, history := s.history + [Expired(k)]);
        ReplayedAppend(s.history, Expired(k));
        assert Abstract(s'.committed) == Abstract(s.committed) - {k};
        forall u | u in s'.open
          ensures TxOk(s', s'.open[u])
        {
          assert TxOk(s, s.open[u]);
          assert !Locked(s, k);
        }
        assert forall j :: Locked(s', j) == Locked(s, j);
        CleanupKeepsInv(s', keys[1..]);
      } else {
        CleanupKeepsInv(s, keys[1..]);
      }
    }
  }

  lemma InsertKeepsInv(s: System, t: TxId)
    requires Inv(s) && Next(s, Insert(t)).Some?
    ensures Inv(Next(s, Insert(t)).value)
  {
    var tx := s.open[t];
    if tx.key in s.committed {
      StageKeepsInv(s, t, tx.(stage := Conflicting));
    } else {
      StageKeepsInv(s, t, tx.(stage := Owning(NewRecord(tx.requestHash, s.clock, 24))));
    }
  }

  lemma SelectKeepsInv(s: System, t: TxId)
    requires Inv(s) && Next(s, Select(t)).Some?
    ensures Inv(Next(s, Select(t)).value)
  {
    var tx := s.open[t];
    match Lookup(s.committed, tx.key, tx.requestHash)
    case Success(Replay(_, body)) => StageKeepsInv(s, t, tx.(stage := Replaying(body)));
    case _ => CloseKeepsInv(s, t);
  }

  lemma WorkKeepsInv(s: System, e: Event)
    requires Inv(s) && (e.Act? || e.Complete?) && Next(s, e).Some?
    ensures Inv(Next(s, e).value)
  {
    var tx := s.open[e.tx];
    assert TxOk(s, tx);
    match e
    case Act(t, body) => StageKeepsInv(s, t, tx.(stage := Acted(tx.stage.record, body)));
    case Complete(t) =>
      StageKeepsInv(s, t, tx.(stage := Finished(Done(tx.stage.record, 201, tx.stage.body), tx.stage.body)));
  }

  lemma WaitKeepsInv(s: System, until: int)
    requires Inv(s)
    ensures Inv(s.(clock := until))
  {
    var s' := s.(clock := until);
    assert forall t :: t in s'.open ==> TxOk(s, s.open[t]);
  }

  lemma StepKeepsInv(s: System, e: Event)
    requires Inv(s) && Next(s, e).Some?
    ensures Inv(Next(s, e).value)
  {
    match e
    case Begin(t, key, requestHash) =>
      assert Next(s, e).value == s.(open := s.open[t := Tx(key, requestHash, Began)]);
      StageKeepsInv(s, t, Tx(key, requestHash, Began));
    case Insert(t) => InsertKeepsInv(s, t);
    case Select(t) => SelectKeepsInv(s, t);
    case Act(t, body) => WorkKeepsInv(s, e);
    case Complete(t) => WorkKeepsInv(s, e);
    case Commit(t) =>
      if s.open[t].stage.Finished? {
        OwnerCommitKeepsInv(s, t);
      } else {
        ReplayCommitKeepsInv(s, t);
      }
    case Abort(t) => CloseKeepsInv(s, t);
    case Cleanup(keys) => CleanupKeepsInv(s, keys);
    case Wait(until) => WaitKeepsInv(s, until);
  }

  lemma {:induction false} InvAlways(s: System, es: seq<Event>, t: System)
    requires Inv(s) && Reaches(s, es, t)
    ensures Inv(t)
    decreases |es|
  {
    if es != [] {
      StepKeepsInv(s, es[0]);
      InvAlways(Next(s, es[0]).value, es[1..], t);
    }
  }

  /** Refinement: whatever the interleaving, what became durable is a run of the sequential map,
      and the committed table is that map. */
  lemma RefinesSequentialMap(es: seq<Event>, t: System)
    requires Reaches(INITIAL, es, t)
    ensures Replayed(t.history) == Some(Abstract(t.committed))
    ensures Abstract(t.committed).Keys == t.committed.Keys
  {
    InvAlways(INITIAL, es, t);
  }

  /** No request is ever told that its key is in progress: the record of an unfinished request is
      never visible to another one. */
  lemma NeverInProgress(es: seq<Event>, t: System, tx: TxId)
    requires Reaches(INITIAL, es, t) && tx in t.open
    ensures Lookup(t.committed, t.open[tx].key, t.open[tx].requestHash) != Failure(InProgress)
  {
    InvAlways(INITIAL, es, t);
  }

  // ------------------------------------------------- what the sequential map promises

  /** Entries i and j concern the key's same record: no expiry of it in between. */
  ghost predicate SameLifetime(history: seq<Durable>, key: RecordKey, i: nat, j: nat) {
    && i < |history| && j < |history|
    && forall m :: i <= m <= j || j <= m <= i ==> history[m] != Expired(key)
  }

  /** The stored entry is that of every request served since the key last expired. */
  lemma {:induction false} StoredIsServed(history: seq<Durable>, key: RecordKey, i: nat)
    requires Replayed(history).Some? && i < |history| && history[i].Served? && history[i].key == key
    requires forall m :: i <= m < |history| ==> history[m] != Expired(key)
    ensures var table := Replayed(history).value;
            key in table && table[key] == Entry(history[i].requestHash, history[i].body)
    decreases |history|
  {
    var init := history[..|history| - 1];
    if i < |init| {
      StoredIsServed(init, key, i);
    }
  }

  lemma {:induction false} PrefixAllowed(history: seq<Durable>, n: nat)
    requires Replayed(history).Some? && n <= |history|
    ensures Replayed(history[..n]).Some?
    decreases |history| - n
  {
    if n < |history| {
      PrefixAllowed(history, n + 1);
      assert history[..n + 1][..n] == history[..n];
    } else {
      assert history[..n] == history;
    }
  }

  /** Within one record lifetime all committed replies are identical and answer the same request,
      and only the first of them acted. */
  lemma ExactlyOncePerLifetime(es: seq<Event>, t: System, key: RecordKey, i: nat, j: nat)
    requires Reaches(INITIAL, es, t)
    requires i < j && SameLifetime(t.history, key, i, j)
    requires t.history[i].Served? && t.history[i].key == key && t.history[j].Served? && t.history[j].key == key
    ensures t.history[j].body == t.history[i].body && t.history[j].requestHash == t.history[i].requestHash
    ensures !t.history[j].acted
  {
    RefinesSequentialMap(es, t);
    var h := t.history;
    PrefixAllowed(h, j);
    PrefixAllowed(h, j + 1);
    assert h[..j + 1][..j] == h[..j];
    StoredIsServed(h[..j], key, i);
  }

  /** Every committed reply goes back to exactly one action of the same lifetime with the same hash and body. */
  lemma {:induction false} EveryReplyHasItsAction(history: seq<Durable>, key: RecordKey, j: nat) returns (i: nat)
    requires Replayed(history).Some? && j < |history| && history[j].Served? && history[j].key == key
    ensures i <= j && SameLifetime(history, key, i, j)
    ensures history[i] == Served(key, history[j].requestHash, true, history[j].body)
    decreases j
  {
    PrefixAllowed(history, j);
    PrefixAllowed(history, j + 1);
    assert history[..j + 1][..j] == history[..j];
    if history[j].acted {
      i := j;
    } else {
      var k := LastServed(history[..j], key);
      StoredIsServed(history[..j], key, k);
      i := EveryReplyHasItsAction(history, key, k);
    }
  }

  /** A stored key was last served after its last expiry. */
  lemma {:induction false} LastServed(history: seq<Durable>, key: RecordKey) returns (k: nat)
    requires Replayed(history).Some? && key in Replayed(history).value
    ensures k < |history| && history[k].Served? && history[k].key == key
    ensures forall m :: k <= m < |history| ==> history[m] != Expired(key)
    decreases |history|
  {
    var last := history[|history| - 1];
    if last.Served? && last.key == key {
      k := |history| - 1;
    } else {
      k := LastServed(history[..|history| - 1], key);
    }
  }

  /** Two payloads that are served under one key within a record lifetime, whether acting or replaying,
      are the same tree up to member order, or SHA-256 collides on their two canonical texts. */
  lemma OnePayloadPerLifetime(
    sha256: seq<Text.Byte> -> string, a: Json.Json, b: Json.Json,
    es: seq<Event>, t: System, key: RecordKey, i: nat, j: nat)
    requires Json.WellFormed(a) && Json.WellFormed(b)
    requires Reaches(INITIAL, es, t) && i < j && SameLifetime(t.history, key, i, j)
    requires t.history[i].Served? && t.history[i].key == key && t.history[i].requestHash == Json.RequestHash(sha256, a)
    requires t.history[j].Served? && t.history[j].key == key && t.history[j].requestHash == Json.RequestHash(sha256, b)
    ensures || Json.Same(a, b)
            || (&& Json.CanonicalBytes(a, false) != Json.CanonicalBytes(b, false)
                && sha256(Json.CanonicalBytes(a, false)) == sha256(Json.CanonicalBytes(b, false)))
  {
    hide Json.CanonicalBytes, Json.Same, Json.WellFormed, Reaches;
    ExactlyOncePerLifetime(es, t, key, i, j);
    Json.BytesDecideEquality(a, b, false);
  }

  // ------------------------------------------------- how long a reply is kept

  ghost predicate Dated(s: System) {
    && (forall k :: k in s.committed ==> s.committed[k].expiresAt == s.committed[k].createdAt + 86_400)
    && (forall t :: t in s.open && s.open[t].stage.Owning? ==> DayLong(s.open[t].stage.record))
    && (forall t :: t in s.open && s.open[t].stage.Acted? ==> DayLong(s.open[t].stage.record))
    && (forall t :: t in s.open && s.open[t].stage.Finished? ==> DayLong(s.open[t].stage.record))
  }

  predicate DayLong(record: Record) {
    record.expiresAt == record.createdAt + 86_400
  }

  lemma {:induction false} DroppedKeeps(s: System, keys: seq<RecordKey>, k: RecordKey)
    ensures Dropped(s, keys).committed.Keys <= s.committed.Keys
    ensures k in Dropped(s, keys).committed ==> Dropped(s, keys).committed[k] == s.committed[k]
    ensures k in s.committed && k !in keys ==> k in Dropped(s, keys).committed
    ensures Dropped(s, keys).open == s.open && Dropped(s, keys).clock == s.clock
    decreases |keys|
  {
    if keys != [] {
      var head := keys[0];
      var s' := if head in s.committed then
                  s.(committed := s.committed - {head}, history := s.history + [Expired(head)])
                else s;
      DroppedKeeps(s', keys[1..], k);
    }
  }

  lemma StepDated(s: System, e: Event)
    requires Dated(s) && Next(s, e).Some?
    ensures Dated(Next(s, e).value) && Next(s, e).value.clock >= s.clock
  {
    hide Lookup, Blocked, Locked, Dropped;
    if e.Cleanup? {
      var t := Dropped(s, e.keys);
      forall j | j in t.committed
        ensures j in s.committed && t.committed[j] == s.committed[j]
      {
        DroppedKeeps(s, e.keys, j);
      }
      DroppedKeeps(s, e.keys, RecordKey("", ""));
    }
  }

  /** Nothing replaces a committed record, and only the cleanup job removes it, after it expired. */
  lemma StepKeepsRecord(s: System, e: Event, k: RecordKey)
    requires Inv(s) && Next(s, e).Some? && k in s.committed
    ensures var t := Next(s, e).value;
            if k in t.committed then t.committed[k] == s.committed[k] else s.committed[k].expiresAt < s.clock
  {
    hide Replayed, Abstract, AllCompleted, OneInserter, Lookup, Blocked, Locked, Dropped;
    match e
    case Cleanup(keys) => DroppedKeeps(s, keys, k);
    case Commit(t) => assert TxOk(s, s.open[t]);
    case _ =>
  }

  /** A committed reply is kept, unchanged, for twenty-four hours after its request began, whatever happens. */
  lemma {:induction false} KeptForADay(s: System, es: seq<Event>, t: System, k: RecordKey)
    requires Inv(s) && Dated(s) && Reaches(s, es, t) && k in s.committed
    ensures Dated(t) && t.clock >= s.clock
    ensures t.clock <= s.committed[k].createdAt + 86_400 ==> k in t.committed && t.committed[k] == s.committed[k]
    decreases |es|
  {
    hide Inv, Next;
    if es != [] {
      var s1 := Next(s, es[0]).value;
      StepKeepsInv(s, es[0]);
      StepDated(s, es[0]);
      StepKeepsRecord(s, es[0], k);
      if k in s1.committed {
        KeptForADay(s1, es[1..], t, k);
      } else {
        ClockGrows(s1, es[1..], t);
      }
    }
  }

  lemma {:induction false} ClockGrows(s: System, es: seq<Event>, t: System)
    requires Dated(s) && Reaches(s, es, t)
    ensures Dated(t) && t.clock >= s.clock
    decreases |es|
  {
    hide Next;
    if es != [] {
      StepDated(s, es[0]);
      ClockGrows(Next(s, es[0]).value, es[1..], t);
    }
  }

  /** The open request inserted its record at clock c. */
  ghost predicate HoldsSince(s: System, tx: TxId, key: RecordKey, c: int) {
    && tx in s.open && s.open[tx].key == key && s.open[tx].Inserted()
    && s.open[tx].stage.record.createdAt == c && s.open[tx].stage.record.expiresAt == c + 86_400
  }

  predicate Ends(e: Event, tx: TxId) {
    e == Commit(tx) || e == Abort(tx)
  }

  lemma HoldsStep(s: System, e: Event, tx: TxId, key: RecordKey, c: int)
    requires HoldsSince(s, tx, key, c) && Next(s, e).Some? && !Ends(e, tx)
    ensures HoldsSince(Next(s, e).value, tx, key, c)
  {
    hide Lookup, Blocked, Locked, Dropped;
    if e.Cleanup? {
      DroppedKeeps(s, e.keys, key);
    }
  }

  lemma {:induction false} HoldsUntil(s: System, es: seq<Event>, t: System, tx: TxId, key: RecordKey, c: int)
    requires HoldsSince(s, tx, key, c) && Reaches(s, es, t) && forall e :: e in es ==> !Ends(e, tx)
    ensures HoldsSince(t, tx, key, c)
    decreases |es|
  {
    hide HoldsSince, Next;
    if es != [] {
      assert es[0] in es;
      HoldsStep(s, es[0], tx, key, c);
      HoldsUntil(Next(s, es[0]).value, es[1..], t, tx, key, c);
    }
  }

  lemma {:induction false} HistoryGrows(s: System, es: seq<Event>, t: System)
    requires Reaches(s, es, t)
    ensures s.history <= t.history
    decreases |es|
  {
    hide Next;
    if es != [] {
      StepGrows(s, es[0]);
      HistoryGrows(Next(s, es[0]).value, es[1..], t);
    }
  }

  lemma StepGrows(s: System, e: Event)
    requires Next(s, e).Some?
    ensures s.history <= Next(s, e).value.history
  {
    hide Lookup, Blocked, Locked, Dropped;
    if e.Cleanup? {
      DroppedGrows(s, e.keys);
    }
  }

  lemma {:induction false} DroppedGrows(s: System, keys: seq<RecordKey>)
    ensures s.history <= Dropped(s, keys).history
    decreases |keys|
  {
    if keys != [] {
      var head := keys[0];
      var s' := if head in s.committed then
                  s.(committed := s.committed - {head}, history := s.history + [Expired(head)])
                else s;
      DroppedGrows(s', keys[1..]);
    }
  }

  lemma {:induction false} DroppedExpires(s: System, keys: seq<RecordKey>, k: RecordKey, i: nat)
    requires |s.history| <= i < |Dropped(s, keys).history| && Dropped(s, keys).history[i] == Expired(k)
    ensures k in s.committed && k in keys
    decreases |keys|
  {
    if keys != [] {
      var head := keys[0];
      var s' := if head in s.committed then
                  s.(committed := s.committed - {head}, history := s.history + [Expired(head)])
                else s;
      DroppedGrows(s', keys[1..]);
      if i >= |s'.history| {
        DroppedExpires(s', keys[1..], k, i);
      }
    }
  }

  /** A record expires only after its time. */
  lemma StepExpires(s: System, e: Event, k: RecordKey, i: nat)
    requires Next(s, e).Some? && k in s.committed
    requires |s.history| <= i < |Next(s, e).value.history| && Next(s, e).value.history[i] == Expired(k)
    ensures s.committed[k].expiresAt < s.clock
  {
    hide Lookup, Blocked, Locked, Dropped;
    if e.Cleanup? {
      DroppedExpires(s, e.keys, k, i);
    }
  }

  lemma {:induction false} NotExpired(s: System, es: seq<Event>, t: System, k: RecordKey, i: nat)
    requires Inv(s) && Dated(s) && Reaches(s, es, t) && k in s.committed
    requires t.clock <= s.committed[k].expiresAt && |s.history| <= i < |t.history|
    ensures t.history[i] != Expired(k)
    decreases |es|
  {
    hide Inv, Dated, Next;
    if es != [] {
      var s1 := Next(s, es[0]).value;
      StepKeepsInv(s, es[0]);
      StepDated(s, es[0]);
      StepKeepsRecord(s, es[0], k);
      StepGrows(s, es[0]);
      HistoryGrows(s1, es[1..], t);
      ClockGrows(s1, es[1..], t);
      if i >= |s1.history| {
        NotExpired(s1, es[1..], t, k, i);
      } else if s1.history[i] == Expired(k) {
        StepExpires(s, es[0], k, i);
      }
    }
  }

  /** A key inserted at some clock by a request that commits: until a day after that clock, whatever
      happens, its record is there as committed and replays, and no expiry of it is recorded. */
  lemma ReplayableForADay(before: seq<Event>, s: System, tx: TxId, during: seq<Event>, m: System,
                          after: seq<Event>, t: System)
    requires Reaches(INITIAL, before, s)
    requires Next(s, Insert(tx)).Some? && s.open[tx].key !in s.committed
    requires Reaches(Next(s, Insert(tx)).value, during, m) && forall e :: e in during ==> !Ends(e, tx)
    requires Next(m, Commit(tx)).Some? && Reaches(Next(m, Commit(tx)).value, after, t)
    requires t.clock <= s.clock + 86_400
    ensures var key, committed := s.open[tx].key, Next(m, Commit(tx)).value;
            && key in committed.committed && key in t.committed
            && t.committed[key] == committed.committed[key]
            && t.committed[key].createdAt == s.clock && t.committed[key].expiresAt == s.clock + 86_400
            && t.committed[key].responseBody.Some?
            && Lookup(t.committed, key, t.committed[key].requestHash) ==
               Success(Replay(201, t.committed[key].responseBody.value))
            && forall i :: |committed.history| <= i < |t.history| ==> t.history[i] != Expired(key)
  {
    hide Reaches, Inv, Dated, Lookup;
    var key := s.open[tx].key;
    var s1, committed := Next(s, Insert(tx)).value, Next(m, Commit(tx)).value;
    HoldsUntil(s1, during, m, tx, key, s.clock);
    InitialOk();
    InvAlways(INITIAL, before, s);
    ClockGrows(INITIAL, before, s);
    StepKeepsInv(s, Insert(tx));
    StepDated(s, Insert(tx));
    InvAlways(s1, during, m);
    ClockGrows(s1, during, m);
    StepKeepsInv(m, Commit(tx));
    StepDated(m, Commit(tx));
    assert committed.committed[key] == m.open[tx].stage.record;
    KeptForADay(committed, after, t, key);
    CompletedAlways(committed);
    LookupCompleted(committed.committed, t.committed, key);
    forall i | |committed.history| <= i < |t.history|
      ensures t.history[i] != Expired(key)
    {
      NotExpired(committed, after, t, key, i);
    }
  }

  lemma InitialOk()
    ensures Inv(INITIAL) && Dated(INITIAL)
  {
  }

  lemma CompletedAlways(s: System)
    requires Inv(s)
    ensures AllCompleted(s.committed)
  {
  }

  lemma LookupCompleted(table: map<RecordKey, Record>, later: map<RecordKey, Record>, k: RecordKey)
    requires AllCompleted(table) && k in table && k in later && later[k] == table[k]
    ensures table[k].responseBody.Some?
    ensures Lookup(later, k, table[k].requestHash) == Success(Replay(201, table[k].responseBody.value))
  {
  }
}
