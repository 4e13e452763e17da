/** Everything that can happen to one webhook delivery, interleaved: the request that
    inserts and publishes it, the workers that run its jobs, lost workers, broker
    redelivery, manual retries and endpoint deactivation.  Every database transaction
    is one step; the POST is the gap between a `Start` and a `Finish`. */
module DeliveryProtocol {
  import opened Wrappers
  import opened Delivery

  /** A Celery message: its retry number, how often a worker began it, how often it was redelivered. */
  datatype Job = Job(retries: nat, runs: nat, losses: nat) {
    function Begun(): Job { this.(runs := runs + 1) }
    function Redelivered(): Job { this.(losses := losses + 1) }
    function Next(): Job { this.(retries := retries + 1) }
  }

  /** A POST in flight: its job, and the row as the session holds it since transaction 1. */
  datatype Post = Post(job: Job, loaded: Row) {
    /** A refusal of this attempt writes `dead`. */
    predicate Last() { loaded.attemptCount >= MAX_ATTEMPTS }

    /** A refusal of this attempt writes `retrying`, whatever the row says by then. */
    predicate Reopens() { loaded.state.Pending? && !Last() }
  }

  /** The emitting request: still open, committed, or rolled back. */
  datatype Phase = Open | Committed | RolledBack

  /** `row` is what the request inserted, visible to others once committed.  The last seven
      fields only record history: whether a job was published, POSTs begun, manual retries
      accepted on a dead row, refusals that turned a settled row back to retrying, attempts
      whose outcome was never recorded, jobs that ran out seeing no row, jobs that an
      unexpected exception ended. */
  datatype System = System(
    phase: Phase, row: Row, active: bool,
    queued: seq<Job>, posting: seq<Post>,
    published: bool, begun: nat, revived: nat, reopened: nat, lost: nat, starved: nat, crashed: nat)
  {
    function Visible(): Option<Row> { if phase.Committed? then Some(row) else None }
    function With(r: Option<Row>): System { if r.Some? then this.(row := r.value) else this }
  }

  /** `Crash` is an exception that the task does not retry, in transaction 1 of a waiting job or, after
      a POST, in transaction 2: it is rolled back and the job is gone.
      `acked` is false when the worker dies after its transaction and the broker hands the job out again. */
  datatype Event =
    | Publish | Commit | RollBack
    | Start(job: nat, rejection: Option<string>, acked: bool)
    | Finish(job: nat, response: Response, now: int, acked: bool)
    | Lose(job: nat)
    | Duplicate(job: nat)
    | Crash(job: nat)
    | ManualRetry(commits: bool)
    | Deactivate

  const INITIAL := System(Open, FRESH, true, [], [], false, 0, 0, 0, 0, 0, 0)

  function Without<T>(s: seq<T>, i: nat): seq<T>
    requires i < |s|
  {
    s[..i] + s[i + 1..]
  }

  /** The queue after a job ended with `disposition`, or was not acknowledged. */
  function Handed(queue: seq<Job>, job: Job, disposition: Disposition, acked: bool): seq<Job> {
    if !acked then queue + [job.Redelivered()]
    else if disposition.Requeue? then queue + [job.Next()]
    else queue
  }

  function TargetOf(s: System, rejection: Option<string>): Target {
    if s.active then Active(rejection) else Inactive
  }

  /** A worker takes a queued job and runs transaction 1. */
  function Started(s: System, i: nat, rejection: Option<string>, acked: bool): System
    requires i < |s.queued|
  {
    var job := s.queued[i].Begun();
    var rest := Without(s.queued, i);
    var (row, begun) := Begin(s.Visible(), TargetOf(s, rejection));
    match begun
    case Attempting =>
      s.With(row).(queued := rest, posting := s.posting + [Post(job, row.value)], begun := s.begun + 1)
    case Invisible =>
      var starved := acked && Reschedule(job.retries).Exhausted?;
      s.(queued := Handed(rest, job, Reschedule(job.retries), acked),
         starved := s.starved + if starved then 1 else 0)
    case _ =>
      s.With(row).(queued := Handed(rest, job, Done, acked))
  }

  /** The POST of an attempt returned: transaction 2, then the job's fate. */
  function Finished(s: System, i: nat, response: Response, now: int, acked: bool): System
    requires i < |s.posting|
  {
    var post := s.posting[i];
    var (row, outcome) := Record(s.Visible(), post.loaded, response, now);
    var t := s.With(row);
    t.(posting := Without(s.posting, i),
       queued := Handed(s.queued, post.job, DispositionOf(outcome, post.job.retries), acked),
       reopened := s.reopened + if s.row.Terminal() && !t.row.Terminal() then 1 else 0)
  }

  /** The messages out there: waiting, or held by a worker during its POST. */
  function JobAt(s: System, i: nat): Job
    requires i < |s.queued| + |s.posting|
  {
    if i < |s.queued| then s.queued[i] else s.posting[i - |s.queued|].job
  }

  /** The system after one event; None when the event cannot happen. */
  function Next(s: System, e: Event): Option<System> {
    match e
    case Publish =>
      if s.phase.Open? && !s.published then Some(s.(queued := s.queued + [Job(0, 0, 0)], published := true)) else None
    case Commit =>
      if s.phase.Open? && s.published then Some(s.(phase := Committed)) else None
    case RollBack =>
      if s.phase.Open? then Some(s.(phase := RolledBack)) else None
    case Start(i, rejection, acked) =>
      if i < |s.queued| then Some(Started(s, i, rejection, acked)) else None
    case Finish(i, response, now, acked) =>
      if i < |s.posting| then Some(Finished(s, i, response, now, acked)) else None
    case Lose(i) =>
      if i < |s.posting| then
        var job := s.posting[i].job;
        Some(s.(posting := Without(s.posting, i), queued := s.queued + [job.Redelivered()], lost := s.lost + 1))
      else None
    case Duplicate(i) =>
      if i < |s.queued| + |s.posting| then Some(s.(queued := s.queued + [JobAt(s, i).Redelivered()])) else None
    case Crash(i) =>
      if i < |s.queued| then Some(s.(queued := Without(s.queued, i), crashed := s.crashed + 1))
      else if i < |s.queued| + |s.posting| then
        Some(s.(posting := Without(s.posting, i - |s.queued|), lost := s.lost + 1, crashed := s.crashed + 1))
      else None
    case ManualRetry(commits) =>
      (match Retry(s.Visible(), TargetOf(s, None))
       case Failure(_) => None
       case Success(row) =>
         if commits then
           Some(s.(row := row, queued := s.queued + [Job(0, 0, 0)],
                   revived := s.revived + if s.row.state.Dead? then 1 else 0))
         else Some(s.(queued := s.queued + [Job(0, 0, 0)])))
    case Deactivate => Some(s.(active := false))
  }

  function Exec(s: System, es: seq<Event>): Option<System>
    decreases |es|
  {
    if es == [] then Some(s)
    else match Next(s, es[0])
      case None => None
      case Some(t) => Exec(t, es[1..])
  }

  ghost predicate Reaches(s: System, es: seq<Event>, t: System) {
    Exec(s, es) == Some(t)
  }

  /** No state along the run has more than `w` POSTs of the delivery in flight. */
  ghost predicate InFlightAtMost(s: System, es: seq<Event>, w: nat)
    decreases |es|
  {
    && |s.posting| <= w
    && (es != [] && Next(s, es[0]).Some? ==> InFlightAtMost(Next(s, es[0]).value, es[1..], w))
  }

  // ------------------------------------------------- the publish boundary

  /** A waiting job has used at most one execution per retry and redelivery. */
  ghost predicate Waiting(queue: seq<Job>) {
    forall j :: j in queue ==> j.retries <= MAX_RETRIES && j.runs <= j.retries + j.losses
  }

  ghost predicate InPost(job: Job) {
    job.retries <= MAX_RETRIES && job.runs <= job.retries + job.losses + 1
  }

  /** An attempt in flight loaded a live row and counted itself. */
  ghost predicate PostsOk(s: System) {
    forall p :: p in s.posting ==>
      InPost(p.job) && !p.loaded.Terminal() && 1 <= p.loaded.attemptCount <= s.row.attemptCount
  }

  /** Committed means published; nothing was attempted unless committed; attempts are counted;
      an untouched committed delivery still has its job unless some job used up all its
      executions before the commit, or crashed. */
  ghost predicate Boundary(s: System) {
    && (s.phase.Committed? ==> s.published)
    && (s.begun > 0 || s.posting != [] || s.row != FRESH ==> s.phase.Committed?)
    && s.row.attemptCount == s.begun
    && Waiting(s.queued)
    && PostsOk(s)
    && (s.published && s.row.state.Pending? && s.begun == 0 ==> s.queued != [] || s.starved + s.crashed > 0)
    && (!s.published ==> s.queued == [])
  }

  lemma HandedWaits(queue: seq<Job>, job: Job, d: Disposition, acked: bool)
    requires Waiting(queue) && InPost(job)
    requires d.Requeue? ==> job.retries < MAX_RETRIES
    ensures Waiting(Handed(queue, job, d, acked))
  {
  }

  lemma WithoutKeeps<T>(s: seq<T>, i: nat)
    requires i < |s|
    ensures forall x :: x in Without(s, i) ==> x in s
  {
  }

  lemma StartKeepsBoundary(s: System, i: nat, rejection: Option<string>, acked: bool)
    requires Boundary(s) && i < |s.queued|
    ensures Boundary(Started(s, i, rejection, acked))
  {
    hide Countdown, Without;
    var job := s.queued[i].Begun();
    var rest := Without(s.queued, i);
    WithoutKeeps(s.queued, i);
    WithoutLength(s.queued, i);
    assert s.queued[i] in s.queued;
    HandedWaits(rest, job, Reschedule(job.retries), acked);
    HandedWaits(rest, job, Done, acked);
  }

  lemma FinishKeepsBoundary(s: System, i: nat, response: Response, now: int, acked: bool)
    requires Boundary(s) && i < |s.posting|
    ensures Boundary(Finished(s, i, response, now, acked))
  {
    var post := s.posting[i];
    assert post in s.posting;
    WithoutKeeps(s.posting, i);
    HandedWaits(s.queued, post.job,
                DispositionOf(Record(s.Visible(), post.loaded, response, now).1, post.job.retries), acked);
  }

  lemma LoseKeepsBoundary(s: System, i: nat)
    requires Boundary(s) && i < |s.posting|
    ensures Boundary(Next(s, Lose(i)).value)
  {
    assert s.posting[i] in s.posting;
    WithoutKeeps(s.posting, i);
  }

  lemma CrashKeepsBoundary(s: System, i: nat)
    requires Boundary(s) && i < |s.queued| + |s.posting|
    ensures Boundary(Next(s, Crash(i)).value)
  {
    if i < |s.queued| {
      WithoutKeeps(s.queued, i);
    } else {
      WithoutKeeps(s.posting, i - |s.queued|);
    }
  }

  lemma DuplicateKeepsBoundary(s: System, i: nat)
    requires Boundary(s) && i < |s.queued| + |s.posting|
    ensures Boundary(Next(s, Duplicate(i)).value)
  {
    assert i < |s.queued| ==> s.queued[i] in s.queued;
    assert i >= |s.queued| ==> s.posting[i - |s.queued|] in s.posting;
  }

  lemma BoundaryStep(s: System, e: Event)
    requires Boundary(s) && Next(s, e).Some?
    ensures Boundary(Next(s, e).value)
  {
    hide Started, Finished, Without, JobAt;
    match e
    case Crash(i) => CrashKeepsBoundary(s, i);
    case Start(i, rejection, acked) => StartKeepsBoundary(s, i, rejection, acked);
    case Finish(i, response, now, acked) => FinishKeepsBoundary(s, i, response, now, acked);
    case Lose(i) => LoseKeepsBoundary(s, i);
    case Duplicate(i) => DuplicateKeepsBoundary(s, i);
    case _ =>
  }

  /** The publish boundary holds in every reachable state. */
  lemma {:induction false} BoundaryAlways(s: System, es: seq<Event>, t: System)
    requires Boundary(s) && Reaches(s, es, t)
    ensures Boundary(t)
    decreases |es|
  {
    if es != [] {
      BoundaryStep(s, es[0]);
      BoundaryAlways(Next(s, es[0]).value, es[1..], t);
    }
  }

  /** One job at most, until it ran out or settled the row. */
  ghost predicate Single(s: System) {
    |s.queued| + |s.posting| + s.starved + s.crashed <= if s.published then 1 else 0
  }

  lemma WithoutLength<T>(s: seq<T>, i: nat)
    requires i < |s|
    ensures |Without(s, i)| == |s| - 1
  {
  }

  lemma StartSingle(s: System, i: nat, rejection: Option<string>)
    requires Single(s) && i < |s.queued|
    ensures Single(Started(s, i, rejection, true))
  {
    hide Begin, Countdown, Without;
    WithoutLength(s.queued, i);
  }

  lemma FinishSingle(s: System, i: nat, response: Response, now: int)
    requires Single(s) && i < |s.posting|
    ensures Single(Finished(s, i, response, now, true))
  {
    hide Record, Countdown, Without;
    WithoutLength(s.posting, i);
  }

  lemma SingleStep(s: System, e: Event)
    requires Single(s) && Next(s, e).Some? && !e.ManualRetry? && Undisturbed([e])
    ensures Single(Next(s, e).value)
  {
    hide Started, Finished, Without;
    assert e in [e];
    match e
    case Start(i, rejection, _) => StartSingle(s, i, rejection);
    case Finish(i, response, now, _) => FinishSingle(s, i, response, now);
    case Crash(i) =>
      if i < |s.queued| {
        WithoutLength(s.queued, i);
      } else {
        WithoutLength(s.posting, i - |s.queued|);
      }
    case _ =>
  }

  lemma {:induction false} SingleAlways(s: System, es: seq<Event>, t: System)
    requires Single(s) && Reaches(s, es, t) && Undisturbed(es) && forall e :: e in es ==> !e.ManualRetry?
    ensures Single(t)
    decreases |es|
  {
    hide Single, Next;
    if es != [] {
      assert es[0] in es;
      SingleStep(s, es[0]);
      SingleAlways(Next(s, es[0]).value, es[1..], t);
    }
  }

  /** The boundary is exact: with nothing lost, redelivered or retried by hand, a committed delivery
      that was never touched has no job left if and only if its job ran out before the commit, or crashed. */
  lemma StrandedIff(es: seq<Event>, t: System)
    requires Reaches(INITIAL, es, t) && Undisturbed(es) && forall e :: e in es ==> !e.ManualRetry?
    requires t.phase.Committed? && t.row == FRESH
    ensures t.queued == [] && t.posting == [] <==> t.starved + t.crashed > 0
  {
    BoundaryAlways(INITIAL, es, t);
    SingleAlways(INITIAL, es, t);
  }

  /** Such a run exists: the request commits only after its job used all six executions. */
  lemma LateCommitStrands() returns (es: seq<Event>, t: System)
    ensures Reaches(INITIAL, es, t)
    ensures t.phase.Committed? && t.row == FRESH && t.queued == [] && t.posting == []
  {
    var miss := Start(0, None, true);
    var s1 := Next(INITIAL, Publish).value;
    var misses, s2 := BlindRun(s1, 0);
    es := [Publish] + misses + [Commit];
    t := Next(s2, Commit).value;
    ExecSplit(s1, misses, [Commit]);
    assert Exec(s2, [Commit]) == Some(t) by {
      assert [Commit][1..] == [];
    }
    assert es[0] == Publish && es[1..] == misses + [Commit];
  }

  lemma {:induction false} BlindRun(s: System, r: nat) returns (es: seq<Event>, t: System)
    requires s.phase.Open? && s.row == FRESH && s.posting == [] && s.published
    requires r <= MAX_RETRIES && |s.queued| == 1 && s.queued[0].retries == r
    ensures Reaches(s, es, t)
    ensures t.phase.Open? && t.row == FRESH && t.posting == [] && t.published && t.queued == []
    decreases MAX_RETRIES - r
  {
    var miss := Start(0, None, true);
    var s1 := Next(s, miss).value;
    if r == MAX_RETRIES {
      es, t := [miss], s1;
    } else {
      var rest;
      rest, t := BlindRun(s1, r + 1);
      es := [miss] + rest;
      assert es[1..] == rest;
    }
  }

  lemma {:induction false} ExecSplit(s: System, a: seq<Event>, b: seq<Event>)
    requires Exec(s, a).Some?
    ensures Exec(s, a + b) == Exec(Exec(s, a).value, b)
    decreases |a|
  {
    if a == [] {
      assert a + b == b;
    } else {
      assert (a + b)[1..] == a[1..] + b;
      ExecSplit(Next(s, a[0]).value, a[1..], b);
    }
  }

  // ------------------------------------------------- jobs of a request that never commits

  /** Executions left in the queue when nothing is redelivered. */
  function Fuel(queue: seq<Job>): int {
    if queue == [] then 0 else 6 - queue[0].retries + Fuel(queue[1..])
  }

  function StartsIn(es: seq<Event>): nat {
    if es == [] then 0 else StartsIn(es[1..]) + if es[0].Start? then 1 else 0
  }

  /** No worker is lost and the broker delivers each message once. */
  ghost predicate Undisturbed(es: seq<Event>) {
    forall e :: e in es ==> !e.Duplicate? && !e.Lose? && (e.Start? || e.Finish? ==> e.acked)
  }

  lemma {:induction false} FuelJoin(a: seq<Job>, b: seq<Job>)
    ensures Fuel(a + b) == Fuel(a) + Fuel(b)
  {
    if a == [] {
      assert a + b == b;
    } else {
      assert (a + b)[1..] == a[1..] + b;
      FuelJoin(a[1..], b);
    }
  }

  lemma FuelWithout(queue: seq<Job>, i: nat)
    requires i < |queue|
    ensures Fuel(queue) == Fuel(Without(queue, i)) + 6 - queue[i].retries
  {
    hide Fuel;
    assert queue == queue[..i] + ([queue[i]] + queue[i + 1..]);
    FuelJoin(queue[..i], [queue[i]] + queue[i + 1..]);
    FuelJoin([queue[i]], queue[i + 1..]);
    FuelJoin(queue[..i], queue[i + 1..]);
    FuelOne(queue[i]);
  }

  lemma FuelOne(job: Job)
    ensures Fuel([job]) == 6 - job.retries
  {
    assert [job][1..] == [];
  }

  lemma {:induction false} FuelSpent(s: System, es: seq<Event>, t: System)
    requires Boundary(s) && Reaches(s, es, t) && Undisturbed(es)
    requires !t.phase.Committed? && !s.phase.Committed?
    ensures t.row == FRESH && t.begun == 0 && t.posting == []
    ensures StartsIn(es) + Fuel(t.queued) <= Fuel(s.queued) + if t.published && !s.published then 6 else 0
    ensures s.published ==> t.published
    decreases |es|
  {
    if es != [] {
      var e := es[0];
      var s1 := Next(s, e).value;
      assert e in es;
      BoundaryStep(s, e);
      if e.Commit? {
        CommittedForGood(s1, es[1..], t);
      }
      FuelSpent(s1, es[1..], t);
      if e.Start? {
        var job := s.queued[e.job];
        FuelWithout(s.queued, e.job);
        FuelJoin(Without(s.queued, e.job), [job.Begun().Next()]);
      } else if e.Crash? {
        assert s.queued[e.job] in s.queued;
        FuelWithout(s.queued, e.job);
      } else if e.Publish? {
        FuelJoin(s.queued, [Job(0, 0, 0)]);
      }
    }
  }

  lemma {:induction false} CommittedForGood(s: System, es: seq<Event>, t: System)
    requires s.phase.Committed? && Reaches(s, es, t)
    ensures t.phase.Committed?
    decreases |es|
  {
    if es != [] {
      CommittedForGood(Next(s, es[0]).value, es[1..], t);
    }
  }

  /** A job whose request never commits runs at most six times and has no business effect:
      the row is untouched and no POST is ever made. */
  lemma OrphansStop(es: seq<Event>, t: System)
    requires Reaches(INITIAL, es, t) && !t.phase.Committed?
    ensures t.row == FRESH && t.begun == 0 && t.posting == []
    ensures Undisturbed(es) ==> StartsIn(es) <= 6
  {
    BoundaryAlways(INITIAL, es, t);
    if Undisturbed(es) {
      FuelSpent(INITIAL, es, t);
      FuelNonNegative(t.queued);
    }
  }

  lemma {:induction false} FuelNonNegative(queue: seq<Job>)
    requires Waiting(queue)
    ensures Fuel(queue) >= |queue|
  {
    if queue != [] {
      assert queue[0] in queue;
      FuelNonNegative(queue[1..]);
    }
  }
}
