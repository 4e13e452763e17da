/** Runs that reach the attempt bound, and the attempts that decide whether `delivered` is final. */
module DeliveryRuns {
  import opened Wrappers
  import opened Delivery
  import opened DeliveryProtocol
  import opened DeliveryBounds

  // ------------------------------------------------- joining runs

  lemma {:induction false} InFlightSplit(s: System, a: seq<Event>, b: seq<Event>, w: nat)
    requires Exec(s, a).Some?
    requires InFlightAtMost(s, a, w) && InFlightAtMost(Exec(s, a).value, b, w)
    ensures InFlightAtMost(s, a + b, w)
    decreases |a|
  {
    if a == [] {
      assert a + b == b;
    } else {
      assert (a + b)[1..] == a[1..] + b;
      InFlightSplit(Next(s, a[0]).value, a[1..], b, w);
    }
  }

  /** `es` leads from s to t with at most w POSTs in flight. */
  ghost predicate Path(s: System, es: seq<Event>, t: System, w: nat) {
    Reaches(s, es, t) && InFlightAtMost(s, es, w)
  }

  lemma Join(s: System, a: seq<Event>, m: System, b: seq<Event>, t: System, w: nat)
    requires Path(s, a, m, w) && Path(m, b, t, w)
    ensures Path(s, a + b, t, w)
  {
    ExecSplit(s, a, b);
    InFlightSplit(s, a, b, w);
  }

  lemma OneEvent(s: System, e: Event, w: nat)
    requires Next(s, e).Some? && |s.posting| <= w && |Next(s, e).value.posting| <= w
    ensures Path(s, [e], Next(s, e).value, w)
  {
    hide Next;
    var t := Next(s, e).value;
    assert [e][1..] == [];
    assert Exec(t, []) == Some(t) && InFlightAtMost(t, [], w);
  }

  lemma TwoEvents(s: System, e: Event, f: Event, w: nat)
    requires |s.posting| <= w && Next(s, e).Some? && |Next(s, e).value.posting| <= w
    requires Next(Next(s, e).value, f).Some? && |Next(Next(s, e).value, f).value.posting| <= w
    ensures Path(s, [e, f], Next(Next(s, e).value, f).value, w)
  {
    hide Next;
    OneEvent(s, e, w);
    OneEvent(Next(s, e).value, f, w);
    Join(s, [e], Next(s, e).value, [f], Next(Next(s, e).value, f).value, w);
    assert [e] + [f] == [e, f];
  }

  // ------------------------------------------------- the pieces

  const REFUSED := HttpError("")

  ghost predicate SameHistory(s: System, t: System) {
    s.phase == t.phase && s.active == t.active &&
    s.revived == t.revived && s.reopened == t.reopened && s.lost == t.lost
  }

  /** Attempts that can reopen the row, of jobs on their first execution. */
  ghost predicate Early(posts: seq<Post>) {
    forall p :: p in posts ==> p.Reopens() && p.job.retries == 0
  }

  /** A live row with one waiting job and `open` reopeners in flight. */
  ghost predicate Ready(s: System, open: nat) {
    && s.phase.Committed? && s.active && !s.row.Terminal()
    && |s.queued| == 1 && |s.posting| == open && Early(s.posting)
  }

  /** A dead row with `open` reopeners in flight and no job left. */
  ghost predicate Ended(s: System, open: nat) {
    && s.phase.Committed? && s.active && s.row.state.Dead?
    && s.queued == [] && |s.posting| == open && Early(s.posting)
  }

  /** The last attempts that `n` executions of a job begin, at a row that already saw `seen` of them. */
  ghost predicate Numbered(posts: seq<Post>, n: nat, state: State, seen: nat, retries: nat) {
    && |posts| == n
    && forall p :: p in posts ==>
         && p.loaded.state == state && seen < p.loaded.attemptCount <= seen + n && p.job.retries == retries
  }

  /** The waiting job is handed out once more, and the copy taken by a worker begins an attempt. */
  lemma StartOne(s: System, w: nat) returns (es: seq<Event>, t: System, job: Job)
    requires s.phase.Committed? && s.active && !s.row.Terminal() && |s.queued| == 1 && |s.posting| < w
    ensures Path(s, es, t, w) && SameHistory(s, t)
    ensures t.row == s.row.(attemptCount := s.row.attemptCount + 1)
    ensures |t.queued| == 1 && t.queued[0].retries == s.queued[0].retries
    ensures job.retries == s.queued[0].retries && t.posting == s.posting + [Post(job, t.row)]
  {
    var start := Start(0, None, true);
    var s1 := Next(s, Duplicate(0)).value;
    es, t, job := [Duplicate(0), start], Next(s1, start).value, s.queued[0].Begun();
    TwoEvents(s, Duplicate(0), start, w);
  }

  lemma {:induction false} StartPosts(s: System, n: nat, w: nat) returns (es: seq<Event>, t: System, posts: seq<Post>)
    requires s.phase.Committed? && s.active && !s.row.Terminal() && |s.queued| == 1 && |s.posting| + n <= w
    ensures Path(s, es, t, w) && SameHistory(s, t)
    ensures t.row == s.row.(attemptCount := s.row.attemptCount + n)
    ensures |t.queued| == 1 && t.queued[0].retries == s.queued[0].retries
    ensures t.posting == s.posting + posts
    ensures Numbered(posts, n, s.row.state, s.row.attemptCount, s.queued[0].retries)
    decreases n
  {
    hide Path;
    if n == 0 {
      es, t, posts := [], s, [];
      NoEvent(s, w);
    } else {
      var one, s1, job := StartOne(s, w);
      var more, rest;
      more, t, rest := StartPosts(s1, n - 1, w);
      es, posts := one + more, [Post(job, s1.row)] + rest;
      Join(s, one, s1, more, t, w);
      assert t.posting == s.posting + posts;
    }
  }

  lemma NoEvent(s: System, w: nat)
    requires |s.posting| <= w
    ensures Path(s, [], s, w)
  {
  }

  /** The waiting job finds a target that is rejected. */
  lemma Kill(s: System, w: nat) returns (es: seq<Event>, t: System)
    requires s.phase.Committed? && s.active && !s.row.Terminal() && |s.queued| == 1 && |s.posting| <= w
    ensures Path(s, es, t, w) && SameHistory(s, t)
    ensures t.row.state.Dead? && t.row.attemptCount == s.row.attemptCount && t.queued == [] && t.posting == s.posting
  {
    var rejected := Start(0, Some(""), true);
    es, t := [rejected], Next(s, rejected).value;
    OneEvent(s, rejected, w);
  }

  /** All last attempts of a dead row fail. */
  lemma {:induction false} FailLasts(s: System, open: nat, w: nat) returns (es: seq<Event>, t: System)
    requires s.phase.Committed? && s.active && s.row.state.Dead? && s.queued == []
    requires open <= |s.posting| <= w && Early(s.posting[..open])
    requires forall p :: p in s.posting[open..] ==> p.Last() && !p.loaded.Terminal()
    ensures Path(s, es, t, w) && SameHistory(s, t)
    ensures Ended(t, open) && t.row.attemptCount == s.row.attemptCount
    decreases |s.posting|
  {
    hide Path;
    if |s.posting| == open {
      es, t := [], s;
      NoEvent(s, w);
      assert s.posting[..open] == s.posting;
    } else {
      var fail := Finish(open, REFUSED, 0, true);
      var s1 := Next(s, fail).value;
      assert s.posting[open] == s.posting[open..][0];
      OneEvent(s, fail, w);
      assert s1.posting[..open] == s.posting[..open];
      assert s1.posting[open..] == s.posting[open..][1..];
      var more;
      more, t := FailLasts(s1, open, w);
      es := [fail] + more;
      Join(s, [fail], s1, more, t, w);
    }
  }

  /** `n` last attempts overlap, the row dies, and they fail. */
  lemma Burst(s: System, open: nat, n: nat, w: nat) returns (es: seq<Event>, t: System)
    requires Ready(s, open) && open + n <= w && (n > 0 ==> s.row.attemptCount >= 4)
    ensures Path(s, es, t, w) && SameHistory(s, t)
    ensures Ended(t, open) && t.row.attemptCount == s.row.attemptCount + n
  {
    hide Path;
    var starts, s1, posts := StartPosts(s, n, w);
    var kill, s2 := Kill(s1, w);
    assert s2.posting[..open] == s.posting && s2.posting[open..] == posts;
    var fails;
    fails, t := FailLasts(s2, open, w);
    es := starts + kill + fails;
    Join(s, starts, s1, kill, s2, w);
    Join(s, starts + kill, s2, fails, t, w);
  }

  /** A reopener fails: the dead row is retrying again. */
  lemma Reopen(s: System, open: nat, w: nat) returns (es: seq<Event>, t: System)
    requires Ended(s, open) && 1 <= open <= w
    ensures Path(s, es, t, w)
    ensures Ready(t, open - 1) && t.queued[0].retries == 1 && t.row.attemptCount == s.row.attemptCount
    ensures t.revived == s.revived && t.lost == s.lost && t.reopened == s.reopened + 1
  {
    var fail := Finish(0, REFUSED, 0, true);
    assert s.posting[0] in s.posting;
    es, t := [fail], Next(s, fail).value;
    OneEvent(s, fail, w);
    assert t.posting == s.posting[1..];
  }

  function Triangle(n: nat): nat {
    n * (n + 1) / 2
  }

  lemma TriangleStep(n: nat)
    ensures Triangle(0) == 0 && Triangle(n + 1) == Triangle(n) + n + 1
  {
    assert (n + 1) * (n + 2) == n * (n + 1) + 2 * (n + 1);
  }

  function Sum(w: nat, open: nat): nat
    requires open <= w
  {
    if open == 0 then w else w - open + Sum(w, open - 1)
  }

  lemma {:induction false} SumIs(w: nat, open: nat)
    requires open <= w
    ensures Sum(w, open) == w * (open + 1) - Triangle(open)
  {
    hide Triangle;
    TriangleStep(if open == 0 then 0 else open - 1);
    if open > 0 {
      SumIs(w, open - 1);
      assert w * (open + 1) == w * open + w;
    }
  }

  /** Every reopener is used in turn, each time after as many last attempts as fit. */
  lemma {:induction false} Stretches(s: System, open: nat, w: nat) returns (es: seq<Event>, t: System)
    requires Ready(s, open) && open <= w && s.row.attemptCount >= 4
    ensures Path(s, es, t, w) && Ended(t, 0)
    ensures t.row.attemptCount == s.row.attemptCount + Sum(w, open)
    ensures t.revived == s.revived && t.lost == s.lost && t.reopened == s.reopened + open
    decreases open
  {
    hide Path, Ready, Ended;
    es, t := Burst(s, open, w - open, w);
    if open > 0 {
      var reopen, s2 := Reopen(t, open, w);
      Join(s, es, t, reopen, s2, w);
      var more, end := Stretches(s2, open - 1, w);
      Join(s, es + reopen, s2, more, end, w);
      es, t := es + reopen + more, end;
    }
  }

  /** Attempts one after the other, all refused, up to the fourth. */
  lemma {:induction false} FailUpToFour(s: System, open: nat, w: nat) returns (es: seq<Event>, t: System)
    requires Ready(s, open) && open < w && s.row.attemptCount <= 4
    requires s.queued[0].retries + 4 <= MAX_RETRIES + s.row.attemptCount
    ensures Path(s, es, t, w) && SameHistory(s, t)
    ensures Ready(t, open) && t.row.attemptCount == 4
    decreases 4 - s.row.attemptCount
  {
    hide Path;
    if s.row.attemptCount == 4 {
      es, t := [], s;
      NoEvent(s, w);
    } else {
      var start, fail := Start(0, None, true), Finish(open, REFUSED, 0, true);
      var s1 := Next(s, start).value;
      var s2 := Next(s1, fail).value;
      TwoEvents(s, start, fail, w);
      assert s2.posting == s.posting;
      var more;
      more, t := FailUpToFour(s2, open, w);
      es := [start, fail] + more;
      Join(s, [start, fail], s2, more, t, w);
    }
  }

  lemma {:induction false} LoseMany(s: System, open: nat, k: nat, w: nat) returns (es: seq<Event>, t: System)
    requires Ready(s, open) && open < w
    ensures Path(s, es, t, w) && Ready(t, open)
    ensures t.row.attemptCount == s.row.attemptCount + k
    ensures t.revived == s.revived && t.reopened == s.reopened && t.lost == s.lost + k
    decreases k
  {
    hide Path;
    if k == 0 {
      es, t := [], s;
      NoEvent(s, w);
    } else {
      var start := Start(0, None, true);
      var s1 := Next(s, start).value;
      var s2 := Next(s1, Lose(open)).value;
      TwoEvents(s, start, Lose(open), w);
      assert s2.posting == s.posting;
      var more;
      more, t := LoseMany(s2, open, k - 1, w);
      es := [start, Lose(open)] + more;
      Join(s, [start, Lose(open)], s2, more, t, w);
    }
  }

  lemma {:induction false} ReviveMany(s: System, d: nat, w: nat) returns (es: seq<Event>, t: System)
    requires Ended(s, 0) && s.row.attemptCount >= 4
    ensures Path(s, es, t, w)
    ensures t.row.attemptCount == s.row.attemptCount + w * d
    ensures t.revived == s.revived + d && t.reopened == s.reopened && t.lost == s.lost
    decreases d
  {
    hide Path;
    if d == 0 {
      es, t := [], s;
      NoEvent(s, w);
    } else {
      var s1 := Next(s, ManualRetry(true)).value;
      OneEvent(s, ManualRetry(true), w);
      var burst, s2 := Burst(s1, 0, w, w);
      Join(s, [ManualRetry(true)], s1, burst, s2, w);
      var more;
      more, t := ReviveMany(s2, d - 1, w);
      es := [ManualRetry(true)] + burst + more;
      Join(s, [ManualRetry(true)] + burst, s2, more, t, w);
      assert w * d == w * (d - 1) + w;
    }
  }

  // ------------------------------------------------- the bound is attained

  /** r attempts in flight at the pending row, then as many refusals as it takes to count four. */
  lemma Opening(w: nat, r: nat) returns (es: seq<Event>, t: System, open: nat)
    requires w >= 1 && r <= 4 && r <= w
    ensures Path(INITIAL, es, t, w) && Ready(t, open) && open < w && t.row.attemptCount == 4
    ensures t.revived == 0 && t.lost == 0 && t.reopened + open == r
    ensures Sum(w, open) == Sum(w, r)
  {
    hide Path;
    var s1 := Next(Next(INITIAL, Publish).value, Commit).value;
    TwoEvents(INITIAL, Publish, Commit, w);
    var starts, s2, posts := StartPosts(s1, r, w);
    es := [Publish, Commit] + starts;
    Join(INITIAL, [Publish, Commit], s1, starts, s2, w);
    open := r;
    if r == w {
      var kill, s3 := Burst(s2, r, 0, w);
      var reopen, s4 := Reopen(s3, r, w);
      Join(INITIAL, es, s2, kill, s3, w);
      Join(INITIAL, es + kill, s3, reopen, s4, w);
      es, s2, open := es + kill + reopen, s4, r - 1;
    }
    var fails;
    fails, t := FailUpToFour(s2, open, w);
    Join(INITIAL, es, s2, fails, t, w);
    es := es + fails;
  }

  /** The bound is attained for every number of overlapping POSTs, revivals, losses and reopenings. */
  lemma BoundAttained(w: nat, d: nat, k: nat, r: nat) returns (es: seq<Event>, t: System)
    requires w >= 1 && r <= 4 && r <= w
    ensures Reaches(INITIAL, es, t) && InFlightAtMost(INITIAL, es, w)
    ensures t.revived == d && t.lost == k && t.reopened == r
    ensures t.row.attemptCount == 4 + w * (1 + d + r) + k - r * (r + 1) / 2
  {
    hide Ready, Ended, Sum;
    var opening, s1, open := Opening(w, r);
    var losses, s2 := LoseMany(s1, open, k, w);
    Join(INITIAL, opening, s1, losses, s2, w);
    var stretches, s3 := Stretches(s2, open, w);
    Join(INITIAL, opening + losses, s2, stretches, s3, w);
    var revivals;
    revivals, t := ReviveMany(s3, d, w);
    es := opening + losses + stretches + revivals;
    Join(INITIAL, opening + losses + stretches, s3, revivals, t, w);
    SumIs(w, r);
    assert w * (1 + d + r) == w * (r + 1) + w * d;
  }

  // ------------------------------------------------- what an attempt leaves

  /** Nobody begins or finishes an attempt, and no manual retry is committed. */
  ghost predicate Quiet(es: seq<Event>) {
    forall e :: e in es ==> !e.Start? && !e.Finish? && !(e.ManualRetry? && e.commits)
  }

  lemma {:induction false} QuietKeeps(s: System, es: seq<Event>, t: System)
    requires s.phase.Committed? && Quiet(es) && Reaches(s, es, t)
    ensures t.row == s.row && t.phase.Committed?
    decreases |es|
  {
    hide Without, Retry;
    if es != [] {
      assert es[0] in es;
      QuietKeeps(Next(s, es[0]).value, es[1..], t);
    }
  }

  /** An attempt that begins, is left alone, and finishes: a success leaves its status, no error and no
      schedule, whatever earlier attempts left; a refusal leaves the message and the delay of its number. */
  lemma AttemptShows(s: System, i: nat, acked: bool, quiet: seq<Event>, m: System, j: nat,
                     response: Response, now: int, settled: bool)
    requires s.phase.Committed? && s.active && !s.row.Terminal() && i < |s.queued|
    requires var begun := Next(s, Start(i, None, acked)).value;
             Quiet(quiet) && Reaches(begun, quiet, m) && j < |m.posting| && m.posting[j].loaded == begun.row
    ensures var n, row := s.row.attemptCount + 1, Next(m, Finish(j, response, now, settled)).value.row;
            && (response.Ok? ==> row == Row(Delivered, n, Some(response.status), None, None))
            && (response.HttpError? ==>
                  var text := response.message;
                  var error := Some(if |text| <= 2000 then text else text[..2000]);
                  row == if n >= 5 then Row(Dead, n, s.row.responseStatus, error, s.row.nextRetryAt)
                         else Row(Retrying, n, s.row.responseStatus, error, Some(now + [5, 10, 20, 40, 80][n])))
  {
    hide Without, Handed, Record, Exec;
    var begun := Next(s, Start(i, None, acked)).value;
    QuietKeeps(begun, quiet, m);
    RecordAlone(begun.row, response, now);
  }

  // ------------------------------------------------- when a delivery is final

  /** A refusal of this attempt changes a delivered row. */
  predicate Overwrites(p: Post) {
    p.loaded.state.Pending? || p.Last()
  }

  /** Delivered, and every attempt in flight loaded a retrying row and is not a last one. */
  ghost predicate Final(s: System) {
    && s.row.state.Delivered? && s.phase.Committed?
    && forall p :: p in s.posting ==> p.loaded.state.Retrying? && !p.Last()
  }

  lemma FinalStep(s: System, e: Event)
    requires Final(s) && Next(s, e).Some?
    ensures Final(Next(s, e).value)
  {
    hide Handed, Countdown, Reschedule, Pow2, Truncated;
    if e.Finish? || e.Lose? {
      assert s.posting[e.job] in s.posting;
      WithoutKeeps(s.posting, e.job);
    } else if e.Crash? && e.job >= |s.queued| {
      WithoutKeeps(s.posting, e.job - |s.queued|);
    }
  }

  lemma {:induction false} FinalStays(s: System, es: seq<Event>, t: System)
    requires Final(s) && Reaches(s, es, t)
    ensures Final(t)
    decreases |es|
  {
    hide Final, Next;
    if es != [] {
      FinalStep(s, es[0]);
      FinalStays(Next(s, es[0]).value, es[1..], t);
    }
  }

  /** A delivered row stays delivered in every continuation if and only if no attempt in flight loaded
      `pending` or is a last one: transaction 2 writes the state it wants unless that is the one it loaded. */
  lemma DeliveredFinalIff(before: seq<Event>, s: System)
    requires Reaches(INITIAL, before, s) && s.row.state.Delivered?
    ensures (forall es, t :: Reaches(s, es, t) ==> t.row.state.Delivered?) <==>
            (forall p :: p in s.posting ==> !Overwrites(p))
  {
    BoundaryAlways(INITIAL, before, s);
    if forall p :: p in s.posting ==> !Overwrites(p) {
      forall es, t | Reaches(s, es, t)
        ensures t.row.state.Delivered?
      {
        FinalStays(s, es, t);
      }
    } else {
      var p :| p in s.posting && Overwrites(p);
      var i :| 0 <= i < |s.posting| && s.posting[i] == p;
      var undo := Finish(i, REFUSED, 0, true);
      OneEvent(s, undo, |s.posting|);
      assert Reaches(s, [undo], Next(s, undo).value) && !Next(s, undo).value.row.state.Delivered?;
    }
  }

  /** Two attempts overlap, and one of them is delivered while the other is still in flight. */
  lemma DeliverOneOfTwo(s: System) returns (es: seq<Event>, t: System)
    requires s.phase.Committed? && s.active && !s.row.Terminal() && |s.queued| == 1 && s.posting == []
    ensures Path(s, es, t, 2) && t.phase.Committed? && t.row.state.Delivered?
    ensures |t.posting| == 1 && t.posting[0].loaded.state == s.row.state
    ensures t.posting[0].loaded.attemptCount <= s.row.attemptCount + 2
  {
    hide Path, Next;
    var starts, m, posts := StartPosts(s, 2, 2);
    assert posts[0] in posts && posts[1] in posts && m.posting == posts;
    var ok := Finish(1, Ok(200), 0, true);
    t := DeliverSecond(m);
    OneEvent(m, ok, 2);
    Join(s, starts, m, [ok], t, 2);
    es := starts + [ok];
  }

  lemma DeliverSecond(s: System) returns (t: System)
    requires s.phase.Committed? && |s.posting| == 2 && !s.posting[1].loaded.Terminal()
    ensures Next(s, Finish(1, Ok(200), 0, true)) == Some(t)
    ensures t.phase.Committed? && t.row.state.Delivered? && t.posting == [s.posting[0]]
  {
    hide Handed, DispositionOf;
    t := Next(s, Finish(1, Ok(200), 0, true)).value;
  }

  /** Two overlapping attempts of the pending row: one is delivered, the other is refused, and the row
      is retrying. */
  lemma OverlapUndoes() returns (es: seq<Event>, s: System, undo: Event)
    ensures Reaches(INITIAL, es, s) && s.row.state.Delivered?
    ensures Next(s, undo).Some? && Next(s, undo).value.row.state.Retrying?
  {
    hide Exec, InFlightAtMost;
    var s1 := Next(Next(INITIAL, Publish).value, Commit).value;
    TwoEvents(INITIAL, Publish, Commit, 2);
    var overlap;
    overlap, s := DeliverOneOfTwo(s1);
    Join(INITIAL, [Publish, Commit], s1, overlap, s, 2);
    es, undo := [Publish, Commit] + overlap, Finish(0, REFUSED, 0, true);
  }

  /** The first attempt, refused. */
  lemma AfterRefusal() returns (es: seq<Event>, s: System)
    ensures Path(INITIAL, es, s, 2)
    ensures s.phase.Committed? && s.active && |s.queued| == 1 && s.posting == []
    ensures s.row.state.Retrying? && s.row.attemptCount == 1
  {
    var start, fail := Start(0, None, true), Finish(0, REFUSED, 0, true);
    var s1 := Next(Next(INITIAL, Publish).value, Commit).value;
    s := Next(Next(s1, start).value, fail).value;
    TwoEvents(INITIAL, Publish, Commit, 2);
    TwoEvents(s1, start, fail, 2);
    es := [Publish, Commit] + [start, fail];
    Join(INITIAL, [Publish, Commit], s1, [start, fail], s, 2);
  }

  /** The same overlap after a first refusal: the row stays delivered although an attempt is in flight. */
  lemma OverlapHarmless() returns (es: seq<Event>, s: System)
    ensures Reaches(INITIAL, es, s) && s.row.state.Delivered? && s.posting != []
    ensures forall more, t :: Reaches(s, more, t) ==> t.row.state.Delivered?
  {
    hide Exec, InFlightAtMost, Next;
    var refusal, s1 := AfterRefusal();
    var overlap;
    overlap, s := DeliverOneOfTwo(s1);
    Join(INITIAL, refusal, s1, overlap, s, 2);
    es := refusal + overlap;
    assert Reaches(INITIAL, es, s);
    DeliveredFinalIff(es, s);
  }
}
