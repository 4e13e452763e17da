/** How many attempts a delivery can see, and when `delivered` is final, under every interleaving. */
module DeliveryBounds {
  import opened Wrappers
  import opened Delivery
  import opened DeliveryProtocol

  // ------------------------------------------------- posts that still matter

  /** How many attempts in flight are last ones. */
  function Lasts(posts: seq<Post>): nat {
    if posts == [] then 0 else Lasts(posts[1..]) + if posts[0].Last() then 1 else 0
  }

  /** How many can still reopen a settled row. */
  function Reopeners(posts: seq<Post>): nat {
    if posts == [] then 0 else Reopeners(posts[1..]) + if posts[0].Reopens() then 1 else 0
  }

  lemma {:induction false} CountJoin(a: seq<Post>, b: seq<Post>)
    ensures Lasts(a + b) == Lasts(a) + Lasts(b) && Reopeners(a + b) == Reopeners(a) + Reopeners(b)
  {
    if a == [] {
      assert a + b == b;
    } else {
      assert (a + b)[1..] == a[1..] + b;
      CountJoin(a[1..], b);
    }
  }

  lemma CountOne(p: Post)
    ensures Lasts([p]) == (if p.Last() then 1 else 0) && Reopeners([p]) == (if p.Reopens() then 1 else 0)
  {
  }

  lemma CountWithout(posts: seq<Post>, i: nat)
    requires i < |posts|
    ensures Lasts(posts) == Lasts(Without(posts, i)) + if posts[i].Last() then 1 else 0
    ensures Reopeners(posts) == Reopeners(Without(posts, i)) + if posts[i].Reopens() then 1 else 0
  {
    hide Lasts, Reopeners;
    assert posts == posts[..i] + ([posts[i]] + posts[i + 1..]);
    CountJoin(posts[..i], [posts[i]] + posts[i + 1..]);
    CountJoin([posts[i]], posts[i + 1..]);
    CountJoin(posts[..i], posts[i + 1..]);
    CountOne(posts[i]);
  }

  lemma {:induction false} CountFits(posts: seq<Post>)
    ensures Lasts(posts) + Reopeners(posts) <= |posts|
  {
    if posts != [] {
      CountFits(posts[1..]);
    }
  }

  // ------------------------------------------------- the budget

  /** k times n; there are at most four reopenings, and products of their number are written out. */
  function Times(k: nat, n: nat): nat {
    if k == 0 then 0 else n + Times(k - 1, n)
  }

  function UpToFour(k: nat, n: nat): nat {
    if k == 0 then 0 else if k == 1 then n else if k == 2 then 2 * n else if k == 3 then 3 * n else 4 * n
  }

  lemma {:induction false} TimesIs(k: nat, n: nat)
    ensures Times(k, n) == n * k
  {
    if k > 0 {
      TimesIs(k - 1, n);
      assert n * k == n + n * (k - 1);
    }
  }

  /** Attempts allowed if every settled stretch could be followed by w more. */
  function Gross(w: nat, revived: nat, reopened: nat, lost: nat): nat {
    4 + w + Times(revived, w) + UpToFour(reopened, w) + lost
  }

  /** Every reopening was in flight, and took a slot, in all the stretches before it; `open` can still come. */
  function Taken(reopened: nat, open: nat): nat {
    UpToFour(reopened, open) + Stairs(reopened)
  }

  /** 1 + ... + n, for n up to four. */
  function Stairs(n: nat): nat {
    if n == 0 then 0 else if n == 1 then 1 else if n == 2 then 3 else if n == 3 then 6 else 10
  }

  /** While the row is pending nothing was reopened; afterwards reopenings only use up reopeners. */
  ghost predicate Slots(s: System, w: nat) {
    var open := Reopeners(s.posting);
    if s.row.state.Pending? then s.reopened == 0 && open <= s.row.attemptCount && open <= 4
    else s.reopened + open <= 4 && s.reopened + open <= w
  }

  /** Past four attempts, a live row can take only the POSTs that still fit in flight, and a settled row none. */
  ghost predicate Budget(s: System, w: nat) {
    var gross, taken := Gross(w, s.revived, s.reopened, s.lost), Taken(s.reopened, Reopeners(s.posting));
    s.row.attemptCount <= 4 ||
    if s.row.Terminal() then s.row.attemptCount + taken + Reopeners(s.posting) <= gross
    else s.row.attemptCount + w - Lasts(s.posting) + taken <= gross
  }

  ghost predicate Limits(s: System, w: nat) {
    |s.posting| <= w && Slots(s, w) && Budget(s, w)
  }

  lemma GrossGrows(w: nat, revived: nat, reopened: nat, lost: nat)
    ensures Gross(w, revived + 1, reopened, lost) == Gross(w, revived, reopened, lost) + w
    ensures reopened < 4 ==> Gross(w, revived, reopened + 1, lost) == Gross(w, revived, reopened, lost) + w
    ensures Gross(w, revived, reopened, lost + 1) == Gross(w, revived, reopened, lost) + 1
  {
  }

  lemma TakenGrows(reopened: nat, open: nat)
    requires reopened <= 4
    ensures open > 0 && reopened < 4 ==> Taken(reopened + 1, open - 1) == Taken(reopened, open) + open
    ensures open > 0 ==> Taken(reopened, open - 1) + reopened == Taken(reopened, open)
  {
  }

  /** What is taken never exceeds what the reopenings add. */
  lemma TakenFits(w: nat, revived: nat, reopened: nat, lost: nat, open: nat)
    requires reopened + open <= 4 && (reopened + open <= w || reopened == 0)
    ensures 4 + w + Taken(reopened, open) <= Gross(w, revived, reopened, lost)
  {
  }

  /** The first transaction of a job takes a slot, and nothing else of the budget. */
  lemma StartKeepsLimits(s: System, i: nat, rejection: Option<string>, acked: bool, w: nat)
    requires Boundary(s) && Limits(s, w) && i < |s.queued| && |Started(s, i, rejection, acked).posting| <= w
    ensures Limits(Started(s, i, rejection, acked), w)
    ensures Started(s, i, rejection, acked).row.attemptCount >= s.row.attemptCount
  {
    hide Gross, Taken, Lasts, Reopeners, Handed, Waiting, InPost, Reschedule;
    var t := Started(s, i, rejection, acked);
    CountFits(s.posting);
    if t.posting != s.posting {
      var post := t.posting[|s.posting|];
      CountJoin(s.posting, [post]);
      CountOne(post);
      CountFits(t.posting);
      TakenFits(w, s.revived, s.reopened, s.lost, Reopeners(t.posting));
    }
  }

  lemma FinishKeepsLimits(s: System, i: nat, response: Response, now: int, acked: bool, w: nat)
    requires Boundary(s) && Limits(s, w) && i < |s.posting|
    ensures Limits(Finished(s, i, response, now, acked), w)
    ensures Finished(s, i, response, now, acked).row.attemptCount >= s.row.attemptCount
  {
    hide Gross, Taken, Lasts, Reopeners, Handed, Waiting, InPost, DispositionOf, Without;
    assert s.posting[i] in s.posting;
    WithoutLength(s.posting, i);
    CountWithout(s.posting, i);
    CountFits(s.posting);
    GrossGrows(w, s.revived, s.reopened, s.lost);
    TakenGrows(s.reopened, Reopeners(s.posting));
  }

  lemma LoseKeepsLimits(s: System, i: nat, w: nat)
    requires Limits(s, w) && i < |s.posting|
    ensures Limits(Next(s, Lose(i)).value, w)
  {
    hide Gross, Taken, Lasts, Reopeners, Without;
    WithoutLength(s.posting, i);
    CountWithout(s.posting, i);
    GrossGrows(w, s.revived, s.reopened, s.lost);
    TakenGrows(s.reopened, Reopeners(s.posting));
  }

  lemma CrashKeepsLimits(s: System, i: nat, w: nat)
    requires Limits(s, w) && i < |s.queued| + |s.posting|
    ensures Limits(Next(s, Crash(i)).value, w)
  {
    hide Budget, Slots;
    if i >= |s.queued| {
      LoseKeepsLimits(s, i - |s.queued|, w);
      SameLimits(Next(s, Lose(i - |s.queued|)).value, Next(s, Crash(i)).value, w);
    } else {
      SameLimits(s, Next(s, Crash(i)).value, w);
    }
  }

  lemma SameLimits(s: System, t: System, w: nat)
    requires Limits(s, w) && s.row == t.row && s.posting == t.posting
    requires s.revived == t.revived && s.reopened == t.reopened && s.lost == t.lost
    ensures Limits(t, w)
  {
    hide Gross, Taken, Lasts, Reopeners;
  }

  lemma LimitsStep(s: System, e: Event, w: nat)
    requires Boundary(s) && Limits(s, w)
    requires Next(s, e).Some? && |Next(s, e).value.posting| <= w
    ensures Limits(Next(s, e).value, w)
    ensures Next(s, e).value.row.attemptCount >= s.row.attemptCount
  {
    hide Gross, Taken, Lasts, Reopeners, Started, Finished, Waiting, InPost;
    match e
    case Start(i, rejection, acked) => StartKeepsLimits(s, i, rejection, acked, w);
    case Finish(i, response, now, acked) => FinishKeepsLimits(s, i, response, now, acked, w);
    case Lose(i) => LoseKeepsLimits(s, i, w);
    case Crash(i) => CrashKeepsLimits(s, i, w);
    case ManualRetry(_) =>
      GrossGrows(w, s.revived, s.reopened, s.lost);
      CountFits(s.posting);
    case _ =>
  }

  lemma {:induction false} LimitsAlways(s: System, es: seq<Event>, t: System, w: nat)
    requires Boundary(s) && Limits(s, w) && Reaches(s, es, t) && InFlightAtMost(s, es, w)
    ensures Boundary(t) && Limits(t, w) && t.row.attemptCount >= s.row.attemptCount
    decreases |es|
  {
    hide Boundary, Limits, Next;
    if es != [] {
      var s1 := Next(s, es[0]).value;
      BoundaryStep(s, es[0]);
      LimitsStep(s, es[0], w);
      LimitsAlways(s1, es[1..], t, w);
    }
  }

  lemma BudgetMeans(s: System, w: nat)
    requires Limits(s, w)
    ensures s.reopened <= 4 && s.reopened <= w
    ensures s.row.attemptCount + Stairs(s.reopened) <= Gross(w, s.revived, s.reopened, s.lost)
  {
    hide Gross, Stairs, Lasts, Reopeners;
    CountFits(s.posting);
    TakenFits(w, s.revived, s.reopened, s.lost, 0);
  }

  lemma GrossIs(w: nat, revived: nat, reopened: nat, lost: nat)
    requires reopened <= 4
    ensures Gross(w, revived, reopened, lost) == 4 + w * (1 + revived + reopened) + lost
    ensures Stairs(reopened) == reopened * (reopened + 1) / 2
  {
    TimesIs(revived, w);
    assert w * (1 + revived + reopened) == w + w * revived + w * reopened;
  }

  /** With at most w POSTs in flight at a time, D manual retries accepted on a dead row, K attempts
      whose outcome was never recorded and R refusals that reopened a settled row, R is at most 4 and at most w, and
      attempt_count equals the POSTs begun and is at most 4 + w * (1 + D + R) + K - R * (R + 1) / 2.
      Without overlap that is 5 + D + K, whatever R. */
  lemma AttemptBound(es: seq<Event>, t: System, w: nat)
    requires Reaches(INITIAL, es, t) && InFlightAtMost(INITIAL, es, w)
    ensures t.reopened <= 4 && t.reopened <= w
    ensures t.row.attemptCount == t.begun
    ensures t.begun <= 4 + w * (1 + t.revived + t.reopened) + t.lost - t.reopened * (t.reopened + 1) / 2
    ensures w == 1 ==> t.begun <= 5 + t.revived + t.lost
  {
    hide Boundary, Limits, Exec, InFlightAtMost;
    InitialLimits(w);
    LimitsAlways(INITIAL, es, t, w);
    BudgetMeans(t, w);
    GrossIs(w, t.revived, t.reopened, t.lost);
    CountedInBoundary(t);
  }

  lemma InitialLimits(w: nat)
    ensures Boundary(INITIAL) && Limits(INITIAL, w)
  {
  }

  lemma CountedInBoundary(s: System)
    requires Boundary(s)
    ensures s.row.attemptCount == s.begun
  {
  }
}
