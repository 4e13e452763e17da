/** The Redis token bucket: its Lua transition, the caller that validates the
    configuration, and what the limiter promises over whole request traces.

    Tokens are scaled by the window: a level of `WindowMs()` is one token, so a
    refill of `elapsed` milliseconds adds `elapsed * capacity` and the arithmetic
    of a run stays on integers.  The store itself keeps the script's real-valued
    tokens; `CheckRateLimit` ties the two together. */
module RateLimit {
  import opened Wrappers

  datatype Config = Config(capacity: int, windowSeconds: int) {
    predicate Valid() {
      capacity > 0 && windowSeconds > 0
    }

    function WindowMs(): int {
      windowSeconds * 1000
    }

    function Full(): int {
      capacity * WindowMs()
    }
  }

  type Limit = c: Config | c.Valid() witness Config(1, 1)

  /** What the key holds, in scaled tokens. */
  datatype Bucket = Absent | Held(level: nat, updatedAt: int)

  datatype Reply = Reply(allowed: bool, remaining: nat, retryAfter: nat)

  function Max(a: int, b: int): int { if a < b then b else a }

  function Min(a: int, b: int): int { if a < b then a else b }

  lemma TimesAtLeast(a: int, b: int)
    requires a >= 1 && b >= 0
    ensures a * b >= b
  {
  }

  lemma FullIsPositive(c: Limit)
    ensures c.WindowMs() >= 1000
    ensures c.Full() >= c.WindowMs()
  {
    TimesAtLeast(c.capacity, c.WindowMs());
  }

  function Refilled(c: Limit, b: Bucket, now: int): nat
  {
    FullIsPositive(c);
    match b
    case Absent => c.Full()
    case Held(level, updatedAt) => Min(c.Full(), level + Max(0, now - updatedAt) * c.capacity)
  }

  /** a / b rounded up. */
  function CeilDiv(a: nat, b: nat): nat
    requires b > 0
  {
    (a + b - 1) / b
  }

  /** The quotient rounded up is the least k with a <= k * b. */
  lemma CeilDivLeast(a: nat, b: nat, k: nat)
    requires b > 0
    ensures CeilDiv(a, b) <= k <==> a <= k * b
  {
    var q := CeilDiv(a, b);
    assert q * b <= a + b - 1 < q * b + b;
    if q <= k {
      TimesMonotone(q, k, b);
    } else {
      TimesMonotone(k + 1, q, b);
    }
  }

  lemma TimesMonotone(j: int, k: int, b: nat)
    requires j <= k
    ensures j * b <= k * b
  {
  }

  /** One atomic evaluation of the script at clock reading `now`. */
  function Step(c: Limit, b: Bucket, now: int): (Bucket, Reply) {
    FullIsPositive(c);
    var full := Refilled(c, b, now);
    if full >= c.WindowMs() then
      var left := full - c.WindowMs();
      (Held(left, now), Reply(true, left / c.WindowMs(), 0))
    else
      (Held(full, now), Reply(false, full / c.WindowMs(), CeilDiv(c.WindowMs() - full, 1000 * c.capacity)))
  }

  /** The bucket a script finds at `now`: the key expires two windows after its last write. */
  function Observed(c: Limit, b: Bucket, now: int): Bucket {
    if b.Held? && now >= b.updatedAt + Max(2 * c.WindowMs(), 1000) then Absent else b
  }

  // ---------------------------------------------------------------- traces

  ghost predicate NonDecreasing(ts: seq<int>) {
    forall i, j :: 0 <= i < j < |ts| ==> ts[i] <= ts[j]
  }

  /** The bucket after serving requests at the times `ts`, the first of which finds no key. */
  function After(c: Limit, ts: seq<int>): Bucket {
    if ts == [] then Absent
    else Step(c, After(c, ts[..|ts| - 1]), ts[|ts| - 1]).0
  }

  /** The replies to requests at the times `more` that follow the trace `ts`. */
  function Replies(c: Limit, ts: seq<int>, more: seq<int>): (rs: seq<Reply>)
    ensures |rs| == |more|
  {
    if more == [] then []
    else
      var init := more[..|more| - 1];
      Replies(c, ts, init) + [Step(c, After(c, ts + init), more[|more| - 1]).1]
  }

  lemma {:induction false} ReplyAt(c: Limit, ts: seq<int>, more: seq<int>, i: nat)
    requires i < |more|
    ensures Replies(c, ts, more)[i] == Step(c, After(c, ts + more[..i]), more[i]).1
    decreases |more|
  {
    if i < |more| - 1 {
      ReplyAt(c, ts, more[..|more| - 1], i);
      assert more[..|more| - 1][..i] == more[..i];
    }
  }

  lemma Append(c: Limit, ts: seq<int>, now: int)
    ensures After(c, ts + [now]) == Step(c, After(c, ts), now).0
  {
  }

  lemma {:induction false} Prefixes(a: seq<int>, b: seq<int>)
    requires NonDecreasing(a + b)
    ensures NonDecreasing(a) && NonDecreasing(b)
  {
    assert forall i :: 0 <= i < |a| ==> a[i] == (a + b)[i];
    assert forall i :: 0 <= i < |b| ==> b[i] == (a + b)[|a| + i];
  }

  /** How many requests of the trace were admitted at time `s` or later. */
  function AdmittedSince(c: Limit, ts: seq<int>, s: int): nat {
    if ts == [] then 0
    else
      var before := ts[..|ts| - 1];
      AdmittedSince(c, before, s) +
      if ts[|ts| - 1] >= s && Step(c, After(c, before), ts[|ts| - 1]).1.allowed then 1 else 0
  }

  /** What interval [s, now] still allows after k admissions, in scaled tokens:
      capacity + capacity * (now - s) / window - k. */
  function Allowance(c: Limit, s: int, now: int, k: nat): int {
    c.Full() + c.capacity * (now - s) - k * c.WindowMs()
  }

  /** The level never exceeds the allowance of any interval ending now, and some interval attains it. */
  ghost predicate Envelope(c: Limit, level: int, now: int, ts: seq<int>) {
    && (forall s :: s <= now ==> level <= Allowance(c, s, now, AdmittedSince(c, ts, s)))
    && (exists s :: s <= now && level == Allowance(c, s, now, AdmittedSince(c, ts, s)))
  }

  lemma AllowanceShift(c: Limit, s: int, now: int, later: int, k: nat)
    ensures Allowance(c, s, later, k) == Allowance(c, s, now, k) + (later - now) * c.capacity
  {
  }

  lemma AllowanceNext(c: Limit, s: int, now: int, k: nat)
    ensures Allowance(c, s, now, k + 1) == Allowance(c, s, now, k) - c.WindowMs()
    ensures s <= now ==> Allowance(c, s, now, 0) >= c.Full()
    ensures s == now ==> Allowance(c, s, now, 0) == c.Full()
  {
  }

  lemma {:induction false} NoneSinceAfterLast(c: Limit, ts: seq<int>, s: int)
    requires NonDecreasing(ts)
    requires ts != [] ==> ts[|ts| - 1] < s
    ensures AdmittedSince(c, ts, s) == 0
  {
    if ts != [] {
      var before := ts[..|ts| - 1];
      NoneSinceAfterLast(c, before, s);
    }
  }

  lemma LevelBound(c: Limit, ts: seq<int>)
    requires ts != []
    ensures After(c, ts).Held? && After(c, ts).updatedAt == ts[|ts| - 1]
    ensures After(c, ts).level <= c.Full()
  {
  }

  /** Refilling keeps the envelope: the refilled level is its value at the new time. */
  lemma RefillEnvelope(c: Limit, ts: seq<int>, now: int)
    requires NonDecreasing(ts + [now])
    requires ts != [] ==> Envelope(c, After(c, ts).level, ts[|ts| - 1], ts)
    ensures Envelope(c, Refilled(c, After(c, ts), now), now, ts)
  {
    var b := After(c, ts);
    var full := Refilled(c, b, now);
    FullIsPositive(c);
    assert NonDecreasing(ts) by {
      assert forall i :: 0 <= i < |ts| ==> ts[i] == (ts + [now])[i];
    }
    if ts == [] {
      forall s | s <= now
        ensures full <= Allowance(c, s, now, AdmittedSince(c, ts, s))
      {
        AllowanceNext(c, s, now, 0);
      }
      AllowanceNext(c, now, now, 0);
      assert full == Allowance(c, now, now, AdmittedSince(c, ts, now));
    } else {
      var last := ts[|ts| - 1];
      assert last <= now by {
        assert (ts + [now])[|ts| - 1] == last && (ts + [now])[|ts|] == now;
      }
      LevelBound(c, ts);
      forall s | s <= now
        ensures full <= Allowance(c, s, now, AdmittedSince(c, ts, s))
      {
        if s <= last {
          AllowanceShift(c, s, last, now, AdmittedSince(c, ts, s));
        } else {
          NoneSinceAfterLast(c, ts, s);
          AllowanceNext(c, s, now, 0);
        }
      }
      if full == b.level + (now - last) * c.capacity {
        var s :| s <= last && b.level == Allowance(c, s, last, AdmittedSince(c, ts, s));
        AllowanceShift(c, s, last, now, AdmittedSince(c, ts, s));
      } else {
        assert now > last;
        NoneSinceAfterLast(c, ts, now);
        AllowanceNext(c, now, now, 0);
        assert full == Allowance(c, now, now, AdmittedSince(c, ts, now));
      }
    }
  }

  /** After every trace the level is the min-plus envelope of the admissions so far. */
  lemma {:induction false} LevelIsEnvelope(c: Limit, ts: seq<int>)
    requires ts != [] && NonDecreasing(ts)
    ensures Envelope(c, After(c, ts).level, ts[|ts| - 1], ts)
  {
    hide Refilled;
    var before, now := ts[..|ts| - 1], ts[|ts| - 1];
    assert ts == before + [now];
    if before != [] {
      LevelIsEnvelope(c, before);
    }
    RefillEnvelope(c, before, now);
    var full := Refilled(c, After(c, before), now);
    forall s | s <= now
      ensures full >= c.WindowMs() ==>
                Allowance(c, s, now, AdmittedSince(c, ts, s)) ==
                Allowance(c, s, now, AdmittedSince(c, before, s)) - c.WindowMs()
      ensures full < c.WindowMs() ==> AdmittedSince(c, ts, s) == AdmittedSince(c, before, s)
    {
      AllowanceNext(c, s, now, AdmittedSince(c, before, s));
    }
    var s :| s <= now && full == Allowance(c, s, now, AdmittedSince(c, before, s));
    assert After(c, ts).level == Allowance(c, s, now, AdmittedSince(c, ts, s));
  }

  /** One more admission would give [s, now] more than capacity + capacity * (now - s) / window of them. */
  ghost predicate Overdrawn(c: Limit, ts: seq<int>, now: int, s: int) {
    (AdmittedSince(c, ts, s) + 1) * c.WindowMs() > c.Full() + c.capacity * (now - s)
  }

  /** The limiter is exactly maximal: a request is refused if and only if admitting it would
      make some interval ending now hold more than capacity + capacity * length / window admissions. */
  lemma ExactlyMaximal(c: Limit, ts: seq<int>, now: int)
    requires NonDecreasing(ts + [now])
    ensures !Step(c, After(c, ts), now).1.allowed <==> exists s :: s <= now && Overdrawn(c, ts, now, s)
  {
    hide Refilled;
    if ts != [] {
      assert NonDecreasing(ts) by {
        assert forall i :: 0 <= i < |ts| ==> ts[i] == (ts + [now])[i];
      }
      LevelIsEnvelope(c, ts);
    }
    RefillEnvelope(c, ts, now);
    var full := Refilled(c, After(c, ts), now);
    forall s | s <= now
      ensures Allowance(c, s, now, AdmittedSince(c, ts, s)) < c.WindowMs() <==> Overdrawn(c, ts, now, s)
    {
      AllowanceNext(c, s, now, AdmittedSince(c, ts, s));
    }
    if full < c.WindowMs() {
      var s :| s <= now && full == Allowance(c, s, now, AdmittedSince(c, ts, s));
      assert Overdrawn(c, ts, now, s);
    }
  }

  /** How many requests with s <= time <= e were admitted. */
  function AdmittedBetween(c: Limit, ts: seq<int>, s: int, e: int): nat {
    if ts == [] then 0
    else
      var before := ts[..|ts| - 1];
      AdmittedBetween(c, before, s, e) +
      if s <= ts[|ts| - 1] <= e && Step(c, After(c, before), ts[|ts| - 1]).1.allowed then 1 else 0
  }

  lemma {:induction false} BetweenIsSince(c: Limit, ts: seq<int>, s: int, e: int)
    requires NonDecreasing(ts)
    requires ts != [] ==> ts[|ts| - 1] <= e
    ensures AdmittedBetween(c, ts, s, e) == AdmittedSince(c, ts, s)
  {
    if ts != [] {
      BetweenIsSince(c, ts[..|ts| - 1], s, e);
    }
  }

  lemma SpareAllowance(c: Limit, s: int, last: int, e: int, k: nat)
    requires last <= e && Allowance(c, s, last, k) >= 0
    ensures k * c.WindowMs() <= c.Full() + c.capacity * (e - s)
  {
  }

  /** Every closed interval of every trace obeys the quota. */
  lemma {:induction false} QuotaHolds(c: Limit, ts: seq<int>, s: int, e: int)
    requires NonDecreasing(ts) && s <= e
    ensures AdmittedBetween(c, ts, s, e) * c.WindowMs() <= c.Full() + c.capacity * (e - s)
  {
    hide Step, Refilled;
    FullIsPositive(c);
    if ts == [] {
      AllowanceNext(c, s, e, 0);
    } else if ts[|ts| - 1] > e {
      QuotaHolds(c, ts[..|ts| - 1], s, e);
    } else {
      var last := ts[|ts| - 1];
      BetweenIsSince(c, ts, s, e);
      if last < s {
        NoneSinceAfterLast(c, ts, s);
        AllowanceNext(c, s, e, 0);
      } else {
        LevelIsEnvelope(c, ts);
        LevelBound(c, ts);
        SpareAllowance(c, s, last, e, AdmittedSince(c, ts, s));
      }
    }
  }

  // ------------------------------------------------- what cannot be observed

  /** Saturating refill is additive: refilling in two legs is refilling once. */
  lemma RefillAdditive(c: Limit, level: nat, a: int, b: int, t: int)
    requires a <= b <= t
    ensures Refilled(c, Held(Refilled(c, Held(level, a), b), b), t) == Refilled(c, Held(level, a), t)
  {
  }

  lemma AfterIsStamped(c: Limit, ts: seq<int>)
    ensures ts != [] ==> After(c, ts).Held? && After(c, ts).updatedAt == ts[|ts| - 1]
    ensures ts == [] ==> After(c, ts) == Absent
  {
  }

  /** A refusal leaves every later evaluation as it would have been. */
  lemma RefusalTransparent(c: Limit, ts: seq<int>, now: int, later: int)
    requires NonDecreasing(ts + [now]) && now <= later
    ensures !Step(c, After(c, ts), now).1.allowed ==>
              Step(c, After(c, ts + [now]), later) == Step(c, After(c, ts), later)
  {
    FullIsPositive(c);
    AfterIsStamped(c, ts);
    Append(c, ts, now);
    if ts != [] {
      assert (ts + [now])[|ts| - 1] <= (ts + [now])[|ts|];
      var b := After(c, ts);
      RefillAdditive(c, b.level, b.updatedAt, now, later);
    }
  }

  /** Dropping a refused request from a trace changes no other reply. */
  lemma {:induction false} RefusalUnobservable(c: Limit, ts: seq<int>, now: int, more: seq<int>)
    requires NonDecreasing(ts + [now] + more)
    ensures !Step(c, After(c, ts), now).1.allowed ==>
              && Replies(c, ts + [now], more) == Replies(c, ts, more)
              && (more != [] ==> After(c, ts + [now] + more) == After(c, ts + more))
    decreases |more|
  {
    hide Step;
    if more != [] {
      var init, last := more[..|more| - 1], more[|more| - 1];
      assert ts + [now] + more == (ts + [now] + init) + [last];
      assert ts + more == (ts + init) + [last];
      Prefixes(ts + [now] + init, [last]);
      RefusalUnobservable(c, ts, now, init);
      Append(c, ts + [now] + init, last);
      Append(c, ts + init, last);
      if init == [] {
        assert ts + init == ts && ts + [now] + init == ts + [now];
        Prefixes(ts + [now], [last]);
        assert (ts + [now] + more)[|ts|] <= (ts + [now] + more)[|ts| + 1];
        RefusalTransparent(c, ts, now, last);
      }
    }
  }

  /** Once two windows have passed the bucket is full again, whether or not the key is still there. */
  lemma ExpiryTransparent(c: Limit, b: Bucket, now: int)
    ensures Step(c, Observed(c, b, now), now) == Step(c, b, now)
  {
    FullIsPositive(c);
    if Observed(c, b, now) != b {
      var elapsed := now - b.updatedAt;
      TimesMonotone(c.WindowMs(), elapsed, c.capacity);
      assert c.WindowMs() * c.capacity == c.Full();
    }
  }

  /** The replies when every evaluation reads the key through its expiry. */
  function ExpiringRun(c: Limit, ts: seq<int>): (Bucket, seq<Reply>) {
    if ts == [] then (Absent, [])
    else
      var (b, rs) := ExpiringRun(c, ts[..|ts| - 1]);
      var now := ts[|ts| - 1];
      var (b', r) := Step(c, Observed(c, b, now), now);
      (b', rs + [r])
  }

  /** Key expiry is invisible in every trace. */
  lemma {:induction false} ExpiryUnobservable(c: Limit, ts: seq<int>)
    ensures ExpiringRun(c, ts) == (After(c, ts), Replies(c, [], ts))
  {
    if ts != [] {
      var init := ts[..|ts| - 1];
      assert [] + init == init;
      ExpiryUnobservable(c, init);
      ExpiryTransparent(c, After(c, init), ts[|ts| - 1]);
    }
  }

  // ------------------------------------------------- what a reply tells its caller

  ghost predicate AllRefused(rs: seq<Reply>) {
    forall i :: 0 <= i < |rs| ==> !rs[i].allowed
  }

  lemma {:induction false} RefusedPollsTransparent(c: Limit, ts: seq<int>, polls: seq<int>, later: int)
    requires NonDecreasing(ts + polls + [later])
    requires AllRefused(Replies(c, ts, polls))
    ensures Step(c, After(c, ts + polls), later) == Step(c, After(c, ts), later)
    decreases |polls|
  {
    hide Step;
    if polls == [] {
      assert ts + polls == ts;
    } else {
      var init, last := polls[..|polls| - 1], polls[|polls| - 1];
      var all := ts + polls + [later];
      assert ts + polls == (ts + init) + [last];
      Prefixes(ts + polls, [later]);
      assert all[|ts + init|] <= all[|ts + polls|];
      assert NonDecreasing(ts + init + [later]) by {
        assert forall i :: 0 <= i < |ts + init| ==> (ts + init)[i] == all[i];
      }
      assert forall i :: 0 <= i < |init| ==> Replies(c, ts, init)[i] == Replies(c, ts, polls)[i];
      assert !Replies(c, ts, polls)[|init|].allowed;
      RefusalTransparent(c, ts + init, last, later);
      RefusedPollsTransparent(c, ts, init, later);
    }
  }

  /** The level a refusal leaves is enough k seconds later exactly when k reaches retryAfter. */
  lemma RetryBoundary(c: Limit, b: Bucket, now: int, k: nat)
    ensures var (b', r) := Step(c, b, now);
            !r.allowed ==>
              && (Step(c, b', now + 1000 * k).1.allowed <==> k >= r.retryAfter)
              && 1 <= r.retryAfter <= CeilDiv(c.windowSeconds, c.capacity)
  {
    hide CeilDiv;
    FullIsPositive(c);
    if Step(c, b, now).1.allowed {
      return;
    }
    var level := Refilled(c, b, now);
    var short := c.WindowMs() - level;
    var unit := 1000 * c.capacity;
    SecondsOfRefill(c.capacity, k);
    assert Refilled(c, Held(level, now), now + 1000 * k) >= c.WindowMs() <==> short <= k * unit;
    CeilDivLeast(short, unit, k);
    CeilDivLeast(short, unit, 0);
    var most := CeilDiv(c.windowSeconds, c.capacity);
    SecondsOfRefill(c.capacity, most);
    CeilDivLeast(c.windowSeconds, c.capacity, most);
    CeilDivLeast(short, unit, most);
  }

  lemma SecondsOfRefill(capacity: int, k: nat)
    ensures 1000 * k * capacity == k * (1000 * capacity) == 1000 * (k * capacity)
  {
  }

  /** After a refusal with no admission since, a request k whole seconds later is admitted
      exactly from k == retryAfter on; retryAfter is between 1 and ceil(windowSeconds / capacity). */
  lemma RetryAfterExact(c: Limit, ts: seq<int>, now: int, polls: seq<int>, k: nat)
    requires NonDecreasing(ts + [now] + polls + [now + 1000 * k])
    ensures var refusal := Step(c, After(c, ts), now).1;
            !refusal.allowed && AllRefused(Replies(c, ts + [now], polls)) ==>
              && (Step(c, After(c, ts + [now] + polls), now + 1000 * k).1.allowed <==> k >= refusal.retryAfter)
              && 1 <= refusal.retryAfter <= CeilDiv(c.windowSeconds, c.capacity)
  {
    hide Step;
    if AllRefused(Replies(c, ts + [now], polls)) {
      RefusedPollsTransparent(c, ts + [now], polls, now + 1000 * k);
      Append(c, ts, now);
      RetryBoundary(c, After(c, ts), now, k);
    }
  }

  function Burst(now: int, n: nat): seq<int> {
    seq(n, _ => now)
  }

  /** A bucket read again at the instant of its last write, with at least `k + 1` tokens or not. */
  lemma SameInstant(c: Limit, level: nat, now: int)
    requires level <= c.Full()
    ensures Step(c, Held(level, now), now).1.allowed <==> level >= c.WindowMs()
    ensures level >= c.WindowMs() ==> Step(c, Held(level, now), now).0 == Held(level - c.WindowMs(), now)
    ensures level < c.WindowMs() ==> Step(c, Held(level, now), now).0 == Held(level, now)
  {
  }

  /** What n requests at one instant leave of a level, each taking `w` if it is there. */
  function LevelLeft(level: nat, w: nat, n: nat): nat {
    if n == 0 then level
    else
      var left := LevelLeft(level, w, n - 1);
      if left >= w then left - w else left
  }

  lemma {:induction false} LevelLeftIs(level: nat, w: nat, n: nat)
    requires w > 0
    ensures LevelLeft(level, w, n) == level - Min(n, level / w) * w
    ensures LevelLeft(level, w, n) >= w <==> n < level / w
    decreases n
  {
    var q, d := Divided(level, w);
    if n > 0 {
      LevelLeftIs(level, w, n - 1);
      assert (n - 1) * w + w == n * w;
    }
    if n < q {
      TimesMonotone(n + 1, q, w);
      assert (n + 1) * w == n * w + w;
    }
  }

  lemma Divided(n: nat, w: nat) returns (q: nat, d: nat)
    requires w > 0
    ensures q == n / w && n == q * w + d && d < w
  {
    q, d := n / w, n % w;
  }

  lemma {:induction false} BurstLevel(c: Limit, ts: seq<int>, now: int, n: nat)
    requires ts != [] && ts[|ts| - 1] == now
    ensures After(c, ts + Burst(now, n)) == Held(LevelLeft(After(c, ts).level, c.WindowMs(), n), now)
    decreases n
  {
    hide Step;
    LevelBound(c, ts);
    if n == 0 {
      assert ts + Burst(now, n) == ts;
    } else {
      BurstLevel(c, ts, now, n - 1);
      assert ts + Burst(now, n) == (ts + Burst(now, n - 1)) + [now];
      Append(c, ts + Burst(now, n - 1), now);
      LevelBound(c, ts + Burst(now, n - 1));
      SameInstant(c, After(c, ts + Burst(now, n - 1)).level, now);
    }
  }

  lemma RemainingIsFloor(c: Limit, b: Bucket, now: int)
    ensures Step(c, b, now).0.Held? && Step(c, b, now).0.level <= c.Full()
    ensures Step(c, b, now).1.remaining == Step(c, b, now).0.level / c.WindowMs()
  {
  }

  /** Exactly `remaining` further requests at the same instant succeed. */
  lemma RemainingExact(c: Limit, ts: seq<int>, now: int, n: nat, i: nat)
    requires i < n
    ensures Replies(c, ts + [now], Burst(now, n))[i].allowed <==> i < Step(c, After(c, ts), now).1.remaining
  {
    hide Step;
    FullIsPositive(c);
    Append(c, ts, now);
    RemainingIsFloor(c, After(c, ts), now);
    ReplyAt(c, ts + [now], Burst(now, n), i);
    assert Burst(now, n)[..i] == Burst(now, i);
    BurstLevel(c, ts + [now], now, i);
    var level := After(c, ts + [now]).level;
    LevelLeftIs(level, c.WindowMs(), i);
    LevelBound(c, ts + [now] + Burst(now, i));
    SameInstant(c, After(c, ts + [now] + Burst(now, i)).level, now);
  }

  // ------------------------------------------------- the store and its caller

  function Ceil(x: real): int {
    -((-x).Floor)
  }

  /** The script's refill, before the cap. */
  function RefilledTokens(tokens: real, capacity: int, windowMs: int, elapsedMs: int): real
    requires windowMs > 0
  {
    var refillPerMs := capacity as real / windowMs as real;
    tokens + elapsedMs as real * refillPerMs
  }

  /** The script's wait, in whole seconds, until one token is there. */
  function RetrySeconds(tokens: real, capacity: int, windowMs: int): int
    requires capacity > 0 && windowMs > 0
  {
    PositiveRatio(capacity as real, windowMs as real);
    var refillPerMs := capacity as real / windowMs as real;
    Ceil((1.0 - tokens) / refillPerMs / 1000.0)
  }

  lemma PositiveRatio(n: real, w: real)
    requires n > 0.0 && w > 0.0
    ensures n / w > 0.0
  {
  }

  /** `tokens` real-valued tokens are `level` scaled ones. */
  ghost predicate Scaled(c: Limit, tokens: real, level: int) {
    tokens * c.WindowMs() as real == level as real
  }

  lemma ScaledOrder(c: Limit, t: real, l: int, u: real, m: int)
    requires Scaled(c, t, l) && Scaled(c, u, m)
    ensures t <= u <==> l <= m
  {
  }

  lemma ScaledUnique(c: Limit, tokens: real, level: int)
    requires Scaled(c, tokens, level)
    ensures forall m: int :: Scaled(c, tokens, m) ==> m == level
  {
  }

  lemma ScaledConstants(c: Limit)
    ensures Scaled(c, 0.0, 0) && Scaled(c, 1.0, c.WindowMs()) && Scaled(c, c.capacity as real, c.Full())
  {
  }

  lemma ScaledRefill(c: Limit, tokens: real, level: int, elapsed: nat)
    requires Scaled(c, tokens, level)
    ensures Scaled(c, RefilledTokens(tokens, c.capacity, c.WindowMs(), elapsed), level + elapsed * c.capacity)
  {
  }

  lemma ScaledConsume(c: Limit, tokens: real, level: int)
    requires Scaled(c, tokens, level)
    ensures Scaled(c, tokens - 1.0, level - c.WindowMs())
  {
  }

  lemma ScaledFloor(c: Limit, tokens: real, level: nat)
    requires Scaled(c, tokens, level)
    ensures tokens.Floor == level / c.WindowMs()
  {
    var w := c.WindowMs();
    var q := level / w;
    assert q * w <= level < (q + 1) * w;
    assert Scaled(c, q as real, q * w) && Scaled(c, (q + 1) as real, (q + 1) * w);
    ScaledOrder(c, q as real, q * w, tokens, level);
    ScaledOrder(c, (q + 1) as real, (q + 1) * w, tokens, level);
  }

  lemma ScaledRetry(c: Limit, tokens: real, level: nat)
    requires Scaled(c, tokens, level) && level < c.WindowMs()
    ensures RetrySeconds(tokens, c.capacity, c.WindowMs()) ==
            CeilDiv(c.WindowMs() - level, 1000 * c.capacity)
  {
    var w, n := c.WindowMs() as real, c.capacity as real;
    var x := (1.0 - tokens) / (n / w) / 1000.0;
    var short, d := c.WindowMs() - level, 1000 * c.capacity;
    RatioOfScaled(tokens, n, w);
    assert x * d as real == short as real;
    CeilOfRatio(x, short, d);
  }

  lemma CeilOfRatio(x: real, a: nat, d: nat)
    requires d > 0 && x * d as real == a as real
    ensures Ceil(x) == CeilDiv(a, d)
  {
    var q := Ceil(x);
    assert (q - 1) as real < x <= q as real;
    AtMostScaled(x, a, d, q);
    AtMostScaled(x, a, d, q - 1);
    CeilDivUnique(a, d, q);
  }

  lemma AtMostScaled(x: real, a: nat, d: nat, q: int)
    requires d > 0 && x * d as real == a as real
    ensures x <= q as real <==> a <= q * d
  {
  }

  lemma CeilDivUnique(a: nat, d: nat, q: int)
    requires d > 0 && (q - 1) * d < a <= q * d
    ensures q == CeilDiv(a, d)
  {
    if q < 0 {
      TimesMonotone(q, 0, d);
    } else {
      CeilDivLeast(a, d, q);
      if q > 0 {
        CeilDivLeast(a, d, q - 1);
      }
    }
  }

  lemma RatioOfScaled(tokens: real, n: real, w: real)
    requires n > 0.0 && w > 0.0
    ensures n / w > 0.0
    ensures (1.0 - tokens) / (n / w) / 1000.0 * (1000.0 * n) == w - tokens * w
  {
  }

  lemma StepOfFull(c: Limit, b: Bucket, now: int)
    ensures var full := Refilled(c, b, now);
            Step(c, b, now) ==
            if full >= c.WindowMs() then
              (Held(full - c.WindowMs(), now), Reply(true, (full - c.WindowMs()) / c.WindowMs(), 0))
            else
              (Held(full, now), Reply(false, full / c.WindowMs(), CeilDiv(c.WindowMs() - full, 1000 * c.capacity)))
  {
  }

  /** One bucket hash: the script's `tokens` and `updated_at_ms` fields and the key's expiry. */
  datatype Entry = Entry(tokens: real, updatedAtMs: int, expiresAtMs: int)

  datatype ConfigError = CapacityAndWindowMustBePositive

  class RedisStore {
    var hashes: map<string, Entry>

    constructor ()
      ensures hashes == map[]
    {
      hashes := map[];
    }

    /** The hash of `key` holds a whole number of scaled tokens, as every evaluation under `c` leaves it. */
    ghost predicate WrittenUnder(c: Limit, key: string)
      reads this
    {
      key in hashes ==>
        && (exists level: nat :: Scaled(c, hashes[key].tokens, level))
        && hashes[key].expiresAtMs == hashes[key].updatedAtMs + Max(2 * c.WindowMs(), 1000)
    }

    ghost function BucketOf(c: Limit, key: string): Bucket
      reads this
      requires WrittenUnder(c, key)
    {
      if key in hashes then
        var level: nat :| Scaled(c, hashes[key].tokens, level);
        Held(level, hashes[key].updatedAtMs)
      else Absent
    }

    /** Validates the configuration, then evaluates the script on `key`, whatever the key held. */
    method CheckRateLimit(key: string, limit: int, windowSeconds: int, nowMs: int)
      returns (r: Result<Reply, ConfigError>)
      modifies this
      ensures r.Failure? <==> limit <= 0 || windowSeconds <= 0
      ensures r.Failure? ==> hashes == old(hashes)
      ensures r.Success? ==>
                var full := TokensAt(Live(old(hashes), key, nowMs), limit, windowSeconds * 1000, nowMs);
                && (r.value.allowed <==> full >= 1.0)
                && var tokens := if r.value.allowed then full - 1.0 else full;
                   var wait := if r.value.allowed then 0 else RetrySeconds(full, limit, windowSeconds * 1000);
                   && r.value.remaining == Max(0, tokens.Floor) && r.value.retryAfter == Max(0, wait)
                   && hashes == old(hashes)[key := Entry(tokens, nowMs, nowMs + Max(windowSeconds * 2000, 1000))]
      ensures r.Success? && old(WrittenUnder(Config(limit, windowSeconds), key)) ==>
                var c: Limit := Config(limit, windowSeconds);
                && WrittenUnder(c, key)
                && (BucketOf(c, key), r.value) == Step(c, Observed(c, old(BucketOf(c, key)), nowMs), nowMs)
    {
      hide Step, Refilled, TokensAt, RetrySeconds;
      if limit <= 0 || windowSeconds <= 0 {
        return Failure(CapacityAndWindowMustBePositive);
      }
      var found := Live(hashes, key, nowMs);
      var tokens, allowed, retryAfter := EvaluateScript(found, limit, windowSeconds, nowMs);
      ghost var c: Limit := Config(limit, windowSeconds);
      if WrittenUnder(c, key) {
        var next := Step(c, Observed(c, BucketOf(c, key), nowMs), nowMs);
        assert Matches(c, found, Observed(c, BucketOf(c, key), nowMs));
        ScaledUnique(c, tokens, next.0.level);
      }
      hashes := hashes[key := Entry(tokens, nowMs, nowMs + Max(windowSeconds * 1000 * 2, 1000))];
      r := Success(Reply(allowed, Max(0, tokens.Floor), Max(0, retryAfter)));
    }
  }

  /** What HMGET finds of a key that has not expired. */
  function Live(hashes: map<string, Entry>, key: string, nowMs: int): Option<Entry> {
    if key in hashes && nowMs < hashes[key].expiresAtMs then Some(hashes[key]) else None
  }

  /** The tokens of the bucket after the refill. */
  function TokensAt(found: Option<Entry>, limit: int, windowMs: int, nowMs: int): real
    requires windowMs > 0
  {
    if found.None? then limit as real
    else
      var refilled := RefilledTokens(found.value.tokens, limit, windowMs, Max(0, nowMs - found.value.updatedAtMs));
      if refilled < limit as real then refilled else limit as real
  }

  /** The integer bucket that a hash stands for under `c`. */
  ghost predicate Matches(c: Limit, found: Option<Entry>, b: Bucket) {
    && (found.None? <==> b.Absent?)
    && (found.Some? ==> found.value.updatedAtMs == b.updatedAt && Scaled(c, found.value.tokens, b.level))
  }

  lemma TokensAreRefilled(c: Limit, found: Option<Entry>, b: Bucket, nowMs: int)
    requires Matches(c, found, b)
    ensures Scaled(c, TokensAt(found, c.capacity, c.WindowMs(), nowMs), Refilled(c, b, nowMs))
  {
    hide RefilledTokens, Scaled;
    ScaledConstants(c);
    if b.Held? {
      var elapsed := Max(0, nowMs - b.updatedAt);
      ScaledRefill(c, found.value.tokens, b.level, elapsed);
      var refilled := RefilledTokens(found.value.tokens, c.capacity, c.WindowMs(), elapsed);
      ScaledOrder(c, c.capacity as real, c.Full(), refilled, b.level + elapsed * c.capacity);
    }
  }

  /** The script on a hash that stands for an integer bucket makes that bucket's step. */
  lemma ScriptIsStep(c: Limit, found: Option<Entry>, b: Bucket, nowMs: int)
    requires Matches(c, found, b)
    ensures var full := TokensAt(found, c.capacity, c.WindowMs(), nowMs);
            var (b', r) := Step(c, b, nowMs);
            && (r.allowed <==> full >= 1.0)
            && var tokens := if r.allowed then full - 1.0 else full;
               && b'.Held? && b'.updatedAt == nowMs && Scaled(c, tokens, b'.level)
               && r.remaining == tokens.Floor
               && r.retryAfter == if r.allowed then 0 else RetrySeconds(full, c.capacity, c.WindowMs())
  {
    hide Step, Refilled, TokensAt, RetrySeconds;
    var full := TokensAt(found, c.capacity, c.WindowMs(), nowMs);
    TokensAreRefilled(c, found, b, nowMs);
    StepOfFull(c, b, nowMs);
    ScaledConstants(c);
    ScaledOrder(c, 1.0, c.WindowMs(), full, Refilled(c, b, nowMs));
    if full >= 1.0 {
      ScaledConsume(c, full, Refilled(c, b, nowMs));
      ScaledFloor(c, full - 1.0, Refilled(c, b, nowMs) - c.WindowMs());
    } else {
      ScaledFloor(c, full, Refilled(c, b, nowMs));
      ScaledRetry(c, full, Refilled(c, b, nowMs));
    }
  }

  /** The script: default, refill, consume or compute the wait.  `found` is what HMGET returns. */
  method EvaluateScript(found: Option<Entry>, limit: int, windowSeconds: int, nowMs: int)
    returns (tokens: real, allowed: bool, retryAfter: int)
    requires limit > 0 && windowSeconds > 0
    ensures var full := TokensAt(found, limit, windowSeconds * 1000, nowMs);
            && (allowed <==> full >= 1.0)
            && tokens == (if allowed then full - 1.0 else full)
            && retryAfter == if allowed then 0 else RetrySeconds(full, limit, windowSeconds * 1000)
    ensures forall b {:trigger Matches(Config(limit, windowSeconds), found, b)} ::
              Matches(Config(limit, windowSeconds), found, b) ==>
                var (b', r) := Step(Config(limit, windowSeconds), b, nowMs);
                && b'.Held? && b'.updatedAt == nowMs
                && Scaled(Config(limit, windowSeconds), tokens, b'.level)
                && r.allowed == allowed && r.remaining == tokens.Floor && r.retryAfter == retryAfter
  {
    hide Step, RetrySeconds, Matches, Scaled;
    var capacity, windowMs := limit as real, windowSeconds * 1000;
    var updatedAtMs := nowMs;
    tokens := capacity;
    if found.Some? {
      tokens, updatedAtMs := found.value.tokens, found.value.updatedAtMs;
    }
    var elapsedMs := Max(0, nowMs - updatedAtMs);
    var refilled := RefilledTokens(tokens, limit, windowMs, elapsedMs);
    tokens := if refilled < capacity then refilled else capacity;
    assert tokens == TokensAt(found, limit, windowMs, nowMs);
    ghost var c: Limit := Config(limit, windowSeconds);
    allowed, retryAfter := false, 0;
    if tokens >= 1.0 {
      allowed, tokens := true, tokens - 1.0;
    } else {
      retryAfter := RetrySeconds(tokens, limit, windowMs);
    }
    forall b | Matches(c, found, b)
      ensures var (b', r) := Step(c, b, nowMs);
              && b'.Held? && b'.updatedAt == nowMs && Scaled(c, tokens, b'.level)
              && r.allowed == allowed && r.remaining == tokens.Floor && r.retryAfter == retryAfter
    {
      ScriptIsStep(c, found, b, nowMs);
    }
  }
}
