# TenantFlow: a verified model of its protocols

TenantFlow is a multi-tenant backend. Most of it is request plumbing; what it writes by hand is a
set of protocols and codecs whose guarantees range over whole runs. This project models those in
Dafny and proves them. `dafny verify dfyconfig.toml` checks everything.

| file | what it models |
|---|---|
| `RateLimit.dfy` | the Redis token bucket: the Lua script, its caller, and what holds over every trace of request times |
| `Delivery.dfy` | one outbound webhook delivery: the worker's two transactions, manual retry, the Celery job chain |
| `DeliveryProtocol.dfy` | everything that can interleave on a delivery: commit, rollback, jobs, POSTs, lost workers, redelivered messages, retries, deactivation |
| `DeliveryBounds.dfy` | how many attempts a delivery can see |
| `DeliveryRuns.dfy` | runs that reach that bound, and when `delivered` is final |
| `EmitEvent.dfy` | event fan-out: the insert loop, the publish loop, then commit or rollback |
| `Idempotency.dfy` | the `Idempotency-Key` table: acquire, act, complete, commit, abort, cleanup |
| `Base64.dfy`, `Cursor.dfy` | the pagination cursor as a printer and a parser |
| `CursorText.dfy` | the cursor's text written down without its printer: blocks of base64, ISO 8601, hyphenated UUIDs |
| `Calendar.dfy` | timestamps as instants, and their order in calendar fields |
| `Keyset.dfy` | the task and project lists, and following their cursors while the table changes |
| `Utf8.dfy`, `Json.dfy`, `Signing.dfy` | canonical JSON, the request hash, webhook signatures |
| `CanonicalText.dfy` | canonical JSON written down without its printer: key order, grammar, spelling of strings |
| `RefreshTokens.dfy` | refresh-token families: login, rotation, logout, expiry cleanup |
| `Billing.dfy` | folding Stripe events into subscriptions, one request at a time |
| `BillingOverlap.dfy` | the same requests overlapping: markers, reads without a lock, writes of changed columns |
| `Tenants.dfy`, `TenantRows.dfy` | projects, tasks and attachments of many organizations in shared tables, and what each request writes |
| `Organizations.dfy`, `OrganizationRows.dfy` | ownership, memberships and invitations, and what each operation writes |
| `Wrappers.dfy`, `Text.dfy` | `Option`, `Result`, numerals and a consuming style of parsing |

Code that updates rows appears as methods on classes with fields; each method's postcondition
equates the new state with a function of the old one. The theorems are then about that function:
runs are sequences of events, and the lemmas quantify over all of them. A function that returns
None for an event says that the event cannot happen there, or has to wait for a lock. What such a
function computes is pinned a second time without it: in columns, clock times, calendar fields or
literal text, either in the method's own postcondition or in a lemma named in the table.

## Assumptions

- The clock never goes back. The Redis `TIME` of a bucket and the wall clock of tokens,
  invitations and idempotency records only grow.
- Freshly generated ids, tokens and families are new. An event that would draw a used one cannot happen.
- SHA-256 and HMAC are arbitrary functions; results that depend on their quality name the
  collision, as `Signing.OtherPayloadNeedsCollision` and `Json.RequestHashDecides` do.
- PostgreSQL keeps the declared unique keys, foreign keys and cascades, runs each request in one
  transaction (`app/db/session.py:26-30`), and makes an uncommitted insert of a unique key block
  other inserts of it.
- The ORM session of a delivery job keeps the row it loaded in transaction 1: the session factory sets
  `expire_on_commit=False` (`app/db/session.py:23`), so the locked `session.get` of transaction 2
  (`app/workers/tasks.py:103-107` and `127-131`) does not overwrite loaded attributes, and a flush
  writes only columns whose value is no longer the loaded one. This is SQLAlchemy 2.0 without
  `populate_existing`. The subscription that a Stripe event updates is flushed by the same rule.
- The theorems about traces of a bucket take one limit and one window per key, as the login throttle
  does; `RateLimit.RedisStore.CheckRateLimit` itself says what happens to a key with any content.

## Results that differ from the documentation

- "Delivered" is not final: transaction 2 writes the state it wants unless that is the state its
  session loaded. A delivered row stays delivered exactly when no attempt in flight loaded `pending`
  or is a fifth or later one (`DeliveryRuns.DeliveredFinalIff`, with an input for each side in
  `DeliveryRuns.OverlapUndoes` and `DeliveryRuns.OverlapHarmless`).
- Five attempts are not the limit either: overlapping POSTs, manual retries of a dead row, lost workers
  and refusals that reopen a settled row each add some. `DeliveryBounds.AttemptBound` says how many, and
  `DeliveryRuns.BoundAttained` that it is no fewer.
- Retries do not always end in the dead state. A job that finds the row invisible spends one of its
  six executions, so a delivery can stay `retrying` with no job left (`Delivery.ChainOutcome`), and a
  request that commits after all six leaves a committed delivery that nothing will attempt
  (`DeliveryProtocol.LateCommitStrands`).
- Two Stripe events of one organization are not serialised: the later commit can leave a status that
  an earlier one wrote, because it wants the value that it had read (`BillingOverlap.StatusLost`).
  `BillingOverlap.FoldIff` and `BillingOverlap.LastSetterIff` say exactly when the tables are the fold.
- `next_retry_at` counts attempts while the real countdown counts Celery retries, so the recorded
  time is normally twice the real delay (`Delivery.RecordedRetryTime`).
- Creating a signature for timestamp 0 signs the current time instead, and verification of a header
  with `t=0` does the same; `Signing.SignatureRoundTrip` carries that case.
- The status "in progress" is never reported by the idempotency layer (`Idempotency.NeverInProgress`).

## Model

| member | source | states |
|---|---|---|
| RateLimit.RedisStore.CheckRateLimit | app/infra/rate_limit.py:58-76 | a non-positive limit or window is refused and writes nothing; otherwise, whatever the key held, the reply and the new hash follow from its tokens refilled to now, and no other key changes; a key written under the same limit and window makes one step of the integer bucket, seen through key expiry |
| RateLimit.EvaluateScript | app/infra/rate_limit.py:26-54 | admission, new tokens and wait for every content of the hash, and for every integer bucket that the hash stands for, that bucket's step |
| RateLimit.ScriptIsStep | app/infra/rate_limit.py:39-54 | in scaled integers the script is exactly the step of the integer bucket: same admission, floor of the tokens, rounded-up wait |
| RateLimit.LevelIsEnvelope | app/infra/rate_limit.py:34-47 | after every trace the level is the least, over all intervals ending now, of what the quota still leaves that interval, and some interval attains it |
| RateLimit.ExactlyMaximal | app/infra/rate_limit.py:26-54 | a request is refused if and only if admitting it would give some interval [s, now] more than capacity + capacity * (now - s) / window admissions |
| RateLimit.QuotaHolds | app/infra/rate_limit.py:41-47 | every closed interval of every trace holds at most capacity + capacity * length / window admissions |
| RateLimit.RefusalTransparent | app/infra/rate_limit.py:40-52 | a refusal leaves every later evaluation as it would have been |
| RateLimit.RefusalUnobservable | app/infra/rate_limit.py:40-52 | deleting a refused request from a trace changes no later reply and no later bucket |
| RateLimit.ExpiryUnobservable | app/infra/rate_limit.py:34-37 | a run that loses the key two windows after its last write gives the same replies as one that never does |
| RateLimit.ExpiryTransparent | app/infra/rate_limit.py:53-53 | reading an expired key as absent gives the same step |
| RateLimit.RetryBoundary | app/infra/rate_limit.py:48-54 | from the level a refusal leaves, k seconds are enough exactly when k reaches retry_after, which is between 1 and ceil(window / capacity) |
| RateLimit.RetryAfterExact | app/infra/rate_limit.py:48-54 | after a refusal and any number of refused polls, a request k whole seconds later is admitted exactly from k = retry_after on |
| RateLimit.RemainingExact | app/infra/rate_limit.py:45-54 | of any number of further requests at the same instant, exactly the first `remaining` are admitted |
| Delivery.BeginAttempt | app/workers/tasks.py:63-95 | transaction 1: invisible, already settled, endpoint gone, inactive or rejected, or one attempt more, with the columns that each of them writes |
| Delivery.Flush | app/workers/tasks.py:102-131 | of the stored row exactly the columns are written whose value differs from the loaded one |
| Delivery.RecordOutcome | app/workers/tasks.py:97-140 | transaction 2, in columns: if nobody else wrote the row, a success leaves delivered, the response status, no error and no next time; a failure or a refused status leaves the error cut at 2000 characters, and dead from the fifth attempt on or retrying with the next time; under overlap a column is written exactly where the session's copy differs from what it had loaded; nothing when the row is gone |
| Delivery.RecordAlone | app/workers/tasks.py:110-140 | the row that an attempt leaves when nobody else wrote it, column by column, for a success and for every failure |
| Delivery.RecordColumns | app/workers/tasks.py:110-140 | under overlap, for each column of the row, when the attempt writes it and with what |
| Delivery.DeliverWebhook | app/workers/tasks.py:60-150 | one undisturbed execution, the columns it leaves, and whether Celery runs the job again and after which of the countdowns 5, 10, 20, 40 and 80 seconds |
| Delivery.RetryDelivery | app/modules/webhooks/router.py:123-162 | the three refusals in order, leaving no trace; otherwise retrying with its schedule cleared, one audit entry, and one job published |
| Delivery.ChainOutcome | app/workers/tasks.py:59-150 | a chain without overlap or loss takes at most 6 executions and 155 seconds of countdowns; which ones end delivered, dead, untouched, or retrying with 6 - v attempts after v executions that found no row |
| Delivery.ChainWait | app/workers/tasks.py:150-150 | n executions wait 5 * (2^(n-1) - 1) seconds in all |
| Delivery.RecordedRetryTime | app/workers/tasks.py:114-118 | the recorded wait is twice the real countdown, equal to it, or shorter, according to how many executions found no row |
| DeliveryProtocol.BoundaryAlways | app/modules/webhooks/events.py:26-48 | in every reachable state: committed means published; no POST and no change of the row before commit; attempt_count counts the POSTs begun; a committed untouched delivery still has a job unless one ran out before the commit or an unexpected exception ended it |
| DeliveryProtocol.StrandedIff | app/workers/tasks.py:64-70 | with no worker lost and nothing redelivered or retried by hand, a committed untouched delivery has no job left if and only if its job ran out before the commit or an unexpected exception ended it |
| DeliveryProtocol.LateCommitStrands | app/workers/tasks.py:64-70 | a run after which the delivery is committed, untouched, and no job is left for it |
| DeliveryProtocol.OrphansStop | app/workers/tasks.py:64-70 | while the request has not committed, its job has no business effect, and it runs at most six times unless the broker hands it out again |
| DeliveryBounds.AttemptBound | app/workers/tasks.py:63-119 | with at most w POSTs in flight, D retries accepted on a dead row, K attempts whose outcome was never recorded and R refusals that reopened a settled row, R is at most 4 and at most w, attempt_count is the number of POSTs begun and at most 4 + w * (1 + D + R) + K - R * (R + 1) / 2; without overlap at most 5 + D + K |
| DeliveryBounds.LimitsAlways | app/workers/tasks.py:95-119 | the invariant behind the bound holds along every run, and attempt_count never decreases |
| DeliveryRuns.BoundAttained | app/modules/webhooks/router.py:129-148 | for all w, D and K, and every R up to 4 and w, some run reaches the bound |
| DeliveryRuns.AttemptShows | app/workers/tasks.py:90-140 | in every run an attempt that began and was left alone until it finished shows its outcome: after a success delivered, the response status, no error and no schedule; after a failure its error and the next state |
| DeliveryRuns.DeliveredFinalIff | app/workers/tasks.py:102-136 | in a reachable state, delivered is final in every continuation if and only if no attempt in flight loaded `pending` or has number five or more |
| DeliveryRuns.OverlapUndoes | app/workers/tasks.py:110-119 | a run in which a delivered row is retrying again |
| DeliveryRuns.OverlapHarmless | app/workers/tasks.py:114-119 | a run with an attempt in flight at a delivered row that no continuation undoes |
| EmitEvent.SubscribersAre | app/modules/webhooks/events.py:19-30 | the endpoints that get a row are exactly those of the organization that are active and list the event type |
| EmitEvent.SubscribersAt | app/modules/webhooks/events.py:19-30 | they are taken in the order of the query, each once |
| EmitEvent.Backend.Emit | app/modules/webhooks/events.py:27-48 | one fresh pending row per subscriber in query order; all rows are there before the first job is published, and jobs follow in the same order up to the message the broker refuses |
| EmitEvent.Backend.Request | app/db/session.py:26-30 | all rows are committed or none; committed exactly when nothing failed; every committed delivery has been published |
| Idempotency.Session.AcquireIdempotency | app/infra/idempotency_db.py:35-78 | an absent key gets a processing record created now that expires a lifetime later; a present one is replayed, refused as reused, or refused as in progress, and left alone |
| Idempotency.Session.CompleteIdempotency | app/infra/idempotency_db.py:81-89 | the record becomes completed with status and body, and no other record changes |
| Idempotency.Session.Handle | app/modules/organizations/router.py:50-70 | a request acts once for an absent key and stores its reply, replays for a present key with the same hash, fails otherwise, and a failure leaves nothing behind |
| Idempotency.RefinesSequentialMap | app/infra/idempotency_db.py:35-89 | over all interleavings of begin, insert, select, act, complete, commit, abort and cleanup, what became durable is a run of the sequential "run once, then replay" map, and the table is that map |
| Idempotency.ExactlyOncePerLifetime | app/modules/organizations/router.py:97-124 | within one lifetime of a record all committed replies have the same body and request hash, and only the first acted |
| Idempotency.EveryReplyHasItsAction | app/infra/idempotency_db.py:67-77 | every committed reply goes back to an action of the same lifetime with the same hash and body |
| Idempotency.OnePayloadPerLifetime | app/infra/idempotency.py:6-8 | two payloads served under one key within a record lifetime are the same tree up to member order, or SHA-256 collides on their two canonical texts |
| Idempotency.ReplayableForADay | app/workers/tasks.py:159-159 | in every run the record that a transaction commits is present and unchanged, can be replayed, and is not expired by any cleanup, until 86 400 seconds after the clock of its insert |
| Idempotency.NeverInProgress | app/infra/idempotency_db.py:78-78 | in no reachable state can an open request be told that its key is in progress |
| Base64.UnpaddedRoundTrip | app/core/pagination.py:21-27 | removing the padding and restoring it loses nothing, for every length modulo three (RFC 4648 section 5) |
| Base64.DecodeEncode | app/core/pagination.py:27-27 | the lenient decoder reads back what the encoder writes, after any output so far |
| Cursor.TimestampRoundTrip | app/core/pagination.py:29-29 | the ISO spelling of every microsecond timestamp, with or without offset, is read back |
| Cursor.UuidRoundTrip | app/core/pagination.py:30-30 | the hyphenated spelling of every UUID is read back |
| Cursor.CursorRoundTrip | app/core/pagination.py:16-35 | decoding an encoded position gives it back if its timestamp is aware, and the awareness error if it is naive |
| Cursor.CursorInjective | app/core/pagination.py:16-21 | two positions, aware or naive, have the same cursor exactly when they are equal |
| CursorText.FullBlock | app/core/pagination.py:21-21 | every three bytes are a number of 24 bits, written as four digits of the URL-safe alphabet |
| CursorText.LastBlock | app/core/pagination.py:21-21 | one or two bytes at the end are filled with zero bits and pads |
| CursorText.CursorIsUnpadded | app/core/pagination.py:21-21 | a cursor has no pad, and is the encoding of its payload once the missing ones are put back |
| CursorText.TimestampText | app/core/pagination.py:18-18 | the ISO text, position by position: the digits of year, month, day, hour, minute and second, and microseconds only if there are any |
| CursorText.OffsetText | app/core/pagination.py:18-18 | the offset's sign, two digits of hours and minutes, and seconds only if it has any |
| CursorText.UuidText | app/core/pagination.py:18-18 | thirty-two lower-case hexadecimal digits of the id in groups of 8, 4, 4, 4 and 12 |
| CursorText.PayloadIs | app/core/pagination.py:17-20 | the payload is an object of created_at and id, in this order and without spaces |
| Calendar.InstantOrder | app/modules/tasks/router.py:72-72 | for equal offsets the order of instants is that of year, month, day, hour, minute, second and microsecond, and then of ids |
| Calendar.OffsetShifts | app/modules/tasks/router.py:66-66 | a change of the offset shifts the instant by as many microseconds |
| Calendar.YearsGregorian | app/modules/tasks/router.py:66-66 | the days before a year follow the Gregorian leap rule |
| Calendar.KnownInstants | app/modules/tasks/router.py:66-66 | the instants of 1970 and 2000 |
| Keyset.OnlyDescending | app/modules/tasks/router.py:72-74 | the sorted result is the only decreasing list of the rows, so ORDER BY leaves no choice |
| Keyset.DecodeCursorReadsBack | app/core/pagination.py:24-35 | the cursor decoder undoes the encoding of every aware position, which is all that the walks ask of a decoder |
| Keyset.PageIsPrefix | app/modules/tasks/router.py:70-80 | a page is the first `limit` rows below the cursor; if there are more, the next cursor stands for the last of them |
| Keyset.PageIsNewest | app/modules/tasks/router.py:70-80 | a page shows the newest of the rows selected: in calendar fields it descends, with ids descending for equal timestamps, and each row left out is older than each one shown |
| Keyset.TaskPage | app/modules/tasks/router.py:48-80 | for every cursor decoder: a task page fails exactly on a cursor that it refuses; otherwise the rows considered are those of the organization, and of the given project, status, assignee and priority, that are older than the cursor; the page shows the newest of them by calendar fields and then id, and has a next cursor exactly if it leaves one out |
| Keyset.ProjectPage | app/modules/projects/router.py:41-67 | the same for the organization's projects |
| Keyset.FebruaryFirst | app/modules/tasks/router.py:70-74 | of a task of January and one of February, a page of one shows the latter |
| Keyset.WalkDecreases | app/modules/tasks/router.py:64-80 | however the table and the page size change between requests, emitted positions strictly decrease, in calendar fields for equal offsets, and each row was there, passing the filter, when emitted |
| Keyset.WalkComplete | app/modules/tasks/router.py:58-80 | a position shown by every table that a finished walk looked at is emitted |
| Keyset.ChangingTable | app/modules/projects/router.py:42-67 | over a changing table a finished walk emits every row that matched throughout exactly once |
| Keyset.FixedTable | app/modules/projects/router.py:41-67 | on a fixed table the walk emits exactly the filtered table, newest first in calendar fields, in max(1, (n + limit - 1) / limit) pages |
| Json.PrintRoundTrip | app/infra/idempotency.py:7-7 | a JSON reader recovers every printed value, and what follows it, from the text |
| Json.CanonicalReadsBack | app/modules/webhooks/signing.py:7-8 | the canonical text is JSON that reads back as the payload up to member order, with ASCII escapes or without |
| Json.PrintInjective | app/infra/idempotency.py:7-7 | two values have the same text exactly when they are equal |
| Json.CanonicalIffSame | app/infra/idempotency.py:7-7 | sorting members at every depth identifies exactly the trees that are equal up to member order |
| Json.BytesDecideEquality | app/modules/webhooks/signing.py:7-8 | two payloads get the same bytes if and only if they are the same tree up to member order, with ASCII escapes or without |
| Json.RequestHashDecides | app/infra/idempotency.py:6-8 | unless SHA-256 collides on them, two requests have the same hash exactly when they are the same tree up to member order |
| CanonicalText.CanonicalIff | app/infra/idempotency.py:7-7 | the canonical form is the one tree that is the same up to member order and has, in every object at every depth, each key before the next: a proper prefix of it, or the smaller code point at the first difference |
| CanonicalText.PrintIff | app/infra/idempotency.py:7-7 | the printer's output is the one text that the grammar gives a value: no space, decimal integers without leading zero, and each character of a string spelled as json.dumps does, with which characters are escaped and how written out |
| CanonicalText.CanonicalTextIff | app/modules/webhooks/signing.py:7-8 | a text is the canonical text of a payload if and only if it is the text of a tree with ascending keys that is the payload up to member order |
| CanonicalText.HashedText | app/infra/idempotency.py:6-8 | the request hash is taken of the UTF-8 bytes of that text without ASCII escapes |
| CanonicalText.KnownText | app/infra/idempotency.py:7-7 | two payloads that differ in member order have one canonical form, and its text letter by letter |
| Utf8.EncodesCodePoint | app/infra/idempotency.py:7-7 | the bytes of a character, read by the table of RFC 3629 section 3, give its code point in the shortest form |
| Signing.HeaderFields | app/modules/webhooks/signing.py:15-22 | reading a created header gives exactly its timestamp and digest |
| Signing.SignatureRoundTrip | app/modules/webhooks/signing.py:11-28 | a created header is accepted exactly when its effective timestamp is within tolerance, with the zero timestamp as the one extra condition |
| Signing.SignedBytesBind | app/modules/webhooks/signing.py:13-13 | the signed bytes determine the timestamp and the payload |
| Signing.SignedPayloadsBind | app/modules/webhooks/signing.py:7-13 | two webhook bodies are signed over the same bytes exactly when time and payload tree agree |
| Signing.OtherPayloadNeedsCollision | app/modules/webhooks/signing.py:18-28 | if a header is accepted for a payload it was not made for, the text it was made for and the text the check computes differ and have the same digest |
| Signing.HeaderIs | app/modules/webhooks/signing.py:11-15 | the header that is sent, letter by letter: the decimal time, and the digest of the decimal time, a full stop and the payload |
| Signing.AcceptedIff | app/modules/webhooks/signing.py:18-28 | any header of named values is accepted if and only if its last t is an integer within tolerance and its last v1 is the digest of that integer, a full stop and the payload, with the clock in place of zero |
| Signing.RefusedWithout | app/modules/webhooks/signing.py:20-24 | a header without t or without v1 is refused |
| Signing.IntegerRead | app/modules/webhooks/signing.py:21-21 | the decimal text of an integer is read as that integer |
| RefreshTokens.TokenStore.IssueTokenPair | app/modules/auth/service.py:43-56 | the table gains one live token of the family, created now and expiring thirty days later |
| RefreshTokens.TokenStore.RotateRefreshToken | app/modules/auth/service.py:59-73 | succeeds exactly for a known, unrevoked, unexpired token of an active user; then it is revoked and points at its successor, and a failure changes nothing |
| RefreshTokens.TokenStore.RevokeRefreshToken | app/modules/auth/service.py:76-82 | a live token is revoked, anything else is left alone |
| RefreshTokens.TokenStore.CleanupExpired | app/workers/tasks.py:160-160 | exactly the tokens that have expired are deleted |
| RefreshTokens.FamiliesAreChains | app/modules/auth/service.py:59-73 | in every reachable state the tokens of a family are exactly one acyclic path of replacements |
| RefreshTokens.FamilyFacts | app/modules/auth/service.py:59-82 | a family has one user and at most one unrevoked token, successors exist and do not expire earlier, and no token is rotated twice |
| RefreshTokens.RotationIff | app/modules/auth/service.py:59-73 | in every reachable state a rotation takes effect if and only if the token was issued less than thirty days before, is not revoked, and its user is active; otherwise the table stays as it was |
| RefreshTokens.RotationsInTime | app/modules/auth/service.py:63-66 | in every run, every rotation that took effect was of a token issued less than thirty days before it |
| RefreshTokens.LogoutEndsFamily | app/modules/auth/service.py:76-82 | once the live token of a family is revoked by logout, the family never has a live token again |
| RefreshTokens.CleanupRemovesPrefix | app/workers/tasks.py:160-160 | cleanup removes a prefix of each family's chain, and what survives is again a chain |
| Billing.Store.GetOrCreateSubscription | app/modules/billing/service.py:34-46 | returns the organization's row, appending the default one if there is none; an unknown organization fails |
| Billing.UpdateMeaning | app/modules/billing/service.py:126-153 | column by column: the status is the event's alone, the plan becomes that of a configured price and changes to no other, a period end is never lost, only checkout and subscription events touch the Stripe ids and set them to the event's, other kinds change nothing; twice is once |
| Billing.StatusTable | app/modules/billing/service.py:22-31 | the status that each kind of event and each Stripe state sets, written out |
| Billing.ResolveMeaning | app/modules/billing/service.py:83-96 | the organization is the one named in the metadata, else the client reference, else the one whose row has the customer |
| Billing.ApplyRecords | app/modules/billing/service.py:106-167 | an accepted event leaves its marker, and one audit entry if it concerns an organization |
| Billing.ApplyRefused | app/db/models.py:242-255 | an event of a known organization is refused if and only if its new customer or subscription id belongs to another organization's row |
| Billing.ApplyFrame | app/modules/billing/service.py:122-153 | an event updates the subscription of the organization it resolves to, and no other |
| Billing.Store.ProcessStripeEvent | app/modules/billing/service.py:99-167 | a marked event changes nothing; a new one is marked and applied in one step; an error leaves neither marker nor change |
| Billing.RepeatIgnored | app/modules/billing/service.py:108-120 | delivering a committed event id again, even with another body, changes nothing |
| BillingOverlap.EachEventOnce | app/modules/billing/service.py:106-120 | however requests overlap, each event id commits at most once, markers and audit entries are those of the commits in their order, and the tables stay consistent |
| BillingOverlap.ColumnIff | app/modules/billing/service.py:126-153 | a committing event leaves a column as applying it to the stored row would, if and only if it leaves the column alone, changes it from what it had read, or finds its value stored already |
| BillingOverlap.FoldIff | app/modules/billing/service.py:99-167 | after every commit of every overlapping run the database is the fold of the committed events, if and only if each of them meets that condition in every column |
| BillingOverlap.AloneFolds | app/modules/billing/service.py:99-167 | if no other event of the organization committed between an event's read and its commit, for every event, the final database is the duplicate-free fold in first-commit order |
| BillingOverlap.LastSetterIff | app/modules/billing/service.py:126-153 | after any overlapping run a column has the value that the last committed event setting it wants, if and only if that event changed it from what it had read or found it stored already |
| BillingOverlap.StatusLost | app/modules/billing/service.py:34-46 | a run of two overlapping events whose stored status is not that of the fold |
| Billing.AlwaysConsistent | app/db/models.py:242-255 | one subscription per organization, allowed plans and statuses and unique Stripe ids after any deliveries |
| Tenants.Session.CreateProject | app/modules/projects/service.py:22-46 | creates an active project under the stripped name with its audit entry and event payload, or nothing when that name is taken in the organization |
| Tenants.Session.UpdateProject | app/modules/projects/service.py:49-68 | applies the named fields in order to the organization's own project, with audit entry and event payload |
| Tenants.Session.DeleteProject | app/modules/projects/service.py:71-90 | deletes the project with its tasks and attachments after recording audit metadata and event payload |
| Tenants.Session.CreateTask | app/modules/tasks/service.py:41-69 | creates a task with the stripped title only in a project, and for an assignee, of the same organization, with audit entry and event payload |
| Tenants.Session.UpdateTask | app/modules/tasks/service.py:72-95 | applies the named fields after checking a named assignee, and emits completion for a task that is done, with audit entry and event payload |
| Tenants.Session.DeleteTask | app/modules/tasks/service.py:98-117 | deletes the task with its attachments after recording audit metadata and event payload |
| TenantRows.ProjectCreation | app/modules/projects/service.py:22-46 | the whole new state in columns, or nothing if the organization has another project of the stripped name |
| TenantRows.PatchedProjectColumns | app/modules/projects/service.py:53-54 | the last change that names a column decides it, and the others stay |
| TenantRows.ProjectUpdate | app/modules/projects/service.py:49-68 | the three outcomes, with row, audit entry and event in columns |
| TenantRows.ProjectDeletion | app/modules/projects/service.py:71-90 | which rows go with a project, and that no other does |
| TenantRows.TaskCreation | app/modules/tasks/service.py:41-69 | the refusals in order, and the whole new state in columns |
| TenantRows.PatchedTaskColumns | app/modules/tasks/service.py:72-95 | the last change that names a column decides it; organization, project and creator never change |
| TenantRows.TaskUpdate | app/modules/tasks/service.py:72-95 | the refusals in order, and row, audit entry and event in columns |
| TenantRows.TaskDeletion | app/modules/tasks/service.py:98-117 | which rows go with a task, and that no other does |
| TenantRows.Reading | app/modules/tasks/service.py:34-38 | a project or task is found by its id in its own organization only |
| TenantRows.Attaching | app/modules/files/router.py:29-50 | an attachment needs a parent of its organization, and is the only row written |
| TenantRows.StripMeaning | app/modules/tasks/service.py:41-69 | stripping a title removes white space from both ends, all of it, and nothing else |
| Tenants.OthersInvisible | app/modules/projects/service.py:13-90 | a request of another organization changes no row, audit entry or event of this one, cascades included |
| Tenants.OwnSlice | app/modules/tasks/service.py:13-117 | an organization's request on the shared tables is the same request on its own rows alone |
| Tenants.NonInterference | app/db/models.py:113-156 | deleting all requests of other organizations from a run, and their rows, changes no response and no row of this organization |
| Tenants.IntegrityAlways | app/db/models.py:113-156 | tasks and attachments always refer to existing parents of their own organization |
| Organizations.Session.CreateOrganization | app/modules/organizations/service.py:15-31 | a free slug gives an organization, its owner's membership and an audit entry; a taken one changes nothing |
| Organizations.Session.InviteMember | app/modules/organizations/service.py:34-93 | members, running invitations and a broker that refuses the mail job leave no trace; otherwise a lapsed invitation makes room for a new one of seven days, with its audit entry and mail job |
| Organizations.Session.AcceptInvitation | app/modules/organizations/service.py:96-145 | the refusals in order, none leaving a trace; otherwise the invitation is accepted, with a membership unless there is one, and the membership is logged with its role |
| Organizations.Session.UpdateMembershipRole | app/modules/organizations/service.py:148-178 | changes a non-owner's role and logs both roles, and nothing else |
| Organizations.Session.RemoveMembership | app/modules/organizations/service.py:181-207 | removes a non-owner's membership and logs it, and nothing else |
| OrganizationRows.Creation | app/modules/organizations/service.py:15-31 | the whole new state in columns, or nothing if the slug is taken |
| OrganizationRows.Inviting | app/modules/organizations/service.py:34-93 | the refusals in order; otherwise an invitation pending for 604 800 seconds, the lapsed ones of the address expired, and no other changed |
| OrganizationRows.Accepting | app/modules/organizations/service.py:96-145 | the refusals in order; otherwise the invitation is accepted, a member keeps his role and anybody else gets the one offered |
| OrganizationRows.RoleChanging | app/modules/organizations/service.py:148-178 | the refusals in order; otherwise the role and the audit entry, and nothing else |
| OrganizationRows.Removing | app/modules/organizations/service.py:181-207 | the refusals in order; otherwise the membership goes, and nothing else |
| OrganizationRows.Sweeping | app/workers/tasks.py:161-165 | the cleanup job expires exactly the pending invitations whose time is over |
| OrganizationRows.InvitationStands | app/modules/organizations/service.py:34-145 | in every run organization, address, role and expiry of an invitation stay, and none becomes pending again |
| OrganizationRows.AcceptedInTime | app/modules/organizations/service.py:96-133 | in every run an invitation is accepted less than seven days after it was sent, by the person it was addressed to, who then has the role offered unless a member already |
| Organizations.OneOwnerForever | app/modules/organizations/service.py:15-31 | in every reachable state an organization has exactly one owner, its creator, and its slug to itself |
| Organizations.InvitationFacts | app/modules/organizations/service.py:96-145 | an invitation is accepted at most once, by the account it was addressed to, and an address has at most one pending invitation to an organization |
| Organizations.MembersWereInvited | app/modules/organizations/service.py:110-133 | every member created the organization or accepted an invitation to it, and nobody is a member twice |
| Organizations.AuditTellsMembers | app/modules/organizations/service.py:136-207 | in every reachable state the audit log alone determines who is a member other than an owner, and with which role |

## Left out

- RateLimit.EvaluateScript: real arithmetic; the rounding of Lua doubles and the decimal spelling in which Redis stores `tokens` are not modelled.
- RateLimit.RedisStore.CheckRateLimit: the conversion of Redis reply types is left out.
- Delivery.DeliverWebhook: the target check is an oracle for its error text, and the POST an oracle for its status or error; encryption of the signing secret is left out.
- DeliveryBounds.AttemptBound: deletion of a delivery by cascade from its endpoint is not an event, since no request deletes endpoints.
- DeliveryProtocol.OrphansStop: the six executions assume acknowledged, undisturbed messages; each lost worker or redelivery adds executions.
- EmitEvent.Backend.Request: one event per request; other use-case failures are one flag.
- Idempotency.Session.Handle: the one-transaction view; waiting for locks, and the error for a record that disappears after a conflict, are in the interleaved model only.
- Idempotency.RefinesSequentialMap: the use case is one step that yields a reply body; what it writes elsewhere is represented by that body.
- Cursor.CursorRoundTrip: the decoder accepts the JSON, ISO and UUID spellings that the encoder writes; other spellings that Python's parsers also accept are refused here. The list theorems hold for every decoder that reads the encoder's spellings back.
- Keyset.TaskPage: the limit of 100 rows and the query parameters' value checks are left out; the statements hold for every limit from 1 on.
- Keyset.ChangingTable: a row's creation time and id never change, as in the source; each page sees one snapshot.
- Json.PrintRoundTrip: the reader accepts JSON without insignificant space, and integers only.
- Json.BytesDecideEquality: null, booleans, integers, strings, arrays and objects with distinct keys; floats and lone surrogates are left out.
- Signing.SignatureRoundTrip: `int()` also accepts surrounding blanks and underscores, which the reader here refuses.
- RefreshTokens.TokenStore.IssueTokenPair: the lifetime is the default of 30 days; access tokens and password checks are left out.
- Billing.Store.ProcessStripeEvent: organization ids are read in their canonical spelling and period ends are whole seconds.
- Billing.DuplicateFreeFold: states the fold for requests that do not overlap; `BillingOverlap` states it for those that do.
- BillingOverlap.EachEventOnce: checkout and portal requests, which may insert an organization's default subscription, are not among the overlapping requests.
- Tenants.NonInterference: requests are atomic and authorised; a broker that refuses a message is left out, and downloads only read.
- Organizations.Session.InviteMember: addresses and slugs arrive validated and in lower case; sending the mail is left out.
- Organizations.InvitationFacts: requests are atomic, and the expired mark that a failing acceptance sets is rolled back with it.
- The permission matrix, upload checks, object keys, access tokens, Argon2, Fernet, DNS and address classification of webhook targets: single-branch facts or library internals.
- Metrics, logging, tracing, health checks, configuration and migrations: no property of their own.
