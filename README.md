# Nut-Buster streak service, modelled in Dafny

The service stores one document per user and exposes three routes:
`/register` creates a user document, `/login` checks a password and stamps
the login time, and `/add-streak` claims the daily streak. The claim loads
the document and compares "now" with the last login and the last claim.
There is one two-day threshold, `areConsecutiveDays`. The claim then resets
the streak to 1 ("Streak Lost!"), reports it as already claimed and saves
nothing, or increments it ("Hurray!! Keep it Up Lad!").

The model has three modules:

- `Days` (`days.dfy`): the threshold. Instants are integer milliseconds.
  The function divides over the reals, as the handler divides its
  millisecond difference by one day. Its contract gives the equivalent
  integer test, `|date1 - date2| < 172800000`.
- `Streaks` (`streaks.dfy`): the user document as a datatype, and the claim
  decision `Decide` as a pure function of the loaded document and `now`.
  Lemmas cover its branches, idempotence, reachability of the increment,
  and runs of repeated claims (`ClaimRun`, `StateAfter`).
- `Store` (`store.dfy`): the collection as a `map` from username to
  document. Each route is a step function on the whole collection. `Replay`
  runs a sequence of requests, and lemmas show what every such run keeps.
  The class `UserStore` holds the collection in a mutable field. Its methods
  `Register`, `Login` and `AddStreak` load a document, assign its fields
  branch by branch as the handlers do, and save it. Each method is proved
  equal to its step function.

A mongoose `findOne` returns a copy of the stored document, and `save`
writes the changed fields back. Each request is atomic here, so the stored
document comes out the same as if the whole copy were written. The model
therefore loads a `User` value, updates it in a local variable and stores
it back into the map.

Time, the password check and the password hash are inputs. `now` is passed
to every operation in place of `new Date()` and `Date.now`. `passwordMatch`
is the result of `bcrypt.compare`. `password` is the already hashed string
that `bcrypt.hash` would produce.

### How the threshold behaves

- A daily streak suggests three cases: same day, next day, missed day.
  The code has one test, "less than two days apart". It decides both
  "streak broken" (against `lastLogin`) and "already claimed" (against
  `streakClaimedOn`). The model keeps that single test.
- A calendar-day streak would count a claim made 25 hours after the last
  one. The code does not: it reports "already claimed", because 25 hours is
  less than two days. `NextDayClaimIsAlreadyClaimed` proves this for a
  user with streak 3 (1 January 10:00, then 2 January 11:00 and 11:05).
- Every claim that writes sets `lastLogin` and `streakClaimedOn` to the
  same instant. So without a login in between, no later claim reaches the
  increment. This holds for one document (`NoClaimWithoutLogin`,
  `ClaimNeedsLaterLogin`) and for a user's claims sent through the whole
  service (`NoClaimWithoutLoginInStore`). The increment needs a `/login`
  that refreshes `lastLogin` while the last claim is at least two days old
  (`ClaimAfterLogin`).
- "The streak is 0 whenever no claim is recorded" holds in both
  directions. So does "a claim time is never recorded without a login
  time". Both are `WellFormed`, and every route keeps it.

JavaScript divides in floating point. For millisecond differences below
2^53, a correctly rounded quotient is below 2 exactly when the exact
quotient is. So the exact division in `AreConsecutiveDays` gives the same
answer as the handler.

## Model

| member | source | states |
|---|---|---|
| `Days.AreConsecutiveDays` | index.js:86-90 | the day-count test (the distance divided by one day, made absolute by the helper `Abs` for `Math.abs`, below 2) holds exactly when the two instants are less than 172800000 ms (two days) apart, in either order |
| `Days.ConsecutiveDaysSymmetric` | index.js:86-90 | swapping the two instants does not change the test |
| `Days.ConsecutiveDaysReflexive` | index.js:86-90 | an instant passes the test against itself |
| `Streaks.Decide` | index.js:100-127 | password and join time are kept; "already claimed" holds exactly when the document is unchanged; every other outcome stamps both timestamps with `now`; a lost streak is 1, a claim adds exactly 1; consistency of the streak fields is kept |
| `Streaks.DecideBranches` | index.js:102-124 | the outcome is "lost" iff there is no login or it is two days or more away; "already claimed" iff not lost and a claim lies less than two days away; "claimed" otherwise |
| `Streaks.BrokenStreakRestarts` | index.js:102-108 | with no login, or a login at least two days from `now`, the document becomes streak 1 with both timestamps `now`, whatever the previous streak |
| `Streaks.ClaimIdempotent` | index.js:102-127 | after any claim that writes at t, a claim at t' less than two days from t is "already claimed" and changes nothing |
| `Streaks.ClaimNeedsLaterLogin` | index.js:102-124 | in a document in chronological order, the increment happens only when a login exists and lies strictly after the last claim (or no claim is recorded) |
| `Streaks.DecideInOrder` | index.js:103-105 | a claim at a time not before the clock leaves the document in chronological order at `now` |
| `Streaks.ClaimRunAt` | index.js:92-143 | in a run of claims with no login between them, the i-th outcome is the decision at the i-th time on the document that the earlier claims left |
| `Streaks.NoClaimWithoutLogin` | index.js:102-127 | from a document whose two timestamps are equal (fresh, or just claimed), claims without a login in between never reach the increment |
| `Streaks.NextDayClaimIsAlreadyClaimed` | index.js:114-121 | streak 3 with last login and claim on 1 January 10:00: claims 25 hours later and five minutes after that are both "already claimed" with streak 3 |
| `Store.RegisterStep` | index.js:46-57 | a taken username is refused with the collection unchanged; a new one adds exactly one document with streak 0, null `lastLogin` and `streakClaimedOn`, the given hash and join time; other documents untouched |
| `Store.LoginStep` | index.js:65-78 | an unknown user or wrong password is refused with nothing changed; otherwise only that user's `lastLogin` becomes `now`, and the reply carries the previous `lastLogin` and the join time |
| `Store.AddStreakStep` | index.js:92-138 | an unknown user gives "not found" with nothing changed; otherwise the reply is the decision and the document after it, that document alone is replaced, and "already claimed" saves nothing |
| `Store.ReplayKeepsValid` | index.js:28-39 | every sequence of requests keeps every document's streak fields consistent (no claim time iff streak 0; a claim time only with a login time) |
| `Store.ReplayKeepsUsers` | index.js:46-143 | no request deletes a document or changes its password hash or join time |
| `Store.ReplayInOrder` | index.js:77 | with a clock that never runs backwards, timestamps are only set to the current time: nothing lies in the future, no login precedes registration, and the last claim is not after the last login |
| `Store.ReplayClaims` | index.js:95-129 | sending one user's claims through the service changes that user's document exactly as the single-document run does, and no other document |
| `Store.ClaimReplyAt` | index.js:95-138 | the reply to a user's i-th claim through the service is the i-th outcome of the single-document run, with the document that run has reached |
| `Store.NoClaimWithoutLoginInStore` | index.js:102-127 | through the service, a user whose two timestamps are equal (fresh, or just claimed) gets only "lost" or "already claimed" replies while claiming with no login in between |
| `Store.ClaimAfterLogin` | index.js:77 | register, claim (lost, streak 1), log in three days later and claim again: the second claim is "claimed" with streak 2 |
| `Store.UserStore.constructor` | index.js:42 | the store starts empty and consistent |
| `Store.UserStore.Register` | index.js:50-56 | the in-place registration leaves the collection and reply exactly as `RegisterStep` says, keeping consistency |
| `Store.UserStore.Login` | index.js:69-78 | the in-place login leaves the collection and reply exactly as `LoginStep` says, keeping consistency |
| `Store.UserStore.AddStreak` | index.js:95-138 | the field-by-field update and save of the handler leave the collection and reply exactly as `AddStreakStep` says, keeping consistency |

## Left out

- HTTP transport: Express routing, body parsing, CORS, `app.listen`. Status codes and JSON shaping are reduced to the reply datatypes, because they are plumbing.
- The MongoDB connection and the schema machinery. The asynchronous `findOne`, `save` and `findOneAndUpdate` become operations on an in-memory map.
- bcrypt hashing and comparison, because they are foreign library calls. The hash is an opaque string input and the comparison a boolean input.
- `console.error` and the generic 500 replies, because they are I/O and exception handling.
- Concurrency. Each request is atomic, so the read-modify-write race between two claims for the same user is not modelled.
- Floating-point division. It is replaced by exact division, which gives the same answer for millisecond values below 2^53.
- The `username` field inside the document. The map key stands for it, and `findOneAndUpdate` on a unique key updates that one document.
- The clock. `new Date()` and `Date.now` are the explicit `now` parameter.
