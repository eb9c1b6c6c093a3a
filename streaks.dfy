/** The stored user document and the decision taken by the `/add-streak`
    handler on one loaded document. */
module Streaks {
  import opened Days

  datatype Option<T> = None | Some(value: T)

  /** The fields of a user document that the handlers read or write
      (index.js:21-39). `password` holds the bcrypt hash, kept opaque;
      timestamps are milliseconds, `None` standing for the `null` default. */
  datatype User = User(
    password: string,
    joinedAt: int,
    lastLogin: Option<int>,
    streak: nat,
    streakClaimedOn: Option<int>)

  /** The three messages of a claim that found its user. */
  datatype Outcome =
    | StreakLost      // "Streak Lost!"
    | AlreadyClaimed  // "Streak already claimed for today"
    | Claimed         // "Hurray!! Keep it Up Lad!"

  /** The document a registration stores: every streak field at its default. */
  function NewUser(password: string, joinedAt: int): User
  {
    User(password, joinedAt, None, 0, None)
  }

  /** Consistency of the streak fields: a claim time is recorded exactly when
      the counter is positive, and never without a login time. */
  predicate WellFormed(u: User)
  {
    && (u.streakClaimedOn.None? <==> u.streak == 0)
    && (u.streakClaimedOn.Some? ==> u.lastLogin.Some?)
  }

  /** Chronology of a document when the clock reads `clock`: nothing lies in
      the future, a login is not before the registration, and the last claim
      is not after the last login. */
  predicate InOrder(u: User, clock: int)
  {
    && u.joinedAt <= clock
    && (u.lastLogin.Some? ==> u.joinedAt <= u.lastLogin.value <= clock)
    && (u.streakClaimedOn.Some? ==> u.lastLogin.Some? && u.streakClaimedOn.value <= u.lastLogin.value)
  }

  /** First guard of the handler: no login recorded, or the last one is two
      days or more away from `now`. */
  predicate StreakBroken(u: User, now: int)
  {
    u.lastLogin.None? || !AreConsecutiveDays(now, u.lastLogin.value)
  }

  /** Second guard: a claim is recorded and it is less than two days away. */
  predicate ClaimedRecently(u: User, now: int)
  {
    u.streakClaimedOn.Some? && AreConsecutiveDays(now, u.streakClaimedOn.value)
  }

  /** The `/add-streak` decision on a loaded document at time `now`: the
      outcome and the document as it stands afterwards. */
  function Decide(u: User, now: int): (r: (Outcome, User))
    ensures r.1.password == u.password && r.1.joinedAt == u.joinedAt
    ensures r.0 == AlreadyClaimed <==> r.1 == u
    ensures r.0 != AlreadyClaimed ==> r.1.lastLogin == Some(now) && r.1.streakClaimedOn == Some(now)
    ensures r.0 == StreakLost ==> r.1.streak == 1
    ensures r.0 == Claimed ==> r.1.streak == u.streak + 1
    ensures WellFormed(u) ==> WellFormed(r.1)
  {
    if StreakBroken(u, now) then
      (StreakLost, u.(streak := 1, lastLogin := Some(now), streakClaimedOn := Some(now)))
    else if ClaimedRecently(u, now) then
      (AlreadyClaimed, u)
    else
      (Claimed, u.(streak := u.streak + 1, lastLogin := Some(now), streakClaimedOn := Some(now)))
  }

  /** Which branch a claim takes, as the three guards are tried in order. */
  lemma DecideBranches(u: User, now: int)
    ensures Decide(u, now).0 == StreakLost <==> StreakBroken(u, now)
    ensures Decide(u, now).0 == AlreadyClaimed <==> !StreakBroken(u, now) && ClaimedRecently(u, now)
    ensures Decide(u, now).0 == Claimed <==> !StreakBroken(u, now) && !ClaimedRecently(u, now)
  {
  }

  /** A broken streak restarts at 1 whatever its previous value, with both
      timestamps set to `now`. */
  lemma BrokenStreakRestarts(u: User, now: int)
    requires u.lastLogin.None? || now - u.lastLogin.value >= 2 * OneDayInMillis
                               || u.lastLogin.value - now >= 2 * OneDayInMillis
    ensures Decide(u, now) == (StreakLost, u.(streak := 1, lastLogin := Some(now), streakClaimedOn := Some(now)))
  {
  }

  /** A second claim less than two days after any claim that wrote the
      document reports "already claimed" and leaves the document as it was. */
  lemma ClaimIdempotent(u: User, t: int, t': int)
    requires Decide(u, t).0 != AlreadyClaimed
    requires -2 * OneDayInMillis < t' - t < 2 * OneDayInMillis
    ensures Decide(Decide(u, t).1, t') == (AlreadyClaimed, Decide(u, t).1)
  {
  }

  /** The increment branch is reached only when the last login is strictly
      later than the last claim: some `/login` refreshed `lastLogin` after it. */
  lemma ClaimNeedsLaterLogin(u: User, clock: int, now: int)
    requires InOrder(u, clock)
    requires Decide(u, now).0 == Claimed
    ensures u.lastLogin.Some?
    ensures u.streakClaimedOn.None? || u.streakClaimedOn.value < u.lastLogin.value
  {
  }

  /** A claim at a time not earlier than the clock keeps the chronology. */
  lemma DecideInOrder(u: User, clock: int, now: int)
    requires InOrder(u, clock) && clock <= now
    ensures InOrder(Decide(u, now).1, now)
  {
  }

  /** The document after repeated claims at the given times, with no login
      between them. */
  function StateAfter(u: User, times: seq<int>): User
    decreases |times|
  {
    if times == [] then u else StateAfter(Decide(u, times[0]).1, times[1..])
  }

  /** One more claim after a run continues from where the run left off. */
  lemma {:induction false} StateAfterStep(u: User, times: seq<int>, t: int)
    ensures StateAfter(u, times + [t]) == Decide(StateAfter(u, times), t).1
    decreases |times|
  {
    if times != [] {
      assert (times + [t])[0] == times[0];
      assert (times + [t])[1..] == times[1..] + [t];
      StateAfterStep(Decide(u, times[0]).1, times[1..], t);
    }
  }

  /** Outcomes of repeated claims at the given times, with no login between
      them. */
  function ClaimRun(u: User, times: seq<int>): (outcomes: seq<Outcome>)
    ensures |outcomes| == |times|
    decreases |times|
  {
    if times == [] then []
    else [Decide(u, times[0]).0] + ClaimRun(Decide(u, times[0]).1, times[1..])
  }

  /** The i-th claim of a run is the decision on the document left by the
      claims before it. */
  lemma {:induction false} ClaimRunAt(u: User, times: seq<int>, i: nat)
    requires i < |times|
    ensures ClaimRun(u, times)[i] == Decide(StateAfter(u, times[..i]), times[i]).0
    decreases |times|
  {
    if i == 0 {
      assert times[..0] == [];
    } else {
      var next := Decide(u, times[0]).1;
      ClaimRunAt(next, times[1..], i - 1);
      assert times[..i][0] == times[0];
      assert times[..i][1..] == times[1..][..i - 1];
      assert ClaimRun(u, times) == [Decide(u, times[0]).0] + ClaimRun(next, times[1..]);
    }
  }

  /** Without a login in between, claims never increment the streak: once a
      claim has written the document its two timestamps are equal, and from
      such a document every later claim is "lost" or "already claimed". A
      freshly registered document (both timestamps null) is such a one. */
  lemma {:induction false} NoClaimWithoutLogin(u: User, times: seq<int>)
    requires u.lastLogin == u.streakClaimedOn
    ensures Claimed !in ClaimRun(u, times)
    decreases |times|
  {
    if times != [] {
      var next := Decide(u, times[0]).1;
      assert Decide(u, times[0]).0 != Claimed;
      NoClaimWithoutLogin(next, times[1..]);
      assert ClaimRun(u, times) == [Decide(u, times[0]).0] + ClaimRun(next, times[1..]);
    }
  }

  /** The scenario of a user with streak 3 whose last login and claim were on
      1 January 2024 at 10:00 UTC, claiming 25 hours later and again five
      minutes after that: with the single two-day threshold both claims
      report "already claimed" and the streak stays 3. */
  lemma NextDayClaimIsAlreadyClaimed()
    ensures var jan1 := 1704103200000;
            var alice := User("hash", jan1, Some(jan1), 3, Some(jan1));
            var jan2 := jan1 + 25 * 60 * 60 * 1000;
            && Decide(alice, jan2) == (AlreadyClaimed, alice)
            && Decide(alice, jan2 + 5 * 60 * 1000) == (AlreadyClaimed, alice)
  {
  }
}
