/** The user collection and the three routes that touch it: `/register`,
    `/login` and `/add-streak`. Each route is given as a step function on
    the whole collection, and as a method of `UserStore` that loads,
    updates and saves one document the way the handler does. */
module Store {
  import opened Days
  import opened Streaks

  /** The collection, keyed by username. */
  type Users = map<string, User>

  datatype RegisterReply = UsernameTaken | Registered

  /** A successful login reports the document as loaded, before the update. */
  datatype LoginReply = InvalidCredentials | LoggedIn(joinedAt: int, lastLogin: Option<int>)

  /** A claim either finds no user or reports its outcome and the document. */
  datatype StreakReply = UserNotFound | Answer(outcome: Outcome, user: User)

  predicate StoreValid(users: Users)
  {
    forall name :: name in users ==> WellFormed(users[name])
  }

  predicate StoreInOrder(users: Users, clock: int)
  {
    forall name :: name in users ==> InOrder(users[name], clock)
  }

  /** `/register`: a taken username is refused and nothing changes; a new one
      gets a document with the streak defaults and the registration time. */
  function RegisterStep(users: Users, username: string, password: string, now: int): (r: (RegisterReply, Users))
    ensures username in users ==> r == (UsernameTaken, users)
    ensures username !in users ==>
      && r.0 == Registered
      && r.1.Keys == users.Keys + {username}
      && r.1[username].password == password && r.1[username].joinedAt == now
      && r.1[username].streak == 0
      && r.1[username].lastLogin == None && r.1[username].streakClaimedOn == None
    ensures forall name :: name in users ==> name in r.1 && r.1[name] == users[name]
    ensures StoreValid(users) ==> StoreValid(r.1)
  {
    if username in users then (UsernameTaken, users)
    else (Registered, users[username := NewUser(password, now)])
  }

  /** `/login`: the password check is the boolean `passwordMatch`. An unknown
      user or a wrong password is refused with nothing changed; otherwise
      only that user's `lastLogin` becomes `now`, and the reply carries the
      previous value. */
  function LoginStep(users: Users, username: string, passwordMatch: bool, now: int): (r: (LoginReply, Users))
    ensures username !in users || !passwordMatch ==> r == (InvalidCredentials, users)
    ensures username in users && passwordMatch ==>
      && r.0 == LoggedIn(users[username].joinedAt, users[username].lastLogin)
      && r.1.Keys == users.Keys
      && r.1[username].lastLogin == Some(now)
      && r.1[username] == users[username].(lastLogin := r.1[username].lastLogin)
      && forall name :: name in users && name != username ==> r.1[name] == users[name]
    ensures StoreValid(users) ==> StoreValid(r.1)
  {
    if username !in users || !passwordMatch then (InvalidCredentials, users)
    else
      var user := users[username];
      (LoggedIn(user.joinedAt, user.lastLogin), users[username := user.(lastLogin := Some(now))])
  }

  /** `/add-streak`: an unknown user is reported and nothing changes;
      otherwise the user's document is decided upon and saved, every other
      document untouched, and "already claimed" saves nothing. */
  function AddStreakStep(users: Users, username: string, now: int): (r: (StreakReply, Users))
    ensures username !in users ==> r == (UserNotFound, users)
    ensures username in users ==>
      && r.0 == Answer(Decide(users[username], now).0, Decide(users[username], now).1)
      && r.1.Keys == users.Keys
      && r.1[username] == r.0.user
      && forall name :: name in users && name != username ==> r.1[name] == users[name]
    ensures r.0.Answer? && r.0.outcome == AlreadyClaimed ==> r.1 == users
    ensures StoreValid(users) ==> StoreValid(r.1)
  {
    if username !in users then (UserNotFound, users)
    else
      var (outcome, user) := Decide(users[username], now);
      (Answer(outcome, user), if outcome == AlreadyClaimed then users else users[username := user])
  }

  /** One request to the service, with the time it is handled. */
  datatype Request =
    | Register(username: string, password: string, now: int)
    | Login(username: string, passwordMatch: bool, now: int)
    | AddStreak(username: string, now: int)

  function Apply(users: Users, req: Request): Users
  {
    match req
    case Register(name, password, now) => RegisterStep(users, name, password, now).1
    case Login(name, passwordMatch, now) => LoginStep(users, name, passwordMatch, now).1
    case AddStreak(name, now) => AddStreakStep(users, name, now).1
  }

  /** The collection after handling the requests one after another. */
  function Replay(users: Users, reqs: seq<Request>): Users
    decreases |reqs|
  {
    if reqs == [] then users else Replay(Apply(users, reqs[0]), reqs[1..])
  }

  /** The requests arrive at non-decreasing times, none before `clock`. */
  predicate ClockFrom(clock: int, reqs: seq<Request>)
    decreases |reqs|
  {
    reqs == [] || (clock <= reqs[0].now && ClockFrom(reqs[0].now, reqs[1..]))
  }

  function LastTime(clock: int, reqs: seq<Request>): int
  {
    if reqs == [] then clock else reqs[|reqs| - 1].now
  }

  /** Every route keeps the streak fields consistent, so every collection
      built from well-formed documents (the empty one included) stays so. */
  lemma {:induction false} ReplayKeepsValid(users: Users, reqs: seq<Request>)
    requires StoreValid(users)
    ensures StoreValid(Replay(users, reqs))
    decreases |reqs|
  {
    if reqs != [] {
      assert StoreValid(Apply(users, reqs[0]));
      ReplayKeepsValid(Apply(users, reqs[0]), reqs[1..]);
    }
  }

  /** Documents are never deleted: every registered username stays
      registered, with the same password and registration time. */
  lemma {:induction false} ReplayKeepsUsers(users: Users, reqs: seq<Request>)
    ensures users.Keys <= Replay(users, reqs).Keys
    ensures forall name :: name in users ==>
      Replay(users, reqs)[name].password == users[name].password &&
      Replay(users, reqs)[name].joinedAt == users[name].joinedAt
    decreases |reqs|
  {
    if reqs != [] {
      ReplayKeepsUsers(Apply(users, reqs[0]), reqs[1..]);
    }
  }

  /** With a clock that never runs backwards, timestamps are only ever set to
      the current time: nothing lies in the future and the last claim is
      never later than the last login. */
  lemma {:induction false} ReplayInOrder(users: Users, clock: int, reqs: seq<Request>)
    requires StoreInOrder(users, clock)
    requires ClockFrom(clock, reqs)
    ensures StoreInOrder(Replay(users, reqs), LastTime(clock, reqs))
    decreases |reqs|
  {
    if reqs != [] {
      var req := reqs[0];
      var next := Apply(users, req);
      forall name | name in next
        ensures InOrder(next[name], req.now)
      {
        if name in users && next[name] == users[name] {
        } else if req.AddStreak? {
          DecideInOrder(users[name], clock, req.now);
        }
      }
      ReplayInOrder(next, req.now, reqs[1..]);
      assert LastTime(req.now, reqs[1..]) == LastTime(clock, reqs);
    }
  }

  /** Claims by one user at the given times. */
  function Claims(username: string, times: seq<int>): seq<Request>
    decreases |times|
  {
    if times == [] then [] else [AddStreak(username, times[0])] + Claims(username, times[1..])
  }

  /** Handling a user's claims through the service changes that user's
      document exactly as the single-document run does, and no other. */
  lemma {:induction false} ReplayClaims(users: Users, username: string, times: seq<int>)
    requires username in users
    ensures Replay(users, Claims(username, times)) == users[username := StateAfter(users[username], times)]
    decreases |times|
  {
    if times != [] {
      var reqs := Claims(username, times);
      assert reqs[0] == AddStreak(username, times[0]);
      assert reqs[1..] == Claims(username, times[1..]);
      var next := Apply(users, reqs[0]);
      assert next == users[username := Decide(users[username], times[0]).1];
      ReplayClaims(next, username, times[1..]);
    }
  }

  /** The reply to the i-th of a user's claims carries the i-th outcome of
      the single-document run and the document that run has reached. */
  lemma ClaimReplyAt(users: Users, username: string, times: seq<int>, i: nat)
    requires username in users
    requires i < |times|
    ensures AddStreakStep(Replay(users, Claims(username, times[..i])), username, times[i]).0
      == Answer(ClaimRun(users[username], times)[i], StateAfter(users[username], times[..i + 1]))
  {
    var u := users[username];
    ReplayClaims(users, username, times[..i]);
    ClaimRunAt(u, times, i);
    StateAfterStep(u, times[..i], times[i]);
    assert times[..i] + [times[i]] == times[..i + 1];
  }

  /** Through the service as well, a user whose two timestamps are equal
      (fresh, or just claimed) never reaches the increment by claiming alone:
      every reply is "lost" or "already claimed". */
  lemma NoClaimWithoutLoginInStore(users: Users, username: string, times: seq<int>)
    requires username in users
    requires users[username].lastLogin == users[username].streakClaimedOn
    ensures forall i :: 0 <= i < |times| ==>
      var reply := AddStreakStep(Replay(users, Claims(username, times[..i])), username, times[i]).0;
      reply.Answer? && reply.outcome != Claimed
  {
    var run := ClaimRun(users[username], times);
    NoClaimWithoutLogin(users[username], times);
    forall i | 0 <= i < |times|
      ensures var reply := AddStreakStep(Replay(users, Claims(username, times[..i])), username, times[i]).0;
              reply.Answer? && reply.outcome != Claimed
    {
      ClaimReplyAt(users, username, times, i);
      assert run[i] in run;
    }
  }

  /** The increment branch is reachable: register, a first claim (which
      reports a lost streak), a login three days later, and a claim right
      after it, which raises the streak to 2. */
  lemma ClaimAfterLogin()
    ensures var day := OneDayInMillis;
            var s1 := RegisterStep(map[], "alice", "hash", 0).1;
            var (r2, s2) := AddStreakStep(s1, "alice", 0);
            var s3 := LoginStep(s2, "alice", true, 3 * day).1;
            var (r4, s4) := AddStreakStep(s3, "alice", 3 * day);
            && r2 == Answer(StreakLost, User("hash", 0, Some(0), 1, Some(0)))
            && r4 == Answer(Claimed, User("hash", 0, Some(3 * day), 2, Some(3 * day)))
            && s4["alice"] == r4.user
  {
  }

  /** The service's collection of user documents. */
  class UserStore {
    var users: Users

    ghost predicate Valid()
      reads this
    {
      StoreValid(users)
    }

    constructor ()
      ensures Valid() && users == map[]
    {
      users := map[];
    }

    /** `/register` (index.js:46-57). */
    method Register(username: string, password: string, now: int) returns (reply: RegisterReply)
      requires Valid()
      modifies this
      ensures Valid()
      ensures (reply, users) == RegisterStep(old(users), username, password, now)
    {
      if username in users {
        return UsernameTaken;
      }
      var newUser := NewUser(password, now);
      users := users[username := newUser];
      reply := Registered;
    }

    /** `/login` (index.js:65-78): load, check, then update `lastLogin` in
        place; the reply is built from the document as loaded. */
    method Login(username: string, passwordMatch: bool, now: int) returns (reply: LoginReply)
      requires Valid()
      modifies this
      ensures Valid()
      ensures (reply, users) == LoginStep(old(users), username, passwordMatch, now)
    {
      if username !in users {
        return InvalidCredentials;
      }
      var user := users[username];
      if !passwordMatch {
        return InvalidCredentials;
      }
      users := users[username := users[username].(lastLogin := Some(now))];
      reply := LoggedIn(user.joinedAt, user.lastLogin);
    }

    /** `/add-streak` (index.js:92-138): load the document, assign its fields
        branch by branch, and save it unless the claim was already made. */
    method AddStreak(username: string, now: int) returns (reply: StreakReply)
      requires Valid()
      modifies this
      ensures Valid()
      ensures (reply, users) == AddStreakStep(old(users), username, now)
    {
      if username !in users {
        return UserNotFound;
      }
      var user := users[username];
      var currentDate := now;
      if user.lastLogin.None? || !AreConsecutiveDays(currentDate, user.lastLogin.value) {
        user := user.(streak := 1);
        user := user.(lastLogin := Some(currentDate));
        user := user.(streakClaimedOn := Some(currentDate));
        users := users[username := user];
        return Answer(StreakLost, user);
      } else if user.streakClaimedOn.Some? && AreConsecutiveDays(currentDate, user.streakClaimedOn.value) {
        return Answer(AlreadyClaimed, user);
      } else {
        user := user.(streak := user.streak + 1);
      }
      user := user.(lastLogin := Some(currentDate));
      user := user.(streakClaimedOn := Some(currentDate));
      users := users[username := user];
      reply := Answer(Claimed, user);
    }
  }
}
