// Local login with a sliding-window lockout, and server-side sessions
// (services/api-gateway/app/identity.py). Times are in microseconds; e-mail
// addresses are taken after strip() and lower().

module Identity {
  import opened Options

  const MAX_FAILURES := 5
  const LOCKOUT_WINDOW := 15 * 60 * 1_000_000

  // A collision-free hash, of passwords and of session tokens.
  datatype Digest = Digest(of: string)

  datatype Result = Success | Failure | Locked
  datatype AuthEvent = AuthEvent(email: string, event: string, outcome: Result, at: int)
  datatype User = User(id: string, passwordHash: Option<Digest>, active: bool)
  datatype Session = Session(userId: string, expiresAt: int, revokedAt: Option<int>)

  datatype State = State(users: map<string, User>, events: seq<AuthEvent>, sessions: map<Digest, Session>)

  // ---- the lockout

  predicate IsFailure(e: AuthEvent, email: string) {
    e.email == email && e.event == "login" && e.outcome == Failure
  }

  // The recorded failures of an address within [from, to].
  function FailuresIn(events: seq<AuthEvent>, email: string, from: int, to: int): nat {
    if events == [] then 0
    else
      var last := events[|events| - 1];
      FailuresIn(events[..|events| - 1], email, from, to) +
      if IsFailure(last, email) && from <= last.at <= to then 1 else 0
  }

  // created_at >= now - window, with no upper bound
  function RecentFailures(events: seq<AuthEvent>, email: string, now: int): nat {
    if events == [] then 0
    else
      var last := events[|events| - 1];
      RecentFailures(events[..|events| - 1], email, now) +
      if IsFailure(last, email) && last.at >= now - LOCKOUT_WINDOW then 1 else 0
  }

  predicate IsLocked(events: seq<AuthEvent>, email: string, now: int) {
    RecentFailures(events, email, now) >= MAX_FAILURES
  }

  predicate VerifyPassword(password: string, encoded: Option<Digest>) {
    encoded == Some(Digest(password))
  }

  predicate ValidCredentials(users: map<string, User>, email: string, password: string) {
    email in users && users[email].active && VerifyPassword(password, users[email].passwordHash)
  }

  // One attempt: the clock is read for the lockout check and again when the
  // event is recorded; the token is the random one a success would issue.
  datatype Attempt = Attempt(email: string, password: string, checkedAt: int, recordedAt: int, token: string,
      lifetime: nat)

  datatype LoginOutcome = AccountLocked | InvalidCredentials | LoggedIn(token: string)

  function Outcome(s: State, a: Attempt): LoginOutcome {
    if IsLocked(s.events, a.email, a.checkedAt) then AccountLocked
    else if !ValidCredentials(s.users, a.email, a.password) then InvalidCredentials
    else LoggedIn(a.token)
  }

  function LoggedInState(s: State, a: Attempt): State {
    match Outcome(s, a)
    case AccountLocked => s.(events := s.events + [AuthEvent(a.email, "login", Locked, a.recordedAt)])
    case InvalidCredentials => s.(events := s.events + [AuthEvent(a.email, "login", Failure, a.recordedAt)])
    case LoggedIn(token) =>
      s.(events := s.events + [AuthEvent(a.email, "login", Success, a.recordedAt)],
         sessions := s.sessions[Digest(token) := Session(s.users[a.email].id, a.recordedAt + a.lifetime, None)])
  }

  // ---- sessions

  predicate ActiveUser(users: map<string, User>, userId: string) {
    exists email :: email in users && users[email].id == userId && users[email].active
  }

  // resolve_session: None, or the user the token stands for.
  function Resolve(s: State, token: Option<string>, now: int): Option<string> {
    if token.None? || token.value == "" || Digest(token.value) !in s.sessions then None
    else
      var row := s.sessions[Digest(token.value)];
      if row.revokedAt.Some? || row.expiresAt < now || !ActiveUser(s.users, row.userId) then None
      else Some(row.userId)
  }

  function LoggedOut(s: State, token: Option<string>, now: int): State {
    if token.None? || token.value == "" || Digest(token.value) !in s.sessions then s
    else
      var d := Digest(token.value);
      if s.sessions[d].revokedAt.Some? then s
      else
        s.(sessions := s.sessions[d := s.sessions[d].(revokedAt := Some(now))],
           events := s.events + [AuthEvent("", "logout", Success, now)])
  }

  function LoggedOutAll(s: State, userId: string, now: int): State {
    s.(sessions := map d | d in s.sessions ::
         if s.sessions[d].userId == userId && s.sessions[d].revokedAt.None? then s.sessions[d].(revokedAt := Some(now))
         else s.sessions[d],
       events := s.events + [AuthEvent("", "logout_all", Success, now)])
  }

  class IdentityStore {
    var users: map<string, User>
    var events: seq<AuthEvent>
    var sessions: map<Digest, Session>

    ghost function Contents(): State
      reads this
    {
      State(users, events, sessions)
    }

    constructor (accounts: map<string, User>)
      ensures Contents() == State(accounts, [], map[])
    {
      users, events, sessions := accounts, [], map[];
    }

    method CountRecentFailures(email: string, now: int) returns (count: nat)
      ensures count == RecentFailures(events, email, now)
    {
      var since := now - LOCKOUT_WINDOW;
      count := 0;
      for n := 0 to |events|
        invariant count == RecentFailures(events[..n], email, now)
      {
        assert events[..n + 1][..n] == events[..n];
        if IsFailure(events[n], email) && events[n].at >= since {
          count := count + 1;
        }
      }
      assert events[..|events|] == events;
    }

    method LocalLogin(a: Attempt) returns (outcome: LoginOutcome)
      modifies this
      ensures outcome == Outcome(old(Contents()), a) && Contents() == LoggedInState(old(Contents()), a)
      ensures outcome.AccountLocked? <==> RecentFailures(old(events), a.email, a.checkedAt) >= 5
      ensures outcome == LoggedIn(a.token) <==>
                && RecentFailures(old(events), a.email, a.checkedAt) < 5
                && a.email in old(users) && old(users)[a.email].active
                && old(users)[a.email].passwordHash == Some(Digest(a.password))
      ensures events[..|events| - 1] == old(events)
      ensures !outcome.LoggedIn? ==> sessions == old(sessions)
    {
      var failures := CountRecentFailures(a.email, a.checkedAt);
      if failures >= MAX_FAILURES {
        events := events + [AuthEvent(a.email, "login", Locked, a.recordedAt)];
        return AccountLocked;
      }
      var hash := if a.email in users then users[a.email].passwordHash else None;
      var ok := VerifyPassword(a.password, hash);
      if a.email !in users || !users[a.email].active || !ok {
        events := events + [AuthEvent(a.email, "login", Failure, a.recordedAt)];
        return InvalidCredentials;
      }
      sessions := sessions[Digest(a.token) := Session(users[a.email].id, a.recordedAt + a.lifetime, None)];
      events := events + [AuthEvent(a.email, "login", Success, a.recordedAt)];
      outcome := LoggedIn(a.token);
    }

    method Logout(token: Option<string>, now: int)
      modifies this
      ensures Contents() == LoggedOut(old(Contents()), token, now)
    {
      if token.None? || token.value == "" {
        return;
      }
      var d := Digest(token.value);
      if d in sessions && sessions[d].revokedAt.None? {
        sessions := sessions[d := sessions[d].(revokedAt := Some(now))];
        events := events + [AuthEvent("", "logout", Success, now)];
      }
    }

    method LogoutAll(userId: string, now: int) returns (count: nat)
      modifies this
      ensures Contents() == LoggedOutAll(old(Contents()), userId, now)
      ensures count ==
              |set d | d in old(sessions) && old(sessions)[d].userId == userId && old(sessions)[d].revokedAt.None?|
    {
      var rows := set d | d in sessions && sessions[d].userId == userId && sessions[d].revokedAt.None?;
      sessions := map d | d in sessions :: if d in rows then sessions[d].(revokedAt := Some(now)) else sessions[d];
      events := events + [AuthEvent("", "logout_all", Success, now)];
      count := |rows|;
    }
  }

  // ---- runs

  datatype Call =
    | Login(attempt: Attempt)
    | Exit(token: Option<string>, now: int)
    | ExitAll(userId: string, now: int)

  function Apply(s: State, call: Call): State {
    match call
    case Login(a) => LoggedInState(s, a)
    case Exit(token, now) => LoggedOut(s, token, now)
    case ExitAll(userId, now) => LoggedOutAll(s, userId, now)
  }

  function Run(s: State, calls: seq<Call>): State {
    if calls == [] then s else Apply(Run(s, calls[..|calls| - 1]), calls[|calls| - 1])
  }

  // Within one call the clock does not step back.
  predicate TimeOrdered(call: Call) {
    call.Login? ==> call.attempt.checkedAt <= call.attempt.recordedAt
  }

  lemma FailuresAppend(events: seq<AuthEvent>, e: AuthEvent, email: string, from: int, to: int, now: int)
    ensures FailuresIn(events + [e], email, from, to) ==
            FailuresIn(events, email, from, to) + if IsFailure(e, email) && from <= e.at <= to then 1 else 0
    ensures RecentFailures(events + [e], email, now) ==
            RecentFailures(events, email, now) + if IsFailure(e, email) && e.at >= now - LOCKOUT_WINDOW then 1 else 0
  {
    assert (events + [e])[..|events|] == events;
  }

  // Failures in a window that begins no earlier than the lockout's are all recent.
  lemma {:induction false} WindowIsRecent(events: seq<AuthEvent>, email: string, from: int, to: int, now: int)
    requires from >= now - LOCKOUT_WINDOW
    ensures FailuresIn(events, email, from, to) <= RecentFailures(events, email, now)
  {
    if events == [] {
    } else {
      WindowIsRecent(events[..|events| - 1], email, from, to, now);
    }
  }

  // Every attempt adds one event that tells its outcome.
  lemma LoginEvent(s: State, a: Attempt) returns (e: AuthEvent)
    ensures e.email == a.email && e.event == "login" && e.at == a.recordedAt
    ensures e.outcome == match Outcome(s, a)
              case AccountLocked => Locked case InvalidCredentials => Failure case LoggedIn(_) => Success
    ensures LoggedInState(s, a).events == s.events + [e]
  {
    e := LoggedInState(s, a).events[|s.events|];
  }

  lemma LoginWindow(s: State, a: Attempt, email: string, from: int)
    requires a.checkedAt <= a.recordedAt && FailuresIn(s.events, email, from, from + LOCKOUT_WINDOW) <= MAX_FAILURES
    ensures FailuresIn(LoggedInState(s, a).events, email, from, from + LOCKOUT_WINDOW) <= MAX_FAILURES
  {
    var e := LoginEvent(s, a);
    FailuresAppend(s.events, e, email, from, from + LOCKOUT_WINDOW, 0);
    if IsFailure(e, email) && from <= e.at <= from + LOCKOUT_WINDOW {
      WindowIsRecent(s.events, email, from, from + LOCKOUT_WINDOW, a.checkedAt);
    }
  }

  lemma ApplyWindow(s: State, call: Call, email: string, from: int)
    requires TimeOrdered(call) && FailuresIn(s.events, email, from, from + LOCKOUT_WINDOW) <= MAX_FAILURES
    ensures FailuresIn(Apply(s, call).events, email, from, from + LOCKOUT_WINDOW) <= MAX_FAILURES
  {
    match call {
      case Login(a) => LoginWindow(s, a, email, from);
      case Exit(token, now) =>
        FailuresAppend(s.events, AuthEvent("", "logout", Success, now), email, from, from + LOCKOUT_WINDOW, 0);
      case ExitAll(userId, now) =>
        FailuresAppend(s.events, AuthEvent("", "logout_all", Success, now), email, from, from + LOCKOUT_WINDOW, 0);
    }
  }

  // Over any run of logins and logouts, every window of fifteen minutes,
  // wherever it begins, holds at most five recorded failures of an address.
  lemma {:induction false} AtMostFiveFailures(users: map<string, User>, calls: seq<Call>, email: string, from: int)
    requires forall i :: 0 <= i < |calls| ==> TimeOrdered(calls[i])
    ensures FailuresIn(Run(State(users, [], map[]), calls).events, email, from, from + LOCKOUT_WINDOW) <= MAX_FAILURES
  {
    if calls == [] {
    } else {
      AtMostFiveFailures(users, calls[..|calls| - 1], email, from);
      ApplyWindow(Run(State(users, [], map[]), calls[..|calls| - 1]), calls[|calls| - 1], email, from);
    }
  }

  // ---- the lockout is not extended by attempts made while locked

  function FailuresOnly(events: seq<AuthEvent>): seq<AuthEvent> {
    if events == [] then []
    else
      var last := events[|events| - 1];
      FailuresOnly(events[..|events| - 1]) + if last.event == "login" && last.outcome == Failure then [last] else []
  }

  // Whether an address is locked depends on the recorded failures alone.
  lemma {:induction false} OnlyFailuresCount(events: seq<AuthEvent>, email: string, now: int)
    ensures RecentFailures(FailuresOnly(events), email, now) == RecentFailures(events, email, now)
  {
    if events == [] {
    } else {
      var before, last := events[..|events| - 1], events[|events| - 1];
      OnlyFailuresCount(before, email, now);
      if last.event == "login" && last.outcome == Failure {
        FailuresAppend(FailuresOnly(before), last, email, now, now, now);
      } else {
        assert FailuresOnly(events) == FailuresOnly(before);
      }
    }
  }

  // Attempts that all meet a lock leave the lock as it was, at every time.
  lemma {:induction false} LockedAttemptsDoNotExtend(s: State, calls: seq<Call>, email: string, now: int)
    requires forall i :: 0 <= i < |calls| ==>
               calls[i].Login? && Outcome(Run(s, calls[..i]), calls[i].attempt).AccountLocked?
    ensures IsLocked(Run(s, calls).events, email, now) <==> IsLocked(s.events, email, now)
    ensures RecentFailures(Run(s, calls).events, email, now) == RecentFailures(s.events, email, now)
  {
    if calls == [] {
    } else {
      var before, last := calls[..|calls| - 1], calls[|calls| - 1];
      forall i | 0 <= i < |before| ensures calls[..i] == before[..i] {
      }
      LockedAttemptsDoNotExtend(s, before, email, now);
      var e := Run(s, calls).events[|Run(s, before).events|];
      FailuresAppend(Run(s, before).events, e, email, now, now, now);
    }
  }

  // ---- the lock is that of the attempts themselves

  // The attempts at an address that were refused with invalid credentials in
  // the fifteen minutes before `now`, or later.
  function RefusedSince(s: State, calls: seq<Call>, email: string, now: int): nat {
    if calls == [] then 0
    else
      var before, last := calls[..|calls| - 1], calls[|calls| - 1];
      RefusedSince(s, before, email, now) + if Refuses(Run(s, before), last, email, now) then 1 else 0
  }

  predicate Refuses(s: State, call: Call, email: string, now: int) {
    && call.Login? && call.attempt.email == email && call.attempt.recordedAt >= now - 900_000_000
    && Outcome(s, call.attempt) == InvalidCredentials
  }

  // Over every run an address is locked if and only if five attempts at it were
  // refused in the last fifteen minutes.
  lemma {:induction false} LockedExactly(users: map<string, User>, calls: seq<Call>, email: string, now: int)
    ensures var s := State(users, [], map[]);
            && RecentFailures(Run(s, calls).events, email, now) == RefusedSince(s, calls, email, now)
            && (IsLocked(Run(s, calls).events, email, now) <==> RefusedSince(s, calls, email, now) >= 5)
  {
    if calls != [] {
      var s, before, last := State(users, [], map[]), calls[..|calls| - 1], calls[|calls| - 1];
      LockedExactly(users, before, email, now);
      ApplyCounts(Run(s, before), last, email, now);
    }
  }

  // A call adds a failure exactly when it is an attempt so refused.
  lemma ApplyCounts(s: State, call: Call, email: string, now: int)
    ensures RecentFailures(Apply(s, call).events, email, now) ==
            RecentFailures(s.events, email, now) + if Refuses(s, call, email, now) then 1 else 0
  {
    match call {
      case Login(a) =>
        var e := LoginEvent(s, a);
        FailuresAppend(s.events, e, email, now, now, now);
      case Exit(token, at) =>
        FailuresAppend(s.events, AuthEvent("", "logout", Success, at), email, now, now, now);
      case ExitAll(userId, at) =>
        FailuresAppend(s.events, AuthEvent("", "logout_all", Success, at), email, now, now, now);
    }
  }

  // The lock ends by itself once the failures are older than fifteen minutes.
  lemma {:induction false} LockEnds(events: seq<AuthEvent>, email: string, now: int)
    requires forall i :: 0 <= i < |events| && IsFailure(events[i], email) ==> events[i].at < now - LOCKOUT_WINDOW
    ensures RecentFailures(events, email, now) == 0
  {
    if events == [] {
    } else {
      LockEnds(events[..|events| - 1], email, now);
    }
  }

  // ---- sessions

  // A session that a token can never be used for again.
  predicate Dead(s: State, d: Digest) {
    d in s.sessions && s.sessions[d].revokedAt.Some?
  }

  // Tokens are random: a login never issues one that already has a session.
  predicate FreshToken(s: State, call: Call) {
    call.Login? ==> Digest(call.attempt.token) !in s.sessions
  }

  predicate FreshTokens(s: State, calls: seq<Call>) {
    forall i :: 0 <= i < |calls| ==> FreshToken(Run(s, calls[..i]), calls[i])
  }

  lemma {:induction false} DeadForGood(s: State, calls: seq<Call>, d: Digest)
    requires Dead(s, d) && FreshTokens(s, calls)
    ensures Dead(Run(s, calls), d)
  {
    if calls == [] {
    } else {
      var before := calls[..|calls| - 1];
      forall i | 0 <= i < |before| ensures FreshToken(Run(s, before[..i]), before[i]) {
        assert calls[..i] == before[..i];
      }
      DeadForGood(s, before, d);
      assert FreshToken(Run(s, before), calls[|calls| - 1]);
    }
  }

  // After a logout the token never resolves again, whatever follows.
  lemma LogoutIsFinal(s: State, token: string, now: int, calls: seq<Call>, later: int)
    requires FreshTokens(LoggedOut(s, Some(token), now), calls) && Digest(token) in s.sessions
    ensures Resolve(Run(LoggedOut(s, Some(token), now), calls), Some(token), later) == None
  {
    if token != "" {
      DeadForGood(LoggedOut(s, Some(token), now), calls, Digest(token));
    }
  }

  // Logging out everywhere ends every session of the user, for good, and no
  // session of anybody else.
  lemma LogoutAllIsFinal(s: State, userId: string, now: int, calls: seq<Call>, token: string, later: int)
    requires FreshTokens(LoggedOutAll(s, userId, now), calls) && Digest(token) in s.sessions
    requires s.sessions[Digest(token)].userId == userId
    ensures Resolve(Run(LoggedOutAll(s, userId, now), calls), Some(token), later) == None
  {
    DeadForGood(LoggedOutAll(s, userId, now), calls, Digest(token));
  }

  lemma LogoutAllSparesOthers(s: State, userId: string, now: int, token: string, later: int)
    requires Digest(token) in s.sessions ==> s.sessions[Digest(token)].userId != userId
    ensures Resolve(LoggedOutAll(s, userId, now), Some(token), later) == Resolve(s, Some(token), later)
  {
  }

  // ---- when a login succeeds, and for how long

  // Whatever else is so, a password other than the account's never logs in.
  lemma OtherPasswordRefused(s: State, a: Attempt)
    requires a.email in s.users && s.users[a.email].passwordHash != Some(Digest(a.password))
    ensures !Outcome(s, a).LoggedIn? && LoggedInState(s, a).sessions == s.sessions
  {
  }

  // One of the calls logs the token out, or all tokens of its user.
  predicate Ends(calls: seq<Call>, token: string, userId: string) {
    exists i :: 0 <= i < |calls| && EndsBy(calls[i], token, userId)
  }

  predicate EndsBy(call: Call, token: string, userId: string) {
    (call.Exit? && call.token == Some(token)) || (call.ExitAll? && call.userId == userId)
  }

  lemma EndsAppend(before: seq<Call>, call: Call, token: string, userId: string)
    ensures Ends(before + [call], token, userId) <==> Ends(before, token, userId) || EndsBy(call, token, userId)
  {
    var calls := before + [call];
    assert calls[|before|] == call && forall i :: 0 <= i < |before| ==> calls[i] == before[i];
  }

  // The session of the token is as it was issued, up to its revocation.
  predicate Holds(s: State, token: string, issued: Session, ended: bool) {
    && Digest(token) in s.sessions
    && var row := s.sessions[Digest(token)];
       row.userId == issued.userId && row.expiresAt == issued.expiresAt && (row.revokedAt.Some? <==> ended)
  }

  lemma ApplyHolds(s: State, call: Call, token: string, issued: Session, ended: bool)
    requires token != "" && Holds(s, token, issued, ended) && FreshToken(s, call)
    ensures Apply(s, call).users == s.users
    ensures Holds(Apply(s, call), token, issued, ended || EndsBy(call, token, issued.userId))
  {
    match call {
      case Login(a) => assert Digest(a.token) != Digest(token);
      case Exit(t, now) =>
      case ExitAll(userId, now) =>
    }
  }

  lemma {:induction false} RunHolds(s: State, calls: seq<Call>, token: string, issued: Session)
    requires token != "" && Holds(s, token, issued, false) && FreshTokens(s, calls)
    ensures Run(s, calls).users == s.users
    ensures Holds(Run(s, calls), token, issued, Ends(calls, token, issued.userId))
  {
    if calls != [] {
      var before, last := calls[..|calls| - 1], calls[|calls| - 1];
      forall i | 0 <= i < |before| ensures FreshToken(Run(s, before[..i]), before[i]) {
        assert calls[..i] == before[..i];
      }
      RunHolds(s, before, token, issued);
      assert FreshToken(Run(s, before), last);
      assert calls == before + [last];
      EndsAppend(before, last, token, issued.userId);
      ApplyHolds(Run(s, before), last, token, issued, Ends(before, token, issued.userId));
    }
  }

  // The token of a successful login stands for the user of that address until
  // it expires, and until it is logged out or all tokens of the user are:
  // exactly so, whatever else is called.
  lemma TokenResolvesExactly(s: State, a: Attempt, calls: seq<Call>, later: int)
    requires Outcome(s, a).LoggedIn? && a.token != "" && FreshTokens(LoggedInState(s, a), calls)
    ensures var userId := s.users[a.email].id;
            Resolve(Run(LoggedInState(s, a), calls), Some(a.token), later) ==
            if later <= a.recordedAt + a.lifetime && !Ends(calls, a.token, userId) then Some(userId) else None
  {
    var s1 := LoggedInState(s, a);
    RunHolds(s1, calls, a.token, s1.sessions[Digest(a.token)]);
    assert ActiveUser(s.users, s.users[a.email].id);
  }
}
