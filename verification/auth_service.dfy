/**
  Password login with per-record failed-attempt counting and temporary lockout.
  Hash comparison and token signing are parameters (`matches`, `sign`), and the
  clock is the parameter `now`, in milliseconds.
*/
module AuthService {
  import opened Wrappers
  import opened Entities

  /** A record that reaches its attempt limit is locked for 15 minutes. */
  const LockoutMs: int := 15 * 60000

  /** The five distinct ways a login fails, one per message the service throws. */
  datatype LoginError =
    | InvalidCredentials
    | UserNotActive
    | PasswordNotFound
    | TemporarilyLocked
    | WrongPassword

  function ErrorMessage(e: LoginError): string
  {
    match e
    case InvalidCredentials => "Credenciais inválidas."
    case UserNotActive => "Usuário inativo ou bloqueado."
    case PasswordNotFound => "Senha não encontrada ou expirada."
    case TemporarilyLocked => "Usuário temporariamente bloqueado. Tente novamente mais tarde."
    case WrongPassword => "Senha incorreta."
  }

  /** The user fields a successful login reveals. */
  datatype UserSummary = UserSummary(id: string, username: string, email: string, role: string)

  datatype LoginSuccess = LoginSuccess(token: string, user: UserSummary)

  /** What a login returns, together with the password records as they are afterwards. */
  datatype LoginResult = LoginResult(outcome: Result<LoginSuccess, LoginError>, passwords: seq<PasswordRecord>)

  /** A record the login may check: it belongs to the user and its status is `valid`. */
  predicate IsCandidate(p: PasswordRecord, userId: string)
  {
    p.userId == userId && p.status == Valid
  }

  /**
    `ps[i]` is the record the login checks: a candidate created no earlier than any
    other candidate, and strictly later than every candidate stored before it.
  */
  ghost predicate IsLatestValid(ps: seq<PasswordRecord>, userId: string, i: int)
  {
    && 0 <= i < |ps|
    && IsCandidate(ps[i], userId)
    && (forall j :: 0 <= j < |ps| && IsCandidate(ps[j], userId) ==> ps[j].createdAt <= ps[i].createdAt)
    && (forall j :: 0 <= j < i && IsCandidate(ps[j], userId) ==> ps[j].createdAt < ps[i].createdAt)
  }

  /** The index of the most recently created valid record of the user, if there is one. */
  function LatestValid(ps: seq<PasswordRecord>, userId: string): (r: Option<nat>)
    ensures r.Some? ==> IsLatestValid(ps, userId, r.value)
    ensures r.None? <==> forall j :: 0 <= j < |ps| ==> !IsCandidate(ps[j], userId)
  {
    if |ps| == 0 then None
    else
      var last := |ps| - 1;
      var prefix := ps[..last];
      var rest := LatestValid(prefix, userId);
      assert forall j :: 0 <= j < last ==> prefix[j] == ps[j];
      if IsCandidate(ps[last], userId) && (rest.None? || ps[rest.value].createdAt < ps[last].createdAt)
      then Some(last)
      else rest
  }

  /** Only one record can be the one the login checks. */
  lemma LatestValidUnique(ps: seq<PasswordRecord>, userId: string, i: int, k: int)
    requires IsLatestValid(ps, userId, i) && IsLatestValid(ps, userId, k)
    ensures i == k
  {
  }

  /** The record's lock is still running at `now`. */
  predicate IsLocked(p: PasswordRecord, now: int)
  {
    p.lockedUntil.Some? && p.lockedUntil.value > now
  }

  /** The record after a wrong password: one more attempt, and a lock once the limit is reached. */
  function AfterFailure(p: PasswordRecord, now: int): PasswordRecord
  {
    var attempts := p.attempts + 1;
    if attempts >= p.maxAttempts then
      p.(attempts := attempts, lockedUntil := Some(now + LockoutMs), status := Blocked)
    else
      p.(attempts := attempts)
  }

  /** The record after a right password: counter and lock cleared, status kept. */
  function AfterSuccess(p: PasswordRecord): PasswordRecord
  {
    p.(attempts := 0, lockedUntil := None)
  }

  /**
    `after` is `before` with only record `i` changed, and that record counts one
    more failure: below the limit nothing else moves; at the limit it is blocked
    until `now` plus the lockout.
  */
  ghost predicate FailureRecorded(before: seq<PasswordRecord>, after: seq<PasswordRecord>, i: int, now: int)
  {
    && 0 <= i < |before| == |after|
    && (forall j :: 0 <= j < |before| && j != i ==> after[j] == before[j])
    && after[i].attempts == before[i].attempts + 1
    && after[i].id == before[i].id && after[i].userId == before[i].userId
    && after[i].passwordHash == before[i].passwordHash
    && after[i].maxAttempts == before[i].maxAttempts
    && after[i].createdAt == before[i].createdAt
    && (before[i].attempts + 1 < before[i].maxAttempts ==>
          after[i].status == before[i].status && after[i].lockedUntil == before[i].lockedUntil)
    && (before[i].attempts + 1 >= before[i].maxAttempts ==>
          after[i].status == Blocked && after[i].lockedUntil == Some(now + LockoutMs))
  }

  /** `after` is `before` with only record `i` changed: counter zero, no lock, same status. */
  ghost predicate SuccessRecorded(before: seq<PasswordRecord>, after: seq<PasswordRecord>, i: int)
  {
    && 0 <= i < |before| == |after|
    && (forall j :: 0 <= j < |before| && j != i ==> after[j] == before[j])
    && after[i].attempts == 0
    && after[i].lockedUntil == None
    && after[i].status == before[i].status
    && after[i].id == before[i].id && after[i].userId == before[i].userId
    && after[i].passwordHash == before[i].passwordHash
    && after[i].maxAttempts == before[i].maxAttempts
    && after[i].createdAt == before[i].createdAt
  }

  /**
    One login attempt by e-mail and plaintext password. `users` is read only;
    the password records are returned as the attempt leaves them.
  */
  function Login(
    users: seq<User>, ps: seq<PasswordRecord>, email: string, password: string, now: int,
    matches: (string, string) -> bool, sign: AuthPayload -> string): (r: LoginResult)
    // Unknown e-mail: its own error, nothing read or written.
    ensures FindUserByEmail(users, email).None? <==> r.outcome == Err(InvalidCredentials)
    // An inactive or blocked user is turned away before any record is read.
    ensures r.outcome == Err(UserNotActive) <==>
              FindUserByEmail(users, email).Some? && FindUserByEmail(users, email).value.status != "A"
    // No valid record: its own error.
    ensures r.outcome == Err(PasswordNotFound) <==>
              && FindUserByEmail(users, email).Some?
              && FindUserByEmail(users, email).value.status == "A"
              && forall j :: 0 <= j < |ps| ==> !IsCandidate(ps[j], FindUserByEmail(users, email).value.id)
    // Every failure except a wrong password leaves the records untouched.
    ensures r.outcome.Err? && r.outcome.error != WrongPassword ==> r.passwords == ps
    // A locked candidate is refused and its counter is left alone.
    ensures r.outcome == Err(TemporarilyLocked) ==>
              exists i :: IsLatestValid(ps, FindUserByEmail(users, email).value.id, i) && IsLocked(ps[i], now)
    // A wrong password is counted on the candidate, and only there.
    ensures r.outcome == Err(WrongPassword) ==>
              exists i :: && IsLatestValid(ps, FindUserByEmail(users, email).value.id, i)
                          && !IsLocked(ps[i], now) && !matches(password, ps[i].passwordHash)
                          && FailureRecorded(ps, r.passwords, i, now)
    // A right password clears the candidate's counter and lock and reveals exactly the summary.
    ensures r.outcome.Ok? ==>
              && FindUserByEmail(users, email).Some?
              && var u := FindUserByEmail(users, email).value;
              && u.status == "A"
              && r.outcome.value.user == UserSummary(u.id, u.username, u.email, u.role)
              && r.outcome.value.token == sign(AuthPayload(u.id, u.email, u.role))
              && exists i :: && IsLatestValid(ps, u.id, i)
                             && !IsLocked(ps[i], now) && matches(password, ps[i].passwordHash)
                             && SuccessRecorded(ps, r.passwords, i)
  {
    match FindUserByEmail(users, email)
    case None => LoginResult(Err(InvalidCredentials), ps)
    case Some(user) =>
      if user.status != "A" then LoginResult(Err(UserNotActive), ps)
      else
        match LatestValid(ps, user.id)
        case None => LoginResult(Err(PasswordNotFound), ps)
        case Some(i) =>
          if IsLocked(ps[i], now) then
            LoginResult(Err(TemporarilyLocked), ps)
          else if !matches(password, ps[i].passwordHash) then
            LoginResult(Err(WrongPassword), ps[i := AfterFailure(ps[i], now)])
          else
            var summary := UserSummary(user.id, user.username, user.email, user.role);
            var token := sign(AuthPayload(user.id, user.email, user.role));
            LoginResult(Ok(LoginSuccess(token, summary)), ps[i := AfterSuccess(ps[i])])
  }

  /** Every valid record is still below its attempt limit. */
  ghost predicate AttemptsBelowLimit(ps: seq<PasswordRecord>)
  {
    forall j :: 0 <= j < |ps| && ps[j].status == Valid ==> ps[j].attempts < ps[j].maxAttempts
  }

  /**
    A login keeps every valid record below its limit, keeps every blocked record
    blocked, and neither adds nor removes records.
  */
  lemma {:induction false} LoginKeepsLockoutInvariants(
    users: seq<User>, ps: seq<PasswordRecord>, email: string, password: string, now: int,
    matches: (string, string) -> bool, sign: AuthPayload -> string)
    requires AttemptsBelowLimit(ps)
    ensures var after := Login(users, ps, email, password, now, matches, sign).passwords;
            && |after| == |ps|
            && AttemptsBelowLimit(after)
            && forall j :: 0 <= j < |ps| && ps[j].status == Blocked ==> after[j].status == Blocked
  {
    var r := Login(users, ps, email, password, now, matches, sign);
    if r.outcome == Err(WrongPassword) {
      var i :| IsLatestValid(ps, FindUserByEmail(users, email).value.id, i)
               && FailureRecorded(ps, r.passwords, i, now);
      assert ps[i].status == Valid;
    } else if r.outcome.Ok? {
      var i :| IsLatestValid(ps, FindUserByEmail(users, email).value.id, i)
               && SuccessRecorded(ps, r.passwords, i);
    }
  }

  /**
    After a wrong password that reaches the limit, the next login can no longer
    pick that record: it falls to an older valid record or to no record at all.
  */
  lemma BlockedRecordIsNotChosenAgain(
    users: seq<User>, ps: seq<PasswordRecord>, email: string, password: string, now: int,
    matches: (string, string) -> bool, sign: AuthPayload -> string, i: int)
    requires Login(users, ps, email, password, now, matches, sign).outcome == Err(WrongPassword)
    requires IsLatestValid(ps, FindUserByEmail(users, email).value.id, i)
    requires ps[i].attempts + 1 >= ps[i].maxAttempts
    ensures var after := Login(users, ps, email, password, now, matches, sign).passwords;
            var next := LatestValid(after, FindUserByEmail(users, email).value.id);
            next.Some? ==> next.value != i && after[next.value].createdAt <= ps[i].createdAt
  {
    var uid := FindUserByEmail(users, email).value.id;
    var after := Login(users, ps, email, password, now, matches, sign).passwords;
    var k :| IsLatestValid(ps, uid, k) && FailureRecorded(ps, after, k, now);
    LatestValidUnique(ps, uid, i, k);
    var next := LatestValid(after, uid);
    if next.Some? {
      assert next.value != i;
      assert after[next.value] == ps[next.value];
    }
  }

  /** One login request of a replayed sequence. */
  datatype Attempt = Attempt(email: string, password: string, now: int)

  /** The password records after the attempts are made one after another. */
  function Replay(
    users: seq<User>, ps: seq<PasswordRecord>, attempts: seq<Attempt>,
    matches: (string, string) -> bool, sign: AuthPayload -> string): seq<PasswordRecord>
    decreases |attempts|
  {
    if |attempts| == 0 then ps
    else
      var a := attempts[0];
      Replay(users, Login(users, ps, a.email, a.password, a.now, matches, sign).passwords,
             attempts[1..], matches, sign)
  }

  /**
    Over any sequence of logins no valid record passes its attempt limit, and no
    blocked record becomes usable again: nothing in the login path unblocks.
  */
  lemma {:induction false} ReplayKeepsLockoutInvariants(
    users: seq<User>, ps: seq<PasswordRecord>, attempts: seq<Attempt>,
    matches: (string, string) -> bool, sign: AuthPayload -> string)
    requires AttemptsBelowLimit(ps)
    ensures var after := Replay(users, ps, attempts, matches, sign);
            && |after| == |ps|
            && AttemptsBelowLimit(after)
            && forall j :: 0 <= j < |ps| && ps[j].status == Blocked ==> after[j].status == Blocked
    decreases |attempts|
  {
    if |attempts| > 0 {
      var a := attempts[0];
      var mid := Login(users, ps, a.email, a.password, a.now, matches, sign).passwords;
      LoginKeepsLockoutInvariants(users, ps, a.email, a.password, a.now, matches, sign);
      ReplayKeepsLockoutInvariants(users, mid, attempts[1..], matches, sign);
    }
  }

  /**
    A user with one password record and a limit of three: three wrong passwords
    block the record, after which even the right password finds no usable record,
    fifteen minutes later as well.
  */
  lemma ThreeFailuresBlockTheOnlyRecord(matches: (string, string) -> bool, sign: AuthPayload -> string)
    requires matches("secret1", "h1") && !matches("wrong", "h1")
    ensures var users := [User("u1", "ana", "ana@mail.com", "Ana Souza", "1", "A")];
            var ps := [PasswordRecord("p1", "u1", "h1", Valid, 0, 3, None, 0)];
            var r1 := Login(users, ps, "ana@mail.com", "wrong", 1000, matches, sign);
            var r2 := Login(users, r1.passwords, "ana@mail.com", "wrong", 2000, matches, sign);
            var r3 := Login(users, r2.passwords, "ana@mail.com", "wrong", 3000, matches, sign);
            var r4 := Login(users, r3.passwords, "ana@mail.com", "secret1", 4000, matches, sign);
            var r5 := Login(users, r3.passwords, "ana@mail.com", "secret1", 3000 + LockoutMs + 1, matches, sign);
            && r1.outcome == Err(WrongPassword) && r1.passwords[0].attempts == 1
            && r2.outcome == Err(WrongPassword) && r2.passwords[0].attempts == 2
            && r3.outcome == Err(WrongPassword)
            && r3.passwords[0].status == Blocked
            && r3.passwords[0].lockedUntil == Some(3000 + LockoutMs)
            && r4.outcome == Err(PasswordNotFound)
            && r5.outcome == Err(PasswordNotFound)
  {
    var users := [User("u1", "ana", "ana@mail.com", "Ana Souza", "1", "A")];
    var ps := [PasswordRecord("p1", "u1", "h1", Valid, 0, 3, None, 0)];
    assert FindUserByEmail(users, "ana@mail.com") == Some(users[0]);
    assert LatestValid(ps, "u1") == Some(0);
    var r1 := Login(users, ps, "ana@mail.com", "wrong", 1000, matches, sign);
    assert r1.passwords == [ps[0].(attempts := 1)];
    assert LatestValid(r1.passwords, "u1") == Some(0);
    var r2 := Login(users, r1.passwords, "ana@mail.com", "wrong", 2000, matches, sign);
    assert r2.passwords == [ps[0].(attempts := 2)];
    assert LatestValid(r2.passwords, "u1") == Some(0);
    var r3 := Login(users, r2.passwords, "ana@mail.com", "wrong", 3000, matches, sign);
    assert r3.passwords == [ps[0].(attempts := 3, lockedUntil := Some(3000 + LockoutMs), status := Blocked)];
    assert LatestValid(r3.passwords, "u1") == None;
  }
}
