/**
  The bearer-token gate in front of the protected routes, and the role and
  ownership guards that follow it. Token verification and the hash comparison of
  a token with a stored session hash are parameters (`verify`, `matches`); the
  clock is the parameter `now`.
*/
module AuthMiddleware {
  import opened Wrappers
  import opened Entities
  import opened Access

  /** Why the gate refuses a request; every refusal is answered with status 401. */
  datatype GateError = MissingToken | InvalidSession | InvalidToken

  function GateMessage(e: GateError): string
  {
    match e
    case MissingToken => "Token não fornecido ou inválido."
    case InvalidSession => "Sessão inválida ou expirada."
    case InvalidToken => "Token inválido ou expirado."
  }

  /** `Authenticated(p)`: `req.user` is set to `p` and `next` is called once. */
  datatype GateDecision = Authenticated(user: AuthPayload) | Rejected(error: GateError)

  const BearerPrefix: string := "Bearer "

  /** The header has the form the gate accepts: it starts with "Bearer ". */
  predicate IsBearer(header: string)
  {
    |BearerPrefix| <= |header| && header[..|BearerPrefix|] == BearerPrefix
  }

  /** The longest prefix of `s` without a space. */
  function TakeUntilSpace(s: string): (r: string)
    ensures |r| <= |s| && r == s[..|r|]
    ensures ' ' !in r
    ensures |r| == |s| || s[|r|] == ' '
  {
    if |s| == 0 || s[0] == ' ' then ""
    else [s[0]] + TakeUntilSpace(s[1..])
  }

  /**
    The second space-separated field of the header, `split(' ')[1]`. The prefix
    "Bearer " holds the first space, so the field starts right after it.
  */
  function BearerToken(header: string): (token: string)
    requires IsBearer(header)
    ensures ' ' !in token
    ensures |BearerPrefix| + |token| <= |header|
    ensures header[..|BearerPrefix| + |token|] == BearerPrefix + token
    ensures |BearerPrefix| + |token| == |header| || header[|BearerPrefix| + |token|] == ' '
  {
    TakeUntilSpace(header[|BearerPrefix|..])
  }

  /** A header built from a space-free token yields that token back. */
  lemma BearerTokenRoundTrip(token: string)
    requires ' ' !in token
    ensures IsBearer(BearerPrefix + token)
    ensures BearerToken(BearerPrefix + token) == token
  {
    var h := BearerPrefix + token;
    assert h[..|BearerPrefix|] == BearerPrefix;
    assert h[|BearerPrefix|..] == token;
    TakeUntilSpaceOfSpaceFree(token);
  }

  lemma {:induction false} TakeUntilSpaceOfSpaceFree(s: string)
    requires ' ' !in s
    ensures TakeUntilSpace(s) == s
  {
    if |s| > 0 {
      assert s[0] in s;
      assert forall c :: c in s[1..] ==> c in s;
      TakeUntilSpaceOfSpaceFree(s[1..]);
      assert s == [s[0]] + s[1..];
    }
  }

  /** A session the gate compares the token with: the user's, not revoked, not yet expired. */
  predicate IsLive(s: Session, userId: string, now: int)
  {
    s.userId == userId && !s.revoked && s.expiresAt > now
  }

  /** Some live session of the user stores a hash the token matches. */
  predicate HasMatchingSession(
    sessions: seq<Session>, userId: string, token: string, now: int, matches: (string, string) -> bool)
  {
    exists i :: 0 <= i < |sessions| && IsLive(sessions[i], userId, now) && matches(token, sessions[i].tokenHash)
  }

  /** The gate's decision, stated without the scan. */
  function Gate(
    header: Option<string>, sessions: seq<Session>, now: int,
    verify: string -> Option<AuthPayload>, matches: (string, string) -> bool): GateDecision
  {
    if header.None? || !IsBearer(header.value) then Rejected(MissingToken)
    else
      var token := BearerToken(header.value);
      match verify(token)
      case None => Rejected(InvalidToken)
      case Some(payload) =>
        if HasMatchingSession(sessions, payload.userId, token, now, matches) then Authenticated(payload)
        else Rejected(InvalidSession)
  }

  /** The sessions the store returns for the decoded user: live ones, in stored order. */
  function LiveSessions(sessions: seq<Session>, userId: string, now: int): (r: seq<Session>)
    ensures forall k :: 0 <= k < |r| ==> IsLive(r[k], userId, now) && r[k] in sessions
    ensures forall i :: 0 <= i < |sessions| && IsLive(sessions[i], userId, now) ==> sessions[i] in r
  {
    if |sessions| == 0 then []
    else
      var rest := LiveSessions(sessions[1..], userId, now);
      assert forall i :: 1 <= i < |sessions| ==> sessions[i] == sessions[1..][i - 1];
      if IsLive(sessions[0], userId, now) then [sessions[0]] + rest else rest
  }

  /**
    Scans `live` in order and stops at the first session whose hash the token
    matches; returns its position.
  */
  method FirstMatch(live: seq<Session>, token: string, matches: (string, string) -> bool)
    returns (found: Option<nat>)
    ensures found.Some? ==> found.value < |live| && matches(token, live[found.value].tokenHash)
    ensures found.Some? ==> forall k :: 0 <= k < found.value ==> !matches(token, live[k].tokenHash)
    ensures found.None? ==> forall k :: 0 <= k < |live| ==> !matches(token, live[k].tokenHash)
  {
    var k := 0;
    while k < |live|
      invariant 0 <= k <= |live|
      invariant forall j :: 0 <= j < k ==> !matches(token, live[j].tokenHash)
    {
      if matches(token, live[k].tokenHash) {
        return Some(k);
      }
      k := k + 1;
    }
    return None;
  }

  /**
    `authMiddleware`: checks the header, verifies the token, then scans the
    user's live sessions for one whose hash the token matches.
  */
  method Authenticate(
    header: Option<string>, sessions: seq<Session>, now: int,
    verify: string -> Option<AuthPayload>, matches: (string, string) -> bool)
    returns (d: GateDecision)
    ensures d == Gate(header, sessions, now, verify, matches)
    ensures header.None? || !IsBearer(header.value) ==> d == Rejected(MissingToken)
    ensures d.Authenticated? ==>
              && header.Some? && IsBearer(header.value)
              && verify(BearerToken(header.value)) == Some(d.user)
              && HasMatchingSession(sessions, d.user.userId, BearerToken(header.value), now, matches)
  {
    if header.None? || !IsBearer(header.value) {
      return Rejected(MissingToken);
    }
    var token := BearerToken(header.value);
    var decoded := verify(token);
    if decoded.None? {
      return Rejected(InvalidToken);
    }
    var payload := decoded.value;
    var live := LiveSessions(sessions, payload.userId, now);
    var found := FirstMatch(live, token, matches);
    if found.None? {
      forall i | 0 <= i < |sessions| && IsLive(sessions[i], payload.userId, now)
        ensures !matches(token, sessions[i].tokenHash)
      {
        var k :| 0 <= k < |live| && live[k] == sessions[i];
      }
      return Rejected(InvalidSession);
    }
    var k := found.value;
    var i :| 0 <= i < |sessions| && sessions[i] == live[k];
    return Authenticated(payload);
  }

  /**
    A revoked or expired session never lets a request in: adding one to the store,
    whatever hash it holds, changes no decision.
  */
  lemma DeadSessionChangesNothing(
    header: Option<string>, sessions: seq<Session>, dead: Session, now: int,
    verify: string -> Option<AuthPayload>, matches: (string, string) -> bool)
    requires dead.revoked || dead.expiresAt <= now
    ensures Gate(header, sessions + [dead], now, verify, matches) == Gate(header, sessions, now, verify, matches)
  {
    var all := sessions + [dead];
    assert forall i :: 0 <= i < |sessions| ==> all[i] == sessions[i];
  }

  /** The payload's user owns the resource named by `params[paramKey]`. */
  predicate IsOwner(user: AuthPayload, params: map<string, string>, paramKey: string)
  {
    paramKey in params && params[paramKey] == user.userId
  }

  /** `requireRole`: 401 without a user, 403 unless the user's role is allowed. */
  function RequireRole(allowedRoles: seq<string>, user: Option<AuthPayload>): (a: Access)
    ensures user.None? <==> a == Deny(NotAuthenticated)
    ensures a == Allow <==> user.Some? && user.value.role in allowedRoles
    ensures a == Deny(Forbidden) <==> user.Some? && user.value.role !in allowedRoles
  {
    if user.None? then Deny(NotAuthenticated)
    else if user.value.role !in allowedRoles then Deny(Forbidden)
    else Allow
  }

  /** `requireOwnership`: 401 without a user, 403 unless the user owns the resource. */
  function RequireOwnership(params: map<string, string>, user: Option<AuthPayload>, paramKey: string := "id"): (a: Access)
    ensures user.None? <==> a == Deny(NotAuthenticated)
    ensures a == Allow <==> user.Some? && IsOwner(user.value, params, paramKey)
  {
    if user.None? then Deny(NotAuthenticated)
    else if !IsOwner(user.value, params, paramKey) then Deny(Forbidden)
    else Allow
  }

  /** `requireRoleOrOwner`: an allowed role or ownership suffices. */
  function RequireRoleOrOwner(
    allowedRoles: seq<string>, params: map<string, string>, user: Option<AuthPayload>, paramKey: string := "id"): (a: Access)
    ensures user.None? <==> a == Deny(NotAuthenticated)
    ensures a == Allow <==>
              user.Some? && (IsOwner(user.value, params, paramKey) || user.value.role in allowedRoles)
  {
    if user.None? then Deny(NotAuthenticated)
    else
      var isOwner := IsOwner(user.value, params, paramKey);
      var isAllowedRole := user.value.role in allowedRoles;
      if !isOwner && !isAllowedRole then Deny(Forbidden) else Allow
  }

  /** `requireRoleAndOwner`: both a required role and ownership are needed. */
  function RequireRoleAndOwner(
    requiredRoles: seq<string>, params: map<string, string>, user: Option<AuthPayload>, paramKey: string := "id"): (a: Access)
    ensures user.None? <==> a == Deny(NotAuthenticated)
    ensures a == Allow <==>
              user.Some? && IsOwner(user.value, params, paramKey) && user.value.role in requiredRoles
  {
    if user.None? then Deny(NotAuthenticated)
    else
      var isOwner := IsOwner(user.value, params, paramKey);
      var hasRole := user.value.role in requiredRoles;
      if !(isOwner && hasRole) then Deny(Forbidden) else Allow
  }

  /**
    How the four guards relate: the combined guards are the disjunction and the
    conjunction of the role and ownership guards, so anything the conjunction lets
    through the disjunction lets through too.
  */
  lemma GuardsCompose(roles: seq<string>, params: map<string, string>, user: Option<AuthPayload>, paramKey: string)
    ensures RequireRoleOrOwner(roles, params, user, paramKey) == Allow <==>
              RequireRole(roles, user) == Allow || RequireOwnership(params, user, paramKey) == Allow
    ensures RequireRoleAndOwner(roles, params, user, paramKey) == Allow <==>
              RequireRole(roles, user) == Allow && RequireOwnership(params, user, paramKey) == Allow
    ensures RequireRoleAndOwner(roles, params, user, paramKey) == Allow ==>
              RequireRoleOrOwner(roles, params, user, paramKey) == Allow
  {
  }

  /** Allowing more roles never turns an allowed request away. */
  lemma RequireRoleMonotone(roles: seq<string>, more: seq<string>, user: Option<AuthPayload>)
    requires forall r :: r in roles ==> r in more
    ensures RequireRole(roles, user) == Allow ==> RequireRole(more, user) == Allow
  {
  }
}
