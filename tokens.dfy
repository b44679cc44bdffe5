/** The token registry of the ninth backend: a module-level dictionary from bearer tokens to
    the data of the user who logged in, with a one-hour lifetime and a role gate. */
module TokenAuth {
  import opened Http
  import opened Text
  import opened Bearer

  datatype UserData = UserData(username: string, role: string, createdAt: int)

  /** The body answered by login_for_access_token. */
  datatype Token = Token(accessToken: string, tokenType: string, role: string)

  /** `FAKE_USER`. */
  const FakeUsername: string := "user"
  const FakePassword: string := "password"
  const FakeRole: string := "admin"

  /** `TOKEN_LIFETIME_SECONDS`. */
  const TokenLifetime: int := 3600

  predicate Expired(u: UserData, now: int) {
    now - u.createdAt > TokenLifetime
  }

  /** `if required_role and ...`: a missing or empty required role lets every role through. */
  predicate RoleAllows(requiredRole: Option<string>, role: string) {
    requiredRole.None? || requiredRole.value == "" || role == requiredRole.value
  }

  /** What token_verifier answers, check by check: scheme, then a known token, then expiry,
      then role. */
  function VerifyReply(tokens: map<string, UserData>, authorization: string, requiredRole: Option<string>,
                       now: int): (r: Result<UserData>)
    ensures r.Err? ==> r.status == Unauthorized || r.status == Forbidden
    ensures r.Ok? <==> Credential(authorization).Some? && Credential(authorization).value in tokens
                       && !Expired(tokens[Credential(authorization).value], now)
                       && RoleAllows(requiredRole, tokens[Credential(authorization).value].role)
    ensures r.Ok? ==> r.value == tokens[Credential(authorization).value]
    ensures r == Err(Forbidden) <==> Credential(authorization).Some? && Credential(authorization).value in tokens
                                     && !Expired(tokens[Credential(authorization).value], now)
                                     && !RoleAllows(requiredRole, tokens[Credential(authorization).value].role)
  {
    match Credential(authorization)
    case None => Err(Unauthorized)
    case Some(token) =>
      if token !in tokens then Err(Unauthorized)
      else if Expired(tokens[token], now) then Err(Unauthorized)
      else if !RoleAllows(requiredRole, tokens[token].role) then Err(Forbidden)
      else Ok(tokens[token])
  }

  /** The registry after token_verifier: an expired token is deleted, and nothing else is. */
  function AfterVerify(tokens: map<string, UserData>, authorization: string, now: int): (r: map<string, UserData>)
    ensures forall t :: t in r ==> t in tokens && r[t] == tokens[t]
    ensures forall t :: t in tokens ==> (t !in r <==> Credential(authorization) == Some(t) && Expired(tokens[t], now))
  {
    match Credential(authorization)
    case Some(token) =>
      if token in tokens && Expired(tokens[token], now) then tokens - {token} else tokens
    case None => tokens
  }

  /** The registry after logout: the named token, if registered, is deleted. */
  function AfterLogout(tokens: map<string, UserData>, authorization: string): (r: map<string, UserData>)
    ensures Credential(authorization).Some? ==> Credential(authorization).value !in r
    ensures forall t :: t in r <==> t in tokens && Credential(authorization) != Some(t)
    ensures forall t :: t in r ==> r[t] == tokens[t]
  {
    match Credential(authorization)
    case Some(token) => tokens - {token}
    case None => tokens
  }

  /** A login's token verifies, by bearer header, for exactly one hour, the last second
      included, under any role requirement `FAKE_USER` meets; past the hour it is refused with
      401 and deleted. */
  lemma LoginThenVerify(tokens: map<string, UserData>, token: string, now: int, later: int,
                        requiredRole: Option<string>)
    requires ' ' !in token
    requires RoleAllows(requiredRole, FakeRole)
    ensures var t := tokens[token := UserData(FakeUsername, FakeRole, now)];
      && (later - now <= TokenLifetime ==> VerifyReply(t, Scheme + token, requiredRole, later) == Ok(t[token]))
      && (later - now <= TokenLifetime ==> AfterVerify(t, Scheme + token, later) == t)
      && (later - now > TokenLifetime ==> VerifyReply(t, Scheme + token, requiredRole, later) == Err(Unauthorized))
      && (later - now > TokenLifetime ==> token !in AfterVerify(t, Scheme + token, later))
  {
    CredentialRoundTrip(token);
  }

  /** An expired token is refused with 401 whatever role is asked for, never with 403. */
  lemma ExpiredIsUnauthorized(tokens: map<string, UserData>, authorization: string, requiredRole: Option<string>,
                              now: int)
    requires Credential(authorization).Some? && Credential(authorization).value in tokens
    requires Expired(tokens[Credential(authorization).value], now)
    ensures VerifyReply(tokens, authorization, requiredRole, now) == Err(Unauthorized)
    ensures Credential(authorization).value !in AfterVerify(tokens, authorization, now)
  {
  }

  /** A refusal for the role keeps the token: a later call with a role it has still succeeds. */
  lemma ForbiddenKeepsToken(tokens: map<string, UserData>, authorization: string, requiredRole: Option<string>,
                            now: int)
    requires VerifyReply(tokens, authorization, requiredRole, now) == Err(Forbidden)
    ensures AfterVerify(tokens, authorization, now) == tokens
    ensures VerifyReply(tokens, authorization, None, now) == Ok(tokens[Credential(authorization).value])
  {
  }

  /** After logout with a header, the same header no longer verifies, and logging out again
      changes nothing. */
  lemma LogoutThenVerify(tokens: map<string, UserData>, authorization: string, requiredRole: Option<string>,
                         now: int)
    ensures VerifyReply(AfterLogout(tokens, authorization), authorization, requiredRole, now) == Err(Unauthorized)
    ensures AfterLogout(AfterLogout(tokens, authorization), authorization) == AfterLogout(tokens, authorization)
  {
  }

  /** The module-level `TOKENS` dictionary. */
  class TokenRegistry {
    var tokens: map<string, UserData>

    constructor ()
      ensures tokens == map[]
    {
      tokens := map[];
    }

    /** token_verifier, with `now` for `time.time()`. */
    method Verify(authorization: string, requiredRole: Option<string>, now: int) returns (r: Result<UserData>)
      modifies this
      ensures r == VerifyReply(old(tokens), authorization, requiredRole, now)
      ensures tokens == AfterVerify(old(tokens), authorization, now)
    {
      if !StartsWith(authorization, Scheme) {
        return Err(Unauthorized);
      }
      var token := Credential(authorization).value;
      if token !in tokens {
        return Err(Unauthorized);
      }
      var userData := tokens[token];
      if now - userData.createdAt > TokenLifetime {
        tokens := tokens - {token};
        return Err(Unauthorized);
      }
      if requiredRole.Some? && requiredRole.value != "" && userData.role != requiredRole.value {
        return Err(Forbidden);
      }
      return Ok(userData);
    }

    /** admin_token_verifier. */
    method VerifyAdmin(authorization: string, now: int) returns (r: Result<UserData>)
      modifies this
      ensures r == VerifyReply(old(tokens), authorization, Some(FakeRole), now)
      ensures tokens == AfterVerify(old(tokens), authorization, now)
    {
      r := Verify(authorization, Some(FakeRole), now);
    }

    /** login_for_access_token, with the fresh uuid4 supplied as `token` and the clock as `now`. */
    method Login(username: string, password: string, token: string, now: int) returns (r: Result<Token>)
      modifies this
      ensures r.Ok? <==> username == FakeUsername && password == FakePassword
      ensures r.Err? ==> r.status == Unauthorized && tokens == old(tokens)
      ensures r.Ok? ==> r.value == Token(token, "bearer", FakeRole)
                        && tokens == old(tokens)[token := UserData(FakeUsername, FakeRole, now)]
    {
      if username == FakeUsername && password == FakePassword {
        tokens := tokens[token := UserData(FakeUsername, FakeRole, now)];
        return Ok(Token(token, "bearer", FakeRole));
      }
      return Err(Unauthorized);
    }

    /** logout: a bad scheme is 401; otherwise it succeeds whether or not the token was known. */
    method Logout(authorization: string) returns (r: Result<()>)
      modifies this
      ensures r.Err? <==> !StartsWith(authorization, Scheme)
      ensures r.Err? ==> r.status == Unauthorized
      ensures tokens == AfterLogout(old(tokens), authorization)
    {
      if !StartsWith(authorization, Scheme) {
        return Err(Unauthorized);
      }
      var token := Credential(authorization).value;
      if token in tokens {
        tokens := tokens - {token};
      }
      return Ok(());
    }
  }
}
