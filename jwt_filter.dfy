/**
 * The per-request JWT filter: which requests it skips, and how a bearer
 * token turns into an authenticated principal.
 */
module JwtAuthenticationFilter {
  import opened Wrappers
  import opened Text
  import opened Time
  import opened Entities
  import opened UserRepository
  import opened JwtService
  import opened CustomUserDetailsService

  datatype Request = Request(httpMethod: string, servletPath: string, authorization: Option<string>)

  /**
   * What the filter does with a request: hand it on unchanged, answer 401,
   * hand it on with a principal placed in the security context, or
   * propagate an exception.
   */
  datatype FilterOutcome =
    | PassThrough
    | Unauthorized(message: string)
    | Authenticate(principal: Principal)
    | Raise(failure: Failure)

  const BEARER_PREFIX: string := "Bearer "

  /** Path prefixes of the endpoints that need no token. */
  const PUBLIC_PATH_PREFIXES: seq<string> := [
    "/api/auth/login", "/api/auth/register", "/api/auth/activate",
    "/api/auth/resend-activation", "/api/auth/validate-activation-token",
    "/auth/login", "/auth/register", "/auth/activate",
    "/auth/resend-activation", "/auth/validate-activation-token",
    "/swagger-ui", "/v3/api-docs", "/api/debug"]

  predicate IsPublicPath(path: string)
  {
    exists i :: 0 <= i < |PUBLIC_PATH_PREFIXES| && StartsWith(path, PUBLIC_PATH_PREFIXES[i])
  }

  /** shouldNotFilter: an OPTIONS request in any case, or a public path. */
  predicate ShouldNotFilter(req: Request)
  {
    EqualsIgnoreCase(req.httpMethod, "OPTIONS") || IsPublicPath(req.servletPath)
  }

  /**
   * doFilterInternal. `revoked` is the blacklist, `users` the table the user
   * details service reads, and `alreadyAuthenticated` whether the security
   * context holds an authentication already.
   */
  function DoFilterInternal(cfg: Settings, revoked: set<string>, users: Users, alreadyAuthenticated: bool,
                            req: Request, now: Instant): (r: FilterOutcome)
    ensures ShouldNotFilter(req) ==> r == PassThrough
    ensures r.Unauthorized? ==> r.message == "Token revoked"
    ensures r.Unauthorized? || r.Authenticate? || r.Raise? ==>
      req.authorization.Some? && StartsWith(req.authorization.value, BEARER_PREFIX) && !ShouldNotFilter(req)
    ensures r.Unauthorized? <==>
      !ShouldNotFilter(req) && req.authorization.Some? && StartsWith(req.authorization.value, BEARER_PREFIX)
      && req.authorization.value[|BEARER_PREFIX|..] in revoked
    ensures r.Authenticate? ==>
      var jwt := req.authorization.value[|BEARER_PREFIX|..];
      jwt !in revoked
      && HasText(jwt)
      && !alreadyAuthenticated
      && IsTokenValid(cfg, jwt, now) == Ok(true)
      && IsAccessToken(cfg, jwt, now) == Ok(true)
      && ExtractUsername(cfg, jwt, now).Ok? && ExtractUsername(cfg, jwt, now).value.Some?
      && LoadUserByUsername(users, ExtractUsername(cfg, jwt, now).value.value) == Ok(r.principal)
      && IsTokenValidFor(cfg, jwt, r.principal.username, now)
      && ExtractUsername(cfg, jwt, now) == Ok(Some(r.principal.username))
    ensures r.Raise? ==>
      var jwt := req.authorization.value[|BEARER_PREFIX|..];
      jwt !in revoked
      && ((!HasText(jwt) && r.failure == IllegalArgument(BLANK_TOKEN_MESSAGE))
          || (!alreadyAuthenticated && ExtractUsername(cfg, jwt, now).Ok? && ExtractUsername(cfg, jwt, now).value.Some?
              && LoadUserByUsername(users, ExtractUsername(cfg, jwt, now).value.value) == Err(r.failure)))
  {
    if EqualsIgnoreCase(req.httpMethod, "OPTIONS") then PassThrough
    else if ShouldNotFilter(req) then PassThrough
    else if req.authorization.None? then PassThrough
    else if !StartsWith(req.authorization.value, BEARER_PREFIX) then PassThrough
    else
      var jwt := req.authorization.value[|BEARER_PREFIX|..];
      if jwt in revoked then Unauthorized("Token revoked")
      else match IsTokenValid(cfg, jwt, now)
        case Err(f) => Raise(f)
        case Ok(valid) =>
          if !valid then PassThrough
          else if !IsAccessToken(cfg, jwt, now).value then PassThrough
          else
            var subject := ExtractUsername(cfg, jwt, now).value;
            if subject.None? || alreadyAuthenticated then PassThrough
            else match LoadUserByUsername(users, subject.value)
              case Err(f) => Raise(f)
              case Ok(p) =>
                if !IsTokenValidFor(cfg, jwt, p.username, now) then PassThrough
                else Authenticate(p)
  }

  /** Without an Authorization header, or with one of another scheme, the filter never authenticates and never refuses. */
  lemma NoBearerPassesThrough(cfg: Settings, revoked: set<string>, users: Users, alreadyAuthenticated: bool,
                              req: Request, now: Instant)
    requires req.authorization.None? || !StartsWith(req.authorization.value, BEARER_PREFIX)
    ensures DoFilterInternal(cfg, revoked, users, alreadyAuthenticated, req, now) == PassThrough
  {
  }

  /** The two examples from the list: the login endpoint and a CORS pre-flight. */
  lemma PublicExamples(req: Request)
    ensures req.servletPath == "/api/auth/login/extra" ==> ShouldNotFilter(req)
    ensures req.httpMethod == "options" ==> ShouldNotFilter(req)
  {
    if req.servletPath == "/api/auth/login/extra" {
      assert StartsWith(req.servletPath, PUBLIC_PATH_PREFIXES[0]);
    }
    if req.httpMethod == "options" {
      assert EqualsIgnoreCase(req.httpMethod, "OPTIONS");
    }
  }

  /**
   * An access token issued to an account authenticates that account when it
   * is presented within its lifetime, is not revoked, the context is empty,
   * no other account uses the employee code as username, email or code, and
   * the account's username is its employee code.
   */
  lemma AccessTokenAuthenticatesItsAccount(cfg: Settings, revoked: set<string>, users: Users, id: int,
                                           issued: Instant, now: Instant, req: Request)
    requires Sound(cfg.codec)
    requires id in users
    requires users[id].employeeCode.Some?
    requires
      var code := users[id].employeeCode.value;
      forall k :: k in users && k != id ==>
        users[k].username != Some(code) && users[k].email != Some(code) && users[k].employeeCode != Some(code)
    requires users[id].username == users[id].employeeCode
    requires users[id].enabled && users[id].roles.Some? && users[id].passwordHash.Some?
    requires users[id].employeeCode.value != ""
    requires now - cfg.clockSkewSeconds * MILLIS_PER_SECOND <= NumericDate(issued + cfg.accessTokenExpirationMs)
    requires !ShouldNotFilter(req)
    requires req.authorization == Some(BEARER_PREFIX + GenerateAccessToken(cfg, users[id], issued))
    requires GenerateAccessToken(cfg, users[id], issued) !in revoked
    ensures DoFilterInternal(cfg, revoked, users, false, req, now).Authenticate?
    ensures DoFilterInternal(cfg, revoked, users, false, req, now).principal.username == users[id].employeeCode.value
  {
    var u := users[id];
    var jwt := GenerateAccessToken(cfg, u, issued);
    assert StartsWith(req.authorization.value, BEARER_PREFIX);
    assert req.authorization.value[|BEARER_PREFIX|..] == jwt;
    AccessTokenAccepted(cfg, u, issued, now);
    UsernameThenEmailThenCode(users, u.employeeCode.value, id);
    AccessTokenUserIsEmployeeCode(cfg, u, issued, now, u.employeeCode.value);
  }

  /**
   * The same token never authenticates an account whose username differs
   * from its employee code: the subject resolves to the account, whose
   * principal is named by the username, and the subject check fails.
   */
  lemma AccessTokenRejectedWhenUsernameDiffers(cfg: Settings, revoked: set<string>, users: Users, id: int,
                                               issued: Instant, now: Instant, req: Request, authenticated: bool)
    requires Sound(cfg.codec)
    requires id in users
    requires users[id].employeeCode.Some?
    requires
      var code := users[id].employeeCode.value;
      forall k :: k in users && k != id ==>
        users[k].username != Some(code) && users[k].email != Some(code) && users[k].employeeCode != Some(code)
    requires users[id].username != users[id].employeeCode
    requires req.authorization == Some(BEARER_PREFIX + GenerateAccessToken(cfg, users[id], issued))
    ensures !DoFilterInternal(cfg, revoked, users, authenticated, req, now).Authenticate?
  {
  }
}
