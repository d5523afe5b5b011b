/**
 * Account activation: the person behind a new account follows the link of
 * the activation e-mail, chooses a username and a password, and is signed
 * in; the link can be checked beforehand, and a fresh link can be sent.
 *
 * The checks are functions on the users table; class ActivationService
 * applies them and writes the activated or re-linked account back. The
 * e-mails are not modelled.
 */
module ActivationService {
  import opened Wrappers
  import opened Time
  import opened Entities
  import opened UserRepository
  import opened JwtService
  import opened JwtResponseDTO
  import opened ActivationRequestDTO

  /** The type claim of an activation token. */
  const ACCOUNT_ACTIVATION: string := "ACCOUNT_ACTIVATION"

  /** A fresh activation link lasts seven days, both in the token and in the table. */
  const ACTIVATION_VALIDITY_MS: int := 7 * 24 * 60 * 60 * 1000

  /** The message of the NullPointerException thrown by equals on a null password. */
  const NULL_NEW_PASSWORD_MESSAGE: string := "Cannot invoke String.equals on a null newPassword"

  /** The message of the NullPointerException thrown by equals on a null username. */
  const NULL_USERNAME_MESSAGE: string := "Cannot invoke String.equals on a null username"

  /** The stored expiry of the activation link lies strictly before now; a missing expiry never does. */
  predicate LinkExpired(u: User, now: Instant)
  {
    u.activationTokenExpiry.Some? && u.activationTokenExpiry.value < now
  }

  /** The userId claim activateAccount reads from a token with text: a number, or None. */
  function UserIdClaim(cfg: Settings, token: string, now: Instant): (r: Option<int>)
    requires HasText(token)
    ensures r.Some? <==> Accepted(cfg, token, now) && "userId" in cfg.codec.verify(token).value.custom
                         && cfg.codec.verify(token).value.custom["userId"].Number?
  {
    ExtractLongClaim(cfg, token, "userId", now).value
  }

  /**
   * Steps 2 to 6 of activateAccount: the token is valid, is an activation
   * token, names an account by its userId claim, is the token stored for
   * that account, and the stored expiry has not passed. The result is the
   * account's id. A null or blank token makes isTokenValid throw; an
   * activation token without a numeric userId claim reaches findById(null).
   */
  function TokenCheck(users: Users, cfg: Settings, token: Option<string>, now: Instant): (r: Result<int>)
    ensures r.Ok? <==>
      token.Some? && IsTokenValid(cfg, token.value, now) == Ok(true)
      && ExtractStringClaim(cfg, token.value, "type", now) == Ok(Some(ACCOUNT_ACTIVATION))
      && UserIdClaim(cfg, token.value, now).Some?
      && UserIdClaim(cfg, token.value, now).value in users
      && users[UserIdClaim(cfg, token.value, now).value].activationToken == token
      && !LinkExpired(users[UserIdClaim(cfg, token.value, now).value], now)
    ensures r.Ok? ==> r == Ok(UserIdClaim(cfg, token.value, now).value)
    ensures token.None? || !HasText(token.value) ==> r == Err(IllegalArgument(BLANK_TOKEN_MESSAGE))
    ensures token.Some? && IsTokenValid(cfg, token.value, now) == Ok(true)
            && ExtractStringClaim(cfg, token.value, "type", now) == Ok(Some(ACCOUNT_ACTIVATION))
            && UserIdClaim(cfg, token.value, now).None?
            ==> r == Err(Internal(NULL_ID_MESSAGE))
  {
    if token.None? then Err(IllegalArgument(BLANK_TOKEN_MESSAGE))
    else match IsTokenValid(cfg, token.value, now)
      case Err(f) => Err(f)
      case Ok(valid) =>
        if !valid then Err(BusinessError("Invalid or expired activation token"))
        else
          var userId := UserIdClaim(cfg, token.value, now);
          var tokenType := ExtractStringClaim(cfg, token.value, "type", now).value;
          if tokenType != Some(ACCOUNT_ACTIVATION) then Err(BusinessError("Invalid token type"))
          else match FindById(users, userId, "User not found")
            case Err(f) => Err(f)
            case Ok(u) =>
              if token != u.activationToken then Err(BusinessError("Invalid activation token"))
              else if LinkExpired(u, now) then Err(BusinessError("Activation token has expired"))
              else Ok(userId.value)
  }

  /**
   * Step 7 of activateAccount: the account's own employee code is always
   * allowed as username; any other name must be no one's username and no
   * one's employee code.
   */
  function UsernameCheck(users: Users, u: User, requested: Option<string>): (r: Outcome)
    ensures r.Pass? <==>
      requested.Some?
      && (requested == u.employeeCode
          || (!ExistsBy(users, UsernameColumn, requested) && FindBy(users, EmployeeCodeColumn, requested).Absent?))
  {
    if requested.None? then Fail(Internal(NULL_USERNAME_MESSAGE))
    else if requested == u.employeeCode then Pass
    else if ExistsBy(users, UsernameColumn, requested) then
      Fail(BusinessError("Username '" + requested.value + "' is already taken"))
    else match FindBy(users, EmployeeCodeColumn, requested)
      case Absent => Pass
      case Unique(_) => Fail(BusinessError("Username '" + requested.value + "' conflicts with an existing employee code"))
      case Ambiguous => Fail(Internal(NON_UNIQUE_MESSAGE))
  }

  /** Every check of activateAccount in order; the result is the id of the account to activate. */
  function ActivationCheck(users: Users, cfg: Settings, req: ActivationRequest, now: Instant): (r: Result<int>)
    ensures req.newPassword.Some? && req.confirmPassword != req.newPassword ==> r == Err(BusinessError("Passwords do not match"))
    ensures r.Ok? <==> req.newPassword.Some? && req.confirmPassword == req.newPassword
                       && TokenCheck(users, cfg, req.token, now).Ok?
                       && UsernameCheck(users, users[TokenCheck(users, cfg, req.token, now).value], req.username).Pass?
    ensures r.Ok? ==> r == TokenCheck(users, cfg, req.token, now) && req.username.Some?
  {
    if req.newPassword.None? then Err(Internal(NULL_NEW_PASSWORD_MESSAGE))
    else if Some(req.newPassword.value) != req.confirmPassword then Err(BusinessError("Passwords do not match"))
    else match TokenCheck(users, cfg, req.token, now)
      case Err(f) => Err(f)
      case Ok(id) =>
        match UsernameCheck(users, users[id], req.username)
        case Fail(f) => Err(f)
        case Pass => Ok(id)
  }

  /**
   * What activateAccount writes: the chosen username and password, login
   * allowed, first login done, and the link withdrawn. The active and
   * registrationPending flags are left as they were.
   */
  function Activated(u: User, username: string, newPassword: string): (r: User)
    ensures r.username == Some(username) && Matches(newPassword, r.passwordHash)
    ensures r.enabled && !r.firstLogin && r.activationToken.None? && r.activationTokenExpiry.None?
    ensures r.active == u.active && r.registrationPending == u.registrationPending && r.accountNonLocked == u.accountNonLocked
    ensures r.id == u.id && r.email == u.email && r.employeeCode == u.employeeCode && r.roles == u.roles
  {
    u.(username := Some(username), passwordHash := Some(Encode(newPassword)), enabled := true,
       firstLogin := false, activationToken := None, activationTokenExpiry := None)
  }

  /**
   * validateActivationToken: true exactly when the link would pass the
   * token checks of activateAccount and its stored expiry is present and
   * strictly after now. Every exception on the way reads as false.
   */
  function ValidateActivationToken(users: Users, cfg: Settings, token: Option<string>, now: Instant): (r: bool)
  {
    if token.None? || IsTokenValid(cfg, token.value, now) != Ok(true) then false
    else
      var userId := UserIdClaim(cfg, token.value, now);
      var tokenType := ExtractStringClaim(cfg, token.value, "type", now).value;
      if tokenType != Some(ACCOUNT_ACTIVATION) then false
      else match FindById(users, userId, "User not found")
        case Err(_) => false
        case Ok(u) => token == u.activationToken && u.activationTokenExpiry.Some? && u.activationTokenExpiry.value > now
  }

  /**
   * The two paths agree on everything but the expiry: the link checks out
   * exactly when activation's token checks pass and the stored expiry is
   * present and after now. So a link expiring exactly now, or with no
   * stored expiry, still activates but is reported invalid.
   */
  lemma ValidationAgreesWithActivation(users: Users, cfg: Settings, token: Option<string>, now: Instant)
    ensures ValidateActivationToken(users, cfg, token, now) <==>
      TokenCheck(users, cfg, token, now).Ok?
      && users[TokenCheck(users, cfg, token, now).value].activationTokenExpiry.Some?
      && users[TokenCheck(users, cfg, token, now).value].activationTokenExpiry.value > now
    ensures TokenCheck(users, cfg, token, now).Ok?
      && users[TokenCheck(users, cfg, token, now).value].activationTokenExpiry in {None, Some(now)}
      ==> !ValidateActivationToken(users, cfg, token, now)
  {
  }

  /** The account as resendActivationEmail leaves it: a new link, valid for seven days from now. */
  function Relinked(u: User, token: string, now: Instant): (r: User)
    ensures r.activationToken == Some(token) && r.activationTokenExpiry == Some(now + ACTIVATION_VALIDITY_MS)
    ensures r.(activationToken := u.activationToken, activationTokenExpiry := u.activationTokenExpiry) == u
  {
    u.(activationToken := Some(token), activationTokenExpiry := Some(now + ACTIVATION_VALIDITY_MS))
  }

  /**
   * The link resendActivationEmail signs: userId, email and type claims
   * with the e-mail address as subject. The account was found by its
   * e-mail and has an id, so none of the three values is null.
   */
  function ResentToken(cfg: Settings, u: User, now: Instant): string
  {
    GenerateTokenWithExpiration(cfg, ActivationCustomClaims(u), u.email, now, ACTIVATION_VALIDITY_MS)
  }

  /** The guard of resendActivationEmail; the result is the id of the account to re-link. */
  function ResendCheck(users: Users, email: string): (r: Result<int>)
    ensures r.Ok? <==> FindBy(users, EmailColumn, Some(email)).Unique? && !users[FindBy(users, EmailColumn, Some(email)).id].enabled
    ensures r.Ok? ==> r.value in users && users[r.value].email == Some(email)
  {
    match FindBy(users, EmailColumn, Some(email))
    case Absent => Err(NotFound("User not found with this email"))
    case Ambiguous => Err(Internal(NON_UNIQUE_MESSAGE))
    case Unique(id) =>
      if users[id].enabled then Err(BusinessError("This account is already activated")) else Ok(id)
  }

  /**
   * A re-sent link works: from the moment it is issued until a second
   * before its seven days run out, the new token passes every token check
   * of activateAccount for the account it was sent to.
   */
  lemma ResentTokenActivates(users: Users, cfg: Settings, id: int, now: Instant, later: Instant)
    requires Sound(cfg.codec) && cfg.clockSkewSeconds >= 0
    requires id in users && users[id].id == Some(id) && users[id].email.Some?
    requires 0 <= now <= later <= now + ACTIVATION_VALIDITY_MS - MILLIS_PER_SECOND
    ensures var token := ResentToken(cfg, users[id], now);
      TokenCheck(users[id := Relinked(users[id], token, now)], cfg, Some(token), later) == Ok(id)
  {
    var u := users[id];
    var token := ResentToken(cfg, u, now);
    TokenWithExpirationLayout(cfg, ActivationCustomClaims(u), u.email, now, ACTIVATION_VALIDITY_MS, later);
    var claims := cfg.codec.verify(token).value;
    assert claims.custom["userId"] == Number(id);
    assert claims.custom["type"] == Text(ACCOUNT_ACTIVATION);
  }

  /**
   * A link works once: after an activation writes its account, no token,
   * the used one included, passes the token checks for that account again,
   * at any later time, since the stored link is withdrawn.
   */
  lemma ActivationIsSingleUse(users: Users, cfg: Settings, req: ActivationRequest, now: Instant,
                              token: Option<string>, later: Instant)
    requires ActivationCheck(users, cfg, req, now).Ok?
    ensures var id := ActivationCheck(users, cfg, req, now).value;
      var after := users[id := Activated(users[id], req.username.value, req.newPassword.value)];
      TokenCheck(after, cfg, req.token, later).Err?
      && (TokenCheck(after, cfg, token, later).Ok? ==> TokenCheck(after, cfg, token, later).value != id)
  {
  }

  /** The users table and the token settings of the service. */
  class ActivationService {
    const userRepository: UserStore
    const jwtService: Settings

    constructor (userRepository: UserStore, jwtService: Settings)
      ensures this.userRepository == userRepository && this.jwtService == jwtService
    {
      this.userRepository := userRepository;
      this.jwtService := jwtService;
    }

    /**
     * activateAccount: when every check passes, the account is activated
     * and the caller is signed in with a fresh access token; otherwise
     * nothing is written.
     */
    method ActivateAccount(request: ActivationRequest, now: Instant) returns (r: Result<JwtResponse>)
      requires userRepository.Valid()
      modifies userRepository
      ensures userRepository.Valid()
      ensures ActivationCheck(old(userRepository.users), jwtService, request, now).Err? ==>
        r == Err(ActivationCheck(old(userRepository.users), jwtService, request, now).failure)
        && userRepository.users == old(userRepository.users)
      ensures ActivationCheck(old(userRepository.users), jwtService, request, now).Ok? ==>
        var id := ActivationCheck(old(userRepository.users), jwtService, request, now).value;
        var u := Activated(old(userRepository.users)[id], request.username.value, request.newPassword.value);
        userRepository.users == old(userRepository.users)[id := u]
        && r == Ok(JwtResponse(Some(GenerateAccessToken(jwtService, u, now)), BEARER, None,
                               Some("Account activated successfully"), None))
    {
      var check := ActivationCheck(userRepository.users, jwtService, request, now);
      if check.Err? {
        return Err(check.failure);
      }
      var u := Activated(userRepository.users[check.value], request.username.value, request.newPassword.value);
      userRepository.Update(u);
      var token := GenerateAccessToken(jwtService, u, now);
      return Ok(JwtResponse(Some(token), BEARER, None, Some("Account activated successfully"), None));
    }

    /** resendActivationEmail: a not yet activated account gets a new link, replacing the old one. */
    method ResendActivationEmail(email: string, now: Instant) returns (r: Result<string>)
      requires userRepository.Valid()
      modifies userRepository
      ensures userRepository.Valid()
      ensures ResendCheck(old(userRepository.users), email).Err? ==>
        r == Err(ResendCheck(old(userRepository.users), email).failure)
        && userRepository.users == old(userRepository.users)
      ensures ResendCheck(old(userRepository.users), email).Ok? ==>
        var id := ResendCheck(old(userRepository.users), email).value;
        var u := old(userRepository.users)[id];
        userRepository.users == old(userRepository.users)[id := Relinked(u, ResentToken(jwtService, u, now), now)]
        && r == Ok("Activation email resent successfully")
    {
      var check := ResendCheck(userRepository.users, email);
      if check.Err? {
        return Err(check.failure);
      }
      var u := userRepository.users[check.value];
      var token := ResentToken(jwtService, u, now);
      userRepository.Update(Relinked(u, token, now));
      return Ok("Activation email resent successfully");
    }
  }
}
