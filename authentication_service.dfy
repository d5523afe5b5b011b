/**
 * Employee onboarding and login: an employee account is created with a
 * generated employee code as username, a random temporary password and an
 * activation link; login checks the credentials and the account state and
 * issues an access token; an administrator can re-send the link or reset
 * the temporary password of an account not yet activated.
 *
 * Random draws, UUID texts, the current year and the current time are
 * parameters. The e-mails are not modelled: the sends are asynchronous and
 * catch their own failures.
 */
module AuthenticationService {
  import opened Wrappers
  import opened Text
  import opened Time
  import opened Entities
  import opened UserRepository
  import opened JwtService
  import opened JwtResponseDTO
  import opened RegisterRequestDTO
  import opened UserMapper
  import opened EmployeeCodeGenerator
  import UserService

  const MAX_EMPLOYEE_CODE_ATTEMPTS: int := 10
  const ACTIVATION_TOKEN_EXPIRY_DAYS: int := 7
  const PASSWORD_LENGTH: int := 12

  /** The life of an activation link, in milliseconds. */
  const ACTIVATION_TOKEN_EXPIRY_MS: int := ACTIVATION_TOKEN_EXPIRY_DAYS * 24 * 60 * 60 * 1000

  /** The type claim of an activation token. */
  const ACCOUNT_ACTIVATION: string := "ACCOUNT_ACTIVATION"

  // ---------------------------------------------------------------------
  // Creation guard
  // ---------------------------------------------------------------------

  /** validateEmployeeCreation: the email must be new (a null email collides with any account without one). */
  function ValidateEmployeeCreation(users: Users, f: UserForm): (r: Outcome)
    ensures r.Pass? <==> !ExistsBy(users, EmailColumn, f.email)
    ensures r.Fail? ==> r.failure == BusinessError("A user with this email already exists")
  {
    if ExistsBy(users, EmailColumn, f.email) then Fail(BusinessError("A user with this email already exists")) else Pass
  }

  // ---------------------------------------------------------------------
  // Temporary password
  // ---------------------------------------------------------------------

  const SPECIAL_CHARACTERS: string := "!@#$%"
  const ALL_CHARACTERS: string := UPPERCASE_LETTERS + LOWERCASE_LETTERS + DECIMAL_DIGITS + SPECIAL_CHARACTERS

  /**
   * The twelve character draws of generateSecureRandomPassword: one
   * upper-case letter, one lower-case letter, one digit, one special
   * character, then eight from the whole alphabet (Random.nextInt(n) lies
   * in 0 .. n - 1).
   */
  predicate ValidPicks(picks: seq<int>)
  {
    |picks| == PASSWORD_LENGTH
    && 0 <= picks[0] < |UPPERCASE_LETTERS| && 0 <= picks[1] < |LOWERCASE_LETTERS|
    && 0 <= picks[2] < |DECIMAL_DIGITS| && 0 <= picks[3] < |SPECIAL_CHARACTERS|
    && forall k :: 4 <= k < PASSWORD_LENGTH ==> 0 <= picks[k] < |ALL_CHARACTERS|
  }

  /** The eleven shuffle draws: swaps[k] is the partner of position 11 - k, drawn from 0 .. 11 - k. */
  predicate ValidSwaps(swaps: seq<int>)
  {
    |swaps| == PASSWORD_LENGTH - 1 && forall k :: 0 <= k < |swaps| ==> 0 <= swaps[k] <= PASSWORD_LENGTH - 1 - k
  }

  /** ALL_CHARACTERS is the four alphabets one after the other. */
  lemma AlphabetLayout()
    ensures |ALL_CHARACTERS| == 67
    ensures forall k :: 0 <= k < |UPPERCASE_LETTERS| ==> ALL_CHARACTERS[k] == UPPERCASE_LETTERS[k]
    ensures forall k :: 0 <= k < |LOWERCASE_LETTERS| ==> ALL_CHARACTERS[26 + k] == LOWERCASE_LETTERS[k]
    ensures forall k :: 0 <= k < |DECIMAL_DIGITS| ==> ALL_CHARACTERS[52 + k] == DECIMAL_DIGITS[k]
    ensures forall k :: 0 <= k < |SPECIAL_CHARACTERS| ==> ALL_CHARACTERS[62 + k] == SPECIAL_CHARACTERS[k]
  {
  }

  /** The k-th character appended to the StringBuilder. */
  function Drawn(picks: seq<int>, k: int): char
    requires ValidPicks(picks) && 0 <= k < PASSWORD_LENGTH
  {
    if k == 0 then UPPERCASE_LETTERS[picks[0]]
    else if k == 1 then LOWERCASE_LETTERS[picks[1]]
    else if k == 2 then DECIMAL_DIGITS[picks[2]]
    else if k == 3 then SPECIAL_CHARACTERS[picks[3]]
    else ALL_CHARACTERS[picks[k]]
  }

  /** The characters appended to the StringBuilder, before the shuffle. */
  function Appended(picks: seq<int>): (r: string)
    requires ValidPicks(picks)
    ensures |r| == PASSWORD_LENGTH
  {
    seq(PASSWORD_LENGTH, k requires 0 <= k < PASSWORD_LENGTH => Drawn(picks, k))
  }

  /**
   * The appended characters open with an upper-case letter, a lower-case
   * letter, a digit and a special character, and all come from the
   * alphabet.
   */
  lemma AppendedClasses(picks: seq<int>)
    requires ValidPicks(picks)
    ensures var r := Appended(picks);
      IsUpper(r[0]) && IsLower(r[1]) && IsDigit(r[2]) && r[3] in SPECIAL_CHARACTERS
      && forall i :: 0 <= i < |r| ==> r[i] in ALL_CHARACTERS
  {
    AlphabetClasses();
    AlphabetLayout();
    var r := Appended(picks);
    assert r[0] == ALL_CHARACTERS[picks[0]];
    assert r[1] == ALL_CHARACTERS[26 + picks[1]];
    assert r[2] == ALL_CHARACTERS[52 + picks[2]];
    assert r[3] == ALL_CHARACTERS[62 + picks[3]];
  }

  /** s with the characters at i and j exchanged. */
  function Swap(s: string, i: int, j: int): (r: string)
    requires 0 <= i < |s| && 0 <= j < |s|
  {
    s[i := s[j]][j := s[i]]
  }

  /** The shuffle from position i down to 1, each position exchanged with its drawn partner. */
  function ShuffledFrom(s: string, swaps: seq<int>, i: int): string
    requires |s| == PASSWORD_LENGTH && ValidSwaps(swaps) && 0 <= i < |s|
    decreases i
  {
    if i == 0 then s else ShuffledFrom(Swap(s, i, swaps[|s| - 1 - i]), swaps, i - 1)
  }

  /** An exchange keeps the characters. */
  lemma SwapPermutes(s: string, i: int, j: int)
    requires 0 <= i < |s| && 0 <= j < |s|
    ensures |Swap(s, i, j)| == |s| && multiset(Swap(s, i, j)) == multiset(s)
  {
    var t := s[i := s[j]];
    assert multiset(t) == multiset(s) - multiset{s[i]} + multiset{s[j]};
    assert multiset(t[j := s[i]]) == multiset(t) - multiset{t[j]} + multiset{s[i]};
  }

  /** Each exchange keeps the characters, so the whole shuffle is a permutation. */
  lemma {:induction false} ShufflePermutes(s: string, swaps: seq<int>, i: int)
    requires |s| == PASSWORD_LENGTH && ValidSwaps(swaps) && 0 <= i < |s|
    ensures |ShuffledFrom(s, swaps, i)| == |s|
    ensures multiset(ShuffledFrom(s, swaps, i)) == multiset(s)
    decreases i
  {
    if i > 0 {
      var t := Swap(s, i, swaps[|s| - 1 - i]);
      SwapPermutes(s, i, swaps[|s| - 1 - i]);
      ShufflePermutes(t, swaps, i - 1);
    }
  }

  /** generateSecureRandomPassword as a value of its draws. */
  function SecurePassword(picks: seq<int>, swaps: seq<int>): string
    requires ValidPicks(picks) && ValidSwaps(swaps)
  {
    ShuffledFrom(Appended(picks), swaps, PASSWORD_LENGTH - 1)
  }

  /**
   * A generated password has twelve characters of the alphabet, among them
   * at least one upper-case letter, one lower-case letter, one digit and one
   * of "!@#$%": the characters appended, in shuffled order.
   */
  lemma SecurePasswordProperties(picks: seq<int>, swaps: seq<int>)
    requires ValidPicks(picks) && ValidSwaps(swaps)
    ensures var p := SecurePassword(picks, swaps);
      |p| == PASSWORD_LENGTH
      && multiset(p) == multiset(Appended(picks))
      && (forall i :: 0 <= i < |p| ==> p[i] in ALL_CHARACTERS)
      && (exists i :: 0 <= i < |p| && IsUpper(p[i]))
      && (exists i :: 0 <= i < |p| && IsLower(p[i]))
      && (exists i :: 0 <= i < |p| && IsDigit(p[i]))
      && (exists i :: 0 <= i < |p| && p[i] in SPECIAL_CHARACTERS)
  {
    var a := Appended(picks);
    var p := SecurePassword(picks, swaps);
    AppendedClasses(picks);
    ShufflePermutes(a, swaps, PASSWORD_LENGTH - 1);
    forall i | 0 <= i < |p| ensures p[i] in ALL_CHARACTERS {
      assert p[i] in multiset(a);
    }
    assert a[0] in multiset(p) && a[1] in multiset(p) && a[2] in multiset(p) && a[3] in multiset(p);
  }

  // ---------------------------------------------------------------------
  // Employee code
  // ---------------------------------------------------------------------

  /** One UUID text (36 characters) for each attempt the loop can make. */
  predicate ValidUuids(uuids: seq<string>)
  {
    |uuids| >= MAX_EMPLOYEE_CODE_ATTEMPTS && forall k :: 0 <= k < |uuids| ==> |uuids[k]| == 36
  }

  /** The candidate codes of generateUniqueEmployeeCode, one per attempt, each from its own UUID. */
  function Candidates(f: UserForm, year: int, uuids: seq<string>): (cs: seq<Result<string>>)
    requires ValidUuids(uuids)
    ensures |cs| == MAX_EMPLOYEE_CODE_ATTEMPTS
    ensures forall k :: 0 <= k < |cs| ==> cs[k] == GenerateEmployeeCode(f.jobTitle, f.department, year, uuids[k])
  {
    seq(MAX_EMPLOYEE_CODE_ATTEMPTS, k requires 0 <= k < MAX_EMPLOYEE_CODE_ATTEMPTS =>
      GenerateEmployeeCode(f.jobTitle, f.department, year, uuids[k]))
  }

  /**
   * The do-while of generateUniqueEmployeeCode from the given attempt on:
   * a candidate is generated and counted, the count is checked against the
   * limit, and only then is the candidate looked up.
   */
  function CodeSearch(users: Users, cs: seq<Result<string>>, attempts: int): Result<string>
    requires |cs| == MAX_EMPLOYEE_CODE_ATTEMPTS && 0 <= attempts < MAX_EMPLOYEE_CODE_ATTEMPTS
    decreases MAX_EMPLOYEE_CODE_ATTEMPTS - attempts
  {
    match cs[attempts]
    case Err(e) => Err(e)
    case Ok(code) =>
      if attempts + 1 >= MAX_EMPLOYEE_CODE_ATTEMPTS then Err(BusinessError("Could not generate unique employee code"))
      else if ExistsBy(users, EmployeeCodeColumn, Some(code)) then CodeSearch(users, cs, attempts + 1)
      else Ok(code)
  }

  /** A code found is one of the candidates from this attempt on, other than the last, and no account has it. */
  lemma {:induction false} CodeSearchFindsFreeCode(users: Users, cs: seq<Result<string>>, attempts: int)
    requires |cs| == MAX_EMPLOYEE_CODE_ATTEMPTS && 0 <= attempts < MAX_EMPLOYEE_CODE_ATTEMPTS
    ensures CodeSearch(users, cs, attempts).Ok? ==>
      !ExistsBy(users, EmployeeCodeColumn, Some(CodeSearch(users, cs, attempts).value))
      && exists k :: attempts <= k < MAX_EMPLOYEE_CODE_ATTEMPTS - 1 && cs[k] == CodeSearch(users, cs, attempts)
    decreases MAX_EMPLOYEE_CODE_ATTEMPTS - attempts
  {
    if cs[attempts].Ok? && attempts + 1 < MAX_EMPLOYEE_CODE_ATTEMPTS && ExistsBy(users, EmployeeCodeColumn, Some(cs[attempts].value)) {
      CodeSearchFindsFreeCode(users, cs, attempts + 1);
    }
  }

  /**
   * When the first nine candidates are all taken the search gives up,
   * whatever the tenth candidate is: it is generated but never looked up.
   */
  lemma {:induction false} TenthCandidateNeverChecked(users: Users, cs: seq<Result<string>>, attempts: int)
    requires |cs| == MAX_EMPLOYEE_CODE_ATTEMPTS && 0 <= attempts < MAX_EMPLOYEE_CODE_ATTEMPTS
    requires forall k :: attempts <= k < MAX_EMPLOYEE_CODE_ATTEMPTS - 1 ==>
      cs[k].Ok? && ExistsBy(users, EmployeeCodeColumn, Some(cs[k].value))
    requires cs[MAX_EMPLOYEE_CODE_ATTEMPTS - 1].Ok?
    ensures CodeSearch(users, cs, attempts) == Err(BusinessError("Could not generate unique employee code"))
    decreases MAX_EMPLOYEE_CODE_ATTEMPTS - attempts
  {
    if attempts + 1 < MAX_EMPLOYEE_CODE_ATTEMPTS {
      TenthCandidateNeverChecked(users, cs, attempts + 1);
    }
  }

  // ---------------------------------------------------------------------
  // Building the account
  // ---------------------------------------------------------------------

  /**
   * buildUserEntity: the form's fields (no description), the employee code
   * as code and username, the temporary password, login not yet allowed,
   * first login pending; `active` defaults to true, registrationPending
   * keeps the builder's false.
   */
  function BuildEmployee(f: UserForm, code: string, temp: string): (u: User)
    ensures u.employeeCode == Some(code) && u.username == Some(code) && Matches(temp, u.passwordHash)
    ensures !u.enabled && u.firstLogin && u.accountNonLocked && u.accountNonExpired && u.credentialsNonExpired
    ensures !u.registrationPending && u.active == Some(if f.active.Some? then f.active.value else true)
    ensures u.email == f.email && u.description.None? && u.id.None? && u.activationToken.None?
  {
    ToEntity(f).(description := None, employeeCode := Some(code), username := Some(code),
                 passwordHash := Some(Encode(temp)), enabled := false, accountNonExpired := true,
                 credentialsNonExpired := true, accountNonLocked := true, firstLogin := true)
  }

  /** createUserFromRequest: a free employee code, then the entity built around it. */
  function UserFromRequest(users: Users, f: UserForm, temp: string, year: int, uuids: seq<string>): (r: Result<User>)
    requires ValidUuids(uuids)
    ensures r.Ok? <==> CodeSearch(users, Candidates(f, year, uuids), 0).Ok?
    ensures r.Ok? ==> r.value == BuildEmployee(f, CodeSearch(users, Candidates(f, year, uuids), 0).value, temp)
  {
    match CodeSearch(users, Candidates(f, year, uuids), 0)
    case Err(e) => Err(e)
    case Ok(code) => Ok(BuildEmployee(f, code, temp))
  }

  /** assignDefaultRole: the role list becomes exactly [EMPLOYEE], if the roles table has it. */
  function AssignDefaultRole(u: User, table: set<RoleName>): (r: Result<User>)
    ensures r.Ok? <==> EMPLOYEE in table
    ensures r.Ok? ==> r.value == u.(roles := Some([EMPLOYEE]))
  {
    if EMPLOYEE in table then Ok(u.(roles := Some([EMPLOYEE]))) else Err(NotFound("EMPLOYEE role not found"))
  }

  /** The account createEmployee saves first: built, given its role, and linked to its managers. */
  function NewEmployee(users: Users, table: set<RoleName>, f: UserForm, u: User): Result<User>
  {
    match AssignDefaultRole(u, table)
    case Err(e) => Err(e)
    case Ok(withRole) => UserService.SetUserRelations(users, f, withRole)
  }

  /** The claims setupAccountActivation signs: the saved account's id and the activation type. */
  function SetupClaims(id: int): (m: map<string, ClaimValue>)
    ensures m.Keys == {"userId", "type"} && m["userId"] == Number(id) && m["type"] == Text(ACCOUNT_ACTIVATION)
  {
    map["userId" := Number(id), "type" := Text(ACCOUNT_ACTIVATION)]
  }

  /** The link setupAccountActivation signs for the saved account with that id, the e-mail address as subject. */
  function SetupToken(cfg: Settings, u: User, id: int, now: Instant): string
  {
    GenerateTokenWithExpiration(cfg, SetupClaims(id), u.email, now, ACTIVATION_TOKEN_EXPIRY_MS)
  }

  /** setupAccountActivation: a new link, valid for seven days from now. */
  function WithActivationLink(cfg: Settings, u: User, id: int, now: Instant): (r: User)
    ensures r.activationToken == Some(SetupToken(cfg, u, id, now))
    ensures r.activationTokenExpiry == Some(now + ACTIVATION_TOKEN_EXPIRY_DAYS * MILLIS_PER_DAY)
    ensures r.(activationToken := u.activationToken, activationTokenExpiry := u.activationTokenExpiry) == u
  {
    u.(activationToken := Some(SetupToken(cfg, u, id, now)),
       activationTokenExpiry := Some(now + ACTIVATION_TOKEN_EXPIRY_DAYS * MILLIS_PER_DAY))
  }

  /**
   * A link from setupAccountActivation verifies to the account's id, the
   * activation type and the e-mail address as subject, and stays valid
   * until its seven days (to the second) plus the skew have passed.
   */
  lemma ActivationLinkLayout(cfg: Settings, u: User, id: int, issued: Instant, now: Instant)
    requires Sound(cfg.codec)
    ensures var token := SetupToken(cfg, u, id, issued);
      HasText(token)
      && ExtractLongClaim(cfg, token, "userId", now) == Ok(if Accepted(cfg, token, now) then Some(id) else None)
      && ExtractStringClaim(cfg, token, "type", now) == Ok(if Accepted(cfg, token, now) then Some(ACCOUNT_ACTIVATION) else None)
      && cfg.codec.verify(token).value.subject == u.email
      && (IsTokenValid(cfg, token, now) == Ok(true)
          <==> now - cfg.clockSkewSeconds * MILLIS_PER_SECOND <= NumericDate(issued + ACTIVATION_TOKEN_EXPIRY_MS))
  {
    TokenWithExpirationLayout(cfg, SetupClaims(id), u.email, issued, ACTIVATION_TOKEN_EXPIRY_MS, now);
  }

  /**
   * What createEmployee saves under the id the store hands out next, or
   * the failure it stops at.
   */
  function EmployeeCreation(users: Users, table: set<RoleName>, cfg: Settings, f: UserForm, temp: string,
                            year: int, uuids: seq<string>, id: int, now: Instant): Result<User>
    requires ValidUuids(uuids)
  {
    match ValidateEmployeeCreation(users, f)
    case Fail(e) => Err(e)
    case Pass =>
      match UserFromRequest(users, f, temp, year, uuids)
      case Err(e) => Err(e)
      case Ok(built) =>
        match NewEmployee(users, table, f, built)
        case Err(e) => Err(e)
        case Ok(u) => Ok(WithActivationLink(cfg, u.(id := Some(id)), id, now))
  }

  /**
   * A created employee had a new email address, has a free employee code
   * as code and username, signs in with the temporary password, holds just
   * the EMPLOYEE role, cannot log in before activation, and carries a link
   * for seven days that names its own id.
   */
  lemma EmployeeCreationState(users: Users, table: set<RoleName>, cfg: Settings, f: UserForm, temp: string,
                              year: int, uuids: seq<string>, id: int, now: Instant)
    requires ValidUuids(uuids) && Sound(cfg.codec) && cfg.clockSkewSeconds >= 0 && now >= 0
    requires EmployeeCreation(users, table, cfg, f, temp, year, uuids, id, now).Ok?
    ensures var u := EmployeeCreation(users, table, cfg, f, temp, year, uuids, id, now).value;
      !ExistsBy(users, EmailColumn, f.email) && !ExistsBy(users, EmployeeCodeColumn, u.employeeCode)
      && u.employeeCode.Some? && u.username == u.employeeCode && u.email == f.email && u.id == Some(id)
      && Matches(temp, u.passwordHash) && u.roles == Some([EMPLOYEE])
      && !u.enabled && u.firstLogin && ValidateAccountStatus(u).Fail?
      && u.activationTokenExpiry == Some(now + ACTIVATION_TOKEN_EXPIRY_DAYS * MILLIS_PER_DAY)
      && ExtractLongClaim(cfg, u.activationToken.value, "userId", now) == Ok(Some(id))
  {
    var code := CodeSearch(users, Candidates(f, year, uuids), 0);
    CodeSearchFindsFreeCode(users, Candidates(f, year, uuids), 0);
    var u := EmployeeCreation(users, table, cfg, f, temp, year, uuids, id, now).value;
    var built := UserFromRequest(users, f, temp, year, uuids).value;
    ActivationLinkLayout(cfg, NewEmployee(users, table, f, built).value.(id := Some(id)), id, now, now);
    assert now <= NumericDate(now + ACTIVATION_TOKEN_EXPIRY_MS);
  }

  // ---------------------------------------------------------------------
  // Login
  // ---------------------------------------------------------------------

  /** A login request; the username field holds a username or an e-mail address. */
  datatype LoginRequest = LoginRequest(username: string, password: Option<string>)

  /**
   * validateLoginCredentials: an unknown identifier and a wrong password
   * give the same answer. The result is the id of the account.
   */
  function ValidateLoginCredentials(users: Users, login: LoginRequest): (r: Result<int>)
    ensures r.Ok? <==> FindByUsernameOrEmail(users, login.username).Unique? && login.password.Some?
                       && Matches(login.password.value, users[FindByUsernameOrEmail(users, login.username).id].passwordHash)
    ensures r.Ok? ==> r.value == FindByUsernameOrEmail(users, login.username).id
    ensures FindByUsernameOrEmail(users, login.username).Absent? ==> r == Err(BusinessError("Invalid credentials"))
    ensures FindByUsernameOrEmail(users, login.username).Unique? && login.password.Some?
            && !Matches(login.password.value, users[FindByUsernameOrEmail(users, login.username).id].passwordHash)
            ==> r == Err(BusinessError("Invalid credentials"))
  {
    match FindByUsernameOrEmail(users, login.username)
    case Absent => Err(BusinessError("Invalid credentials"))
    case Ambiguous => Err(Internal(NON_UNIQUE_MESSAGE))
    case Unique(id) =>
      if login.password.None? then Err(IllegalArgument(NULL_RAW_PASSWORD_MESSAGE))
      else if !Matches(login.password.value, users[id].passwordHash) then Err(BusinessError("Invalid credentials"))
      else Ok(id)
  }

  /** validateAccountStatus: login needs an activated account whose first password has been replaced. */
  function ValidateAccountStatus(u: User): (r: Outcome)
    ensures r.Pass? <==> u.enabled && !u.firstLogin
    ensures !u.enabled ==> r == Fail(BusinessError("Please activate your account before logging in"))
    ensures u.enabled && u.firstLogin ==> r == Fail(BusinessError("Please change your password before first login"))
  {
    if !u.enabled then Fail(BusinessError("Please activate your account before logging in"))
    else if u.firstLogin then Fail(BusinessError("Please change your password before first login"))
    else Pass
  }

  /** authenticate: the checks, then an access token and the account's profile. */
  function Authenticate(users: Users, cfg: Settings, login: LoginRequest, now: Instant): (r: Result<JwtResponse>)
    ensures r.Ok? <==> ValidateLoginCredentials(users, login).Ok?
                       && ValidateAccountStatus(users[ValidateLoginCredentials(users, login).value]).Pass?
    ensures r.Ok? ==> var u := users[ValidateLoginCredentials(users, login).value];
      r.value == JwtResponse(Some(GenerateAccessToken(cfg, u, now)), BEARER, None, Some("Login successful"), ToResponseDTO(Some(u)))
  {
    match ValidateLoginCredentials(users, login)
    case Err(e) => Err(e)
    case Ok(id) =>
      var u := users[id];
      match ValidateAccountStatus(u)
      case Fail(e) => Err(e)
      case Pass =>
        Ok(JwtResponse(Some(GenerateAccessToken(cfg, u, now)), BEARER, None, Some("Login successful"), ToResponseDTO(Some(u))))
  }

  /**
   * Login never looks at `active` or `accountNonLocked`: changing them
   * changes neither whether a login succeeds nor the token it issues.
   */
  lemma LoginIgnoresActiveAndLock(users: Users, cfg: Settings, login: LoginRequest, now: Instant,
                                  id: int, active: Option<bool>, nonLocked: bool)
    requires id in users
    ensures var after := users[id := users[id].(active := active, accountNonLocked := nonLocked)];
      (Authenticate(after, cfg, login, now).Ok? <==> Authenticate(users, cfg, login, now).Ok?)
      && (Authenticate(users, cfg, login, now).Ok? ==>
            Authenticate(after, cfg, login, now).value.token == Authenticate(users, cfg, login, now).value.token)
  {
    var u := users[id].(active := active, accountNonLocked := nonLocked);
    FindersIgnoreOtherColumns(users, id, u);
    var after := users[id := u];
    assert FindByUsernameOrEmail(after, login.username) == FindByUsernameOrEmail(users, login.username);
    assert AccessTokenClaims(u, now, cfg.accessTokenExpirationMs) == AccessTokenClaims(users[id], now, cfg.accessTokenExpirationMs);
  }

  // ---------------------------------------------------------------------
  // Re-sending the link and resetting the temporary password
  // ---------------------------------------------------------------------

  /** The guard of both administrator operations; the result is the account's id. */
  function NotYetActivated(users: Users, userId: int, activatedMessage: string): (r: Result<int>)
    ensures r.Ok? <==> userId in users && !users[userId].enabled
    ensures r.Ok? ==> r.value == userId
  {
    if userId !in users then Err(NotFound("User not found"))
    else if users[userId].enabled then Err(BusinessError(activatedMessage))
    else Ok(userId)
  }

  const ALREADY_ACTIVATED_MESSAGE: string := "User account is already activated"
  const RESET_ALREADY_ACTIVATED_MESSAGE: string := "User account is already activated. Use forgot password flow."

  /** The message of the NullPointerException when an account has no stored link expiry. */
  const NULL_EXPIRY_MESSAGE: string := "Cannot invoke LocalDateTime.isBefore because the activation token expiry is null"

  /**
   * resendActivationEmail(userId): the account as it is left. An account
   * with no stored expiry fails; a link whose expiry has passed is replaced,
   * any other link is kept as it is.
   */
  function ResendLink(users: Users, cfg: Settings, userId: int, now: Instant): (r: Result<User>)
    ensures r.Ok? <==> userId in users && !users[userId].enabled && users[userId].activationTokenExpiry.Some?
    ensures r.Ok? ==> var u := users[userId];
      r.value == if u.activationTokenExpiry.value < now then WithActivationLink(cfg, u, userId, now) else u
  {
    match NotYetActivated(users, userId, ALREADY_ACTIVATED_MESSAGE)
    case Err(e) => Err(e)
    case Ok(_) =>
      var u := users[userId];
      if u.activationTokenExpiry.None? then Err(Internal(NULL_EXPIRY_MESSAGE))
      else if u.activationTokenExpiry.value < now then Ok(WithActivationLink(cfg, u, userId, now))
      else Ok(u)
  }

  /** The shuffle loop of generateSecureRandomPassword, over the password's character array. */
  method Shuffle(a: array<char>, swaps: seq<int>)
    requires a.Length == PASSWORD_LENGTH && ValidSwaps(swaps)
    modifies a
    ensures a[..] == ShuffledFrom(old(a[..]), swaps, a.Length - 1)
  {
    ghost var start := a[..];
    var i := a.Length - 1;
    while i > 0
      invariant 0 <= i < a.Length
      invariant ShuffledFrom(a[..], swaps, i) == ShuffledFrom(start, swaps, a.Length - 1)
      decreases i
    {
      var j := swaps[a.Length - 1 - i];
      ghost var before := a[..];
      var temp := a[i];
      a[i] := a[j];
      a[j] := temp;
      assert a[..] == Swap(before, i, j);
      i := i - 1;
    }
  }

  /** Saving a row twice leaves the second version. */
  lemma SavedTwice(users: Users, id: int, first: User, second: User)
    ensures users[id := first][id := second] == users[id := second]
  {
  }

  /** The users table, the roles table and the token settings of the service. */
  class AuthenticationService {
    const userRepository: UserStore
    /** The role names present in the roles table. */
    const roleRepository: set<RoleName>
    const jwtService: Settings

    constructor (userRepository: UserStore, roleRepository: set<RoleName>, jwtService: Settings)
      ensures this.userRepository == userRepository && this.roleRepository == roleRepository
      ensures this.jwtService == jwtService
    {
      this.userRepository := userRepository;
      this.roleRepository := roleRepository;
      this.jwtService := jwtService;
    }

    /** generateSecureRandomPassword: the four required characters and eight more, then shuffled in place. */
    method GenerateSecureRandomPassword(picks: seq<int>, swaps: seq<int>) returns (password: string)
      requires ValidPicks(picks) && ValidSwaps(swaps)
      ensures password == SecurePassword(picks, swaps)
    {
      ghost var appended := Appended(picks);
      assert appended[..4] == [Drawn(picks, 0), Drawn(picks, 1), Drawn(picks, 2), Drawn(picks, 3)];
      var builder := [UPPERCASE_LETTERS[picks[0]], LOWERCASE_LETTERS[picks[1]], DECIMAL_DIGITS[picks[2]], SPECIAL_CHARACTERS[picks[3]]];
      for i := 4 to PASSWORD_LENGTH
        invariant builder == appended[..i]
      {
        assert appended[..i + 1] == appended[..i] + [appended[i]];
        builder := builder + [ALL_CHARACTERS[picks[i]]];
      }
      assert builder == appended[..PASSWORD_LENGTH] == appended;
      var a := new char[PASSWORD_LENGTH];
      forall k | 0 <= k < a.Length {
        a[k] := builder[k];
      }
      assert a[..] == builder;
      Shuffle(a, swaps);
      password := a[..];
    }

    /** generateUniqueEmployeeCode: the do-while over fresh candidates, with its attempt counter. */
    method GenerateUniqueEmployeeCode(f: UserForm, year: int, uuids: seq<string>) returns (r: Result<string>)
      requires ValidUuids(uuids)
      ensures r == CodeSearch(userRepository.users, Candidates(f, year, uuids), 0)
    {
      var users := userRepository.users;
      ghost var cs := Candidates(f, year, uuids);
      var attempts := 0;
      while true
        invariant 0 <= attempts < MAX_EMPLOYEE_CODE_ATTEMPTS
        invariant CodeSearch(users, cs, attempts) == CodeSearch(users, cs, 0)
        decreases MAX_EMPLOYEE_CODE_ATTEMPTS - attempts
      {
        var employeeCode := GenerateEmployeeCode(f.jobTitle, f.department, year, uuids[attempts]);
        assert employeeCode == cs[attempts];
        if employeeCode.Err? {
          return Err(employeeCode.failure);
        }
        attempts := attempts + 1;
        if attempts >= MAX_EMPLOYEE_CODE_ATTEMPTS {
          return Err(BusinessError("Could not generate unique employee code"));
        }
        if !ExistsBy(users, EmployeeCodeColumn, Some(employeeCode.value)) {
          return Ok(employeeCode.value);
        }
      }
    }

    /**
     * createEmployee: the guard, a temporary password and a free employee
     * code; the account is saved, then given its activation link and saved
     * again. On any failure nothing is written.
     */
    method CreateEmployee(f: UserForm, picks: seq<int>, swaps: seq<int>, year: int, uuids: seq<string>, now: Instant)
      returns (r: Result<UserResponse>)
      requires userRepository.Valid() && ValidPicks(picks) && ValidSwaps(swaps) && ValidUuids(uuids)
      modifies userRepository
      ensures userRepository.Valid()
      ensures var c := EmployeeCreation(old(userRepository.users), roleRepository, jwtService, f, SecurePassword(picks, swaps),
                                        year, uuids, old(userRepository.nextId), now);
        (c.Err? ==> r == Err(c.failure) && userRepository.users == old(userRepository.users))
        && (c.Ok? ==> r == Ok(ToResponseDTO(Some(c.value)).value)
                      && userRepository.users == old(userRepository.users)[old(userRepository.nextId) := c.value])
    {
      var guard := ValidateEmployeeCreation(userRepository.users, f);
      if guard.Fail? {
        return Err(guard.failure);
      }
      var temporaryPassword := GenerateSecureRandomPassword(picks, swaps);
      var user := CreateUserFromRequest(f, temporaryPassword, year, uuids);
      if user.Err? {
        return Err(user.failure);
      }
      var linked := NewEmployee(userRepository.users, roleRepository, f, user.value);
      if linked.Err? {
        return Err(linked.failure);
      }
      ghost var users := userRepository.users;
      var id := SaveAndLink(linked.value, now);
      assert EmployeeCreation(users, roleRepository, jwtService, f, temporaryPassword, year, uuids, id, now)
          == Ok(userRepository.users[id]);
      return Ok(ToResponseDTO(Some(userRepository.users[id])).value);
    }

    /** The two saves of createEmployee: the new row, then the row with its activation link. */
    method SaveAndLink(u: User, now: Instant) returns (id: int)
      requires userRepository.Valid()
      modifies userRepository
      ensures userRepository.Valid() && id == old(userRepository.nextId)
      ensures userRepository.users == old(userRepository.users)[id := WithActivationLink(jwtService, u.(id := Some(id)), id, now)]
    {
      ghost var users := userRepository.users;
      id := userRepository.Insert(u);
      SetupAccountActivation(id, now);
      SavedTwice(users, id, u.(id := Some(id)), WithActivationLink(jwtService, u.(id := Some(id)), id, now));
    }

    /** createUserFromRequest. */
    method CreateUserFromRequest(f: UserForm, temp: string, year: int, uuids: seq<string>) returns (r: Result<User>)
      requires ValidUuids(uuids)
      ensures r == UserFromRequest(userRepository.users, f, temp, year, uuids)
    {
      var employeeCode := GenerateUniqueEmployeeCode(f, year, uuids);
      if employeeCode.Err? {
        return Err(employeeCode.failure);
      }
      return Ok(BuildEmployee(f, employeeCode.value, temp));
    }

    /** setupAccountActivation: the saved account gets a new seven-day link and is saved again. */
    method SetupAccountActivation(id: int, now: Instant)
      requires userRepository.Valid() && id in userRepository.users
      modifies userRepository
      ensures userRepository.Valid() && userRepository.nextId == old(userRepository.nextId)
      ensures userRepository.users == old(userRepository.users)[id := WithActivationLink(jwtService, old(userRepository.users)[id], id, now)]
    {
      var u := userRepository.users[id];
      userRepository.Update(WithActivationLink(jwtService, u, id, now));
    }

    /** resendActivationEmail(userId): a link whose expiry has passed is replaced and saved. */
    method ResendActivationEmail(userId: int, now: Instant) returns (r: Outcome)
      requires userRepository.Valid()
      modifies userRepository
      ensures userRepository.Valid()
      ensures ResendLink(old(userRepository.users), jwtService, userId, now).Err? ==>
        r == Fail(ResendLink(old(userRepository.users), jwtService, userId, now).failure)
        && userRepository.users == old(userRepository.users)
      ensures ResendLink(old(userRepository.users), jwtService, userId, now).Ok? ==>
        r == Pass
        && userRepository.users == old(userRepository.users)[userId := ResendLink(old(userRepository.users), jwtService, userId, now).value]
    {
      var guard := NotYetActivated(userRepository.users, userId, ALREADY_ACTIVATED_MESSAGE);
      if guard.Err? {
        return Fail(guard.failure);
      }
      var u := userRepository.users[userId];
      if u.activationTokenExpiry.None? {
        return Fail(Internal(NULL_EXPIRY_MESSAGE));
      }
      if u.activationTokenExpiry.value < now {
        SetupAccountActivation(userId, now);
      }
      return Pass;
    }

    /**
     * resetTemporaryPassword: a not yet activated account gets a new
     * temporary password and, always, a new link; the password is returned
     * to the administrator.
     */
    method ResetTemporaryPassword(userId: int, picks: seq<int>, swaps: seq<int>, now: Instant) returns (r: Result<string>)
      requires userRepository.Valid() && ValidPicks(picks) && ValidSwaps(swaps)
      modifies userRepository
      ensures userRepository.Valid()
      ensures r.Ok? <==> userId in old(userRepository.users) && !old(userRepository.users)[userId].enabled
      ensures r.Err? ==>
        r == Err(NotYetActivated(old(userRepository.users), userId, RESET_ALREADY_ACTIVATED_MESSAGE).failure)
        && userRepository.users == old(userRepository.users)
      ensures r.Ok? ==>
        var temp := SecurePassword(picks, swaps);
        var u := old(userRepository.users)[userId].(passwordHash := Some(Encode(temp)));
        r == Ok(temp) && userRepository.users == old(userRepository.users)[userId := WithActivationLink(jwtService, u, userId, now)]
    {
      var guard := NotYetActivated(userRepository.users, userId, RESET_ALREADY_ACTIVATED_MESSAGE);
      if guard.Err? {
        return Err(guard.failure);
      }
      var newTemporaryPassword := GenerateSecureRandomPassword(picks, swaps);
      userRepository.Update(userRepository.users[userId].(passwordHash := Some(Encode(newTemporaryPassword))));
      SetupAccountActivation(userId, now);
      return Ok(newTemporaryPassword);
    }
  }
}
