/**
 * The administrator's account operations: creating an account that waits
 * for approval, approving, rejecting, disabling, enabling and reactivating
 * it, repairing the status flags of every account, resetting and changing
 * a password, and the checks made on an uploaded photo. The e-mails these
 * operations send are not modelled.
 *
 * Each guard and each change of an account is a function on User values;
 * the methods of class UserService look the account up, apply the guard,
 * and write the changed account back to the store.
 */
module UserService {
  import opened Wrappers
  import opened Text
  import opened Time
  import opened Entities
  import opened UserRepository
  import opened JwtService
  import opened RegisterRequestDTO
  import opened UserMapper
  import ActivationRequestDTO
  import ActivationService

  /** The message of the NullPointerException thrown when a null Boolean is unboxed. */
  const NULL_ACTIVE_MESSAGE: string := "Cannot unbox null value: active"

  function UserNotFoundMessage(id: int): string
  {
    "User with ID " + IntToString(id) + " not found"
  }

  // ---------------------------------------------------------------------
  // Account transitions
  // ---------------------------------------------------------------------

  /** Two accounts that differ at most in their flags, password and activation token. */
  predicate SameProfile(a: User, b: User)
  {
    a.(enabled := b.enabled, active := b.active, registrationPending := b.registrationPending,
       accountNonLocked := b.accountNonLocked, firstLogin := b.firstLogin, passwordHash := b.passwordHash,
       activationToken := b.activationToken, activationTokenExpiry := b.activationTokenExpiry) == b
  }

  /** The guard of approveUser. */
  function ApproveCheck(u: User): (r: Outcome)
    ensures r.Pass? <==> !u.enabled
  {
    if u.enabled then Fail(BusinessError("User is already approved")) else Pass
  }

  /** What approveUser writes: registration complete, login allowed, activation token withdrawn. */
  function Approved(u: User): (r: User)
    ensures r.enabled && r.active == Some(true) && !r.registrationPending && r.accountNonLocked
    ensures r.activationToken.None? && r.activationTokenExpiry.None?
    ensures r.firstLogin == u.firstLogin && r.passwordHash == u.passwordHash && SameProfile(u, r)
  {
    u.(enabled := true, active := Some(true), registrationPending := false, accountNonLocked := true,
       activationToken := None, activationTokenExpiry := None)
  }

  /** The guard of rejectUser. */
  function RejectCheck(u: User): (r: Outcome)
    ensures r.Pass? <==> !u.enabled
  {
    if u.enabled then Fail(BusinessError("Cannot reject an approved user")) else Pass
  }

  /** The guard of disableUser; unboxing a null `active` throws. */
  function DisableCheck(u: User): (r: Outcome)
    ensures r.Pass? <==> u.active == Some(true)
    ensures u.active == Some(false) ==> r == Fail(BusinessError("User is already disabled"))
  {
    if u.active.None? then Fail(Internal(NULL_ACTIVE_MESSAGE))
    else if !u.active.value then Fail(BusinessError("User is already disabled"))
    else Pass
  }

  /** What disableUser writes: only `active` changes. */
  function Disabled(u: User): (r: User)
    ensures r.active == Some(false)
    ensures r.enabled == u.enabled && r.registrationPending == u.registrationPending
    ensures r.accountNonLocked == u.accountNonLocked && r.firstLogin == u.firstLogin && r.passwordHash == u.passwordHash
    ensures r.activationToken == u.activationToken && r.activationTokenExpiry == u.activationTokenExpiry
    ensures SameProfile(u, r)
  {
    u.(active := Some(false))
  }

  /** The guard of enableUser: only an approved account that is inactive can be enabled. */
  function EnableCheck(u: User): (r: Outcome)
    ensures r.Pass? <==> u.enabled && u.active == Some(false)
    ensures !u.enabled ==> r == Fail(BusinessError("User has not completed registration. Use approve instead."))
    ensures u.enabled && u.active == Some(true) ==> r == Fail(BusinessError("User is already active"))
  {
    if !u.enabled then Fail(BusinessError("User has not completed registration. Use approve instead."))
    else if u.active.None? then Fail(Internal(NULL_ACTIVE_MESSAGE))
    else if u.active.value then Fail(BusinessError("User is already active"))
    else Pass
  }

  /** What enableUser writes: only `active` changes. */
  function Enabled(u: User): (r: User)
    ensures r.active == Some(true)
    ensures r.enabled == u.enabled && r.registrationPending == u.registrationPending
    ensures r.accountNonLocked == u.accountNonLocked && r.firstLogin == u.firstLogin && r.passwordHash == u.passwordHash
    ensures r.activationToken == u.activationToken && r.activationTokenExpiry == u.activationTokenExpiry
    ensures SameProfile(u, r)
  {
    u.(active := Some(true))
  }

  /** What reactivateUser writes, with no guard at all. */
  function Reactivated(u: User): (r: User)
    ensures r.active == Some(true) && r.enabled
    ensures r.registrationPending == u.registrationPending && r.accountNonLocked == u.accountNonLocked
    ensures r.activationToken == u.activationToken && r.activationTokenExpiry == u.activationTokenExpiry
    ensures r.firstLogin == u.firstLogin && r.passwordHash == u.passwordHash && SameProfile(u, r)
  {
    u.(active := Some(true), enabled := true)
  }

  /** What resetUserPassword writes: the temporary password, to be changed at first login. */
  function WithTemporaryPassword(u: User, temp: string): (r: User)
    ensures Matches(temp, r.passwordHash) && r.firstLogin
    ensures r.enabled == u.enabled && r.active == u.active && r.registrationPending == u.registrationPending
    ensures r.accountNonLocked == u.accountNonLocked
    ensures r.activationToken == u.activationToken && r.activationTokenExpiry == u.activationTokenExpiry
    ensures SameProfile(u, r)
  {
    u.(passwordHash := Some(Encode(temp)), firstLogin := true)
  }

  /** What fixAllUserStatus writes into one account. */
  function Fixed(u: User): (r: User)
    ensures r.accountNonLocked && r.active == Some(r.enabled) && r.registrationPending == !r.enabled
    ensures r.enabled == u.enabled && r.firstLogin == u.firstLogin && r.passwordHash == u.passwordHash
    ensures r.activationToken == u.activationToken && r.activationTokenExpiry == u.activationTokenExpiry
    ensures SameProfile(u, r)
  {
    if u.enabled then u.(accountNonLocked := true, active := Some(true), registrationPending := false)
    else u.(accountNonLocked := true, active := Some(false), registrationPending := true)
  }

  /** Every account of the table, fixed. */
  function FixAll(users: Users): (r: Users)
    ensures r.Keys == users.Keys
  {
    map id | id in users :: Fixed(users[id])
  }

  /** Approval happens once: an approved account is ACTIVE, can be neither approved again nor rejected. */
  lemma ApprovalIsFinal(u: User)
    ensures IsActive(Approved(u)) && !IsPending(Approved(u)) && !IsLocked(Approved(u)) && !IsDisabled(Approved(u))
    ensures ApproveCheck(Approved(u)) == Fail(BusinessError("User is already approved"))
    ensures RejectCheck(Approved(u)) == Fail(BusinessError("Cannot reject an approved user"))
  {
  }

  /**
   * Approval voids a pending activation link: once the account is approved,
   * no token passes activation's token checks for it, in particular the one
   * its userId claim points at.
   */
  lemma ApprovalBlocksActivation(users: Users, cfg: Settings, id: int, token: Option<string>, now: Instant)
    requires id in users
    ensures var after := users[id := Approved(users[id])];
      (ActivationService.TokenCheck(after, cfg, token, now).Ok? ==> ActivationService.TokenCheck(after, cfg, token, now).value != id)
      && (token.Some? && HasText(token.value) && ActivationService.UserIdClaim(cfg, token.value, now) == Some(id)
          ==> ActivationService.TokenCheck(after, cfg, token, now).Err?)
  {
  }

  /**
   * disableUser and enableUser undo each other on an approved, active
   * account, and each refuses to run twice. The disabled account is in
   * neither the ACTIVE nor the DISABLED class of the status queries.
   */
  lemma DisableEnableRoundTrip(u: User)
    requires u.enabled && u.active == Some(true)
    ensures DisableCheck(u) == Pass && EnableCheck(Disabled(u)) == Pass
    ensures Enabled(Disabled(u)) == u
    ensures DisableCheck(Disabled(u)) == Fail(BusinessError("User is already disabled"))
    ensures EnableCheck(Enabled(Disabled(u))) == Fail(BusinessError("User is already active"))
    ensures !IsActive(Disabled(u)) && !IsDisabled(Disabled(u))
  {
  }

  /**
   * enableUser refuses an account that never completed registration, yet
   * reactivateUser marks that same account enabled and active, keeping its
   * pending registration and activation token.
   */
  lemma ReactivateBypassesEnableGuard(u: User)
    requires !u.enabled
    ensures EnableCheck(u) == Fail(BusinessError("User has not completed registration. Use approve instead."))
    ensures Reactivated(u).enabled && Reactivated(u).active == Some(true)
    ensures Reactivated(u).registrationPending == u.registrationPending
    ensures Reactivated(u).activationToken == u.activationToken
    ensures IsActive(Reactivated(u)) <==> u.accountNonLocked
  {
  }

  /**
   * After fixAllUserStatus every account is unlocked, active exactly when
   * enabled and pending exactly when not enabled; no account is LOCKED, each
   * is either ACTIVE or DISABLED, and running it again changes nothing.
   */
  lemma FixAllRepairsEveryAccount(users: Users)
    ensures forall id :: id in FixAll(users) ==>
      FixAll(users)[id].accountNonLocked
      && FixAll(users)[id].active == Some(FixAll(users)[id].enabled)
      && FixAll(users)[id].registrationPending == !FixAll(users)[id].enabled
      && FixAll(users)[id].enabled == users[id].enabled
    ensures FindByStatus(FixAll(users), Some("LOCKED")) == {}
    ensures FindByStatus(FixAll(users), Some("ACTIVE")) + FindByStatus(FixAll(users), Some("DISABLED")) == users.Keys
    ensures FindByStatus(FixAll(users), Some("ACTIVE")) * FindByStatus(FixAll(users), Some("DISABLED")) == {}
    ensures FixAll(FixAll(users)) == FixAll(users)
  {
    var fixedUsers := FixAll(users);
    forall id | id in fixedUsers
      ensures fixedUsers[id] == Fixed(users[id])
      ensures Fixed(fixedUsers[id]) == fixedUsers[id]
    {
    }
    assert FindByStatus(fixedUsers, Some("LOCKED")) == {} by {
      forall id | id in fixedUsers ensures !IsLocked(fixedUsers[id]) { }
    }
    forall id | id in users
      ensures id in FindByStatus(fixedUsers, Some("ACTIVE")) + FindByStatus(fixedUsers, Some("DISABLED"))
    {
      assert HasStatus(fixedUsers[id], Some("ACTIVE")) || HasStatus(fixedUsers[id], Some("DISABLED"));
    }
  }

  // ---------------------------------------------------------------------
  // Password change
  // ---------------------------------------------------------------------

  /** ChangePasswordDTO. */
  datatype ChangePasswordRequest = ChangePasswordRequest(
    currentPassword: Option<string>, newPassword: Option<string>, confirmPassword: Option<string>)

  /**
   * The checks of changePassword, in order, on the account with that email:
   * the id of the account to update, or the failure.
   */
  function ChangePasswordCheck(users: Users, email: string, dto: ChangePasswordRequest): (r: Result<int>)
    ensures dto.newPassword.Some? && dto.confirmPassword != dto.newPassword ==> r == Err(BusinessError("Passwords do not match"))
    ensures r.Ok? ==> r.value in users && users[r.value].email == Some(email)
  {
    if dto.newPassword.None? then Err(Internal("Cannot invoke String.equals on a null newPassword"))
    else if Some(dto.newPassword.value) != dto.confirmPassword then Err(BusinessError("Passwords do not match"))
    else match FindBy(users, EmailColumn, Some(email))
      case Absent => Err(NotFound("User not found"))
      case Ambiguous => Err(Internal(NON_UNIQUE_MESSAGE))
      case Unique(id) =>
        var stored := users[id].passwordHash;
        if dto.currentPassword.None? then Err(IllegalArgument(NULL_RAW_PASSWORD_MESSAGE))
        else if !Matches(dto.currentPassword.value, stored) then Err(BusinessError("Current password is incorrect"))
        else if Matches(dto.newPassword.value, stored) then Err(BusinessError("New password must be different from current password"))
        else Ok(id)
  }

  /** What changePassword writes: the new password, and the first login done. */
  function WithNewPassword(u: User, newPassword: string): (r: User)
    ensures Matches(newPassword, r.passwordHash) && !r.firstLogin
    ensures r.enabled == u.enabled && r.active == u.active && r.accountNonLocked == u.accountNonLocked
    ensures r.activationToken == u.activationToken && SameProfile(u, r)
  {
    u.(passwordHash := Some(Encode(newPassword)), firstLogin := false)
  }

  /**
   * A change is accepted exactly when the new password is confirmed, the
   * email names one account, the current password matches it and the new
   * one differs; afterwards the new password matches and the old one no
   * longer does.
   */
  lemma ChangePasswordMeaning(users: Users, email: string, dto: ChangePasswordRequest)
    ensures ChangePasswordCheck(users, email, dto).Ok? <==>
      dto.newPassword.Some? && dto.confirmPassword == dto.newPassword
      && FindBy(users, EmailColumn, Some(email)).Unique?
      && dto.currentPassword.Some?
      && Matches(dto.currentPassword.value, users[FindBy(users, EmailColumn, Some(email)).id].passwordHash)
      && dto.newPassword != dto.currentPassword
    ensures ChangePasswordCheck(users, email, dto).Ok? ==>
      var u := WithNewPassword(users[ChangePasswordCheck(users, email, dto).value], dto.newPassword.value);
      Matches(dto.newPassword.value, u.passwordHash) && !Matches(dto.currentPassword.value, u.passwordHash)
  {
  }

  // ---------------------------------------------------------------------
  // Account creation
  // ---------------------------------------------------------------------

  /** The alphabet of generateTemporaryPassword. */
  const TEMP_PASSWORD_CHARS: string := UPPERCASE_LETTERS + LOWERCASE_LETTERS + DECIMAL_DIGITS + "!@#$%"

  const TEMP_PASSWORD_LENGTH: int := 12

  /** The lifetime of the activation token createUser issues: seven days. */
  const ACTIVATION_TOKEN_VALIDITY_MS: int := 7 * 24 * 60 * 60 * 1000

  /** Draws a random generator may give for a temporary password. */
  predicate ValidDraws(draws: seq<int>)
  {
    |draws| == TEMP_PASSWORD_LENGTH && forall i :: 0 <= i < |draws| ==> 0 <= draws[i] < |TEMP_PASSWORD_CHARS|
  }

  /** generateTemporaryPassword: one alphabet character per draw. */
  function TemporaryPassword(draws: seq<int>): (p: string)
    requires ValidDraws(draws)
    ensures |p| == TEMP_PASSWORD_LENGTH
    ensures forall i :: 0 <= i < |p| ==> p[i] in TEMP_PASSWORD_CHARS
  {
    seq(|draws|, i requires 0 <= i < |draws| => TEMP_PASSWORD_CHARS[draws[i]])
  }

  /**
   * Nothing makes a temporary password meet the password policy of the
   * activation form: twelve draws of the first letter give "AAAAAAAAAAAA".
   */
  lemma TemporaryPasswordNeedNotMeetPolicy()
    ensures ValidDraws(seq(12, _ => 0))
    ensures TemporaryPassword(seq(12, _ => 0)) == "AAAAAAAAAAAA"
    ensures !ActivationRequestDTO.PasswordPattern(TemporaryPassword(seq(12, _ => 0)))
  {
    var draws: seq<int> := seq(12, _ => 0);
    var p := TemporaryPassword(draws);
    assert p == seq(|draws|, i requires 0 <= i < |draws| => TEMP_PASSWORD_CHARS[draws[i]]);
    assert forall i :: 0 <= i < |p| ==> p[i] == TEMP_PASSWORD_CHARS[0];
    assert !ActivationRequestDTO.HasCharWhere(p, IsDigit);
  }

  /** validateUserCreation; a null email or national id matches the accounts where that column is null. */
  function ValidateUserCreation(users: Users, f: UserForm): (r: Outcome)
    ensures r.Pass? <==> !ExistsBy(users, EmailColumn, f.email) && !ExistsBy(users, NationalIdColumn, f.nationalId)
    ensures ExistsBy(users, EmailColumn, f.email) ==> r == Fail(BusinessError("Email already exists"))
  {
    if ExistsBy(users, EmailColumn, f.email) then Fail(BusinessError("Email already exists"))
    else if ExistsBy(users, NationalIdColumn, f.nationalId) then Fail(BusinessError("National ID already exists"))
    else Pass
  }

  /**
   * A form without a national id is refused as soon as one stored account
   * has none either, although its email is new.
   */
  lemma MissingNationalIdCollides(users: Users, f: UserForm, id: int)
    requires id in users && users[id].nationalId.None? && f.nationalId.None?
    requires !ExistsBy(users, EmailColumn, f.email)
    ensures ValidateUserCreation(users, f) == Fail(BusinessError("National ID already exists"))
  {
    assert ColumnValue(users[id], NationalIdColumn) == f.nationalId;
  }

  /** buildUserEntity: the form's fields, signed in by email, waiting for approval. */
  function BuildUserEntity(f: UserForm, temp: string): (u: User)
    ensures u.username == f.email && u.email == f.email && u.nationalId == f.nationalId
    ensures Matches(temp, u.passwordHash)
    ensures !u.enabled && u.active == Some(false) && u.registrationPending && u.firstLogin
    ensures u.accountNonLocked && u.accountNonExpired && u.credentialsNonExpired
    ensures u.id.None? && u.activationToken.None? && u.activationTokenExpiry.None?
  {
    ToEntity(f).(username := f.email, passwordHash := Some(Encode(temp)), enabled := false, active := Some(false),
                 firstLogin := true, accountNonExpired := true, accountNonLocked := true,
                 credentialsNonExpired := true, registrationPending := true)
  }

  /** The message of RoleName.valueOf for a name that is no constant. */
  function NoRoleConstantMessage(name: string): string
  {
    "No enum constant com.example.pfe.enums.RoleName." + name
  }

  /** One requested role name: upper-cased, turned into a constant, and looked up in the roles table. */
  function ResolveRoleName(name: string, table: set<RoleName>): (r: Result<RoleName>)
    ensures r.Ok? <==> RoleNameValueOf(ToUpper(name)).Some? && RoleNameValueOf(ToUpper(name)).value in table
    ensures r.Ok? ==> RoleNameText(r.value) == ToUpper(name) && r.value in table
  {
    var upper := ToUpper(name);
    match RoleNameValueOf(upper)
    case None => Err(IllegalArgument(NoRoleConstantMessage(upper)))
    case Some(role) => if role in table then Ok(role) else Err(NotFound("Role not found: " + name))
  }

  /** Each requested name resolved on its own, in request order. */
  function Resolutions(names: seq<string>, table: set<RoleName>): (r: seq<Result<RoleName>>)
    ensures |r| == |names| && forall i :: 0 <= i < |names| ==> r[i] == ResolveRoleName(names[i], table)
  {
    seq(|names|, i requires 0 <= i < |names| => ResolveRoleName(names[i], table))
  }

  /** Gathers resolved roles in order; the first failure, if any, ends the gathering. */
  function Collect(rs: seq<Result<RoleName>>): Result<seq<RoleName>>
    decreases |rs|
  {
    if rs == [] then Ok([])
    else
      var init := Collect(rs[..|rs| - 1]);
      if init.Err? then init
      else if rs[|rs| - 1].Err? then Err(rs[|rs| - 1].failure)
      else Ok(init.value + [rs[|rs| - 1].value])
  }

  /** Collect succeeds exactly when every item does, and then keeps every role in place. */
  lemma {:induction false} CollectMeaning(rs: seq<Result<RoleName>>)
    ensures Collect(rs).Ok? <==> forall i :: 0 <= i < |rs| ==> rs[i].Ok?
    ensures Collect(rs).Ok? ==> |Collect(rs).value| == |rs| && forall i :: 0 <= i < |rs| ==> rs[i] == Ok(Collect(rs).value[i])
    decreases |rs|
  {
    if rs != [] {
      var init := rs[..|rs| - 1];
      CollectMeaning(init);
      assert forall i :: 0 <= i < |init| ==> init[i] == rs[i];
    }
  }

  /** Once a prefix fails, the whole sequence fails the same way: the first failure decides. */
  lemma {:induction false} FirstFailureDecides(rs: seq<Result<RoleName>>, k: int)
    requires 0 <= k <= |rs|
    requires Collect(rs[..k]).Err?
    ensures Collect(rs) == Collect(rs[..k])
    decreases |rs|
  {
    if k < |rs| {
      var init := rs[..|rs| - 1];
      assert init[..k] == rs[..k];
      FirstFailureDecides(init, k);
    } else {
      assert rs[..k] == rs;
    }
  }

  /** The loop of assignRoles over a non-empty list: every name resolved in order, or the first failure. */
  function ResolveRoleNames(names: seq<string>, table: set<RoleName>): Result<seq<RoleName>>
  {
    Collect(Resolutions(names, table))
  }

  /** The names resolve exactly when each one does, and then to their roles in the same order. */
  lemma ResolveRoleNamesMeaning(names: seq<string>, table: set<RoleName>)
    ensures ResolveRoleNames(names, table).Ok? <==> forall i :: 0 <= i < |names| ==> ResolveRoleName(names[i], table).Ok?
    ensures ResolveRoleNames(names, table).Ok? ==>
      |ResolveRoleNames(names, table).value| == |names|
      && forall i :: 0 <= i < |names| ==> ResolveRoleName(names[i], table) == Ok(ResolveRoleNames(names, table).value[i])
  {
    CollectMeaning(Resolutions(names, table));
  }

  /**
   * assignRoles: the requested roles in order, or EMPLOYEE alone when none
   * is requested; the whole role list is replaced.
   */
  function ResolveRoles(names: Option<seq<string>>, table: set<RoleName>): (r: Result<seq<RoleName>>)
    ensures (names.None? || names.value == []) ==>
      r == (if EMPLOYEE in table then Ok([EMPLOYEE]) else Err(NotFound("EMPLOYEE role not found")))
    ensures names.Some? && names.value != [] ==> r == ResolveRoleNames(names.value, table)
  {
    if names.None? || names.value == [] then
      if EMPLOYEE in table then Ok([EMPLOYEE]) else Err(NotFound("EMPLOYEE role not found"))
    else ResolveRoleNames(names.value, table)
  }

  /** setUserRelations: each manager id given must name an account. */
  function SetUserRelations(users: Users, f: UserForm, u: User): (r: Result<User>)
    ensures r.Ok? <==> (f.directManagerId.None? || f.directManagerId.value in users)
                       && (f.assignedProjectManagerId.None? || f.assignedProjectManagerId.value in users)
    ensures r.Ok? ==> r.value == u.(directManager := Overwrite(f.directManagerId, u.directManager),
                                    assignedProjectManager := Overwrite(f.assignedProjectManagerId, u.assignedProjectManager))
  {
    if f.directManagerId.Some? && f.directManagerId.value !in users then Err(NotFound("Direct manager not found"))
    else if f.assignedProjectManagerId.Some? && f.assignedProjectManagerId.value !in users then Err(NotFound("Project manager not found"))
    else Ok(u.(directManager := Overwrite(f.directManagerId, u.directManager),
               assignedProjectManager := Overwrite(f.assignedProjectManagerId, u.assignedProjectManager)))
  }

  /**
   * The account createUser saves, before the store gives it an id: the
   * built entity with its roles, managers and activation token, issued
   * for the email as subject and with the claims of the still unsaved
   * entity.
   */
  function NewAccount(users: Users, table: set<RoleName>, cfg: Settings, f: UserForm, temp: string, now: Instant): Result<User>
  {
    match ValidateUserCreation(users, f)
    case Fail(e) => Err(e)
    case Pass =>
      match ResolveRoles(f.roleNames, table)
      case Err(e) => Err(e)
      case Ok(roles) =>
        match SetUserRelations(users, f, BuildUserEntity(f, temp).(roles := Some(roles)))
        case Err(e) => Err(e)
        case Ok(u) =>
          var token := GenerateTokenWithExpiration(cfg, ActivationCustomClaims(u), u.email, now, ACTIVATION_TOKEN_VALIDITY_MS);
          Ok(u.(activationToken := Some(token), activationTokenExpiry := Some(now + 7 * MILLIS_PER_DAY)))
  }

  /**
   * A created account waits for approval and activation, signs in by email
   * with the temporary password, holds the resolved roles, and carries an
   * activation token for seven days whose claims name its email but no id.
   */
  lemma NewAccountState(users: Users, table: set<RoleName>, cfg: Settings, f: UserForm, temp: string, now: Instant)
    requires Sound(cfg.codec)
    requires NewAccount(users, table, cfg, f, temp, now).Ok?
    ensures var u := NewAccount(users, table, cfg, f, temp, now).value;
      !ExistsBy(users, EmailColumn, f.email)
      && !u.enabled && u.active == Some(false) && u.registrationPending && u.firstLogin && u.accountNonLocked
      && u.username == f.email && u.email == f.email && Matches(temp, u.passwordHash)
      && u.id.None?
      && ResolveRoles(f.roleNames, table).Ok? && u.roles == Some(ResolveRoles(f.roleNames, table).value)
      && u.activationTokenExpiry == Some(now + 7 * MILLIS_PER_DAY)
      && u.activationToken.Some?
      && cfg.codec.verify(u.activationToken.value).Some?
      && cfg.codec.verify(u.activationToken.value).value.subject == f.email
      && "userId" !in cfg.codec.verify(u.activationToken.value).value.custom
      && cfg.codec.verify(u.activationToken.value).value.custom["type"] == Text("ACCOUNT_ACTIVATION")
  {
    var roles := ResolveRoles(f.roleNames, table).value;
    var u := SetUserRelations(users, f, BuildUserEntity(f, temp).(roles := Some(roles))).value;
    TokenWithExpirationLayout(cfg, ActivationCustomClaims(u), u.email, now, ACTIVATION_TOKEN_VALIDITY_MS, now);
  }

  // ---------------------------------------------------------------------
  // Photo upload checks
  // ---------------------------------------------------------------------

  const MAX_PHOTO_SIZE: int := 5 * 1024 * 1024

  /** The checks uploadUserPhoto makes before touching the file system. */
  function ValidatePhoto(users: Users, userId: int, contentType: Option<string>, size: int): (r: Outcome)
    ensures r.Pass? <==> userId in users
                         && contentType in {Some("image/jpeg"), Some("image/png"), Some("image/webp")}
                         && size <= MAX_PHOTO_SIZE
  {
    if userId !in users then Fail(NotFound(UserNotFoundMessage(userId)))
    else if contentType.None? || (contentType.value != "image/jpeg" && contentType.value != "image/png"
                                  && contentType.value != "image/webp") then
      Fail(BusinessError("Only JPG, PNG or WebP images are allowed"))
    else if size > MAX_PHOTO_SIZE then Fail(BusinessError("Image must be smaller than 5MB"))
    else Pass
  }

  /** getFileExtension: the lower-cased text after the last dot, or "jpg" without a dot. */
  function GetFileExtension(filename: Option<string>): (r: string)
    ensures filename.None? || '.' !in filename.value ==> r == "jpg"
    ensures filename.Some? && '.' in filename.value ==> |r| < |filename.value| && '.' !in r
  {
    if filename.None? || '.' !in filename.value then "jpg"
    else
      var s := filename.value;
      var dot := LastIndexOf(s, '.');
      assert dot >= 0 by {
        var k :| 0 <= k < |s| && s[k] == '.';
      }
      ToLower(s[dot + 1..])
  }

  /** A name ending in "." and a dot-free extension yields that extension, lower-cased. */
  lemma FileExtensionOfName(base: string, ext: string)
    requires '.' !in ext
    ensures GetFileExtension(Some(base + "." + ext)) == ToLower(ext)
  {
    var s := base + "." + ext;
    assert s[|base|] == '.';
    var dot := LastIndexOf(s, '.');
    assert dot == |base|;
    assert s[dot + 1..] == ext;
  }

  // ---------------------------------------------------------------------
  // The service
  // ---------------------------------------------------------------------

  class UserService {
    const userRepository: UserStore
    /** The role names present in the roles table. */
    const roleRepository: set<RoleName>
    const jwtService: Settings

    constructor (userRepository: UserStore, roleRepository: set<RoleName>, jwtService: Settings)
      ensures this.userRepository == userRepository && this.roleRepository == roleRepository
      ensures this.jwtService == jwtService
    {
      this.userRepository := userRepository;
      this.roleRepository := roleRepository;
      this.jwtService := jwtService;
    }

    /** approveUser. */
    method ApproveUser(id: int) returns (r: Outcome)
      requires userRepository.Valid()
      modifies userRepository
      ensures userRepository.Valid()
      ensures id !in old(userRepository.users) ==>
        r == Fail(NotFound(UserNotFoundMessage(id))) && userRepository.users == old(userRepository.users)
      ensures id in old(userRepository.users) ==> r == ApproveCheck(old(userRepository.users)[id])
      ensures r.Pass? ==> userRepository.users == old(userRepository.users)[id := Approved(old(userRepository.users)[id])]
      ensures r.Fail? ==> userRepository.users == old(userRepository.users)
    {
      if id !in userRepository.users {
        return Fail(NotFound(UserNotFoundMessage(id)));
      }
      var user := userRepository.users[id];
      r := ApproveCheck(user);
      if r.Fail? {
        return;
      }
      userRepository.Update(Approved(user));
    }

    /** rejectUser: an account not yet approved is deleted outright. */
    method RejectUser(id: int) returns (r: Outcome)
      requires userRepository.Valid()
      modifies userRepository
      ensures userRepository.Valid()
      ensures id !in old(userRepository.users) ==> r == Fail(NotFound(UserNotFoundMessage(id)))
      ensures id in old(userRepository.users) ==> r == RejectCheck(old(userRepository.users)[id])
      ensures r.Pass? ==> userRepository.users == old(userRepository.users) - {id} && id !in userRepository.users
      ensures r.Fail? ==> userRepository.users == old(userRepository.users)
    {
      if id !in userRepository.users {
        return Fail(NotFound(UserNotFoundMessage(id)));
      }
      r := RejectCheck(userRepository.users[id]);
      if r.Fail? {
        return;
      }
      userRepository.Delete(id);
    }

    /** disableUser. */
    method DisableUser(id: int) returns (r: Outcome)
      requires userRepository.Valid()
      modifies userRepository
      ensures userRepository.Valid()
      ensures id !in old(userRepository.users) ==> r == Fail(NotFound(UserNotFoundMessage(id)))
      ensures id in old(userRepository.users) ==> r == DisableCheck(old(userRepository.users)[id])
      ensures r.Pass? ==> userRepository.users == old(userRepository.users)[id := Disabled(old(userRepository.users)[id])]
      ensures r.Fail? ==> userRepository.users == old(userRepository.users)
    {
      if id !in userRepository.users {
        return Fail(NotFound(UserNotFoundMessage(id)));
      }
      var user := userRepository.users[id];
      r := DisableCheck(user);
      if r.Fail? {
        return;
      }
      userRepository.Update(Disabled(user));
    }

    /** enableUser. */
    method EnableUser(id: int) returns (r: Outcome)
      requires userRepository.Valid()
      modifies userRepository
      ensures userRepository.Valid()
      ensures id !in old(userRepository.users) ==> r == Fail(NotFound(UserNotFoundMessage(id)))
      ensures id in old(userRepository.users) ==> r == EnableCheck(old(userRepository.users)[id])
      ensures r.Pass? ==> userRepository.users == old(userRepository.users)[id := Enabled(old(userRepository.users)[id])]
      ensures r.Fail? ==> userRepository.users == old(userRepository.users)
    {
      if id !in userRepository.users {
        return Fail(NotFound(UserNotFoundMessage(id)));
      }
      var user := userRepository.users[id];
      r := EnableCheck(user);
      if r.Fail? {
        return;
      }
      userRepository.Update(Enabled(user));
    }

    /** reactivateUser. */
    method ReactivateUser(id: int) returns (r: Outcome)
      requires userRepository.Valid()
      modifies userRepository
      ensures userRepository.Valid()
      ensures r.Pass? <==> id in old(userRepository.users)
      ensures r.Fail? ==> r == Fail(NotFound(UserNotFoundMessage(id))) && userRepository.users == old(userRepository.users)
      ensures r.Pass? ==> userRepository.users == old(userRepository.users)[id := Reactivated(old(userRepository.users)[id])]
    {
      if id !in userRepository.users {
        return Fail(NotFound(UserNotFoundMessage(id)));
      }
      userRepository.Update(Reactivated(userRepository.users[id]));
      return Pass;
    }

    /** resetUserPassword, with the random draws of the temporary password given. */
    method ResetUserPassword(id: int, draws: seq<int>) returns (r: Outcome)
      requires userRepository.Valid() && ValidDraws(draws)
      modifies userRepository
      ensures userRepository.Valid()
      ensures r.Pass? <==> id in old(userRepository.users)
      ensures r.Fail? ==> r == Fail(NotFound(UserNotFoundMessage(id))) && userRepository.users == old(userRepository.users)
      ensures r.Pass? ==>
        userRepository.users == old(userRepository.users)[id := WithTemporaryPassword(old(userRepository.users)[id], TemporaryPassword(draws))]
    {
      if id !in userRepository.users {
        return Fail(NotFound(UserNotFoundMessage(id)));
      }
      var temp := TemporaryPassword(draws);
      userRepository.Update(WithTemporaryPassword(userRepository.users[id], temp));
      return Pass;
    }

    /** fixAllUserStatus: every account loaded, fixed one at a time, and all saved together. */
    method FixAllUserStatus()
      requires userRepository.Valid()
      modifies userRepository
      ensures userRepository.Valid()
      ensures userRepository.users == FixAll(old(userRepository.users))
    {
      var loaded := userRepository.users;
      var users := loaded;
      var pending := loaded.Keys;
      while pending != {}
        invariant userRepository.Valid() && userRepository.users == loaded
        invariant pending <= loaded.Keys && users.Keys == loaded.Keys
        invariant forall id :: id in loaded ==> users[id] == if id in pending then loaded[id] else Fixed(loaded[id])
        decreases pending
      {
        NonEmptyHasMember(pending);
        var id :| id in pending;
        users := users[id := Fixed(users[id])];
        pending := pending - {id};
      }
      assert forall id :: id in loaded ==> users[id] == Fixed(loaded[id]) && users[id].id == loaded[id].id;
      assert users == FixAll(loaded);
      assert loaded + users == users;
      userRepository.SaveAll(users);
    }

    /** changePassword for the signed-in account with that email. */
    method ChangePassword(email: string, dto: ChangePasswordRequest) returns (r: Outcome)
      requires userRepository.Valid()
      modifies userRepository
      ensures userRepository.Valid()
      ensures ChangePasswordCheck(old(userRepository.users), email, dto).Err? ==>
        r == Fail(ChangePasswordCheck(old(userRepository.users), email, dto).failure)
        && userRepository.users == old(userRepository.users)
      ensures ChangePasswordCheck(old(userRepository.users), email, dto).Ok? ==>
        var id := ChangePasswordCheck(old(userRepository.users), email, dto).value;
        r == Pass && userRepository.users == old(userRepository.users)[id := WithNewPassword(old(userRepository.users)[id], dto.newPassword.value)]
    {
      var check := ChangePasswordCheck(userRepository.users, email, dto);
      if check.Err? {
        return Fail(check.failure);
      }
      var user := userRepository.users[check.value];
      userRepository.Update(WithNewPassword(user, dto.newPassword.value));
      return Pass;
    }

    /** The role-assignment loop of assignRoles: the user with its role list replaced. */
    method AssignRoles(user: User, names: Option<seq<string>>) returns (r: Result<User>)
      ensures ResolveRoles(names, roleRepository).Ok? ==> r == Ok(user.(roles := Some(ResolveRoles(names, roleRepository).value)))
      ensures ResolveRoles(names, roleRepository).Err? ==> r == Err(ResolveRoles(names, roleRepository).failure)
    {
      var roles: seq<RoleName> := [];
      if names.Some? && names.value != [] {
        var list := names.value;
        ghost var rs := Resolutions(list, roleRepository);
        for i := 0 to |list|
          invariant Collect(rs[..i]) == Ok(roles)
        {
          assert rs[..i + 1][..i] == rs[..i];
          var role := ResolveRoleName(list[i], roleRepository);
          if role.Err? {
            FirstFailureDecides(rs, i + 1);
            return Err(role.failure);
          }
          roles := roles + [role.value];
        }
        assert rs[..|list|] == rs;
      } else {
        if EMPLOYEE !in roleRepository {
          return Err(NotFound("EMPLOYEE role not found"));
        }
        roles := [EMPLOYEE];
      }
      return Ok(user.(roles := Some(roles)));
    }

    /**
     * createUser, with the random draws of the temporary password and the
     * current time given: nothing is written unless every step succeeds,
     * and then exactly the new account is added under a fresh id.
     */
    method CreateUser(form: UserForm, draws: seq<int>, now: Instant) returns (r: Result<UserResponse>)
      requires userRepository.Valid() && ValidDraws(draws)
      modifies userRepository
      ensures userRepository.Valid()
      ensures var created := NewAccount(old(userRepository.users), roleRepository, jwtService, form, TemporaryPassword(draws), now);
        (created.Err? ==> r == Err(created.failure) && userRepository.users == old(userRepository.users))
        && (created.Ok? ==>
              var id := old(userRepository.nextId);
              id !in old(userRepository.users)
              && userRepository.users == old(userRepository.users)[id := created.value.(id := Some(id))]
              && r == Ok(ToResponseDTO(Some(userRepository.users[id])).value))
    {
      var check := ValidateUserCreation(userRepository.users, form);
      if check.Fail? {
        return Err(check.failure);
      }
      var temp := TemporaryPassword(draws);
      var user := BuildUserEntity(form, temp);
      var withRoles := AssignRoles(user, form.roleNames);
      if withRoles.Err? {
        return Err(withRoles.failure);
      }
      var related := SetUserRelations(userRepository.users, form, withRoles.value);
      if related.Err? {
        return Err(related.failure);
      }
      user := related.value;
      var token := GenerateTokenWithExpiration(jwtService, ActivationCustomClaims(user), user.email, now, ACTIVATION_TOKEN_VALIDITY_MS);
      user := user.(activationToken := Some(token), activationTokenExpiry := Some(now + 7 * MILLIS_PER_DAY));
      var id := userRepository.Insert(user);
      r := Ok(ToResponseDTO(Some(userRepository.users[id])).value);
    }
  }
}
