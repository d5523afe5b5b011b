/**
 * Conversions between the request forms, the user entity and the user
 * view. The partial updates return the updated entity, which the caller
 * saves.
 */
module UserMapper {
  import opened Wrappers
  import opened Time
  import opened Entities
  import opened RegisterRequestDTO

  /** `if (v != null) field = v`: a present value replaces the field, an absent one leaves it. */
  function Overwrite<T>(v: Option<T>, current: Option<T>): (r: Option<T>)
    ensures v.Some? ==> r == v
    ensures v.None? ==> r == current
  {
    if v.Some? then v else current
  }

  /** The form's columns the entity holds as given (active and childrenCount aside, which have defaults). */
  predicate HoldsFormColumns(f: UserForm, u: User)
  {
    u.firstName == f.firstName && u.lastName == f.lastName && u.birthDate == f.birthDate && u.gender == f.gender
    && u.nationalId == f.nationalId && u.nationality == f.nationality && u.maritalStatus == f.maritalStatus
    && u.email == f.email && u.phone == f.phone && u.address == f.address && u.jobTitle == f.jobTitle
    && u.department == f.department && u.service == f.service && u.hireDate == f.hireDate
    && u.contractType == f.contractType && u.contractEndDate == f.contractEndDate
    && u.baseSalary == f.baseSalary && u.housingAllowance == f.housingAllowance
    && u.evaluationScore == f.evaluationScore && u.socialSecurityNumber == f.socialSecurityNumber
    && u.description == f.description
  }

  /**
   * toEntity: a new, unsaved user holding the form's fields; active is true
   * and childrenCount 0 when the form leaves them null. Everything else keeps
   * the builder's defaults: no id, code, username or password, an empty role
   * list, no managers, every account flag false.
   */
  function ToEntity(f: UserForm): (u: User)
    ensures HoldsFormColumns(f, u)
    ensures u.active == Some(if f.active.Some? then f.active.value else true)
    ensures u.childrenCount == Some(if f.childrenCount.Some? then f.childrenCount.value else 0)
    ensures u.evaluationDate.None? && u.lastLogin.None?
    ensures u.id.None? && u.employeeCode.None? && u.username.None? && u.passwordHash.None?
    ensures u.roles == Some([]) && u.directManager.None? && u.assignedProjectManager.None?
    ensures !u.enabled && !u.registrationPending && !u.accountNonLocked && !u.firstLogin
    ensures !u.accountNonExpired && !u.credentialsNonExpired
    ensures u.activationToken.None? && u.activationTokenExpiry.None?
  {
    BlankUser().(
      firstName := f.firstName, lastName := f.lastName, birthDate := f.birthDate, gender := f.gender,
      nationalId := f.nationalId, nationality := f.nationality, maritalStatus := f.maritalStatus,
      email := f.email, phone := f.phone, address := f.address, jobTitle := f.jobTitle,
      department := f.department, service := f.service, hireDate := f.hireDate,
      contractType := f.contractType, contractEndDate := f.contractEndDate,
      baseSalary := f.baseSalary, housingAllowance := f.housingAllowance,
      evaluationScore := f.evaluationScore,
      active := Some(if f.active.Some? then f.active.value else true),
      socialSecurityNumber := f.socialSecurityNumber,
      childrenCount := Some(if f.childrenCount.Some? then f.childrenCount.value else 0),
      description := f.description)
  }

  /** A nullable form value and the column after the update: the value when present, the old column otherwise. */
  predicate Replaced<T(==)>(v: Option<T>, was: Option<T>, now: Option<T>)
  {
    (v.Some? ==> now == v) && (v.None? ==> now == was)
  }

  /**
   * The profile columns of a partial update (every form column except the
   * email, the description, the roles and the managers), each replaced by
   * a non-null form value or kept.
   */
  predicate ProfileUpdated(f: UserForm, u: User, r: User)
  {
    Replaced(f.firstName, u.firstName, r.firstName) && Replaced(f.lastName, u.lastName, r.lastName)
    && Replaced(f.birthDate, u.birthDate, r.birthDate) && Replaced(f.gender, u.gender, r.gender)
    && Replaced(f.nationalId, u.nationalId, r.nationalId) && Replaced(f.nationality, u.nationality, r.nationality)
    && Replaced(f.maritalStatus, u.maritalStatus, r.maritalStatus) && Replaced(f.phone, u.phone, r.phone)
    && Replaced(f.address, u.address, r.address) && Replaced(f.jobTitle, u.jobTitle, r.jobTitle)
    && Replaced(f.department, u.department, r.department) && Replaced(f.service, u.service, r.service)
    && Replaced(f.hireDate, u.hireDate, r.hireDate) && Replaced(f.contractType, u.contractType, r.contractType)
    && Replaced(f.contractEndDate, u.contractEndDate, r.contractEndDate)
    && Replaced(f.baseSalary, u.baseSalary, r.baseSalary)
    && Replaced(f.housingAllowance, u.housingAllowance, r.housingAllowance)
    && Replaced(f.evaluationScore, u.evaluationScore, r.evaluationScore)
    && Replaced(f.active, u.active, r.active)
    && Replaced(f.socialSecurityNumber, u.socialSecurityNumber, r.socialSecurityNumber)
    && Replaced(f.childrenCount, u.childrenCount, r.childrenCount)
  }

  /** The identity, credentials, roles, managers, account flags and link, which no form update touches. */
  predicate KeepsAccount(u: User, r: User)
  {
    r.id == u.id && r.employeeCode == u.employeeCode && r.username == u.username
    && r.passwordHash == u.passwordHash && r.roles == u.roles
    && r.directManager == u.directManager && r.assignedProjectManager == u.assignedProjectManager
    && r.enabled == u.enabled && r.registrationPending == u.registrationPending
    && r.accountNonLocked == u.accountNonLocked && r.accountNonExpired == u.accountNonExpired
    && r.credentialsNonExpired == u.credentialsNonExpired && r.firstLogin == u.firstLogin
    && r.activationToken == u.activationToken && r.activationTokenExpiry == u.activationTokenExpiry
    && r.lastLogin == u.lastLogin
  }

  /**
   * updateEntityFromDTO and updateEntityFromRegister (the same rules): every
   * non-null form field replaces the user's and every null one keeps it;
   * email, evaluation date, employee code, password, roles, managers and
   * every account flag are never touched.
   */
  function UpdateEntityFromForm(f: UserForm, u: User): (r: User)
    ensures ProfileUpdated(f, u, r)
    ensures Replaced(f.description, u.description, r.description)
    ensures r.email == u.email && r.evaluationDate == u.evaluationDate
    ensures KeepsAccount(u, r)
  {
    u.(
      firstName := Overwrite(f.firstName, u.firstName),
      lastName := Overwrite(f.lastName, u.lastName),
      birthDate := Overwrite(f.birthDate, u.birthDate),
      gender := Overwrite(f.gender, u.gender),
      nationalId := Overwrite(f.nationalId, u.nationalId),
      nationality := Overwrite(f.nationality, u.nationality),
      maritalStatus := Overwrite(f.maritalStatus, u.maritalStatus),
      phone := Overwrite(f.phone, u.phone),
      address := Overwrite(f.address, u.address),
      jobTitle := Overwrite(f.jobTitle, u.jobTitle),
      department := Overwrite(f.department, u.department),
      service := Overwrite(f.service, u.service),
      hireDate := Overwrite(f.hireDate, u.hireDate),
      contractType := Overwrite(f.contractType, u.contractType),
      contractEndDate := Overwrite(f.contractEndDate, u.contractEndDate),
      baseSalary := Overwrite(f.baseSalary, u.baseSalary),
      housingAllowance := Overwrite(f.housingAllowance, u.housingAllowance),
      evaluationScore := Overwrite(f.evaluationScore, u.evaluationScore),
      active := Overwrite(f.active, u.active),
      socialSecurityNumber := Overwrite(f.socialSecurityNumber, u.socialSecurityNumber),
      childrenCount := Overwrite(f.childrenCount, u.childrenCount),
      description := Overwrite(f.description, u.description))
  }

  /**
   * Applying the same form twice is applying it once, a form of nulls
   * changes nothing, and the mapped fields of an entity built from a form
   * are what the same update writes over any user.
   */
  lemma UpdateProperties(f: UserForm, u: User)
    ensures UpdateEntityFromForm(f, UpdateEntityFromForm(f, u)) == UpdateEntityFromForm(f, u)
    ensures UpdateEntityFromForm(BuilderForm().(roleNames := f.roleNames), u) == u
    ensures UpdateEntityFromForm(f, ToEntity(f)) == ToEntity(f)
  {
  }

  /**
   * UserResponseDTO, fields in declaration order. lastLogin is the day at
   * midnight; createdAt and avatar are never set by the mapper.
   */
  datatype UserResponse = UserResponse(
    id: Option<int>,
    firstName: Option<string>,
    lastName: Option<string>,
    birthDate: Option<Date>,
    gender: Option<string>,
    nationalId: Option<string>,
    nationality: Option<string>,
    maritalStatus: Option<string>,
    email: Option<string>,
    phone: Option<string>,
    address: Option<string>,
    jobTitle: Option<string>,
    department: Option<string>,
    service: Option<string>,
    hireDate: Option<Date>,
    contractType: Option<ContractType>,
    contractEndDate: Option<Date>,
    baseSalary: Option<int>,
    housingAllowance: Option<int>,
    evaluationScore: Option<int>,
    evaluationDate: Option<Date>,
    active: Option<bool>,
    socialSecurityNumber: Option<string>,
    assignedProjectManagerId: Option<int>,
    directManagerId: Option<int>,
    childrenCount: Option<int>,
    roles: Option<seq<string>>,
    description: Option<string>,
    registrationPending: bool,
    enabled: bool,
    lastLogin: Option<Date>,
    username: Option<string>,
    createdAt: Option<Instant>,
    avatar: Option<string>,
    accountNonLocked: bool)

  /** The personal, contract and evaluation columns the view shows as stored. */
  predicate ShowsColumns(r: UserResponse, u: User)
  {
    r.id == u.id && r.firstName == u.firstName && r.lastName == u.lastName && r.birthDate == u.birthDate
    && r.gender == u.gender && r.nationalId == u.nationalId && r.nationality == u.nationality
    && r.maritalStatus == u.maritalStatus && r.email == u.email && r.phone == u.phone && r.address == u.address
    && r.jobTitle == u.jobTitle && r.department == u.department && r.service == u.service
    && r.hireDate == u.hireDate && r.contractType == u.contractType && r.contractEndDate == u.contractEndDate
    && r.baseSalary == u.baseSalary && r.housingAllowance == u.housingAllowance
    && r.evaluationScore == u.evaluationScore && r.evaluationDate == u.evaluationDate && r.active == u.active
    && r.socialSecurityNumber == u.socialSecurityNumber && r.childrenCount == u.childrenCount
    && r.description == u.description && r.registrationPending == u.registrationPending
    && r.enabled == u.enabled && r.lastLogin == u.lastLogin && r.username == u.username
    && r.accountNonLocked == u.accountNonLocked
  }

  /**
   * toResponseDTO: null for a null user; every column as stored; the roles
   * as "ROLE_" + name in order, or null when the user's role list is null;
   * a manager id only when the relation is present; no creation time and no
   * avatar. The password hash, the activation link and the employee code
   * are not shown.
   */
  function ToResponseDTO(u: Option<User>): (r: Option<UserResponse>)
    ensures r.None? <==> u.None?
    ensures r.Some? ==> ShowsColumns(r.value, u.value)
    ensures r.Some? ==> (r.value.roles.None? <==> u.value.roles.None?)
    ensures r.Some? && u.value.roles.Some? ==>
      |r.value.roles.value| == |u.value.roles.value|
      && forall i :: 0 <= i < |u.value.roles.value| ==> r.value.roles.value[i] == "ROLE_" + RoleNameText(u.value.roles.value[i])
    ensures r.Some? ==> r.value.directManagerId == u.value.directManager
    ensures r.Some? ==> r.value.assignedProjectManagerId == u.value.assignedProjectManager
    ensures r.Some? ==> r.value.createdAt.None? && r.value.avatar.None?
  {
    match u
    case None => None
    case Some(v) =>
      Some(UserResponse(v.id, v.firstName, v.lastName, v.birthDate, v.gender, v.nationalId, v.nationality,
                        v.maritalStatus, v.email, v.phone, v.address, v.jobTitle, v.department, v.service,
                        v.hireDate, v.contractType, v.contractEndDate, v.baseSalary, v.housingAllowance,
                        v.evaluationScore, v.evaluationDate, v.active, v.socialSecurityNumber,
                        v.assignedProjectManager, v.directManager, v.childrenCount,
                        if v.roles.Some? then Some(RoleAuthorities(v.roles.value)) else None,
                        v.description, v.registrationPending, v.enabled, v.lastLogin, v.username,
                        None, None, v.accountNonLocked))
  }

  /**
   * Two users with the same view differ at most in the columns the view
   * hides: the password hash, the activation link and its expiry, the
   * employee code, the expiry flags and the first-login flag.
   */
  lemma SameViewDiffersOnlyInHiddenColumns(v: User, w: User)
    requires ToResponseDTO(Some(v)) == ToResponseDTO(Some(w))
    ensures v.(passwordHash := w.passwordHash, activationToken := w.activationToken,
               activationTokenExpiry := w.activationTokenExpiry, employeeCode := w.employeeCode,
               accountNonExpired := w.accountNonExpired, credentialsNonExpired := w.credentialsNonExpired,
               firstLogin := w.firstLogin) == w
  {
    var a := ToResponseDTO(Some(v)).value;
    var b := ToResponseDTO(Some(w)).value;
    assert a == b;
    if v.roles.Some? {
      assert w.roles.Some?;
      assert |v.roles.value| == |w.roles.value|;
      forall i | 0 <= i < |v.roles.value| ensures v.roles.value[i] == w.roles.value[i] {
        assert "ROLE_" + RoleNameText(v.roles.value[i]) == "ROLE_" + RoleNameText(w.roles.value[i]);
        assert RoleNameText(v.roles.value[i]) == ("ROLE_" + RoleNameText(v.roles.value[i]))[5..];
        assert RoleNameText(w.roles.value[i]) == ("ROLE_" + RoleNameText(w.roles.value[i]))[5..];
        RoleNameTextInjective(v.roles.value[i], w.roles.value[i]);
      }
      assert v.roles.value == w.roles.value;
    }
  }

  lemma RoleNameTextInjective(x: RoleName, y: RoleName)
    requires RoleNameText(x) == RoleNameText(y)
    ensures x == y
  {
    assert RoleNameValueOf(RoleNameText(x)) == Some(x) by {
      match x
      case EMPLOYEE =>
      case PROJECT_MANAGER =>
      case ADMIN =>
      case GENERAL_MANAGER =>
      case HR_MANAGER =>
    }
    assert RoleNameValueOf(RoleNameText(y)) == Some(y) by {
      match y
      case EMPLOYEE =>
      case PROJECT_MANAGER =>
      case ADMIN =>
      case GENERAL_MANAGER =>
      case HR_MANAGER =>
    }
  }
}
