/**
 * The persistent entities (users, roles, projects, team assignments) as
 * values. A relation to another entity is held as that entity's id; a
 * nullable column is an Option; an entity not yet saved has no id.
 */
module Entities {
  import opened Wrappers
  import opened Time

  /**
   * The role names: the four constants the code names, and HR_MANAGER,
   * which an access rule names and the role initializer's default branch
   * leaves room for.
   */
  datatype RoleName = EMPLOYEE | PROJECT_MANAGER | ADMIN | GENERAL_MANAGER | HR_MANAGER

  /** Enum.name(). */
  function RoleNameText(r: RoleName): string
  {
    match r
    case EMPLOYEE => "EMPLOYEE"
    case PROJECT_MANAGER => "PROJECT_MANAGER"
    case ADMIN => "ADMIN"
    case GENERAL_MANAGER => "GENERAL_MANAGER"
    case HR_MANAGER => "HR_MANAGER"
  }

  /** RoleName.valueOf: the constant with exactly that name, or None where Java throws IllegalArgumentException. */
  function RoleNameValueOf(s: string): (r: Option<RoleName>)
    ensures r.None? ==> forall n: RoleName :: RoleNameText(n) != s
    ensures r.Some? ==> RoleNameText(r.value) == s
  {
    if s == "EMPLOYEE" then Some(EMPLOYEE)
    else if s == "PROJECT_MANAGER" then Some(PROJECT_MANAGER)
    else if s == "ADMIN" then Some(ADMIN)
    else if s == "GENERAL_MANAGER" then Some(GENERAL_MANAGER)
    else if s == "HR_MANAGER" then Some(HR_MANAGER)
    else None
  }

  /** The authorities the token and the user view carry: "ROLE_" followed by each role's name, in role order. */
  function RoleAuthorities(roles: seq<RoleName>): (r: seq<string>)
    ensures |r| == |roles|
    ensures forall i :: 0 <= i < |roles| ==> r[i] == "ROLE_" + RoleNameText(roles[i])
  {
    if roles == [] then [] else ["ROLE_" + RoleNameText(roles[0])] + RoleAuthorities(roles[1..])
  }

  datatype ContractType = CDI | CDD | CTP | CTT | STAGE | SIVP | ALTERNANCE | MISSION | FREELANCE | ESSAI

  datatype ProjectStatus = PLANNED | IN_PROGRESS | ON_HOLD | COMPLETED | CANCELLED

  /**
   * A BCrypt password hash. Hashing is modelled as an injective wrapper
   * around the raw password: two passwords have the same hash exactly when
   * they are equal. The random salt of BCrypt is not modelled.
   */
  datatype PasswordHash = Bcrypt(raw: string)

  /** PasswordEncoder.encode. */
  function Encode(raw: string): PasswordHash
  {
    Bcrypt(raw)
  }

  /** BCryptPasswordEncoder.matches refuses a null raw password with this message. */
  const NULL_RAW_PASSWORD_MESSAGE: string := "rawPassword cannot be null"

  /** PasswordEncoder.matches; a missing hash matches nothing. */
  predicate Matches(raw: string, stored: Option<PasswordHash>)
  {
    stored == Some(Encode(raw))
  }

  /**
   * A row of the users table. The enum-typed columns gender, maritalStatus
   * and department hold the constant's name. Salaries are whole numbers.
   */
  datatype User = User(
    id: Option<int>,
    employeeCode: Option<string>,
    username: Option<string>,
    email: Option<string>,
    passwordHash: Option<PasswordHash>,
    firstName: Option<string>,
    lastName: Option<string>,
    birthDate: Option<Date>,
    hireDate: Option<Date>,
    contractEndDate: Option<Date>,
    evaluationDate: Option<Date>,
    lastLogin: Option<Date>,
    gender: Option<string>,
    nationalId: Option<string>,
    nationality: Option<string>,
    maritalStatus: Option<string>,
    phone: Option<string>,
    address: Option<string>,
    jobTitle: Option<string>,
    department: Option<string>,
    service: Option<string>,
    contractType: Option<ContractType>,
    baseSalary: Option<int>,
    housingAllowance: Option<int>,
    evaluationScore: Option<int>,
    socialSecurityNumber: Option<string>,
    childrenCount: Option<int>,
    description: Option<string>,
    directManager: Option<int>,
    assignedProjectManager: Option<int>,
    roles: Option<seq<RoleName>>,
    active: Option<bool>,
    enabled: bool,
    registrationPending: bool,
    accountNonLocked: bool,
    accountNonExpired: bool,
    credentialsNonExpired: bool,
    firstLogin: bool,
    activationToken: Option<string>,
    activationTokenExpiry: Option<Instant>)

  /**
   * User.builder().build() with nothing set: every reference null, every
   * primitive flag false, and the two @Builder.Default fields (an empty role
   * list and no children).
   */
  function BlankUser(): (u: User)
    ensures u.roles == Some([]) && u.childrenCount == Some(0)
    ensures u.id.None? && u.active.None? && !u.enabled && !u.accountNonLocked
  {
    User(None, None, None, None, None, None, None, None, None, None, None, None,
         None, None, None, None, None, None, None, None, None, None, None, None,
         None, None, Some(0), None, None, None, Some([]), None,
         false, false, false, false, false, false, None, None)
  }

  /** A row of the projects table. */
  datatype Project = Project(
    id: Option<int>,
    code: Option<string>,
    name: Option<string>,
    description: Option<string>,
    status: Option<ProjectStatus>,
    startDate: Option<Date>,
    endDate: Option<Date>,
    assignmentDate: Option<Instant>,
    projectManager: Option<int>,
    createdAt: Option<Instant>,
    updatedAt: Option<Instant>)

  /** A row of the team_assignments table. */
  datatype TeamAssignment = TeamAssignment(
    id: Option<int>,
    addedDate: Option<Date>,
    active: Option<bool>,
    employee: int,
    project: int,
    assigningManager: int)
}
