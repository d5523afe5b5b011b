/**
 * Making an employee the manager of a project and taking the project away
 * from them again, with the PROJECT_MANAGER role following: it is granted
 * on assignment and withdrawn once the employee manages no project any
 * more. The service is transactional, so a call that fails writes nothing.
 */
module ProjectAssignmentService {
  import opened Wrappers
  import opened Text
  import opened Entities
  import opened Time
  import opened UserRepository
  import opened ProjectRepository
  import TeamAssignmentService

  /** ProjectAssignmentDTO; the notes only feed the notification e-mail. */
  datatype ProjectAssignmentRequest = ProjectAssignmentRequest(
    projectId: Option<int>, employeeCode: Option<string>, assignmentNotes: Option<string>)

  /** The rows an assignment touches: the project and the employee, by id. */
  datatype Assignment = Assignment(project: int, employee: int)

  /** findByEmployeeCode(code).orElseThrow(...): the unique employee with that code. */
  function FindEmployeeByCode(users: Users, code: Option<string>): (r: Result<int>)
    ensures r.Ok? <==> FindBy(users, EmployeeCodeColumn, code).Unique?
    ensures r.Ok? ==> r.value in users && users[r.value].employeeCode == code
    ensures (forall id :: id in users ==> users[id].employeeCode != code) ==>
      r == Err(NotFound("Employee not found: " + NullableText(code)))
  {
    match FindBy(users, EmployeeCodeColumn, code)
    case Absent => Err(NotFound("Employee not found: " + NullableText(code)))
    case Ambiguous => Err(Internal(NON_UNIQUE_MESSAGE))
    case Unique(id) => Ok(id)
  }

  /**
   * validateAssignment: the employee must not already manage the project,
   * must be enabled and active, and must hold the EMPLOYEE role. A null
   * role list is dereferenced.
   */
  function ValidateAssignment(project: Project, employeeId: int, employee: User): (r: Outcome)
    ensures r.Pass? <==>
      project.projectManager != Some(employeeId) && employee.enabled && employee.active == Some(true)
      && employee.roles.Some? && EMPLOYEE in employee.roles.value
    ensures project.projectManager == Some(employeeId) ==>
      r == Fail(BusinessError(NullableText(employee.employeeCode) + " is already the manager of this project"))
    ensures project.projectManager != Some(employeeId) && (!employee.enabled || employee.active != Some(true)) ==>
      r == Fail(BusinessError("Employee account is not active"))
    ensures project.projectManager != Some(employeeId) && employee.enabled && employee.active == Some(true)
            && employee.roles.Some? && EMPLOYEE !in employee.roles.value ==>
      r == Fail(BusinessError("User is not an employee"))
  {
    if project.projectManager == Some(employeeId) then
      Fail(BusinessError(NullableText(employee.employeeCode) + " is already the manager of this project"))
    else if !employee.enabled || employee.active != Some(true) then
      Fail(BusinessError("Employee account is not active"))
    else if employee.roles.None? then
      Fail(Internal("roles is null"))
    else if EMPLOYEE !in employee.roles.value then
      Fail(BusinessError("User is not an employee"))
    else Pass
  }

  /**
   * Everything assignSingleProject checks before it writes: the project by
   * id, the employee by code, then validateAssignment.
   */
  function AssignCheck(projects: Projects, users: Users, dto: ProjectAssignmentRequest): (r: Result<Assignment>)
    ensures r.Ok? ==>
      r.value.project in projects && r.value.employee in users
      && users[r.value.employee].employeeCode == dto.employeeCode
      && dto.projectId == Some(r.value.project)
      && ValidateAssignment(projects[r.value.project], r.value.employee, users[r.value.employee]).Pass?
    ensures dto.projectId.Some? && dto.projectId.value !in projects ==>
      r == Err(NotFound("Project not found: " + IdText(dto.projectId)))
  {
    match TeamAssignmentService.FindProject(projects, dto.projectId, "Project not found: " + IdText(dto.projectId))
    case Err(e) => Err(e)
    case Ok(project) =>
      match FindEmployeeByCode(users, dto.employeeCode)
      case Err(e) => Err(e)
      case Ok(eid) =>
        match ValidateAssignment(project, eid, users[eid])
        case Fail(e) => Err(e)
        case Pass => Ok(Assignment(dto.projectId.value, eid))
  }

  /**
   * addProjectManagerRole: the PROJECT_MANAGER role is appended when the
   * employee lacks it and the roles table holds it; otherwise the user is
   * left as is.
   */
  function WithProjectManagerRole(u: User, roleTable: set<RoleName>): (r: User)
    requires u.roles.Some?
    ensures r.roles.Some? && r.(roles := u.roles) == u
    ensures PROJECT_MANAGER in u.roles.value || PROJECT_MANAGER !in roleTable ==> r == u
    ensures PROJECT_MANAGER !in u.roles.value && PROJECT_MANAGER in roleTable ==>
      r.roles.value == u.roles.value + [PROJECT_MANAGER]
  {
    if PROJECT_MANAGER !in u.roles.value && PROJECT_MANAGER in roleTable then
      u.(roles := Some(u.roles.value + [PROJECT_MANAGER]))
    else u
  }

  /** The number of times r occurs in a role list. */
  function Occurrences(roles: seq<RoleName>, r: RoleName): nat
  {
    multiset(roles)[r]
  }

  /** `roles.removeIf(role -> role.getName() == r)`: every r goes and every other role stays. */
  function RemoveAll(roles: seq<RoleName>, r: RoleName): (s: seq<RoleName>)
    ensures r !in s
    ensures multiset(s) == multiset(roles)[r := 0]
    ensures r !in roles ==> s == roles
  {
    if roles == [] then []
    else
      var rest := RemoveAll(roles[1..], r);
      assert roles == [roles[0]] + roles[1..];
      assert multiset(roles) == multiset{roles[0]} + multiset(roles[1..]);
      assert multiset([roles[0]] + rest) == multiset{roles[0]} + multiset(rest);
      if roles[0] == r then rest else [roles[0]] + rest
  }

  /** What assignSingleProject saves for the project: the new manager, stamped with the clock. */
  function Assigned(p: Project, employeeId: int, now: Instant): (r: Project)
    ensures r.projectManager == Some(employeeId) && r.assignmentDate == Some(now) && r.updatedAt == Some(now)
    ensures r.(projectManager := p.projectManager, assignmentDate := p.assignmentDate, updatedAt := p.updatedAt) == p
  {
    p.(projectManager := Some(employeeId), assignmentDate := Some(now), updatedAt := Some(now))
  }

  /** What removeFromProject saves for the project: no manager, stamped with the clock; the assignment date stays. */
  function Unassigned(p: Project, now: Instant): (r: Project)
    ensures r.projectManager.None? && r.updatedAt == Some(now)
    ensures r.(projectManager := p.projectManager, updatedAt := p.updatedAt) == p
  {
    p.(projectManager := None, updatedAt := Some(now))
  }

  /**
   * The checks of removeFromProject: both rows exist and the employee is
   * the project's manager.
   */
  function RemoveCheck(projects: Projects, users: Users, projectId: Option<int>, employeeId: Option<int>): (r: Result<Assignment>)
    ensures r.Ok? <==>
      projectId.Some? && projectId.value in projects && employeeId.Some? && employeeId.value in users
      && projects[projectId.value].projectManager == employeeId
    ensures r.Ok? ==> r == Ok(Assignment(projectId.value, employeeId.value))
    ensures projectId.Some? && projectId.value !in projects ==> r == Err(NotFound("Project not found"))
    ensures projectId.Some? && projectId.value in projects && employeeId.Some? && employeeId.value !in users ==>
      r == Err(NotFound("Employee not found"))
    ensures projectId.Some? && projectId.value in projects && employeeId.Some? && employeeId.value in users
            && projects[projectId.value].projectManager != employeeId ==>
      r == Err(BusinessError("Employee is not assigned as manager of this project"))
  {
    match TeamAssignmentService.FindProject(projects, projectId, "Project not found")
    case Err(e) => Err(e)
    case Ok(project) =>
      match FindById(users, employeeId, "Employee not found")
      case Err(e) => Err(e)
      case Ok(_) =>
        if project.projectManager != employeeId then Err(BusinessError("Employee is not assigned as manager of this project"))
        else Ok(Assignment(projectId.value, employeeId.value))
  }

  /**
   * removeProjectManagerRoleIfNeeded, evaluated on the projects table after
   * the project was saved: the role goes once the employee manages nothing.
   * A null role list is dereferenced only when the count is zero.
   */
  function AfterRoleRemoval(projects: Projects, employeeId: int, u: User): (r: Result<User>)
    ensures r.Err? <==> CountByProjectManager(projects, employeeId) == 0 && u.roles.None?
    ensures r.Ok? && CountByProjectManager(projects, employeeId) != 0 ==> r.value == u
    ensures r.Ok? && CountByProjectManager(projects, employeeId) == 0 ==>
      r.value.roles.Some? && PROJECT_MANAGER !in r.value.roles.value
      && r.value == u.(roles := Some(RemoveAll(u.roles.value, PROJECT_MANAGER)))
  {
    if CountByProjectManager(projects, employeeId) != 0 then Ok(u)
    else if u.roles.None? then Err(Internal("roles is null"))
    else Ok(u.(roles := Some(RemoveAll(u.roles.value, PROJECT_MANAGER))))
  }

  /** Granting the role twice grants it once: the role occurs at most once when it did before. */
  lemma ProjectManagerRoleGrantedOnce(u: User, roleTable: set<RoleName>)
    requires u.roles.Some? && Occurrences(u.roles.value, PROJECT_MANAGER) <= 1
    ensures WithProjectManagerRole(WithProjectManagerRole(u, roleTable), roleTable) == WithProjectManagerRole(u, roleTable)
    ensures Occurrences(WithProjectManagerRole(u, roleTable).roles.value, PROJECT_MANAGER) <= 1
    ensures PROJECT_MANAGER in roleTable ==> PROJECT_MANAGER in WithProjectManagerRole(u, roleTable).roles.value
  {
    var r := WithProjectManagerRole(u, roleTable);
    if PROJECT_MANAGER !in u.roles.value && PROJECT_MANAGER in roleTable {
      assert multiset(r.roles.value) == multiset(u.roles.value) + multiset{PROJECT_MANAGER};
      assert PROJECT_MANAGER in r.roles.value by {
        assert r.roles.value[|r.roles.value| - 1] == PROJECT_MANAGER;
      }
    }
  }

  /**
   * After an assignment the employee manages the project, and any previous
   * manager of that project loses it without a change to their own row:
   * a manager replaced this way keeps the PROJECT_MANAGER role.
   */
  lemma AssignmentMovesManagement(projects: Projects, users: Users, a: Assignment, now: Instant, roleTable: set<RoleName>)
    requires a.project in projects && a.employee in users && users[a.employee].roles.Some?
    ensures var after := projects[a.project := Assigned(projects[a.project], a.employee, now)];
      a.project in FindByProjectManager(after, a.employee)
      && CountByProjectManager(after, a.employee) >= 1
      && FindByProjectManager(after, a.employee) == FindByProjectManager(projects, a.employee) + {a.project}
    ensures forall other :: other in users && other != a.employee ==>
      users[a.employee := WithProjectManagerRole(users[a.employee], roleTable)][other] == users[other]
  {
    var after := projects[a.project := Assigned(projects[a.project], a.employee, now)];
    var managed := FindByProjectManager(after, a.employee);
    assert a.project in managed;
    assert |managed| >= 1 by {
      assert managed == (managed - {a.project}) + {a.project};
    }
  }

  /**
   * Taking away the project of an employee who manages no other project
   * withdraws the role; one who still manages another keeps it.
   */
  lemma RemovalWithdrawsRoleOnlyFromIdleManagers(projects: Projects, a: Assignment, now: Instant, u: User)
    requires a.project in projects && projects[a.project].projectManager == Some(a.employee)
    requires u.roles.Some?
    ensures var after := projects[a.project := Unassigned(projects[a.project], now)];
      (FindByProjectManager(projects, a.employee) == {a.project} ==>
         AfterRoleRemoval(after, a.employee, u).Ok? && PROJECT_MANAGER !in AfterRoleRemoval(after, a.employee, u).value.roles.value)
      && (forall other :: other in projects && other != a.project && projects[other].projectManager == Some(a.employee) ==>
         AfterRoleRemoval(after, a.employee, u) == Ok(u))
  {
    var after := projects[a.project := Unassigned(projects[a.project], now)];
    if FindByProjectManager(projects, a.employee) == {a.project} {
      assert FindByProjectManager(after, a.employee) == {};
    }
    forall other | other in projects && other != a.project && projects[other].projectManager == Some(a.employee)
      ensures AfterRoleRemoval(after, a.employee, u) == Ok(u)
    {
      assert other in FindByProjectManager(after, a.employee);
    }
  }

  /**
   * For an employee who held no PROJECT_MANAGER role and managed nothing,
   * being assigned a project and then removed from it gives back their
   * role list exactly.
   */
  lemma AssignThenRemoveRestoresRoles(projects: Projects, a: Assignment, now: Instant, later: Instant, u: User, roleTable: set<RoleName>)
    requires a.project in projects && u.roles.Some? && PROJECT_MANAGER !in u.roles.value
    requires FindByProjectManager(projects, a.employee) == {}
    ensures var withManager := projects[a.project := Assigned(projects[a.project], a.employee, now)];
      var removed := withManager[a.project := Unassigned(withManager[a.project], later)];
      AfterRoleRemoval(removed, a.employee, WithProjectManagerRole(u, roleTable)) == Ok(u)
  {
    var withManager := projects[a.project := Assigned(projects[a.project], a.employee, now)];
    var removed := withManager[a.project := Unassigned(withManager[a.project], later)];
    assert FindByProjectManager(removed, a.employee) == {} by {
      forall id | id in removed ensures removed[id].projectManager != Some(a.employee) {
        if id != a.project {
          assert id !in FindByProjectManager(projects, a.employee);
        }
      }
    }
    var granted := WithProjectManagerRole(u, roleTable);
    if PROJECT_MANAGER in roleTable {
      RemoveAppended(u.roles.value, PROJECT_MANAGER);
    }
  }

  /** Removing every r from a list that had none, with one r appended, gives the list back. */
  lemma {:induction false} RemoveAppended(roles: seq<RoleName>, r: RoleName)
    requires r !in roles
    ensures RemoveAll(roles + [r], r) == roles
  {
    if roles == [] {
      assert RemoveAll([r][1..], r) == [];
    } else {
      assert (roles + [r])[1..] == roles[1..] + [r];
      RemoveAppended(roles[1..], r);
      assert roles == [roles[0]] + roles[1..];
    }
  }

  class ProjectAssignmentService {
    const projectRepository: ProjectStore
    const userRepository: UserStore
    /** The names present in the roles table (roleRepository.findByName). */
    const roleTable: set<RoleName>

    constructor (projectRepository: ProjectStore, userRepository: UserStore, roleTable: set<RoleName>)
      ensures this.projectRepository == projectRepository && this.userRepository == userRepository
      ensures this.roleTable == roleTable
    {
      this.projectRepository := projectRepository;
      this.userRepository := userRepository;
      this.roleTable := roleTable;
    }

    /**
     * assignProjectToEmployee, with the clock given: on success the
     * employee becomes the project's manager and holds the PROJECT_MANAGER
     * role when the roles table has it; on failure nothing is written.
     */
    method AssignProjectToEmployee(dto: ProjectAssignmentRequest, now: Instant) returns (r: Outcome)
      requires projectRepository.Valid() && userRepository.Valid()
      modifies projectRepository, userRepository
      ensures projectRepository.Valid() && userRepository.Valid()
      ensures var check := AssignCheck(old(projectRepository.projects), old(userRepository.users), dto);
        (check.Err? ==>
           r == Fail(check.failure)
           && projectRepository.projects == old(projectRepository.projects)
           && userRepository.users == old(userRepository.users))
        && (check.Ok? ==>
              var a := check.value;
              r == Pass
              && projectRepository.projects == old(projectRepository.projects)[a.project := Assigned(old(projectRepository.projects)[a.project], a.employee, now)]
              && userRepository.users == old(userRepository.users)[a.employee := WithProjectManagerRole(old(userRepository.users)[a.employee], roleTable)])
    {
      var check := AssignCheck(projectRepository.projects, userRepository.users, dto);
      if check.Err? {
        return Fail(check.failure);
      }
      var pid := check.value.project;
      var eid := check.value.employee;
      var employee := userRepository.users[eid];
      if PROJECT_MANAGER !in employee.roles.value && PROJECT_MANAGER in roleTable {
        userRepository.Update(WithProjectManagerRole(employee, roleTable));
      }
      var project := projectRepository.projects[pid];
      projectRepository.Update(Assigned(project, eid, now));
      return Pass;
    }

    /**
     * removeFromProject, with the clock given: on success the project has
     * no manager and the employee's row has passed through the role
     * removal; on failure nothing is written.
     */
    method RemoveFromProject(projectId: Option<int>, employeeId: Option<int>, now: Instant) returns (r: Outcome)
      requires projectRepository.Valid() && userRepository.Valid()
      modifies projectRepository, userRepository
      ensures projectRepository.Valid() && userRepository.Valid()
      ensures var check := RemoveCheck(old(projectRepository.projects), old(userRepository.users), projectId, employeeId);
        (check.Err? ==> r == Fail(check.failure))
        && (check.Ok? ==>
              var a := check.value;
              var saved := old(projectRepository.projects)[a.project := Unassigned(old(projectRepository.projects)[a.project], now)];
              var role := AfterRoleRemoval(saved, a.employee, old(userRepository.users)[a.employee]);
              (role.Err? ==> r == Fail(role.failure))
              && (role.Ok? ==>
                    r == Pass && projectRepository.projects == saved
                    && userRepository.users == old(userRepository.users)[a.employee := role.value]))
      ensures r.Fail? ==>
        projectRepository.projects == old(projectRepository.projects) && userRepository.users == old(userRepository.users)
    {
      var check := RemoveCheck(projectRepository.projects, userRepository.users, projectId, employeeId);
      if check.Err? {
        return Fail(check.failure);
      }
      var pid := check.value.project;
      var eid := check.value.employee;
      var project := projectRepository.projects[pid];
      var saved := projectRepository.projects[pid := Unassigned(project, now)];
      var role := AfterRoleRemoval(saved, eid, userRepository.users[eid]);
      if role.Err? {
        // The exception rolls the transaction back, the project save included.
        return Fail(role.failure);
      }
      projectRepository.Update(Unassigned(project, now));
      if role.value != userRepository.users[eid] {
        userRepository.Update(role.value);
      }
      return Pass;
    }
  }
}
