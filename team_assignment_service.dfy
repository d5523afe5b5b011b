/**
 * Team membership: the team_assignments table, adding an employee to a
 * project's team, removing them (the record is kept and marked inactive),
 * and listing the active members of a project and the active assignments
 * of an employee.
 */
module TeamAssignmentService {
  import opened Wrappers
  import opened Text
  import opened Time
  import opened Entities
  import opened UserRepository
  import opened ProjectRepository

  /** The team_assignments table, by primary key. */
  type Assignments = map<int, TeamAssignment>

  /** Some record, active or not, links that employee to that project. */
  predicate ExistsByProjectAndEmployee(assignments: Assignments, project: int, employee: int)
  {
    exists aid :: aid in assignments && assignments[aid].project == project && assignments[aid].employee == employee
  }

  /** `Boolean.TRUE.equals(active)`: a null flag is not active. */
  predicate IsActiveAssignment(a: TeamAssignment)
  {
    a.active == Some(true)
  }

  /** findByProjectId. */
  function FindByProjectId(assignments: Assignments, project: int): (ids: set<int>)
    ensures forall aid :: aid in ids <==> aid in assignments && assignments[aid].project == project
  {
    set aid | aid in assignments && assignments[aid].project == project
  }

  /** findByProjectAndActiveTrue. */
  function FindByProjectAndActiveTrue(assignments: Assignments, project: int): (ids: set<int>)
    ensures ids <= FindByProjectId(assignments, project)
    ensures forall aid :: aid in ids <==> aid in assignments && assignments[aid].project == project && IsActiveAssignment(assignments[aid])
  {
    set aid | aid in assignments && assignments[aid].project == project && IsActiveAssignment(assignments[aid])
  }

  /** findByEmployeeAndActiveTrue. */
  function FindByEmployeeAndActiveTrue(assignments: Assignments, employee: int): (ids: set<int>)
    ensures forall aid :: aid in ids <==> aid in assignments && assignments[aid].employee == employee && IsActiveAssignment(assignments[aid])
  {
    set aid | aid in assignments && assignments[aid].employee == employee && IsActiveAssignment(assignments[aid])
  }

  /** TeamAssignmentDTO. */
  datatype TeamAssignmentRequest = TeamAssignmentRequest(
    projectId: Option<int>, employeeId: Option<int>, assigningManagerId: Option<int>, notes: Option<string>)

  /** findById on the projects table, with the not-found message the services use. */
  function FindProject(projects: Projects, id: Option<int>, message: string): (r: Result<Project>)
    ensures r.Ok? <==> id.Some? && id.value in projects
    ensures r.Ok? ==> r.value == projects[id.value]
    ensures id.Some? && id.value !in projects ==> r == Err(NotFound(message))
    ensures id.None? ==> r == Err(Internal(NULL_ID_MESSAGE))
  {
    if id.None? then Err(Internal(NULL_ID_MESSAGE))
    else if id.value in projects then Ok(projects[id.value])
    else Err(NotFound(message))
  }

  /**
   * The checks of assignEmployeeToProject, in order: the project, the
   * employee and the assigning manager must exist, and the employee must
   * not have been assigned to the project before.
   */
  function AssignmentCheck(projects: Projects, users: Users, assignments: Assignments, dto: TeamAssignmentRequest): (r: Outcome)
    ensures r.Pass? <==>
      dto.projectId.Some? && dto.projectId.value in projects
      && dto.employeeId.Some? && dto.employeeId.value in users
      && dto.assigningManagerId.Some? && dto.assigningManagerId.value in users
      && !ExistsByProjectAndEmployee(assignments, dto.projectId.value, dto.employeeId.value)
    ensures dto.projectId.Some? && dto.projectId.value !in projects ==>
      r == Fail(NotFound("Project not found: " + IdText(dto.projectId)))
    ensures dto.projectId.Some? && dto.projectId.value in projects && dto.employeeId.Some? && dto.employeeId.value !in users ==>
      r == Fail(NotFound("Employee not found: " + IdText(dto.employeeId)))
  {
    match FindProject(projects, dto.projectId, "Project not found: " + IdText(dto.projectId))
    case Err(e) => Fail(e)
    case Ok(_) =>
      match FindById(users, dto.employeeId, "Employee not found: " + IdText(dto.employeeId))
      case Err(e) => Fail(e)
      case Ok(_) =>
        match FindById(users, dto.assigningManagerId, "Manager not found: " + IdText(dto.assigningManagerId))
        case Err(e) => Fail(e)
        case Ok(_) =>
          if ExistsByProjectAndEmployee(assignments, dto.projectId.value, dto.employeeId.value) then
            Fail(BusinessError("Employee is already assigned to this project"))
          else Pass
  }

  /** The record assignEmployeeToProject builds: active, added today, linking the three given ids. */
  function NewAssignment(dto: TeamAssignmentRequest, today: Date): (a: TeamAssignment)
    requires dto.projectId.Some? && dto.employeeId.Some? && dto.assigningManagerId.Some?
    ensures IsActiveAssignment(a) && a.addedDate == Some(today) && a.id.None?
    ensures a.project == dto.projectId.value && a.employee == dto.employeeId.value
    ensures a.assigningManager == dto.assigningManagerId.value
  {
    TeamAssignment(None, Some(today), Some(true), dto.employeeId.value, dto.projectId.value, dto.assigningManagerId.value)
  }

  /** What removeEmployeeFromProject writes: the record stays, marked inactive. */
  function Deactivated(a: TeamAssignment): (r: TeamAssignment)
    ensures !IsActiveAssignment(r) && r.active == Some(false)
    ensures r.(active := a.active) == a
  {
    a.(active := Some(false))
  }

  /**
   * A removed member leaves the project's active team, yet their record
   * still links them to the project, so they can never be assigned to it
   * again.
   */
  lemma RemovalIsSoftAndFinal(projects: Projects, users: Users, assignments: Assignments, aid: int, dto: TeamAssignmentRequest)
    requires aid in assignments
    requires dto.projectId == Some(assignments[aid].project) && dto.employeeId == Some(assignments[aid].employee)
    ensures var after := assignments[aid := Deactivated(assignments[aid])];
      after.Keys == assignments.Keys
      && aid !in FindByProjectAndActiveTrue(after, assignments[aid].project)
      && aid !in FindByEmployeeAndActiveTrue(after, assignments[aid].employee)
      && AssignmentCheck(projects, users, after, dto).Fail?
  {
    var after := assignments[aid := Deactivated(assignments[aid])];
    assert after[aid].project == dto.projectId.value && after[aid].employee == dto.employeeId.value;
  }

  /** Assigning adds the new member to the project's active team and to the employee's active assignments. */
  lemma AssignedMemberIsListed(assignments: Assignments, aid: int, dto: TeamAssignmentRequest, today: Date)
    requires dto.projectId.Some? && dto.employeeId.Some? && dto.assigningManagerId.Some?
    requires aid !in assignments
    ensures var after := assignments[aid := NewAssignment(dto, today).(id := Some(aid))];
      FindByProjectAndActiveTrue(after, dto.projectId.value) == FindByProjectAndActiveTrue(assignments, dto.projectId.value) + {aid}
      && FindByEmployeeAndActiveTrue(after, dto.employeeId.value) == FindByEmployeeAndActiveTrue(assignments, dto.employeeId.value) + {aid}
  {
  }

  /** The team_assignments table. Ids come from an identity column. */
  class TeamAssignmentStore {
    var assignments: Assignments
    var nextId: int

    ghost predicate Valid()
      reads this
    {
      forall aid :: aid in assignments ==> assignments[aid].id == Some(aid) && aid < nextId
    }

    constructor ()
      ensures Valid() && assignments == map[]
    {
      assignments := map[];
      nextId := 1;
    }

    /** save() of a new assignment: the row gets the next id. */
    method Insert(a: TeamAssignment) returns (aid: int)
      requires Valid()
      modifies this
      ensures Valid()
      ensures aid == old(nextId) && aid !in old(assignments)
      ensures assignments == old(assignments)[aid := a.(id := Some(aid))]
    {
      aid := nextId;
      assignments := assignments[aid := a.(id := Some(aid))];
      nextId := nextId + 1;
    }

    /** save() of an assignment that has an id: the row is overwritten. */
    method Update(a: TeamAssignment)
      requires Valid() && a.id.Some? && a.id.value in assignments
      modifies this
      ensures Valid()
      ensures assignments == old(assignments)[a.id.value := a]
      ensures nextId == old(nextId)
    {
      assignments := assignments[a.id.value := a];
    }
  }

  class TeamAssignmentService {
    const teamAssignmentRepository: TeamAssignmentStore
    const projectRepository: ProjectStore
    const userRepository: UserStore

    constructor (teamAssignmentRepository: TeamAssignmentStore, projectRepository: ProjectStore, userRepository: UserStore)
      ensures this.teamAssignmentRepository == teamAssignmentRepository
      ensures this.projectRepository == projectRepository && this.userRepository == userRepository
    {
      this.teamAssignmentRepository := teamAssignmentRepository;
      this.projectRepository := projectRepository;
      this.userRepository := userRepository;
    }

    /**
     * assignEmployeeToProject, with today's date given: when every check
     * passes, exactly one new active record is added; otherwise nothing is
     * written.
     */
    method AssignEmployeeToProject(dto: TeamAssignmentRequest, today: Date) returns (r: Result<TeamAssignment>)
      requires teamAssignmentRepository.Valid()
      modifies teamAssignmentRepository
      ensures teamAssignmentRepository.Valid()
      ensures var check := AssignmentCheck(projectRepository.projects, userRepository.users, old(teamAssignmentRepository.assignments), dto);
        (check.Fail? ==> r == Err(check.failure) && teamAssignmentRepository.assignments == old(teamAssignmentRepository.assignments))
        && (check.Pass? ==>
              var aid := old(teamAssignmentRepository.nextId);
              aid !in old(teamAssignmentRepository.assignments)
              && r == Ok(NewAssignment(dto, today).(id := Some(aid)))
              && teamAssignmentRepository.assignments == old(teamAssignmentRepository.assignments)[aid := r.value])
    {
      var check := AssignmentCheck(projectRepository.projects, userRepository.users, teamAssignmentRepository.assignments, dto);
      if check.Fail? {
        return Err(check.failure);
      }
      var assignment := NewAssignment(dto, today);
      var aid := teamAssignmentRepository.Insert(assignment);
      return Ok(teamAssignmentRepository.assignments[aid]);
    }

    /** removeEmployeeFromProject: the record is kept and marked inactive. */
    method RemoveEmployeeFromProject(assignmentId: Option<int>) returns (r: Outcome)
      requires teamAssignmentRepository.Valid()
      modifies teamAssignmentRepository
      ensures teamAssignmentRepository.Valid()
      ensures assignmentId.None? ==> r == Fail(Internal(NULL_ID_MESSAGE))
      ensures r.Pass? <==> assignmentId.Some? && assignmentId.value in old(teamAssignmentRepository.assignments)
      ensures assignmentId.Some? && assignmentId.value !in old(teamAssignmentRepository.assignments) ==>
        r == Fail(NotFound("Team assignment not found: " + IdText(assignmentId)))
      ensures r.Fail? ==> teamAssignmentRepository.assignments == old(teamAssignmentRepository.assignments)
      ensures r.Pass? ==>
        var aid := assignmentId.value;
        teamAssignmentRepository.assignments ==
          old(teamAssignmentRepository.assignments)[aid := Deactivated(old(teamAssignmentRepository.assignments)[aid])]
    {
      if assignmentId.None? {
        return Fail(Internal(NULL_ID_MESSAGE));
      }
      var aid := assignmentId.value;
      if aid !in teamAssignmentRepository.assignments {
        return Fail(NotFound("Team assignment not found: " + IdText(assignmentId)));
      }
      var assignment := teamAssignmentRepository.assignments[aid];
      teamAssignmentRepository.Update(Deactivated(assignment));
      return Pass;
    }

    /** getProjectTeam: the ids of the project's active assignments. */
    method GetProjectTeam(projectId: Option<int>) returns (r: Result<set<int>>)
      ensures r.Ok? <==> projectId.Some? && projectId.value in projectRepository.projects
      ensures r.Ok? ==> forall aid :: aid in r.value <==>
        aid in teamAssignmentRepository.assignments
        && teamAssignmentRepository.assignments[aid].project == projectId.value
        && teamAssignmentRepository.assignments[aid].active == Some(true)
    {
      var project := FindProject(projectRepository.projects, projectId, "Project not found: " + IdText(projectId));
      if project.Err? {
        return Err(project.failure);
      }
      return Ok(FindByProjectAndActiveTrue(teamAssignmentRepository.assignments, projectId.value));
    }

    /** getEmployeeAssignments: the ids of the employee's active assignments. */
    method GetEmployeeAssignments(employeeId: Option<int>) returns (r: Result<set<int>>)
      ensures r.Ok? <==> employeeId.Some? && employeeId.value in userRepository.users
      ensures r.Ok? ==> forall aid :: aid in r.value <==>
        aid in teamAssignmentRepository.assignments
        && teamAssignmentRepository.assignments[aid].employee == employeeId.value
        && teamAssignmentRepository.assignments[aid].active == Some(true)
    {
      var employee := FindById(userRepository.users, employeeId, "Employee not found: " + IdText(employeeId));
      if employee.Err? {
        return Err(employee.failure);
      }
      return Ok(FindByEmployeeAndActiveTrue(teamAssignmentRepository.assignments, employeeId.value));
    }
  }
}
