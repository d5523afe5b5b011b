/**
 * The project service: creating a project with a generated code, updating
 * it (including a change of manager), changing its status, deleting it
 * when no team record points at it, and the read-only queries over
 * projects and their teams. The clock, the random draw and the row order
 * the database returns are parameters.
 */
module ProjectService {
  import opened Wrappers
  import opened Text
  import opened Time
  import opened Entities
  import opened UserRepository
  import opened ProjectRepository
  import opened TeamAssignmentService
  import EmployeeCodeGenerator
  import ProjectMapper

  const END_BEFORE_START_MESSAGE: string := "End date cannot be before start date"
  const TEAM_NOT_EMPTY_MESSAGE: string := "Cannot delete project with assigned team members"

  /**
   * The date guard of createProject and updateProject: only an end date
   * strictly before the start date is refused; equal or missing dates pass.
   */
  function CheckDates(startDate: Option<Date>, endDate: Option<Date>): (r: Outcome)
    ensures r.Fail? <==> startDate.Some? && endDate.Some? && IsBefore(endDate.value, startDate.value)
    ensures r.Fail? ==> r.failure == BusinessError(END_BEFORE_START_MESSAGE)
  {
    if endDate.Some? && startDate.Some? && IsBefore(endDate.value, startDate.value) then
      Fail(BusinessError(END_BEFORE_START_MESSAGE))
    else Pass
  }

  /** A project that ends on the day it starts passes the guard. */
  lemma SameDayProjectPasses(d: Date)
    ensures CheckDates(Some(d), Some(d)).Pass?
  {
    if IsBefore(d, d) {
      BeforeIsStrictOrder(d, d, d);
    }
  }

  /** The digit character of 0 <= d < 10. */
  function DigitChar(d: int): (c: char)
    requires 0 <= d < 10
    ensures IsDigit(c) && c as int - '0' as int == d
  {
    ('0' as int + d) as char
  }

  /** String.format("%03d", n) for 0 <= n < 1000: three digits denoting n. */
  function ThreeDigits(n: int): (r: string)
    requires 0 <= n < 1000
    ensures |r| == 3 && forall i :: 0 <= i < 3 ==> IsDigit(r[i])
    ensures DigitsValue(r) == n
  {
    var digits := [DigitChar(n / 100), DigitChar((n / 10) % 10), DigitChar(n % 10)];
    assert digits[..2] == [digits[0], digits[1]];
    assert digits[..2][..1] == [digits[0]];
    assert [digits[0]][..0] == [];
    assert DigitsValue([digits[0]]) == n / 100;
    assert DigitsValue(digits[..2]) == (n / 100) * 10 + (n / 10) % 10;
    assert (n / 100) * 100 + ((n / 10) % 10) * 10 + n % 10 == n;
    digits
  }

  /** The name part of a project code: the first three characters uppercased, or the whole name when shorter. */
  function NamePart(name: string): (r: string)
    ensures |r| == if |name| >= 3 then 3 else |name|
    ensures r == ToUpper(if |name| >= 3 then name[..3] else name)
  {
    if |name| >= 3 then ToUpper(name[..3]) else ToUpper(name)
  }

  /**
   * generateProjectCode, with the year and the draw of
   * `(int) (Math.random() * 1000)` given. The year is cut before the name
   * is read, and a null name is dereferenced.
   */
  function GenerateProjectCode(name: Option<string>, year: int, draw: int): (r: Result<string>)
    requires 0 <= draw < 1000
    ensures 1000 <= year <= 9999 ==> (r.Ok? <==> name.Some?)
    ensures r.Ok? ==>
      name.Some? && EmployeeCodeGenerator.YearPart(year).Ok?
      && r.value == "PRJ" + EmployeeCodeGenerator.YearPart(year).value + NamePart(name.value) + ThreeDigits(draw)
  {
    match EmployeeCodeGenerator.YearPart(year)
    case Err(f) => Err(f)
    case Ok(yy) =>
      if name.None? then Err(Internal("projectName is null"))
      else Ok("PRJ" + yy + NamePart(name.value) + ThreeDigits(draw))
  }

  /**
   * A code generated in a four-digit year can be read back: "PRJ", two
   * digits for the year modulo 100, the uppercased name part, and three
   * digits denoting the draw.
   */
  lemma ProjectCodeLayout(name: string, year: int, draw: int)
    requires 0 <= draw < 1000 && 1000 <= year <= 9999
    ensures var code := GenerateProjectCode(Some(name), year, draw).value;
      var n := |NamePart(name)|;
      |code| == 8 + n
      && code[..3] == "PRJ"
      && (forall i :: 3 <= i < 5 ==> IsDigit(code[i])) && DigitsValue(code[3..5]) == year % 100
      && code[5..5 + n] == NamePart(name)
      && (forall i :: 5 + n <= i < 8 + n ==> IsDigit(code[i])) && DigitsValue(code[5 + n..]) == draw
  {
    EmployeeCodeGenerator.FourDigitYear(year);
    var yy := EmployeeCodeGenerator.YearPart(year).value;
    assert yy == IntToString(year)[2..];
    var code := GenerateProjectCode(Some(name), year, draw).value;
    var n := |NamePart(name)|;
    assert code == "PRJ" + yy + NamePart(name) + ThreeDigits(draw);
    assert code[3..5] == yy;
    assert code[5..5 + n] == NamePart(name);
    assert code[5 + n..] == ThreeDigits(draw);
  }

  /**
   * The collision fallback of createProject: a code already in use gets
   * "-" and the current milliseconds modulo 1000 appended, once; the new
   * code is not checked again.
   */
  function WithCollisionSuffix(projects: Projects, code: string, millis: nat): (r: string)
    ensures !ExistsByCode(projects, code) ==> r == code
    ensures ExistsByCode(projects, code) ==> r == code + "-" + IntToString(millis % 1000) && r != code
  {
    if ExistsByCode(projects, code) then code + "-" + IntToString(millis % 1000) else code
  }

  /**
   * Because the suffixed code is not checked, it can clash too: when both
   * the generated code and its suffixed form are taken, the new project
   * receives a code another project already has.
   */
  lemma SuffixedCodeCanClash(projects: Projects, code: string, millis: nat)
    requires ExistsByCode(projects, code) && ExistsByCode(projects, code + "-" + IntToString(millis % 1000))
    ensures ExistsByCode(projects, WithCollisionSuffix(projects, code, millis))
  {
  }

  /** mapToEntity: the form's fields, with PLANNED for a missing status. */
  function MapToEntity(dto: ProjectMapper.ProjectRequest): (p: Project)
    ensures p.status == Some(dto.status.UnwrapOr(PLANNED)) && p.status.Some?
    ensures p.name == dto.name && p.description == dto.description
    ensures p.startDate == dto.startDate && p.endDate == dto.endDate
    ensures p.id.None? && p.code.None? && p.projectManager.None? && p.assignmentDate.None?
  {
    ProjectMapper.BlankProject().(name := dto.name, description := dto.description,
                                  status := Some(dto.status.UnwrapOr(PLANNED)),
                                  startDate := dto.startDate, endDate := dto.endDate)
  }

  /**
   * The project createProject saves, or the failure it ends with: the
   * date guard, the code, then the manager when one is named.
   */
  function NewProject(projects: Projects, users: Users, dto: ProjectMapper.ProjectRequest,
                      year: int, draw: int, millis: nat, now: Instant): (r: Result<Project>)
    requires 0 <= draw < 1000
    ensures CheckDates(dto.startDate, dto.endDate).Fail? ==> r == Err(BusinessError(END_BEFORE_START_MESSAGE))
    ensures 1000 <= year <= 9999 && CheckDates(dto.startDate, dto.endDate).Pass? ==>
      (r.Ok? <==> dto.name.Some? && (dto.projectManagerId.Some? ==> dto.projectManagerId.value in users))
    ensures 1000 <= year <= 9999 && CheckDates(dto.startDate, dto.endDate).Pass? && dto.name.Some?
            && dto.projectManagerId.Some? && dto.projectManagerId.value !in users ==>
      r == Err(NotFound("Project manager not found: " + IdText(dto.projectManagerId)))
    ensures r.Ok? ==>
      var code := GenerateProjectCode(dto.name, year, draw);
      code.Ok?
      && r.value.code == Some(WithCollisionSuffix(projects, code.value, millis))
      && r.value == MapToEntity(dto).(code := r.value.code, createdAt := Some(now), updatedAt := Some(now),
                                      projectManager := dto.projectManagerId)
  {
    match CheckDates(dto.startDate, dto.endDate)
    case Fail(f) => Err(f)
    case Pass =>
      match GenerateProjectCode(dto.name, year, draw)
      case Err(f) => Err(f)
      case Ok(generated) =>
        var project := MapToEntity(dto).(code := Some(WithCollisionSuffix(projects, generated, millis)),
                                         createdAt := Some(now), updatedAt := Some(now));
        if dto.projectManagerId.None? then Ok(project)
        else if dto.projectManagerId.value !in users then
          Err(NotFound("Project manager not found: " + IdText(dto.projectManagerId)))
        else Ok(project.(projectManager := dto.projectManagerId))
  }

  /** A project created with a manager still has no assignment date: only an update or an assignment stamps it. */
  lemma CreatedProjectHasNoAssignmentDate(projects: Projects, users: Users, dto: ProjectMapper.ProjectRequest,
                                          year: int, draw: int, millis: nat, now: Instant)
    requires 0 <= draw < 1000
    requires NewProject(projects, users, dto, year, draw, millis, now).Ok?
    ensures NewProject(projects, users, dto, year, draw, millis, now).value.assignmentDate.None?
    ensures NewProject(projects, users, dto, year, draw, millis, now).value.status.Some?
  {
  }

  /**
   * The manager branch of updateProject: a named manager other than the
   * current one must exist and is stamped with the clock; no named manager
   * clears both the manager and the assignment date; the same manager
   * changes nothing.
   */
  function WithManagerFromRequest(users: Users, p: Project, managerId: Option<int>, now: Instant): (r: Result<Project>)
    ensures managerId.Some? && p.projectManager != managerId ==>
      (managerId.value in users ==> r == Ok(p.(projectManager := managerId, assignmentDate := Some(now))))
      && (managerId.value !in users ==> r == Err(NotFound("Project manager not found: " + IdText(managerId))))
    ensures managerId.None? ==> r == Ok(p.(projectManager := None, assignmentDate := if p.projectManager.Some? then None else p.assignmentDate))
    ensures managerId.Some? && p.projectManager == managerId ==> r == Ok(p)
  {
    if managerId.Some? && (p.projectManager.None? || p.projectManager.value != managerId.value) then
      if managerId.value in users then Ok(p.(projectManager := managerId, assignmentDate := Some(now)))
      else Err(NotFound("Project manager not found: " + IdText(managerId)))
    else if managerId.None? && p.projectManager.Some? then
      Ok(p.(projectManager := None, assignmentDate := None))
    else Ok(p)
  }

  /**
   * What updateProject saves: every form field replaces the project's,
   * null ones included, the status without a default, and then the
   * manager branch.
   */
  function UpdatedProject(users: Users, p: Project, dto: ProjectMapper.ProjectRequest, now: Instant): (r: Result<Project>)
    ensures CheckDates(dto.startDate, dto.endDate).Fail? ==> r == Err(BusinessError(END_BEFORE_START_MESSAGE))
    ensures r.Ok? ==>
      r.value.name == dto.name && r.value.description == dto.description && r.value.status == dto.status
      && r.value.startDate == dto.startDate && r.value.endDate == dto.endDate && r.value.updatedAt == Some(now)
      && r.value.id == p.id && r.value.code == p.code && r.value.createdAt == p.createdAt
      && r.value.projectManager == dto.projectManagerId
    ensures CheckDates(dto.startDate, dto.endDate).Pass? ==>
      (r.Ok? <==> dto.projectManagerId.None? || dto.projectManagerId == p.projectManager || dto.projectManagerId.value in users)
  {
    match CheckDates(dto.startDate, dto.endDate)
    case Fail(f) => Err(f)
    case Pass =>
      var fields := p.(name := dto.name, description := dto.description, status := dto.status,
                       startDate := dto.startDate, endDate := dto.endDate, updatedAt := Some(now));
      WithManagerFromRequest(users, fields, dto.projectManagerId, now)
  }

  /**
   * Submitting the same form again at a later time changes only the
   * modification time: the assignment date of a manager set by the first
   * update is kept.
   */
  lemma UpdateIsIdempotentUpToClock(users: Users, p: Project, dto: ProjectMapper.ProjectRequest, now: Instant, later: Instant)
    requires UpdatedProject(users, p, dto, now).Ok?
    ensures var once := UpdatedProject(users, p, dto, now).value;
      UpdatedProject(users, once, dto, later) == Ok(once.(updatedAt := Some(later)))
  {
  }

  /** Every team record points at a stored project. */
  predicate TeamRecordsReferToProjects(projects: Projects, assignments: Assignments)
  {
    forall aid :: aid in assignments ==> assignments[aid].project in projects
  }

  /** The projects of the active records among `rows`, in row order, repeats kept. */
  function ActiveProjectsOf(assignments: Assignments, rows: seq<int>): (r: seq<int>)
    requires forall aid :: aid in rows ==> aid in assignments
    ensures forall x :: x in r <==> exists aid :: aid in rows && IsActiveAssignment(assignments[aid]) && assignments[aid].project == x
  {
    if rows == [] then []
    else
      var first := rows[0];
      assert rows == [first] + rows[1..];
      assert first in rows;
      var rest := ActiveProjectsOf(assignments, rows[1..]);
      if IsActiveAssignment(assignments[first]) then [assignments[first].project] + rest else rest
  }

  /** No element occurs twice. */
  predicate NoDuplicates(s: seq<int>)
  {
    forall i, j :: 0 <= i < j < |s| ==> s[i] != s[j]
  }

  /** x occurs in s before the first occurrence of y. */
  predicate OccursBefore(s: seq<int>, x: int, y: int)
  {
    exists k :: 0 <= k < |s| && s[k] == x && y !in s[..k]
  }

  /** Stream.distinct(): the first occurrence of each element, in order. */
  function Distinct(s: seq<int>): (r: seq<int>)
    ensures NoDuplicates(r)
    ensures forall x :: x in r <==> x in s
    ensures |r| <= |s|
    ensures forall i, j :: 0 <= i < j < |r| ==> OccursBefore(s, r[i], r[j])
  {
    if s == [] then []
    else
      var prefix := s[..|s| - 1];
      var init := Distinct(prefix);
      var last := s[|s| - 1];
      assert forall x :: x in s <==> x in prefix || x == last by {
        assert s == prefix + [last];
      }
      assert forall k :: 0 <= k < |prefix| ==> s[k] == prefix[k] && s[..k] == prefix[..k];
      if last in init then init
      else
        var r := init + [last];
        forall i, j | 0 <= i < j < |r| ensures OccursBefore(s, r[i], r[j]) {
          if j < |init| {
            var k :| 0 <= k < |prefix| && prefix[k] == init[i] && init[j] !in prefix[..k];
            assert s[k] == r[i] && s[..k] == prefix[..k];
          } else {
            assert init[i] in prefix;
            var k :| 0 <= k < |prefix| && prefix[k] == init[i];
            assert last !in prefix;
            assert s[..k] == prefix[..k];
            assert forall x :: x in prefix[..k] ==> x in prefix;
          }
        }
        r
  }

  /** A list that has no repeats is its own distinct list. */
  lemma {:induction false} DistinctOfDistinct(s: seq<int>)
    requires NoDuplicates(s)
    ensures Distinct(s) == s
  {
    if s != [] {
      var init := s[..|s| - 1];
      DistinctOfDistinct(init);
      forall i | 0 <= i < |init|
        ensures init[i] != s[|s| - 1]
      {
        assert init[i] == s[i];
      }
      assert init + [s[|s| - 1]] == s;
    }
  }

  class ProjectServiceImpl {
    const projectRepository: ProjectStore
    const userRepository: UserStore
    const teamAssignmentRepository: TeamAssignmentStore

    constructor (projectRepository: ProjectStore, userRepository: UserStore, teamAssignmentRepository: TeamAssignmentStore)
      ensures this.projectRepository == projectRepository && this.userRepository == userRepository
      ensures this.teamAssignmentRepository == teamAssignmentRepository
    {
      this.projectRepository := projectRepository;
      this.userRepository := userRepository;
      this.teamAssignmentRepository := teamAssignmentRepository;
    }

    /**
     * createProject, with the year, the random draw, the milliseconds and
     * the clock given: on success the project is saved under a new id and
     * its view is returned; on failure nothing is written.
     */
    method CreateProject(dto: ProjectMapper.ProjectRequest, year: int, draw: int, millis: nat, now: Instant)
      returns (r: Result<ProjectMapper.ProjectResponse>)
      requires 0 <= draw < 1000
      requires projectRepository.Valid()
      modifies projectRepository
      ensures projectRepository.Valid()
      ensures var made := NewProject(old(projectRepository.projects), userRepository.users, dto, year, draw, millis, now);
        (made.Err? ==> r == Err(made.failure) && projectRepository.projects == old(projectRepository.projects))
        && (made.Ok? ==>
              var id := old(projectRepository.nextId);
              id !in old(projectRepository.projects)
              && projectRepository.projects == old(projectRepository.projects)[id := made.value.(id := Some(id))]
              && r == Ok(ProjectMapper.ToDTO(userRepository.users, Some(projectRepository.projects[id])).value))
    {
      var made := NewProject(projectRepository.projects, userRepository.users, dto, year, draw, millis, now);
      if made.Err? {
        return Err(made.failure);
      }
      var id := projectRepository.Insert(made.value);
      return Ok(ProjectMapper.ToDTO(userRepository.users, Some(projectRepository.projects[id])).value);
    }

    /** updateProject, with the clock given: the project is found, checked and overwritten, or nothing is written. */
    method UpdateProject(id: Option<int>, dto: ProjectMapper.ProjectRequest, now: Instant)
      returns (r: Result<ProjectMapper.ProjectResponse>)
      requires projectRepository.Valid()
      modifies projectRepository
      ensures projectRepository.Valid()
      ensures id.Some? && id.value !in old(projectRepository.projects) ==>
        r == Err(NotFound("Project not found: " + IdText(id)))
      ensures r.Err? ==> projectRepository.projects == old(projectRepository.projects)
      ensures id.Some? && id.value in old(projectRepository.projects) ==>
        var updated := UpdatedProject(userRepository.users, old(projectRepository.projects)[id.value], dto, now);
        (updated.Err? ==> r == Err(updated.failure))
        && (updated.Ok? ==>
              projectRepository.projects == old(projectRepository.projects)[id.value := updated.value]
              && r == Ok(ProjectMapper.ToDTO(userRepository.users, Some(updated.value)).value))
    {
      var found := FindProject(projectRepository.projects, id, "Project not found: " + IdText(id));
      if found.Err? {
        return Err(found.failure);
      }
      var key := id.value;
      var updated := UpdatedProject(userRepository.users, found.value, dto, now);
      if updated.Err? {
        return Err(updated.failure);
      }
      projectRepository.Update(updated.value);
      return Ok(ProjectMapper.ToDTO(userRepository.users, Some(updated.value)).value);
    }

    /** updateProjectStatus, with the clock given: any status, null included, is written as is. */
    method UpdateProjectStatus(id: Option<int>, status: Option<ProjectStatus>, now: Instant)
      returns (r: Result<ProjectMapper.ProjectResponse>)
      requires projectRepository.Valid()
      modifies projectRepository
      ensures projectRepository.Valid()
      ensures r.Ok? <==> id.Some? && id.value in old(projectRepository.projects)
      ensures id.Some? && id.value !in old(projectRepository.projects) ==>
        r == Err(NotFound("Project not found: " + IdText(id)))
      ensures r.Err? ==> projectRepository.projects == old(projectRepository.projects)
      ensures r.Ok? ==>
        var p := old(projectRepository.projects)[id.value];
        projectRepository.projects == old(projectRepository.projects)[id.value := p.(status := status, updatedAt := Some(now))]
        && r.value.status == status
    {
      var found := FindProject(projectRepository.projects, id, "Project not found: " + IdText(id));
      if found.Err? {
        return Err(found.failure);
      }
      var saved := found.value.(status := status, updatedAt := Some(now));
      projectRepository.Update(saved);
      return Ok(ProjectMapper.ToDTO(userRepository.users, Some(saved)).value);
    }

    /**
     * deleteProject: refused while any team record, active or not, points
     * at the project; so a deletion never leaves a team record pointing at
     * a missing project.
     */
    method DeleteProject(id: Option<int>) returns (r: Outcome)
      requires projectRepository.Valid()
      modifies projectRepository
      ensures projectRepository.Valid()
      ensures r.Pass? <==>
        id.Some? && id.value in old(projectRepository.projects)
        && FindByProjectId(teamAssignmentRepository.assignments, id.value) == {}
      ensures id.Some? && id.value !in old(projectRepository.projects) ==>
        r == Fail(NotFound("Project not found: " + IdText(id)))
      ensures id.Some? && id.value in old(projectRepository.projects)
              && FindByProjectId(teamAssignmentRepository.assignments, id.value) != {} ==>
        r == Fail(BusinessError(TEAM_NOT_EMPTY_MESSAGE))
      ensures r.Fail? ==> projectRepository.projects == old(projectRepository.projects)
      ensures r.Pass? ==> projectRepository.projects == old(projectRepository.projects) - {id.value}
      ensures TeamRecordsReferToProjects(old(projectRepository.projects), teamAssignmentRepository.assignments) ==>
        TeamRecordsReferToProjects(projectRepository.projects, teamAssignmentRepository.assignments)
    {
      var found := FindProject(projectRepository.projects, id, "Project not found: " + IdText(id));
      if found.Err? {
        return Fail(found.failure);
      }
      var key := id.value;
      var team := FindByProjectId(teamAssignmentRepository.assignments, key);
      if team != {} {
        return Fail(BusinessError(TEAM_NOT_EMPTY_MESSAGE));
      }
      projectRepository.Delete(key);
      return Pass;
    }

    /** getProjectById. */
    method GetProjectById(id: Option<int>) returns (r: Result<ProjectMapper.ProjectResponse>)
      ensures r.Ok? <==> id.Some? && id.value in projectRepository.projects
      ensures r.Ok? ==> r.value == ProjectMapper.ToDTO(userRepository.users, Some(projectRepository.projects[id.value])).value
      ensures id.Some? && id.value !in projectRepository.projects ==> r == Err(NotFound("Project not found: " + IdText(id)))
    {
      var found := FindProject(projectRepository.projects, id, "Project not found: " + IdText(id));
      if found.Err? {
        return Err(found.failure);
      }
      return Ok(ProjectMapper.ToDTO(userRepository.users, Some(found.value)).value);
    }

    /** getProjectByCode: the unique project with that code. */
    method GetProjectByCode(code: Option<string>) returns (r: Result<ProjectMapper.ProjectResponse>)
      ensures r.Ok? <==> FindByCode(projectRepository.projects, code).Unique?
      ensures r.Ok? ==> r.value.code == code
      ensures (forall id :: id in projectRepository.projects ==> projectRepository.projects[id].code != code) ==>
        r == Err(NotFound("Project not found with code: " + NullableText(code)))
    {
      match FindByCode(projectRepository.projects, code)
      case Absent =>
        return Err(NotFound("Project not found with code: " + NullableText(code)));
      case Ambiguous =>
        return Err(Internal(NON_UNIQUE_MESSAGE));
      case Unique(key) =>
        return Ok(ProjectMapper.ToDTO(userRepository.users, Some(projectRepository.projects[key])).value);
    }

    /**
     * getProjectWithTeam: the project's view and the ids of its active team
     * records.
     */
    method GetProjectWithTeam(projectId: Option<int>) returns (r: Result<(ProjectMapper.ProjectResponse, set<int>)>)
      ensures r.Ok? <==> projectId.Some? && projectId.value in projectRepository.projects
      ensures projectId.Some? && projectId.value !in projectRepository.projects ==>
        r == Err(NotFound("Project not found: " + IdText(projectId)))
      ensures r.Ok? ==>
        r.value.0 == ProjectMapper.ToDTO(userRepository.users, Some(projectRepository.projects[projectId.value])).value
        && forall aid :: aid in r.value.1 <==>
             aid in teamAssignmentRepository.assignments
             && teamAssignmentRepository.assignments[aid].project == projectId.value
             && teamAssignmentRepository.assignments[aid].active == Some(true)
    {
      var found := FindProject(projectRepository.projects, projectId, "Project not found: " + IdText(projectId));
      if found.Err? {
        return Err(found.failure);
      }
      var team := FindByProjectId(teamAssignmentRepository.assignments, projectId.value);
      var members := set aid | aid in team && IsActiveAssignment(teamAssignmentRepository.assignments[aid]);
      return Ok((ProjectMapper.ToDTO(userRepository.users, Some(found.value)).value, members));
    }

    /**
     * getProjectTeamMembers: the active team records of the project. The
     * project itself is not looked up, so an unknown or null id gives an
     * empty team.
     */
    method GetProjectTeamMembers(projectId: Option<int>) returns (members: set<int>)
      ensures forall aid :: aid in members <==>
        projectId.Some? && aid in teamAssignmentRepository.assignments
        && teamAssignmentRepository.assignments[aid].project == projectId.value
        && teamAssignmentRepository.assignments[aid].active == Some(true)
      ensures projectId.None? ==> members == {}
    {
      if projectId.None? {
        return {};
      }
      var team := FindByProjectId(teamAssignmentRepository.assignments, projectId.value);
      members := set aid | aid in team && IsActiveAssignment(teamAssignmentRepository.assignments[aid]);
    }

    /** getProjectsByManager: the projects the user manages, once the user is found. */
    method GetProjectsByManager(managerId: Option<int>) returns (r: Result<set<int>>)
      ensures r.Ok? <==> managerId.Some? && managerId.value in userRepository.users
      ensures managerId.Some? && managerId.value !in userRepository.users ==>
        r == Err(NotFound("Manager not found: " + IdText(managerId)))
      ensures r.Ok? ==> forall id :: id in r.value <==>
        id in projectRepository.projects && projectRepository.projects[id].projectManager == managerId
    {
      var manager := FindById(userRepository.users, managerId, "Manager not found: " + IdText(managerId));
      if manager.Err? {
        return Err(manager.failure);
      }
      return Ok(FindByProjectManager(projectRepository.projects, managerId.value));
    }

    /**
     * getEmployeeProjects: the projects of the employee's active team
     * records, each once, in the order of first appearance. `rows` is the
     * order in which the database lists the employee's records.
     */
    method GetEmployeeProjects(employeeId: Option<int>, rows: seq<int>) returns (r: Result<seq<int>>)
      requires employeeId.Some? ==> forall aid :: aid in rows <==>
        aid in teamAssignmentRepository.assignments && teamAssignmentRepository.assignments[aid].employee == employeeId.value
      ensures r.Ok? <==> employeeId.Some? && employeeId.value in userRepository.users
      ensures employeeId.Some? && employeeId.value !in userRepository.users ==>
        r == Err(NotFound("Employee not found: " + IdText(employeeId)))
      ensures r.Ok? ==> r.value == Distinct(ActiveProjectsOf(teamAssignmentRepository.assignments, rows))
      ensures r.Ok? ==> NoDuplicates(r.value)
      ensures r.Ok? ==> forall p :: p in r.value <==>
        (exists aid ::
           aid in teamAssignmentRepository.assignments
           && teamAssignmentRepository.assignments[aid].employee == employeeId.value
           && teamAssignmentRepository.assignments[aid].active == Some(true)
           && teamAssignmentRepository.assignments[aid].project == p)
    {
      var employee := FindById(userRepository.users, employeeId, "Employee not found: " + IdText(employeeId));
      if employee.Err? {
        return Err(employee.failure);
      }
      var assignments := teamAssignmentRepository.assignments;
      var projects := ActiveProjectsOf(assignments, rows);
      r := Ok(Distinct(projects));
    }
  }
}
