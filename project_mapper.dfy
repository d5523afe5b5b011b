/**
 * Conversions between the project request form, the project entity and
 * the project view. The partial update returns the updated entity, which
 * the caller saves.
 */
module ProjectMapper {
  import opened Wrappers
  import opened Text
  import opened Time
  import opened Entities
  import opened UserRepository
  import UserMapper

  /** ProjectRequestDTO. */
  datatype ProjectRequest = ProjectRequest(
    name: Option<string>,
    description: Option<string>,
    status: Option<ProjectStatus>,
    startDate: Option<Date>,
    endDate: Option<Date>,
    projectManagerId: Option<int>)

  /** ProjectResponseDTO. */
  datatype ProjectResponse = ProjectResponse(
    id: Option<int>,
    code: Option<string>,
    name: Option<string>,
    description: Option<string>,
    status: Option<ProjectStatus>,
    startDate: Option<Date>,
    endDate: Option<Date>,
    assignmentDate: Option<Instant>,
    createdAt: Option<Instant>,
    updatedAt: Option<Instant>,
    projectManagerName: Option<string>,
    projectManagerEmail: Option<string>)

  /** A project created with `new Project()`: every field null. */
  function BlankProject(): (p: Project)
    ensures p.id.None? && p.code.None? && p.projectManager.None?
  {
    Project(None, None, None, None, None, None, None, None, None, None, None)
  }

  /**
   * toEntity: null for a null form; otherwise a new project holding the
   * name, description, status and dates, with no code, id or manager.
   */
  function ToEntity(dto: Option<ProjectRequest>): (p: Option<Project>)
    ensures p.None? <==> dto.None?
    ensures p.Some? ==>
      var d := dto.value;
      p.value.name == d.name && p.value.description == d.description && p.value.status == d.status
      && p.value.startDate == d.startDate && p.value.endDate == d.endDate
      && p.value.code.None? && p.value.id.None? && p.value.projectManager.None? && p.value.assignmentDate.None?
  {
    match dto
    case None => None
    case Some(d) =>
      Some(BlankProject().(name := d.name, description := d.description, status := d.status,
                           startDate := d.startDate, endDate := d.endDate))
  }

  /**
   * toDTO: null for a null project; otherwise every column, and the
   * manager's "firstName lastName" and email only when a manager is set.
   * The manager is read from the users table; a relation always names a
   * stored user.
   */
  function ToDTO(users: Users, p: Option<Project>): (r: Option<ProjectResponse>)
    ensures r.None? <==> p.None?
    ensures r.Some? ==>
      var v := p.value;
      r.value.id == v.id && r.value.code == v.code && r.value.name == v.name && r.value.status == v.status
      && r.value.description == v.description && r.value.startDate == v.startDate && r.value.endDate == v.endDate
      && r.value.assignmentDate == v.assignmentDate && r.value.createdAt == v.createdAt && r.value.updatedAt == v.updatedAt
      && (r.value.projectManagerName.Some? <==> v.projectManager.Some? && v.projectManager.value in users)
      && (r.value.projectManagerEmail.Some? ==> v.projectManager.Some? && v.projectManager.value in users)
    ensures r.Some? && p.value.projectManager.Some? && p.value.projectManager.value in users ==>
      var m := users[p.value.projectManager.value];
      r.value.projectManagerName == Some(NullableText(m.firstName) + " " + NullableText(m.lastName))
      && r.value.projectManagerEmail == m.email
  {
    match p
    case None => None
    case Some(v) =>
      var manager := if v.projectManager.Some? && v.projectManager.value in users then Some(users[v.projectManager.value]) else None;
      Some(ProjectResponse(v.id, v.code, v.name, v.description, v.status, v.startDate, v.endDate,
                           v.assignmentDate, v.createdAt, v.updatedAt,
                           if manager.Some? then Some(NullableText(manager.value.firstName) + " " + NullableText(manager.value.lastName)) else None,
                           if manager.Some? then manager.value.email else None))
  }

  /**
   * updateEntityFromDto: each non-null form field replaces the project's;
   * the code, id, manager and timestamps are never touched, and a null form
   * or a null project leaves everything as it was.
   */
  function UpdateEntityFromDto(dto: Option<ProjectRequest>, p: Option<Project>): (r: Option<Project>)
    ensures p.None? ==> r.None?
    ensures dto.None? ==> r == p
    ensures r.Some? ==>
      r.value.code == p.value.code && r.value.id == p.value.id && r.value.projectManager == p.value.projectManager
      && r.value.assignmentDate == p.value.assignmentDate
      && r.value.createdAt == p.value.createdAt && r.value.updatedAt == p.value.updatedAt
    ensures dto.Some? && r.Some? ==>
      var d := dto.value;
      (d.name.Some? ==> r.value.name == d.name) && (d.name.None? ==> r.value.name == p.value.name)
      && (d.description.Some? ==> r.value.description == d.description) && (d.description.None? ==> r.value.description == p.value.description)
      && (d.status.Some? ==> r.value.status == d.status) && (d.status.None? ==> r.value.status == p.value.status)
      && (d.startDate.Some? ==> r.value.startDate == d.startDate) && (d.startDate.None? ==> r.value.startDate == p.value.startDate)
      && (d.endDate.Some? ==> r.value.endDate == d.endDate) && (d.endDate.None? ==> r.value.endDate == p.value.endDate)
  {
    if dto.None? || p.None? then p
    else
      var d := dto.value;
      var v := p.value;
      Some(v.(name := UserMapper.Overwrite(d.name, v.name),
              description := UserMapper.Overwrite(d.description, v.description),
              status := UserMapper.Overwrite(d.status, v.status),
              startDate := UserMapper.Overwrite(d.startDate, v.startDate),
              endDate := UserMapper.Overwrite(d.endDate, v.endDate)))
  }

  /**
   * The partial update is idempotent, and updating any project with a full
   * form gives what toEntity builds from that form, apart from the columns
   * toEntity leaves empty.
   */
  lemma UpdateFromDtoProperties(dto: ProjectRequest, p: Project)
    ensures UpdateEntityFromDto(Some(dto), UpdateEntityFromDto(Some(dto), Some(p))) == UpdateEntityFromDto(Some(dto), Some(p))
    ensures dto.name.Some? && dto.description.Some? && dto.status.Some? && dto.startDate.Some? && dto.endDate.Some? ==>
      UpdateEntityFromDto(Some(dto), Some(p)).value ==
        ToEntity(Some(dto)).value.(id := p.id, code := p.code, assignmentDate := p.assignmentDate,
                                   projectManager := p.projectManager, createdAt := p.createdAt, updatedAt := p.updatedAt)
  {
  }
}
