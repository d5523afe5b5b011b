/**
 * The projects table and the queries run against it: the status sets of
 * active and inactive projects, the overdue, upcoming and unassigned
 * projects, the keyword search, and the counts by manager and by code.
 */
module ProjectRepository {
  import opened Wrappers
  import opened Text
  import opened Time
  import opened Entities
  import UserRepository

  /** The projects table, by primary key. */
  type Projects = map<int, Project>

  /** The statuses findActiveProjects asks for. */
  predicate IsActiveStatus(s: ProjectStatus)
  {
    s == PLANNED || s == IN_PROGRESS || s == ON_HOLD
  }

  /** The statuses findInactiveProjects asks for, which are also those findOverdueProjects excludes. */
  predicate IsInactiveStatus(s: ProjectStatus)
  {
    s == COMPLETED || s == CANCELLED
  }

  /** Every status is active or inactive, and none is both. */
  lemma StatusesPartition(s: ProjectStatus)
    ensures IsActiveStatus(s) != IsInactiveStatus(s)
  {
  }

  /** findByStatuses: `p.status IN :statuses`; a null status is in no list. */
  function FindByStatuses(projects: Projects, statuses: set<ProjectStatus>): (ids: set<int>)
    ensures forall id :: id in ids <==> id in projects && projects[id].status.Some? && projects[id].status.value in statuses
  {
    set id | id in projects && projects[id].status.Some? && projects[id].status.value in statuses
  }

  const ACTIVE_STATUSES: set<ProjectStatus> := {PLANNED, IN_PROGRESS, ON_HOLD}
  const INACTIVE_STATUSES: set<ProjectStatus> := {COMPLETED, CANCELLED}

  /** findActiveProjects. */
  function FindActiveProjects(projects: Projects): set<int>
  {
    FindByStatuses(projects, ACTIVE_STATUSES)
  }

  /** findInactiveProjects. */
  function FindInactiveProjects(projects: Projects): set<int>
  {
    FindByStatuses(projects, INACTIVE_STATUSES)
  }

  /**
   * The active and the inactive projects are disjoint and together are
   * exactly the projects that have a status; a project without one is in
   * neither list.
   */
  lemma ActiveAndInactivePartition(projects: Projects)
    ensures forall id :: id in FindActiveProjects(projects) <==>
      id in projects && projects[id].status.Some? && IsActiveStatus(projects[id].status.value)
    ensures forall id :: id in FindInactiveProjects(projects) <==>
      id in projects && projects[id].status.Some? && IsInactiveStatus(projects[id].status.value)
    ensures FindActiveProjects(projects) * FindInactiveProjects(projects) == {}
    ensures FindActiveProjects(projects) + FindInactiveProjects(projects) ==
      set id | id in projects && projects[id].status.Some?
  {
    var active := FindActiveProjects(projects);
    var inactive := FindInactiveProjects(projects);
    forall id | id in projects && projects[id].status.Some?
      ensures id in active + inactive
    {
      StatusesPartition(projects[id].status.value);
    }
    forall id | id in active ensures id !in inactive {
      StatusesPartition(projects[id].status.value);
    }
  }

  /**
   * The WHERE clause of findOverdueProjects(): `endDate < CURRENT_DATE AND
   * status NOT IN (COMPLETED, CANCELLED)`. A null end date or a null status
   * makes the condition unknown, so such a project is never overdue.
   */
  predicate IsOverdue(p: Project, today: Date)
  {
    p.endDate.Some? && IsBefore(p.endDate.value, today) && p.status.Some? && !IsInactiveStatus(p.status.value)
  }

  function FindOverdueProjects(projects: Projects, today: Date): (ids: set<int>)
    ensures forall id :: id in ids <==> id in projects && IsOverdue(projects[id], today)
  {
    set id | id in projects && IsOverdue(projects[id], today)
  }

  /** The WHERE clause of findUpcomingProjects(): status PLANNED and a start date after today. */
  predicate IsUpcoming(p: Project, today: Date)
  {
    p.status == Some(PLANNED) && p.startDate.Some? && IsAfter(p.startDate.value, today)
  }

  function FindUpcomingProjects(projects: Projects, today: Date): (ids: set<int>)
    ensures forall id :: id in ids <==> id in projects && IsUpcoming(projects[id], today)
  {
    set id | id in projects && IsUpcoming(projects[id], today)
  }

  /** Overdue and upcoming projects are both among the active ones. */
  lemma OverdueAndUpcomingAreActive(projects: Projects, today: Date)
    ensures FindOverdueProjects(projects, today) <= FindActiveProjects(projects)
    ensures FindUpcomingProjects(projects, today) <= FindActiveProjects(projects)
  {
    forall id | id in FindOverdueProjects(projects, today) ensures id in FindActiveProjects(projects) {
      StatusesPartition(projects[id].status.value);
    }
  }

  /** findUnassignedProjects: `projectManager IS NULL`. */
  function FindUnassignedProjects(projects: Projects): (ids: set<int>)
    ensures forall id :: id in ids <==> id in projects && projects[id].projectManager.None?
  {
    set id | id in projects && projects[id].projectManager.None?
  }

  /** The WHERE clause of searchProjects: the keyword in the name, the description or the code, ignoring case. */
  predicate MatchesProjectKeyword(p: Project, keyword: string)
  {
    UserRepository.LikeIgnoringCase(p.name, keyword)
    || UserRepository.LikeIgnoringCase(p.description, keyword)
    || UserRepository.LikeIgnoringCase(p.code, keyword)
  }

  /**
   * searchProjects. The query has no `:keyword IS NULL` escape: a null
   * keyword makes every LIKE pattern null, and nothing matches.
   */
  function SearchProjects(projects: Projects, keyword: Option<string>): (ids: set<int>)
    ensures keyword.None? ==> ids == {}
    ensures forall id :: id in ids <==> keyword.Some? && id in projects && MatchesProjectKeyword(projects[id], keyword.value)
  {
    if keyword.None? then {} else set id | id in projects && MatchesProjectKeyword(projects[id], keyword.value)
  }

  /** The empty keyword finds every project that has a name, a description or a code. */
  lemma EmptyKeywordFindsNamedProjects(projects: Projects, id: int)
    requires id in projects && projects[id].name.Some?
    ensures id in SearchProjects(projects, Some(""))
  {
    UserRepository.EmptyAndUnderscoreKeywords(projects[id].name);
  }

  /** findByProjectManager: the projects managed by that user. */
  function FindByProjectManager(projects: Projects, managerId: int): (ids: set<int>)
    ensures forall id :: id in ids <==> id in projects && projects[id].projectManager == Some(managerId)
  {
    set id | id in projects && projects[id].projectManager == Some(managerId)
  }

  /** countByProjectManager. */
  function CountByProjectManager(projects: Projects, managerId: int): nat
  {
    |FindByProjectManager(projects, managerId)|
  }

  /** A manager counts zero projects exactly when no project names them. */
  lemma CountByProjectManagerZero(projects: Projects, managerId: int)
    ensures CountByProjectManager(projects, managerId) == 0 <==>
      forall id :: id in projects ==> projects[id].projectManager != Some(managerId)
  {
    var managed := FindByProjectManager(projects, managerId);
    if managed != {} {
      NonEmptyHasMember(managed);
    }
  }

  /** existsByCode. */
  predicate ExistsByCode(projects: Projects, code: string)
  {
    exists id :: id in projects && projects[id].code == Some(code)
  }

  /** findByStatus: a derived query, so a null status selects the projects without one. */
  function FindByStatus(projects: Projects, status: Option<ProjectStatus>): (ids: set<int>)
    ensures forall id :: id in ids <==> id in projects && projects[id].status == status
  {
    set id | id in projects && projects[id].status == status
  }

  /** countProjectsByStatus / countByStatus. */
  function CountByStatus(projects: Projects, status: Option<ProjectStatus>): nat
  {
    |FindByStatus(projects, status)|
  }

  /** The projects with a given status are active ones exactly when the status is an active one. */
  lemma StatusQueriesAgree(projects: Projects, status: ProjectStatus)
    ensures IsActiveStatus(status) ==> FindByStatus(projects, Some(status)) <= FindActiveProjects(projects)
    ensures IsInactiveStatus(status) ==> FindByStatus(projects, Some(status)) <= FindInactiveProjects(projects)
    ensures FindByStatus(projects, Some(status)) * FindActiveProjects(projects) == {} ||
            FindByStatus(projects, Some(status)) * FindInactiveProjects(projects) == {}
  {
    StatusesPartition(status);
    if IsActiveStatus(status) {
      forall id | id in FindByStatus(projects, Some(status)) ensures id !in FindInactiveProjects(projects) {
        StatusesPartition(projects[id].status.value);
      }
    } else {
      forall id | id in FindByStatus(projects, Some(status)) ensures id !in FindActiveProjects(projects) {
        StatusesPartition(projects[id].status.value);
      }
    }
  }

  /** The ids of the projects whose code is that value (IS NULL for a null argument). */
  function RowsWithCode(projects: Projects, code: Option<string>): (ids: set<int>)
    ensures forall id :: id in ids <==> id in projects && projects[id].code == code
  {
    set id | id in projects && projects[id].code == code
  }

  /** findByCode: the code column carries no unique constraint, so two matches make the query fail. */
  function FindByCode(projects: Projects, code: Option<string>): (r: UserRepository.Lookup)
    ensures r.Unique? ==> r.id in projects && projects[r.id].code == code
    ensures r.Unique? ==> forall id :: id in projects && id != r.id ==> projects[id].code != code
    ensures r.Absent? <==> forall id :: id in projects ==> projects[id].code != code
  {
    var ids := RowsWithCode(projects, code);
    assert (forall id :: id in projects ==> projects[id].code != code) ==> ids == {} by {
      if forall id :: id in projects ==> projects[id].code != code {
        assert forall id :: id !in ids;
      }
    }
    UserRepository.Single(ids)
  }

  /** The projects table. Ids come from an identity column. */
  class ProjectStore {
    var projects: Projects
    var nextId: int

    ghost predicate Valid()
      reads this
    {
      forall id :: id in projects ==> projects[id].id == Some(id) && id < nextId
    }

    constructor ()
      ensures Valid() && projects == map[]
    {
      projects := map[];
      nextId := 1;
    }

    /** save() of a project without an id: the row gets the next id. */
    method Insert(p: Project) returns (id: int)
      requires Valid()
      modifies this
      ensures Valid()
      ensures id == old(nextId) && id !in old(projects)
      ensures projects == old(projects)[id := p.(id := Some(id))]
    {
      id := nextId;
      projects := projects[id := p.(id := Some(id))];
      nextId := nextId + 1;
    }

    /** save() of a project that has an id: the row is overwritten. */
    method Update(p: Project)
      requires Valid() && p.id.Some? && p.id.value in projects
      modifies this
      ensures Valid()
      ensures projects == old(projects)[p.id.value := p]
      ensures nextId == old(nextId)
    {
      projects := projects[p.id.value := p];
    }

    /** delete(). */
    method Delete(id: int)
      requires Valid()
      modifies this
      ensures Valid()
      ensures projects == old(projects) - {id}
      ensures nextId == old(nextId)
    {
      projects := projects - {id};
    }
  }
}
