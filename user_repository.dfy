/**
 * The users table and the queries the services run against it: derived
 * finders, the status counts and filters, and the keyword searches.
 */
module UserRepository {
  import opened Wrappers
  import opened Text
  import opened SqlLike
  import opened Entities

  /** The users table, by primary key. */
  type Users = map<int, User>

  /** The string columns the derived finders compare. */
  datatype Column = UsernameColumn | EmailColumn | EmployeeCodeColumn | NationalIdColumn | ActivationTokenColumn

  function ColumnValue(u: User, c: Column): Option<string>
  {
    match c
    case UsernameColumn => u.username
    case EmailColumn => u.email
    case EmployeeCodeColumn => u.employeeCode
    case NationalIdColumn => u.nationalId
    case ActivationTokenColumn => u.activationToken
  }

  /**
   * The ids of the rows whose column equals value. A derived query given a
   * null argument compares with IS NULL, so None selects the rows whose
   * column is null.
   */
  function RowsWhere(users: Users, c: Column, value: Option<string>): (ids: set<int>)
    ensures forall id :: id in ids <==> id in users && ColumnValue(users[id], c) == value
  {
    set id | id in users && ColumnValue(users[id], c) == value
  }

  /** What a finder returning Optional yields: no row, one row, or an IncorrectResultSizeDataAccessException. */
  datatype Lookup = Absent | Unique(id: int) | Ambiguous

  function Single(ids: set<int>): (r: Lookup)
    ensures r.Absent? <==> ids == {}
    ensures r.Unique? ==> ids == {r.id}
    ensures r.Ambiguous? ==> |ids| > 1
  {
    if ids == {} then Absent
    else if |ids| == 1 then
      OnlyMember(ids);
      var id :| id in ids;
      assert forall k :: k in ids <==> k in {id};
      Unique(id)
    else Ambiguous
  }

  /** A set of one element has a member, and any two of its members are equal. */
  lemma OnlyMember(ids: set<int>)
    requires |ids| == 1
    ensures exists x :: x in ids
    ensures forall a, b :: a in ids && b in ids ==> a == b
  {
    assert (forall x :: x !in ids) ==> ids == {};
    forall a, b | a in ids && b in ids
      ensures a == b
    {
      var rest := ids - {a};
      assert |rest| == 0;
      assert b in rest || b == a;
    }
  }

  /** The message of the IncorrectResultSizeDataAccessException of a finder matching several rows. */
  const NON_UNIQUE_MESSAGE: string := "query did not return a unique result"

  /**
   * The message Spring Data's findById and existsById give a null id. The
   * repository proxy translates that IllegalArgumentException into
   * InvalidDataAccessApiUsageException, a data-access failure and no
   * IllegalArgumentException.
   */
  const NULL_ID_MESSAGE: string := "The given id must not be null"

  /**
   * findById(id).orElseThrow(() -> new ResourceNotFoundException(message)):
   * the row with that key, not-found for a missing row, and the translated
   * data-access failure for a null id.
   */
  function FindById(users: Users, id: Option<int>, notFoundMessage: string): (r: Result<User>)
    ensures r.Ok? <==> id.Some? && id.value in users
    ensures r.Ok? ==> r.value == users[id.value]
    ensures id.None? ==> r == Err(Internal(NULL_ID_MESSAGE))
    ensures id.Some? && id.value !in users ==> r == Err(NotFound(notFoundMessage))
  {
    if id.None? then Err(Internal(NULL_ID_MESSAGE))
    else if id.value in users then Ok(users[id.value])
    else Err(NotFound(notFoundMessage))
  }

  /** findByEmail, findByUsername, findByEmployeeCode, findByActivationToken. */
  function FindBy(users: Users, c: Column, value: Option<string>): (r: Lookup)
    ensures r.Unique? ==> r.id in users && ColumnValue(users[r.id], c) == value
    ensures r.Unique? ==> forall id :: id in users && id != r.id ==> ColumnValue(users[id], c) != value
    ensures r.Absent? <==> forall id :: id in users ==> ColumnValue(users[id], c) != value
  {
    var ids := RowsWhere(users, c, value);
    assert (forall id :: id in users ==> ColumnValue(users[id], c) != value) ==> ids == {} by {
      if forall id :: id in users ==> ColumnValue(users[id], c) != value {
        assert forall id :: id !in ids;
      }
    }
    Single(ids)
  }

  /** existsByEmail, existsByNationalId, existsByUsername, existsByEmployeeCode. */
  predicate ExistsBy(users: Users, c: Column, value: Option<string>)
  {
    exists id :: id in users && ColumnValue(users[id], c) == value
  }

  /** findByUsernameOrEmail(x, x): the rows whose username or email is x. */
  function FindByUsernameOrEmail(users: Users, x: string): (r: Lookup)
    ensures r.Unique? ==> r.id in users && (users[r.id].username == Some(x) || users[r.id].email == Some(x))
    ensures r.Absent? <==> forall id :: id in users ==> users[id].username != Some(x) && users[id].email != Some(x)
  {
    var ids := RowsWithUsernameOrEmail(users, x);
    assert (forall id :: id in users ==> users[id].username != Some(x) && users[id].email != Some(x)) ==> ids == {} by {
      if forall id :: id in users ==> users[id].username != Some(x) && users[id].email != Some(x) {
        assert forall id :: id !in ids;
      }
    }
    Single(ids)
  }

  function RowsWithUsernameOrEmail(users: Users, x: string): (ids: set<int>)
    ensures forall id :: id in ids <==> id in users && (users[id].username == Some(x) || users[id].email == Some(x))
  {
    set id | id in users && (users[id].username == Some(x) || users[id].email == Some(x))
  }

  /** Replacing a row by one that agrees on the compared columns leaves every finder's answer unchanged. */
  lemma FindersIgnoreOtherColumns(users: Users, id: int, u: User)
    requires id in users
    requires u.username == users[id].username && u.email == users[id].email
    requires u.employeeCode == users[id].employeeCode && u.nationalId == users[id].nationalId
    requires u.activationToken == users[id].activationToken
    ensures forall c, v :: FindBy(users[id := u], c, v) == FindBy(users, c, v)
    ensures forall x :: FindByUsernameOrEmail(users[id := u], x) == FindByUsernameOrEmail(users, x)
  {
    var updated := users[id := u];
    forall c, v ensures RowsWhere(updated, c, v) == RowsWhere(users, c, v) {
      assert ColumnValue(u, c) == ColumnValue(users[id], c);
    }
    forall x ensures RowsWithUsernameOrEmail(updated, x) == RowsWithUsernameOrEmail(users, x) {
    }
  }

  // Account status classes (countPendingUsers, countActiveUsers,
  // countDisabledUsers, countLockedUsers and findByStatus). A null `active`
  // compares as unknown in SQL, so it satisfies neither `= true` nor `= false`.

  predicate IsPending(u: User) { !u.enabled && u.activationToken.Some? }
  predicate IsActive(u: User) { u.enabled && u.active == Some(true) && u.accountNonLocked }
  predicate IsDisabled(u: User) { u.active == Some(false) && !u.enabled }
  predicate IsLocked(u: User) { !u.accountNonLocked }

  function CountPendingUsers(users: Users): nat { |set id | id in users && IsPending(users[id])| }
  function CountActiveUsers(users: Users): nat { |set id | id in users && IsActive(users[id])| }
  function CountDisabledUsers(users: Users): nat { |set id | id in users && IsDisabled(users[id])| }
  function CountLockedUsers(users: Users): nat { |set id | id in users && IsLocked(users[id])| }

  /** Whether a row belongs to the status class named by the findByStatus argument. */
  predicate HasStatus(u: User, status: Option<string>)
  {
    status.None?
    || (status == Some("PENDING") && IsPending(u))
    || (status == Some("ACTIVE") && IsActive(u))
    || (status == Some("DISABLED") && IsDisabled(u))
    || (status == Some("LOCKED") && IsLocked(u))
  }

  /** findByStatus, without paging. */
  function FindByStatus(users: Users, status: Option<string>): (ids: set<int>)
    ensures status.None? ==> ids == users.Keys
    ensures forall id :: id in ids <==> id in users && HasStatus(users[id], status)
  {
    set id | id in users && HasStatus(users[id], status)
  }

  /** Each status filter selects exactly the rows its count counts. */
  lemma StatusFilterMatchesCounts(users: Users)
    ensures |FindByStatus(users, Some("PENDING"))| == CountPendingUsers(users)
    ensures |FindByStatus(users, Some("ACTIVE"))| == CountActiveUsers(users)
    ensures |FindByStatus(users, Some("DISABLED"))| == CountDisabledUsers(users)
    ensures |FindByStatus(users, Some("LOCKED"))| == CountLockedUsers(users)
  {
    assert FindByStatus(users, Some("PENDING")) == set id | id in users && IsPending(users[id]);
    assert FindByStatus(users, Some("ACTIVE")) == set id | id in users && IsActive(users[id]);
    assert FindByStatus(users, Some("DISABLED")) == set id | id in users && IsDisabled(users[id]);
    assert FindByStatus(users, Some("LOCKED")) == set id | id in users && IsLocked(users[id]);
  }

  /** ACTIVE excludes each of the other classes; PENDING and DISABLED need not be disjoint. */
  lemma StatusClassRelations(u: User)
    ensures IsActive(u) ==> !IsPending(u) && !IsDisabled(u) && !IsLocked(u)
    ensures u.enabled ==> !IsDisabled(u) && !IsPending(u)
    ensures IsPending(u.(active := Some(false))) && IsDisabled(u.(active := Some(false))) <==> !u.enabled && u.activationToken.Some?
  {
  }

  /**
   * LOWER(column) LIKE LOWER(CONCAT('%', keyword, '%')): the keyword is a
   * LIKE pattern, so a '%' or '_' in it is a wildcard; a null column never
   * matches.
   */
  predicate LikeIgnoringCase(column: Option<string>, keyword: string)
  {
    column.Some? && Like(ToLower(column.value), ToLower(ContainsPattern(keyword)))
  }

  /** The WHERE clause of searchUsers and searchUsersWithStringDepartment. */
  predicate MatchesSearch(u: User, keyword: Option<string>, department: Option<string>, active: Option<bool>)
  {
    (keyword.None?
      || LikeIgnoringCase(u.firstName, keyword.value)
      || LikeIgnoringCase(u.lastName, keyword.value)
      || LikeIgnoringCase(u.email, keyword.value))
    && (department.None? || (u.department.Some? && u.department == department))
    && (active.None? || (u.active.Some? && u.active == active))
  }

  function SearchUsers(users: Users, keyword: Option<string>, department: Option<string>, active: Option<bool>): (ids: set<int>)
    ensures keyword.None? && department.None? && active.None? ==> ids == users.Keys
    ensures forall id :: id in ids <==> id in users && MatchesSearch(users[id], keyword, department, active)
  {
    set id | id in users && MatchesSearch(users[id], keyword, department, active)
  }

  /** The WHERE clause of searchByKeyword: first name, last name, email or department. */
  predicate MatchesKeyword(u: User, keyword: Option<string>)
  {
    keyword.None?
    || LikeIgnoringCase(u.firstName, keyword.value)
    || LikeIgnoringCase(u.lastName, keyword.value)
    || LikeIgnoringCase(u.email, keyword.value)
    || LikeIgnoringCase(u.department, keyword.value)
  }

  function SearchByKeyword(users: Users, keyword: Option<string>): (ids: set<int>)
    ensures keyword.None? ==> ids == users.Keys
    ensures forall id :: id in ids <==> id in users && MatchesKeyword(users[id], keyword)
  {
    set id | id in users && MatchesKeyword(users[id], keyword)
  }

  /**
   * The case of the keyword does not matter, and a keyword without
   * wildcards matches exactly the columns that contain it ignoring case.
   */
  lemma LikeIgnoringCaseFacts(column: Option<string>, keyword: string)
    ensures LikeIgnoringCase(column, keyword) <==> LikeIgnoringCase(column, ToLower(keyword))
    ensures Literal(keyword) ==>
      (LikeIgnoringCase(column, keyword) <==> column.Some? && Contains(ToLower(column.value), ToLower(keyword)))
  {
    LowerPattern(keyword);
    LowerPattern(ToLower(keyword));
    assert ToLower(ToLower(keyword)) == ToLower(keyword);
    if column.Some? && Literal(keyword) {
      LiteralKeywordMeansContains(ToLower(column.value), ToLower(keyword));
    }
  }

  /**
   * The empty keyword matches every non-null column; the keyword "_"
   * matches every non-empty column, whether it holds an underscore or not.
   */
  lemma EmptyAndUnderscoreKeywords(column: Option<string>)
    ensures column.Some? ==> LikeIgnoringCase(column, "")
    ensures LikeIgnoringCase(column, "_") <==> column.Some? && |column.value| >= 1
  {
    LowerPattern("");
    LowerPattern("_");
    assert ToLower("") == "" && ToLower("_") == "_";
    if column.Some? {
      var s := ToLower(column.value);
      LiteralKeywordMeansContains(s, "");
      assert OccursAt(s, "", 0);
      UnderscoreMatchesAnyCharacter(s);
    }
  }

  /** Lower-casing leaves the '%' and '_' of a pattern in place. */
  lemma LowerPattern(keyword: string)
    ensures ToLower(ContainsPattern(keyword)) == ContainsPattern(ToLower(keyword))
    ensures Literal(ToLower(keyword)) <==> Literal(keyword)
  {
    var p := ContainsPattern(keyword);
    var q := ContainsPattern(ToLower(keyword));
    assert forall i :: 1 <= i < |p| - 1 ==> p[i] == keyword[i - 1] && q[i] == ToLower(keyword)[i - 1];
  }

  /**
   * The users table. Ids come from an identity column: each insert takes
   * the next unused value.
   */
  class UserStore {
    var users: Users
    var nextId: int

    ghost predicate Valid()
      reads this
    {
      forall id :: id in users ==> users[id].id == Some(id) && id < nextId
    }

    constructor ()
      ensures Valid() && users == map[]
    {
      users := map[];
      nextId := 1;
    }

    /** save() of an entity without an id: the row gets the next id. */
    method Insert(u: User) returns (id: int)
      requires Valid()
      modifies this
      ensures Valid()
      ensures id == old(nextId) && id !in old(users)
      ensures users == old(users)[id := u.(id := Some(id))]
    {
      id := nextId;
      users := users[id := u.(id := Some(id))];
      nextId := nextId + 1;
    }

    /** save() of an entity that has an id: the row is overwritten. */
    method Update(u: User)
      requires Valid() && u.id.Some? && u.id.value in users
      modifies this
      ensures Valid()
      ensures users == old(users)[u.id.value := u]
      ensures nextId == old(nextId)
    {
      users := users[u.id.value := u];
    }

    /** saveAll() of entities that all have ids: each row is overwritten. */
    method SaveAll(rows: Users)
      requires Valid()
      requires forall id :: id in rows ==> id in users && rows[id].id == Some(id)
      modifies this
      ensures Valid()
      ensures users == old(users) + rows
      ensures nextId == old(nextId)
    {
      users := users + rows;
    }

    /** delete() / deleteById(). */
    method Delete(id: int)
      requires Valid()
      modifies this
      ensures Valid()
      ensures users == old(users) - {id}
      ensures nextId == old(nextId)
    {
      users := users - {id};
    }
  }
}
