/**
 * loadUserByUsername: the identifier a client signs in with may be a
 * username, an email or an employee code, tried in that order.
 */
module CustomUserDetailsService {
  import opened Wrappers
  import opened Entities
  import opened UserRepository

  /**
   * The Spring Security principal built from an account. Its constructor
   * keeps the authorities as a sorted set: no order of its own and no
   * duplicates.
   */
  datatype Principal = Principal(
    username: string,
    password: PasswordHash,
    enabled: bool,
    accountNonExpired: bool,
    credentialsNonExpired: bool,
    accountNonLocked: bool,
    authorities: set<string>)

  /** The id of a finder's single row; two or more rows raise IncorrectResultSizeDataAccessException. */
  function FoundOrElse(l: Lookup, otherwise: Result<int>): (r: Result<int>)
    ensures l.Unique? ==> r == Ok(l.id)
    ensures l.Absent? ==> r == otherwise
  {
    match l
    case Unique(id) => Ok(id)
    case Ambiguous => Err(Internal(NON_UNIQUE_MESSAGE))
    case Absent => otherwise
  }

  /** findByUsername, else findByEmail, else findByEmployeeCode, else UsernameNotFoundException. */
  function ResolveIdentifier(users: Users, name: string): (r: Result<int>)
    ensures r.Ok? ==> r.value in users
    ensures r.Ok? ==>
      users[r.value].username == Some(name)
      || users[r.value].email == Some(name)
      || users[r.value].employeeCode == Some(name)
    ensures r.Err? && r.failure.UsernameNotFound? <==>
      (forall id :: id in users ==>
        users[id].username != Some(name) && users[id].email != Some(name) && users[id].employeeCode != Some(name))
  {
    FoundOrElse(FindBy(users, UsernameColumn, Some(name)),
      FoundOrElse(FindBy(users, EmailColumn, Some(name)),
        FoundOrElse(FindBy(users, EmployeeCodeColumn, Some(name)),
          Err(UsernameNotFound("User not found with identifier: " + name)))))
  }

  /** A username match wins over any email or employee-code match; an email match wins over an employee-code match. */
  lemma {:induction false} UsernameThenEmailThenCode(users: Users, name: string, id: int)
    requires id in users
    ensures users[id].username == Some(name)
            && (forall k :: k in users && k != id ==> users[k].username != Some(name))
            ==> ResolveIdentifier(users, name) == Ok(id)
    ensures (forall k :: k in users ==> users[k].username != Some(name))
            && users[id].email == Some(name)
            && (forall k :: k in users && k != id ==> users[k].email != Some(name))
            ==> ResolveIdentifier(users, name) == Ok(id)
    ensures (forall k :: k in users ==> users[k].username != Some(name) && users[k].email != Some(name))
            && users[id].employeeCode == Some(name)
            && (forall k :: k in users && k != id ==> users[k].employeeCode != Some(name))
            ==> ResolveIdentifier(users, name) == Ok(id)
  {
    var byUsername := RowsWhere(users, UsernameColumn, Some(name));
    var byEmail := RowsWhere(users, EmailColumn, Some(name));
    var byCode := RowsWhere(users, EmployeeCodeColumn, Some(name));
    if users[id].username == Some(name) && (forall k :: k in users && k != id ==> users[k].username != Some(name)) {
      assert byUsername == {id};
    }
    if (forall k :: k in users ==> users[k].username != Some(name))
       && users[id].email == Some(name)
       && (forall k :: k in users && k != id ==> users[k].email != Some(name)) {
      assert byEmail == {id};
    }
    if (forall k :: k in users ==> users[k].username != Some(name) && users[k].email != Some(name))
       && users[id].employeeCode == Some(name)
       && (forall k :: k in users && k != id ==> users[k].employeeCode != Some(name)) {
      assert byCode == {id};
    }
  }

  /**
   * The role names as authorities, without a ROLE_ prefix, collected into
   * the principal's set: a role listed twice gives one authority.
   */
  function RoleNameAuthorities(roles: seq<RoleName>): (r: set<string>)
    ensures forall n: RoleName :: RoleNameText(n) in r <==> n in roles
    ensures forall a :: a in r ==> exists i :: 0 <= i < |roles| && a == RoleNameText(roles[i])
    ensures |r| <= |roles|
  {
    if roles == [] then {}
    else
      var rest := RoleNameAuthorities(roles[1..]);
      assert forall a :: a in rest ==> exists i :: 0 <= i < |roles| && a == RoleNameText(roles[i]) by {
        forall a | a in rest ensures exists i :: 0 <= i < |roles| && a == RoleNameText(roles[i]) {
          var j :| 0 <= j < |roles[1..]| && a == RoleNameText(roles[1..][j]);
          assert roles[j + 1] == roles[1..][j];
        }
      }
      assert forall n: RoleName :: n in roles <==> n == roles[0] || n in roles[1..];
      rest + {RoleNameText(roles[0])}
  }

  /**
   * loadUserByUsername: resolve the identifier, refuse a disabled account,
   * and build the principal. A null role collection is a
   * NullPointerException; the principal constructor rejects a null or empty
   * username and a null password with IllegalArgumentException.
   */
  function LoadUserByUsername(users: Users, name: string): (r: Result<Principal>)
    ensures r.Ok? ==> ResolveIdentifier(users, name).Ok?
    ensures r.Ok? ==>
      var u := users[ResolveIdentifier(users, name).value];
      u.enabled
      && u.username == Some(r.value.username) && r.value.username != ""
      && u.passwordHash == Some(r.value.password)
      && r.value.enabled
      && r.value.accountNonExpired == u.accountNonExpired
      && r.value.credentialsNonExpired == u.credentialsNonExpired
      && r.value.accountNonLocked == u.accountNonLocked
      && u.roles.Some? && r.value.authorities == RoleNameAuthorities(u.roles.value)
    ensures ResolveIdentifier(users, name).Ok? && !users[ResolveIdentifier(users, name).value].enabled
            ==> r == Err(UsernameNotFound("User account is disabled: " + name))
    ensures ResolveIdentifier(users, name).Err? ==> r == Err(ResolveIdentifier(users, name).failure)
  {
    match ResolveIdentifier(users, name)
    case Err(f) => Err(f)
    case Ok(id) =>
      var u := users[id];
      if !u.enabled then Err(UsernameNotFound("User account is disabled: " + name))
      else if u.roles.None? then Err(Internal("user.getRoles() is null"))
      else if u.username.None? || u.username.value == "" then Err(IllegalArgument("Cannot pass null or empty values to constructor"))
      else if u.passwordHash.None? then Err(IllegalArgument("Cannot pass null or empty values to constructor"))
      else Ok(Principal(u.username.value, u.passwordHash.value, u.enabled, u.accountNonExpired,
                        u.credentialsNonExpired, u.accountNonLocked, RoleNameAuthorities(u.roles.value)))
  }

  /**
   * Signing in by email or employee code yields a principal named by the
   * account's username, not by the identifier given.
   */
  lemma PrincipalIsNamedByUsername(users: Users, name: string, id: int)
    requires id in users
    requires forall k :: k in users ==> users[k].username != Some(name)
    requires users[id].email == Some(name)
    requires forall k :: k in users && k != id ==> users[k].email != Some(name)
    ensures LoadUserByUsername(users, name).Ok? ==> Some(LoadUserByUsername(users, name).value.username) == users[id].username
    ensures LoadUserByUsername(users, name).Ok? ==> LoadUserByUsername(users, name).value.username != name
  {
    UsernameThenEmailThenCode(users, name, id);
  }
}
