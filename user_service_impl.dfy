/**
 * The user administration service: creating a user from a request form
 * (with a generated employee code), reading, updating and deleting users,
 * and the business rules both creation and update enforce. The current
 * date, the year and the random UUID text are parameters.
 */
module UserServiceImpl {
  import opened Wrappers
  import opened Text
  import opened Time
  import opened Entities
  import opened UserRepository
  import opened RegisterRequestDTO
  import UserMapper
  import EmployeeCodeGenerator

  const CDD_END_DATE_MESSAGE: string := "Contract end date is required for CDD contracts"
  const FUTURE_BIRTH_DATE_MESSAGE: string := "Birth date cannot be in the future"
  const NEGATIVE_SALARY_MESSAGE: string := "Base salary cannot be negative"
  const SCORE_RANGE_MESSAGE: string := "Evaluation score must be between 1 and 5"

  /** `findBy...(v).isPresent()`: a query matching several rows throws instead of answering. */
  function IsPresent(l: Lookup): (r: Result<bool>)
    ensures r.Err? <==> l.Ambiguous?
    ensures r.Ok? ==> (r.value <==> l.Unique?)
  {
    match l
    case Absent => Ok(false)
    case Unique(_) => Ok(true)
    case Ambiguous => Err(Internal(NON_UNIQUE_MESSAGE))
  }

  /** The uniqueness test of an email or national id: fails when some row already holds the value. */
  function CheckNotTaken(users: Users, c: Column, value: Option<string>, message: string): (r: Outcome)
    ensures r.Pass? <==> forall id :: id in users ==> ColumnValue(users[id], c) != value
    ensures r.Fail? && FindBy(users, c, value).Unique? ==> r == Fail(IllegalArgument(message))
  {
    match IsPresent(FindBy(users, c, value))
    case Err(f) => Fail(f)
    case Ok(present) => if present then Fail(IllegalArgument(message)) else Pass
  }

  /** The checks the two rule sets share, in the order both run them: birth date, then salary. */
  function CheckBirthDateAndSalary(dto: UserForm, today: Date): (r: Outcome)
    ensures r.Pass? <==>
      (dto.birthDate.None? || !IsAfter(dto.birthDate.value, today)) && (dto.baseSalary.None? || dto.baseSalary.value >= 0)
    ensures dto.birthDate.Some? && IsAfter(dto.birthDate.value, today) ==> r == Fail(IllegalArgument(FUTURE_BIRTH_DATE_MESSAGE))
    ensures r.Fail? ==> r.failure.IllegalArgument?
  {
    if dto.birthDate.Some? && IsAfter(dto.birthDate.value, today) then Fail(IllegalArgument(FUTURE_BIRTH_DATE_MESSAGE))
    else if dto.baseSalary.Some? && dto.baseSalary.value < 0 then Fail(IllegalArgument(NEGATIVE_SALARY_MESSAGE))
    else Pass
  }

  /**
   * validateBusinessRulesForCreate: the email is not in use (a null email
   * is looked up as IS NULL), the national id is not in use when given, a
   * CDD contract has an end date, then the birth date and the salary.
   */
  function CheckCreate(users: Users, dto: UserForm, today: Date): (r: Outcome)
    ensures r.Pass? <==>
      (forall id :: id in users ==> users[id].email != dto.email)
      && (dto.nationalId.Some? ==> forall id :: id in users ==> users[id].nationalId != dto.nationalId)
      && !(dto.contractType == Some(CDD) && dto.contractEndDate.None?)
      && CheckBirthDateAndSalary(dto, today).Pass?
    ensures FindBy(users, EmailColumn, dto.email).Unique? ==>
      r == Fail(IllegalArgument("Email already exists: " + NullableText(dto.email)))
    ensures (forall id :: id in users ==> users[id].email != dto.email)
            && (dto.nationalId.Some? ==> forall id :: id in users ==> users[id].nationalId != dto.nationalId)
            && dto.contractType == Some(CDD) && dto.contractEndDate.None? ==>
      r == Fail(IllegalArgument(CDD_END_DATE_MESSAGE))
  {
    match CheckNotTaken(users, EmailColumn, dto.email, "Email already exists: " + NullableText(dto.email))
    case Fail(f) => Fail(f)
    case Pass =>
      var national := if dto.nationalId.Some? then
        CheckNotTaken(users, NationalIdColumn, dto.nationalId, "National ID already exists: " + NullableText(dto.nationalId))
      else Pass;
      match national
      case Fail(f) => Fail(f)
      case Pass =>
        if dto.contractType == Some(CDD) && dto.contractEndDate.None? then Fail(IllegalArgument(CDD_END_DATE_MESSAGE))
        else CheckBirthDateAndSalary(dto, today)
  }

  /**
   * validateBusinessRulesForUpdate: uniqueness is tested only for a value
   * that differs from the user's own; a CDD form may omit the end date only
   * when the user already is on a CDD with an end date; the score must lie
   * in 1..5 when given.
   */
  function CheckUpdate(users: Users, existing: User, dto: UserForm, today: Date): (r: Outcome)
    ensures r.Pass? <==>
      (dto.email.Some? && dto.email != existing.email ==> forall id :: id in users ==> users[id].email != dto.email)
      && (dto.nationalId.Some? && dto.nationalId != existing.nationalId ==>
            forall id :: id in users ==> users[id].nationalId != dto.nationalId)
      && !(dto.contractType == Some(CDD) && dto.contractEndDate.None?
           && (existing.contractType != Some(CDD) || existing.contractEndDate.None?))
      && CheckBirthDateAndSalary(dto, today).Pass?
      && (dto.evaluationScore.None? || 1 <= dto.evaluationScore.value <= 5)
    ensures r.Fail? ==> r.failure.IllegalArgument? || r.failure == Internal(NON_UNIQUE_MESSAGE)
  {
    var email := if dto.email.Some? && dto.email != existing.email then
      CheckNotTaken(users, EmailColumn, dto.email, "Email already exists: " + NullableText(dto.email))
    else Pass;
    match email
    case Fail(f) => Fail(f)
    case Pass =>
      var national := if dto.nationalId.Some? && dto.nationalId != existing.nationalId then
        CheckNotTaken(users, NationalIdColumn, dto.nationalId, "National ID already exists: " + NullableText(dto.nationalId))
      else Pass;
      match national
      case Fail(f) => Fail(f)
      case Pass =>
        if dto.contractType == Some(CDD) && dto.contractEndDate.None?
           && (existing.contractType != Some(CDD) || existing.contractEndDate.None?) then
          Fail(IllegalArgument(CDD_END_DATE_MESSAGE))
        else
          match CheckBirthDateAndSalary(dto, today)
          case Fail(f) => Fail(f)
          case Pass =>
            if dto.evaluationScore.Some? && (dto.evaluationScore.value < 1 || dto.evaluationScore.value > 5) then
              Fail(IllegalArgument(SCORE_RANGE_MESSAGE))
            else Pass
  }

  /**
   * The update rules are no stricter than the creation rules: a form that
   * could create a user, with a score in range, may update any user.
   */
  lemma CreateRulesImplyUpdateRules(users: Users, existing: User, dto: UserForm, today: Date)
    requires CheckCreate(users, dto, today).Pass?
    requires dto.evaluationScore.None? || 1 <= dto.evaluationScore.value <= 5
    ensures CheckUpdate(users, existing, dto, today).Pass?
  {
  }

  /** A user resubmitting their own email and national id never trips the uniqueness checks. */
  lemma OwnValuesPassUniqueness(users: Users, existing: User, dto: UserForm, today: Date)
    requires dto.email == existing.email && dto.nationalId == existing.nationalId
    requires dto.contractType != Some(CDD) && dto.birthDate.None? && dto.baseSalary.None? && dto.evaluationScore.None?
    ensures CheckUpdate(users, existing, dto, today).Pass?
  {
  }

  /**
   * updateEntityFromDTO of the service: every non-null form field replaces
   * the user's, the email included; a given score also stamps today's date
   * as the evaluation date. The employee code, password, username, roles,
   * managers, account flags and description are never touched.
   */
  function UpdatedFromRequest(u: User, dto: UserForm, today: Date): (r: User)
    ensures UserMapper.ProfileUpdated(dto, u, r)
    ensures UserMapper.Replaced(dto.email, u.email, r.email)
    ensures dto.evaluationScore.Some? ==> r.evaluationDate == Some(today)
    ensures dto.evaluationScore.None? ==> r.evaluationDate == u.evaluationDate
    ensures r.description == u.description
    ensures UserMapper.KeepsAccount(u, r)
  {
    u.(
      firstName := UserMapper.Overwrite(dto.firstName, u.firstName),
      lastName := UserMapper.Overwrite(dto.lastName, u.lastName),
      birthDate := UserMapper.Overwrite(dto.birthDate, u.birthDate),
      gender := UserMapper.Overwrite(dto.gender, u.gender),
      nationalId := UserMapper.Overwrite(dto.nationalId, u.nationalId),
      nationality := UserMapper.Overwrite(dto.nationality, u.nationality),
      maritalStatus := UserMapper.Overwrite(dto.maritalStatus, u.maritalStatus),
      email := UserMapper.Overwrite(dto.email, u.email),
      phone := UserMapper.Overwrite(dto.phone, u.phone),
      address := UserMapper.Overwrite(dto.address, u.address),
      jobTitle := UserMapper.Overwrite(dto.jobTitle, u.jobTitle),
      department := UserMapper.Overwrite(dto.department, u.department),
      service := UserMapper.Overwrite(dto.service, u.service),
      hireDate := UserMapper.Overwrite(dto.hireDate, u.hireDate),
      contractType := UserMapper.Overwrite(dto.contractType, u.contractType),
      contractEndDate := UserMapper.Overwrite(dto.contractEndDate, u.contractEndDate),
      baseSalary := UserMapper.Overwrite(dto.baseSalary, u.baseSalary),
      housingAllowance := UserMapper.Overwrite(dto.housingAllowance, u.housingAllowance),
      evaluationScore := UserMapper.Overwrite(dto.evaluationScore, u.evaluationScore),
      evaluationDate := if dto.evaluationScore.Some? then Some(today) else u.evaluationDate,
      active := UserMapper.Overwrite(dto.active, u.active),
      socialSecurityNumber := UserMapper.Overwrite(dto.socialSecurityNumber, u.socialSecurityNumber),
      childrenCount := UserMapper.Overwrite(dto.childrenCount, u.childrenCount))
  }

  /**
   * The service's update differs from the mapper's partial update only in
   * the email, the evaluation date and the description (which the request
   * form does not carry).
   */
  lemma ServiceUpdateAgreesWithMapper(u: User, dto: UserForm, today: Date)
    ensures UpdatedFromRequest(u, dto, today) ==
      UserMapper.UpdateEntityFromForm(dto.(description := None), u).(
        email := UserMapper.Overwrite(dto.email, u.email),
        evaluationDate := if dto.evaluationScore.Some? then Some(today) else u.evaluationDate)
  {
  }

  /** No two users share an email (users without one aside). */
  predicate UniqueEmails(users: Users)
  {
    forall a, b :: a in users && b in users && a != b && users[a].email.Some? ==> users[a].email != users[b].email
  }

  /** An update that passes the rules keeps emails unique. */
  lemma UpdateKeepsEmailsUnique(users: Users, id: int, dto: UserForm, today: Date)
    requires UniqueEmails(users) && id in users
    requires CheckUpdate(users, users[id], dto, today).Pass?
    ensures UniqueEmails(users[id := UpdatedFromRequest(users[id], dto, today)])
  {
    var after := users[id := UpdatedFromRequest(users[id], dto, today)];
    forall a, b | a in after && b in after && a != b && after[a].email.Some?
      ensures after[a].email != after[b].email
    {
      if a == id || b == id {
        var other := if a == id then b else a;
        assert after[other] == users[other];
        if dto.email.Some? && dto.email != users[id].email {
          assert users[other].email != dto.email;
        }
      }
    }
  }

  /** A creation that passes the rules keeps emails unique, whatever id the new row gets. */
  lemma CreateKeepsEmailsUnique(users: Users, id: int, u: User, dto: UserForm, today: Date)
    requires UniqueEmails(users) && id !in users
    requires CheckCreate(users, dto, today).Pass? && u.email == dto.email
    ensures UniqueEmails(users[id := u])
  {
    var after := users[id := u];
    forall a, b | a in after && b in after && a != b && after[a].email.Some?
      ensures after[a].email != after[b].email
    {
      if a == id {
        assert after[b] == users[b];
      } else if b == id {
        assert after[a] == users[a];
      }
    }
  }

  /**
   * The user createUser saves: the form mapped to an entity with the
   * generated employee code, or the failure of the rules or of the code.
   */
  function NewUser(users: Users, dto: UserForm, today: Date, year: int, uuid: string): (r: Result<User>)
    requires |uuid| >= 4
    ensures CheckCreate(users, dto, today).Fail? ==> r == Err(CheckCreate(users, dto, today).failure)
    ensures r.Ok? ==>
      CheckCreate(users, dto, today).Pass?
      && EmployeeCodeGenerator.GenerateEmployeeCodeForUser(UserMapper.ToEntity(dto), year, uuid).Ok?
      && r.value == UserMapper.ToEntity(dto).(employeeCode :=
           Some(EmployeeCodeGenerator.GenerateEmployeeCodeForUser(UserMapper.ToEntity(dto), year, uuid).value))
  {
    match CheckCreate(users, dto, today)
    case Fail(f) => Err(f)
    case Pass =>
      var user := UserMapper.ToEntity(dto);
      match EmployeeCodeGenerator.GenerateEmployeeCodeForUser(user, year, uuid)
      case Err(f) => Err(f)
      case Ok(code) => Ok(user.(employeeCode := Some(code)))
  }

  class UserServiceImpl {
    const userRepository: UserStore

    constructor (userRepository: UserStore)
      ensures this.userRepository == userRepository
    {
      this.userRepository := userRepository;
    }

    /**
     * createUser, with today's date, the year and the UUID text given: on
     * success the user is saved under a new id and its view returned; on
     * failure nothing is written. Unique emails stay unique.
     */
    method CreateUser(dto: UserForm, today: Date, year: int, uuid: string) returns (r: Result<UserMapper.UserResponse>)
      requires |uuid| >= 4
      requires userRepository.Valid()
      modifies userRepository
      ensures userRepository.Valid()
      ensures var made := NewUser(old(userRepository.users), dto, today, year, uuid);
        (made.Err? ==> r == Err(made.failure) && userRepository.users == old(userRepository.users))
        && (made.Ok? ==>
              var id := old(userRepository.nextId);
              id !in old(userRepository.users)
              && userRepository.users == old(userRepository.users)[id := made.value.(id := Some(id))]
              && r == Ok(UserMapper.ToResponseDTO(Some(userRepository.users[id])).value))
      ensures UniqueEmails(old(userRepository.users)) ==> UniqueEmails(userRepository.users)
    {
      var made := NewUser(userRepository.users, dto, today, year, uuid);
      if made.Err? {
        return Err(made.failure);
      }
      ghost var before := userRepository.users;
      var id := userRepository.Insert(made.value);
      if UniqueEmails(before) {
        CreateKeepsEmailsUnique(before, id, made.value.(id := Some(id)), dto, today);
      }
      return Ok(UserMapper.ToResponseDTO(Some(userRepository.users[id])).value);
    }

    /** getUserById. */
    method GetUserById(id: Option<int>) returns (r: Result<UserMapper.UserResponse>)
      ensures r.Ok? <==> id.Some? && id.value in userRepository.users
      ensures r.Ok? ==> r.value == UserMapper.ToResponseDTO(Some(userRepository.users[id.value])).value
      ensures id.None? ==> r == Err(Internal(NULL_ID_MESSAGE))
      ensures id.Some? && id.value !in userRepository.users ==> r == Err(NotFound("User not found with id: " + IdText(id)))
    {
      var found := FindById(userRepository.users, id, "User not found with id: " + IdText(id));
      if found.Err? {
        return Err(found.failure);
      }
      return Ok(UserMapper.ToResponseDTO(Some(found.value)).value);
    }

    /** getAllUsers: the view of every row, by id. */
    method GetAllUsers() returns (views: map<int, UserMapper.UserResponse>)
      ensures views.Keys == userRepository.users.Keys
      ensures forall id :: id in views ==> views[id] == UserMapper.ToResponseDTO(Some(userRepository.users[id])).value
    {
      views := map id | id in userRepository.users :: UserMapper.ToResponseDTO(Some(userRepository.users[id])).value;
    }

    /**
     * updateUser, with today's date given: the user is found, checked and
     * overwritten, or nothing is written. Unique emails stay unique.
     */
    method UpdateUser(id: Option<int>, dto: UserForm, today: Date) returns (r: Result<UserMapper.UserResponse>)
      requires userRepository.Valid()
      modifies userRepository
      ensures userRepository.Valid()
      ensures r.Ok? <==>
        id.Some? && id.value in old(userRepository.users)
        && CheckUpdate(old(userRepository.users), old(userRepository.users)[id.value], dto, today).Pass?
      ensures id.None? ==> r == Err(Internal(NULL_ID_MESSAGE))
      ensures id.Some? && id.value !in old(userRepository.users) ==> r == Err(NotFound("User not found with id: " + IdText(id)))
      ensures id.Some? && id.value in old(userRepository.users) ==>
        var check := CheckUpdate(old(userRepository.users), old(userRepository.users)[id.value], dto, today);
        check.Fail? ==> r == Err(check.failure)
      ensures r.Err? ==> userRepository.users == old(userRepository.users)
      ensures r.Ok? ==>
        var updated := UpdatedFromRequest(old(userRepository.users)[id.value], dto, today);
        userRepository.users == old(userRepository.users)[id.value := updated]
        && r.value == UserMapper.ToResponseDTO(Some(updated)).value
      ensures UniqueEmails(old(userRepository.users)) ==> UniqueEmails(userRepository.users)
    {
      var found := FindById(userRepository.users, id, "User not found with id: " + IdText(id));
      if found.Err? {
        return Err(found.failure);
      }
      var key := id.value;
      var check := CheckUpdate(userRepository.users, found.value, dto, today);
      if check.Fail? {
        return Err(check.failure);
      }
      ghost var before := userRepository.users;
      var updated := UpdatedFromRequest(found.value, dto, today);
      userRepository.Update(updated);
      if UniqueEmails(before) {
        UpdateKeepsEmailsUnique(before, key, dto, today);
      }
      return Ok(UserMapper.ToResponseDTO(Some(updated)).value);
    }

    /** deleteUser: refused for an unknown id; otherwise the row goes. */
    method DeleteUser(id: Option<int>) returns (r: Outcome)
      requires userRepository.Valid()
      modifies userRepository
      ensures userRepository.Valid()
      ensures r.Pass? <==> id.Some? && id.value in old(userRepository.users)
      ensures id.None? ==> r == Fail(Internal(NULL_ID_MESSAGE))
      ensures id.Some? && id.value !in old(userRepository.users) ==> r == Fail(NotFound("User not found with id: " + IdText(id)))
      ensures r.Fail? ==> userRepository.users == old(userRepository.users)
      ensures r.Pass? ==> userRepository.users == old(userRepository.users) - {id.value}
    {
      if id.None? {
        return Fail(Internal(NULL_ID_MESSAGE));
      }
      var key := id.value;
      if key !in userRepository.users {
        return Fail(NotFound("User not found with id: " + IdText(id)));
      }
      userRepository.Delete(key);
      return Pass;
    }
  }
}
