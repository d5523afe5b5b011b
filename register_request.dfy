/**
 * The registration form (the same fields as the user request form), its
 * bean-validation constraints and its validate() date rules.
 */
module RegisterRequestDTO {
  import opened Wrappers
  import opened Text
  import opened Time
  import opened Entities

  /**
   * The fields of a registration or user request. Gender, marital status and
   * department hold the constant's name; salaries are whole numbers.
   */
  datatype UserForm = UserForm(
    firstName: Option<string>,
    lastName: Option<string>,
    birthDate: Option<Date>,
    gender: Option<string>,
    nationalId: Option<string>,
    nationality: Option<string>,
    maritalStatus: Option<string>,
    email: Option<string>,
    phone: Option<string>,
    address: Option<string>,
    jobTitle: Option<string>,
    department: Option<string>,
    service: Option<string>,
    hireDate: Option<Date>,
    contractType: Option<ContractType>,
    contractEndDate: Option<Date>,
    baseSalary: Option<int>,
    housingAllowance: Option<int>,
    evaluationScore: Option<int>,
    active: Option<bool>,
    socialSecurityNumber: Option<string>,
    assignedProjectManagerId: Option<int>,
    directManagerId: Option<int>,
    childrenCount: Option<int>,
    description: Option<string>,
    roleNames: Option<seq<string>>)

  /** A form built with the builder: every field null except roleNames, which defaults to an empty list. */
  function BuilderForm(): (f: UserForm)
    ensures f.active.None? && f.roleNames == Some([])
  {
    UserForm(None, None, None, None, None, None, None, None, None, None, None, None, None, None, None, None,
             None, None, None, None, None, None, None, None, None, Some([]))
  }

  /** A form built with the no-argument constructor, as request bodies are: active starts as true. */
  function NoArgsForm(): (f: UserForm)
    ensures f.active == Some(true) && f.roleNames == Some([])
    ensures f == BuilderForm().(active := Some(true))
  {
    BuilderForm().(active := Some(true))
  }

  predicate NotBlank(s: Option<string>)
  {
    s.Some? && !IsBlank(s.value)
  }

  predicate SizeBetween(s: Option<string>, min: int, max: int)
  {
    s.None? || min <= |s.value| <= max
  }

  /** The pattern ^[0-9]{n}$: exactly n decimal digits; a null value passes. */
  predicate DigitsPattern(s: Option<string>, n: int)
  {
    s.None? || (|s.value| == n && forall i :: 0 <= i < |s.value| ==> IsDigit(s.value[i]))
  }

  datatype Constraint =
    | FirstNameRequired | FirstNameSize | LastNameRequired | LastNameSize
    | BirthDateRequired | BirthDatePast | GenderRequired
    | NationalIdRequired | NationalIdPattern | NationalityRequired | MaritalStatusRequired
    | EmailRequired | EmailFormat | PhoneRequired | PhonePattern
    | DepartmentRequired | HireDateRequired | ContractTypeRequired
    | BaseSalaryRequired | BaseSalaryPositive | HousingAllowanceNotNegative
    | EvaluationScoreMin | EvaluationScoreMax | SocialSecurityNumberPattern | ChildrenCountMin

  /**
   * Whether the form satisfies one field constraint on the given day. The
   * @Email grammar is the parameter isEmail.
   */
  predicate Holds(f: UserForm, c: Constraint, today: Date, isEmail: string -> bool)
  {
    match c
    case FirstNameRequired => NotBlank(f.firstName)
    case FirstNameSize => SizeBetween(f.firstName, 2, 50)
    case LastNameRequired => NotBlank(f.lastName)
    case LastNameSize => SizeBetween(f.lastName, 2, 50)
    case BirthDateRequired => f.birthDate.Some?
    case BirthDatePast => f.birthDate.None? || IsBefore(f.birthDate.value, today)
    case GenderRequired => f.gender.Some?
    case NationalIdRequired => NotBlank(f.nationalId)
    case NationalIdPattern => DigitsPattern(f.nationalId, 8)
    case NationalityRequired => NotBlank(f.nationality)
    case MaritalStatusRequired => f.maritalStatus.Some?
    case EmailRequired => NotBlank(f.email)
    case EmailFormat => f.email.None? || isEmail(f.email.value)
    case PhoneRequired => NotBlank(f.phone)
    case PhonePattern => DigitsPattern(f.phone, 8)
    case DepartmentRequired => f.department.Some?
    case HireDateRequired => f.hireDate.Some?
    case ContractTypeRequired => f.contractType.Some?
    case BaseSalaryRequired => f.baseSalary.Some?
    case BaseSalaryPositive => f.baseSalary.None? || f.baseSalary.value > 0
    case HousingAllowanceNotNegative => f.housingAllowance.None? || f.housingAllowance.value >= 0
    case EvaluationScoreMin => f.evaluationScore.None? || f.evaluationScore.value >= 0
    case EvaluationScoreMax => f.evaluationScore.None? || f.evaluationScore.value <= 5
    case SocialSecurityNumberPattern => DigitsPattern(f.socialSecurityNumber, 10)
    case ChildrenCountMin => f.childrenCount.None? || f.childrenCount.value >= 0
  }

  const ALL_CONSTRAINTS: seq<Constraint> := [
    FirstNameRequired, FirstNameSize, LastNameRequired, LastNameSize,
    BirthDateRequired, BirthDatePast, GenderRequired,
    NationalIdRequired, NationalIdPattern, NationalityRequired, MaritalStatusRequired,
    EmailRequired, EmailFormat, PhoneRequired, PhonePattern,
    DepartmentRequired, HireDateRequired, ContractTypeRequired,
    BaseSalaryRequired, BaseSalaryPositive, HousingAllowanceNotNegative,
    EvaluationScoreMin, EvaluationScoreMax, SocialSecurityNumberPattern, ChildrenCountMin]

  /** The constraints the form violates on the given day. */
  function Violations(f: UserForm, today: Date, isEmail: string -> bool): (v: set<Constraint>)
    ensures forall c :: c in ALL_CONSTRAINTS ==> (c in v <==> !Holds(f, c, today, isEmail))
    ensures forall c :: c in v ==> !Holds(f, c, today, isEmail)
  {
    set c | c in ALL_CONSTRAINTS && !Holds(f, c, today, isEmail)
  }

  /**
   * National id and phone take exactly 8 digits and a social security
   * number exactly 10: one digit fewer, or a letter among them, is a
   * violation; an absent social security number is not.
   */
  lemma DigitPatterns(f: UserForm, today: Date, isEmail: string -> bool)
    ensures f.phone.Some? && |f.phone.value| == 7 ==> PhonePattern in Violations(f, today, isEmail)
    ensures f.nationalId == Some("1234567a") ==> NationalIdPattern in Violations(f, today, isEmail)
    ensures f.nationalId == Some("12345678") ==> NationalIdPattern !in Violations(f, today, isEmail)
    ensures f.socialSecurityNumber.None? ==> SocialSecurityNumberPattern !in Violations(f, today, isEmail)
  {
    assert PhonePattern == ALL_CONSTRAINTS[14];
    assert NationalIdPattern == ALL_CONSTRAINTS[8];
    assert SocialSecurityNumberPattern == ALL_CONSTRAINTS[23];
    assert !IsDigit("1234567a"[7]);
  }

  /** Scores are checked against 0..5, children against 0. */
  lemma RangeConstraints(f: UserForm, today: Date, isEmail: string -> bool)
    ensures (EvaluationScoreMin in Violations(f, today, isEmail) || EvaluationScoreMax in Violations(f, today, isEmail))
            <==> f.evaluationScore.Some? && (f.evaluationScore.value < 0 || f.evaluationScore.value > 5)
    ensures ChildrenCountMin in Violations(f, today, isEmail) <==> f.childrenCount.Some? && f.childrenCount.value < 0
  {
    assert EvaluationScoreMin == ALL_CONSTRAINTS[21];
    assert EvaluationScoreMax == ALL_CONSTRAINTS[22];
    assert ChildrenCountMin == ALL_CONSTRAINTS[24];
  }

  /** The youngest birth date validate() accepts lies strictly before today minus 16 years. */
  function AdulthoodCutoff(today: Date): Date
  {
    MinusYears(today, 16)
  }

  /**
   * validate(): a hire date after today, a birth date not strictly before
   * today minus 16 years, and a contract end before the hire date fail, in
   * that order; a missing date skips its rule.
   */
  function Validate(f: UserForm, today: Date): (r: Outcome)
    ensures r == Pass <==>
      (f.hireDate.None? || !IsAfter(f.hireDate.value, today))
      && (f.birthDate.None? || IsBefore(f.birthDate.value, MinusYears(today, 16)))
      && (f.contractEndDate.None? || f.hireDate.None? || !IsBefore(f.contractEndDate.value, f.hireDate.value))
    ensures f.hireDate.Some? && IsAfter(f.hireDate.value, today)
            ==> r == Fail(IllegalArgument("Hire date cannot be in the future"))
    ensures r.Fail? ==> r.failure.IllegalArgument?
  {
    if f.hireDate.Some? && IsAfter(f.hireDate.value, today) then
      Fail(IllegalArgument("Hire date cannot be in the future"))
    else if f.birthDate.Some? && !IsBefore(f.birthDate.value, AdulthoodCutoff(today)) then
      Fail(IllegalArgument("Employee must be at least 16 years old"))
    else if f.contractEndDate.Some? && f.hireDate.Some? && IsBefore(f.contractEndDate.value, f.hireDate.value) then
      Fail(IllegalArgument("Contract end date cannot be before hire date"))
    else Pass
  }

  /**
   * Boundaries: someone whose sixteenth birthday is today is refused; a
   * hire date of today and a contract ending on the hire date pass.
   */
  lemma ValidateBoundaries(f: UserForm, today: Date)
    requires 1 <= today.month <= 12 && 1 <= today.day <= 28
    ensures f.hireDate.None? && f.birthDate == Some(Date(today.year - 16, today.month, today.day))
            ==> Validate(f, today) == Fail(IllegalArgument("Employee must be at least 16 years old"))
    ensures f.hireDate == Some(today) && f.contractEndDate == Some(today) && f.birthDate.None?
            ==> Validate(f, today) == Pass
  {
    assert LengthOfMonth(today.year - 16, today.month) >= 28;
  }
}
