/**
 * Employee codes: two letters of the job title, two of the department,
 * the last two digits of the year and four characters of a random UUID.
 * The year and the UUID text are parameters.
 */
module EmployeeCodeGenerator {
  import opened Wrappers
  import opened Text
  import opened Entities

  /** The first two characters of the job title uppercased, or "XX" when it is absent or shorter than 2. */
  function RolePart(jobTitle: Option<string>): (r: string)
    ensures |r| == 2
    ensures jobTitle.Some? && |jobTitle.value| >= 2 ==> r == ToUpper(jobTitle.value[..2])
    ensures jobTitle.None? || |jobTitle.value| < 2 ==> r == "XX"
  {
    if jobTitle.Some? && |jobTitle.value| >= 2 then ToUpper(jobTitle.value[..2]) else "XX"
  }

  /**
   * The first two characters of the department constant's name uppercased,
   * or "XX" without a department; a one-letter name would make substring
   * throw.
   */
  function DeptPart(department: Option<string>): (r: Result<string>)
    ensures r.Ok? ==> |r.value| == 2
    ensures r.Err? <==> department.Some? && |department.value| < 2
    ensures department.None? ==> r == Ok("XX")
    ensures department.Some? && |department.value| >= 2 ==> r == Ok(ToUpper(department.value[..2]))
  {
    if department.None? then Ok("XX")
    else if |department.value| < 2 then Err(Internal("begin 0, end 2, length " + IntToString(|department.value|)))
    else Ok(ToUpper(department.value[..2]))
  }

  /** String.valueOf(year).substring(2). */
  function YearPart(year: int): (r: Result<string>)
    ensures 1000 <= year <= 9999 ==> r.Ok? && |r.value| == 2
  {
    var text := IntToString(year);
    if |text| < 2 then Err(Internal("begin 2, end 1, length 1"))
    else
      if 1000 <= year <= 9999 then
        FourDigitYear(year);
        Ok(text[2..])
      else Ok(text[2..])
  }

  /** A four-digit year prints as four digits, the last two of which denote year % 100. */
  lemma FourDigitYear(year: int)
    requires 1000 <= year <= 9999
    ensures |IntToString(year)| == 4
    ensures forall i :: 0 <= i < 4 ==> IsDigit(IntToString(year)[i])
    ensures DigitsValue(IntToString(year)[2..]) == year % 100
  {
    var hundreds := Digits(year / 100);
    var d1 := ('0' as int + (year / 10) % 10) as char;
    var d0 := ('0' as int + year % 10) as char;
    assert (year / 100) / 10 == year / 1000;
    assert |Digits(year / 1000)| == 1;
    assert |hundreds| == 2;
    assert (year / 10) / 10 == year / 100;
    assert Digits(year / 10) == hundreds + [d1];
    assert Digits(year) == hundreds + [d1] + [d0];
    assert IntToString(year)[2..] == [d1, d0];
    assert [d1, d0][..1] == [d1];
    assert [d1][..0] == [];
    assert DigitsValue([d1]) == (year / 10) % 10;
    assert DigitsValue([d1, d0]) == ((year / 10) % 10) * 10 + year % 10;
  }

  /**
   * generateEmployeeCode(jobTitle, department). `uuid` is the text of the
   * random UUID, 36 characters long.
   */
  function GenerateEmployeeCode(jobTitle: Option<string>, department: Option<string>, year: int, uuid: string): (r: Result<string>)
    requires |uuid| >= 4
    ensures 1000 <= year <= 9999 ==> (r.Ok? <==> DeptPart(department).Ok?)
    ensures r.Ok? && 1000 <= year <= 9999 ==>
      |r.value| == 10
      && r.value[..2] == RolePart(jobTitle)
      && r.value[2..4] == DeptPart(department).value
      && (forall i :: 4 <= i < 6 ==> IsDigit(r.value[i]))
      && DigitsValue(r.value[4..6]) == year % 100
      && r.value[6..] == ToUpper(uuid[..4])
  {
    match DeptPart(department)
    case Err(f) => Err(f)
    case Ok(dept) =>
      match YearPart(year)
      case Err(f) => Err(f)
      case Ok(yy) =>
        var code := RolePart(jobTitle) + dept + yy + ToUpper(uuid[..4]);
        if 1000 <= year <= 9999 then
          FourDigitYear(year);
          assert code[4..6] == IntToString(year)[2..];
          Ok(code)
        else Ok(code)
  }

  /**
   * generateEmployeeCode(user), which the source writes out a second time
   * over the user's job title and department; it gives the same code, or the
   * same failure, as the (job title, department) overload.
   */
  function GenerateEmployeeCodeForUser(u: User, year: int, uuid: string): (r: Result<string>)
    requires |uuid| >= 4
    ensures r == GenerateEmployeeCode(u.jobTitle, u.department, year, uuid)
  {
    var rolePart := if u.jobTitle.Some? && |u.jobTitle.value| >= 2 then ToUpper(u.jobTitle.value[..2]) else "XX";
    if u.department.Some? && |u.department.value| < 2 then
      Err(Internal("begin 0, end 2, length " + IntToString(|u.department.value|)))
    else
      var deptPart := if u.department.Some? then ToUpper(u.department.value[..2]) else "XX";
      var yearText := IntToString(year);
      if |yearText| < 2 then Err(Internal("begin 2, end 1, length 1"))
      else Ok(rolePart + deptPart + yearText[2..] + ToUpper(uuid[..4]))
  }

  /** With no job title and no department, a 2026 code reads "XXXX26" followed by the UUID's first four characters uppercased. */
  lemma CodeWithoutTitleOrDepartment(uuid: string)
    requires |uuid| >= 4
    ensures GenerateEmployeeCode(None, None, 2026, uuid) == Ok("XXXX26" + ToUpper(uuid[..4]))
  {
    assert Digits(2) == "2";
    assert Digits(20) == "20";
    assert Digits(202) == "202";
    assert IntToString(2026) == "2026";
    assert YearPart(2026) == Ok("26");
    assert DeptPart(None) == Ok("XX");
    assert RolePart(None) == "XX";
    assert "XX" + "XX" + "26" + ToUpper(uuid[..4]) == "XXXX26" + ToUpper(uuid[..4]);
  }
}
