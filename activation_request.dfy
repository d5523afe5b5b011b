/** The bean-validation constraints on an account activation request. */
module ActivationRequestDTO {
  import opened Wrappers
  import opened Text

  datatype ActivationRequest = ActivationRequest(
    token: Option<string>,
    username: Option<string>,
    newPassword: Option<string>,
    confirmPassword: Option<string>)

  /** @NotBlank: present, and not made only of characters at or below the space. */
  predicate NotBlank(s: Option<string>)
  {
    s.Some? && !IsBlank(s.value)
  }

  /** @Size(min, max): a null value passes. */
  predicate SizeBetween(s: Option<string>, min: int, max: int)
  {
    s.None? || min <= |s.value| <= max
  }

  /** The characters the password pattern accepts as special. */
  const PASSWORD_SPECIALS: string := "@#$%^&+="

  /** The characters a regular-expression dot does not match. */
  predicate IsLineTerminator(c: char)
  {
    c == '\n' || c == '\r' || c == '\U{0085}' || c == '\U{2028}' || c == '\U{2029}'
  }

  predicate HasCharWhere(s: string, p: char -> bool)
  {
    exists i :: 0 <= i < |s| && p(s[i])
  }

  /**
   * The newPassword pattern matched against the whole value: a digit, a
   * lower-case letter, an upper-case letter and one of "@#$%^&+=" somewhere,
   * no whitespace, no line terminator, and at least 8 characters.
   */
  predicate PasswordPattern(p: string)
  {
    |p| >= 8
    && (forall i :: 0 <= i < |p| ==> !IsSpace(p[i]) && !IsLineTerminator(p[i]))
    && HasCharWhere(p, IsDigit)
    && HasCharWhere(p, IsLower)
    && HasCharWhere(p, IsUpper)
    && HasCharWhere(p, c => c in PASSWORD_SPECIALS)
  }

  /** The constraints declared on the request's fields. */
  datatype Constraint =
    | TokenRequired | UsernameRequired | UsernameSize
    | PasswordRequired | PasswordSize | PasswordStrength | ConfirmationRequired

  const ALL_CONSTRAINTS: seq<Constraint> := [
    TokenRequired, UsernameRequired, UsernameSize,
    PasswordRequired, PasswordSize, PasswordStrength, ConfirmationRequired]

  /** Whether the request satisfies one constraint; @Size and @Pattern let a null value pass. */
  predicate Holds(r: ActivationRequest, c: Constraint)
  {
    match c
    case TokenRequired => NotBlank(r.token)
    case UsernameRequired => NotBlank(r.username)
    case UsernameSize => SizeBetween(r.username, 3, 50)
    case PasswordRequired => NotBlank(r.newPassword)
    case PasswordSize => r.newPassword.None? || |r.newPassword.value| >= 8
    case PasswordStrength => r.newPassword.None? || PasswordPattern(r.newPassword.value)
    case ConfirmationRequired => NotBlank(r.confirmPassword)
  }

  function Message(c: Constraint): string
  {
    match c
    case TokenRequired => "Activation token is required"
    case UsernameRequired => "Username is required"
    case UsernameSize => "Username must be between 3 and 50 characters"
    case PasswordRequired => "Password is required"
    case PasswordSize => "Password must be at least 8 characters long"
    case PasswordStrength => "Password must contain at least one digit, one uppercase letter, one lowercase letter, and one special character"
    case ConfirmationRequired => "Password confirmation is required"
  }

  lemma AllConstraintsListed()
    ensures forall c :: c in ALL_CONSTRAINTS
  {
    forall c ensures c in ALL_CONSTRAINTS {
      match c
      case TokenRequired => assert c == ALL_CONSTRAINTS[0];
      case UsernameRequired => assert c == ALL_CONSTRAINTS[1];
      case UsernameSize => assert c == ALL_CONSTRAINTS[2];
      case PasswordRequired => assert c == ALL_CONSTRAINTS[3];
      case PasswordSize => assert c == ALL_CONSTRAINTS[4];
      case PasswordStrength => assert c == ALL_CONSTRAINTS[5];
      case ConfirmationRequired => assert c == ALL_CONSTRAINTS[6];
    }
  }

  /** The constraints the request violates. */
  function Violations(r: ActivationRequest): (v: set<Constraint>)
    ensures forall c :: c in v <==> !Holds(r, c)
  {
    AllConstraintsListed();
    set c | c in ALL_CONSTRAINTS && !Holds(r, c)
  }

  /**
   * A request is accepted exactly when all four values are non-blank, the
   * username has 3 to 50 characters and the new password meets the pattern.
   */
  lemma AcceptedRequest(r: ActivationRequest)
    ensures Violations(r) == {} <==>
      NotBlank(r.token) && NotBlank(r.username) && NotBlank(r.newPassword) && NotBlank(r.confirmPassword)
      && 3 <= |r.username.value| <= 50
      && PasswordPattern(r.newPassword.value)
  {
    if Violations(r) == {} {
      assert forall c :: Holds(r, c);
      assert Holds(r, TokenRequired) && Holds(r, UsernameRequired) && Holds(r, UsernameSize);
      assert Holds(r, PasswordRequired) && Holds(r, PasswordStrength) && Holds(r, ConfirmationRequired);
    }
  }

  /** A password whose only non-alphanumeric characters are '!' never meets the pattern. */
  lemma BangIsNotSpecial(p: string)
    requires forall i :: 0 <= i < |p| ==> IsDigit(p[i]) || IsLower(p[i]) || IsUpper(p[i]) || p[i] == '!'
    ensures !PasswordPattern(p)
  {
  }

  /** "Secret1@" meets the password pattern; "Secret1!" and "Secr t1@" do not. */
  lemma PasswordExamples()
    ensures PasswordPattern("Secret1@")
    ensures !PasswordPattern("Secret1!")
    ensures !PasswordPattern("Secr t1@")
  {
    var good := "Secret1@";
    assert IsDigit(good[6]) && IsLower(good[1]) && IsUpper(good[0]) && good[7] in PASSWORD_SPECIALS;
    BangIsNotSpecial("Secret1!");
    assert IsSpace("Secr t1@"[4]);
  }
}
