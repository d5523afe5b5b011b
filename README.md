# Verified model of the pfe attendance-management back end

This project is a Dafny model of the business core of a Spring Boot service that manages employees, their accounts and their projects. The model covers:

- **Accounts.** An administrator creates an account that waits for approval. The employee activates it through a signed link, choosing a username and a password, and then logs in with a JSON Web Token. Administrators approve, reject, disable, enable, reactivate and repair accounts, and reset passwords.
- **Tokens and requests.** The token rules cover the signing-key choice, the claim layout, the expiry with clock skew, the type checks and the extractors. The model also covers the revocation list and the per-request filter that turns a bearer token into a principal.
- **Identity.** This covers the principal lookup, the status classes of the users table and the keyword searches.
- **Validation.** This covers the registration and activation forms, the create and update rules of the user service, employee codes, temporary passwords and project codes.
- **Projects.** This covers project creation, update, status change and deletion, manager assignment with its PROJECT_MANAGER role, and soft-deleted team membership.
- **Mappers and errors.** This covers the entity/view mappers, the translation of exceptions into HTTP responses, and the evaluation-score enum.

## How the model is built

- **Entities** (`User`, `Project`, `TeamAssignment`) are datatypes.
  - A nullable column is an `Option`.
  - A relation is the id of the related row.
  - An entity that has not been saved has no id.
- **Repository tables** are classes holding a `map` from id to row.
  - `save`, `saveAll` and `delete` are methods with `modifies` clauses.
  - Query methods are functions over the map.
  - An id comes from an identity counter.
  - A derived finder given a null argument compares with IS NULL.
  - A finder returning `Optional` fails when several rows match.
- **Services and their failures.**
  - Each service is a class over its tables.
  - Each guard and each change of a row is a function, and the methods are proved against those functions.
  - A failure is a `Failure` value naming the exception class the source throws: business error, not-found, illegal argument, username-not-found, or an unexpected exception such as a NullPointerException.
  - Because the services are `@Transactional`, a call that fails writes nothing. This is stated in every method's contract.
- **Parameters.** These things appear as parameters:
  - the clock (`Instant` in milliseconds, `Date` as year/month/day);
  - random draws;
  - UUID texts;
  - the current year.
- **Passwords** are modelled by an injective hash.
- **Signing** is a codec: a pair of functions whose only assumed law is that verification gives back the signed claims.

A few things in the source do not compile. The model follows the evident intent:

- User.java does not declare several fields that the services read and write: `enabled`, `registrationPending`, `activationToken`, `activationTokenExpiry`, `accountNonLocked`, `username`, `firstLogin` and `description`. They are modelled as primitive flags or nullable strings, as the services use them.
- `jwtService.generateToken` is read as `generateAccessToken`.
- `RoleName.EmPLOYEE` is read as `EMPLOYEE`.
- The undeclared `existsByProjectAndEmployee` is read as "some record, active or not, links the pair".
- `findByProjectAndActiveTrue` and `findByEmployeeAndActiveTrue` are read as their Spring Data names say.
- Project.java lacks `code`, `startDate`, `endDate`, `createdAt` and `updatedAt`, which the services set. They are columns of the model's `Project`.
- UserRepository declares no `findByEmployeeCode`, which ActivationService, ProjectAssignmentService and CustomUserDetailsService call. It is read as a derived finder returning `Optional`.
- UserRepository declares `existsByNationalId` but no `findByNationalId`, which UserServiceImpl calls. It is read as a derived finder returning `Optional`.
- JwtService has no `generateTokenWithExpiration(claims, user, expirationMs)` overload taking a user. The call in AuthenticationService is read as the (claims, subject, expiration) overload with the user's e-mail as subject (`AuthenticationService.SetupToken`).
- User.java does not declare `accountNonExpired` or `credentialsNonExpired`, which AuthenticationService and UserService set and CustomUserDetailsService reads. They are primitive flags of the model's `User`.
- The `RoleName` enum is not part of the source. Its constants are taken from their uses: EMPLOYEE, PROJECT_MANAGER, ADMIN and GENERAL_MANAGER in the code, and HR_MANAGER from the `hasRole('HR_MANAGER')` access rule. DataInitializer's `default ->` branch shows that the enum has constants beyond those it names.

Where the prose description of the system and the code differ, the model follows the code:

- An unknown role name in `assignRoles` fails in `RoleName.valueOf` with an IllegalArgumentException. It fails with not-found only when the constant exists but is missing from the roles table.
- An account created by `UserService.createUser` receives an activation token before it has an id, so the token carries no usable `userId`. Activation looks the user up by that claim and fails (`UserService.NewAccountState`).
- An access token's subject is the employee code, while the filter compares it with the principal's username. An employee who chose a username other than the code at activation cannot authenticate with the token (`JwtAuthenticationFilter.AccessTokenRejectedWhenUsernameDiffers`).
- `generateUniqueEmployeeCode` never checks its tenth candidate (`AuthenticationService.TenthCandidateNeverChecked`).
- The signing-key setup has a "fall back to the UTF-8 bytes" branch that is never reached. The Base64 decoder throws a DecodingException, which is a JwtException rather than an IllegalArgumentException, so the outer `catch (Exception)` installs a random key instead (`JwtService.NonBase64SecretGivesRandomKey`).
- A null or blank token makes the JWT parser throw IllegalArgumentException. The `catch (JwtException)` blocks of JwtService do not catch it, so the extractors and `isTokenValid` throw rather than answer "invalid"; only `isTokenValid(token, userDetails)`, which catches every exception, answers false.
- A null id passed to `findById` is an error from Spring Data (InvalidDataAccessApiUsageException), which the exception handler turns into a 500 response, not a 400 response.
- The keyword searches use SQL LIKE without an ESCAPE clause, so a '%' or '_' in the keyword is a wildcard (`SqlLike`, `UserRepository.EmptyAndUnderscoreKeywords`).

## Model

| member | source | states |
|---|---|---|
| ActivationRequestDTO.Violations | src/main/java/com/example/pfe/dto/ActivationRequestDTO.java:18-34 | a constraint is reported exactly when the request breaks it |
| ActivationRequestDTO.AllConstraintsListed | src/main/java/com/example/pfe/dto/ActivationRequestDTO.java:18-34 | the six declared constraints (four @NotBlank, the username @Size, the password @Size and @Pattern) are all checked |
| ActivationRequestDTO.AcceptedRequest | src/main/java/com/example/pfe/dto/ActivationRequestDTO.java:18-34 | a request is accepted iff all four values are non-blank, the username has 3 to 50 characters and the password matches the pattern |
| ActivationRequestDTO.BangIsNotSpecial | src/main/java/com/example/pfe/dto/ActivationRequestDTO.java:27-30 | a password whose only symbols are '!' never matches, since '!' is not among the special characters |
| ActivationRequestDTO.PasswordExamples | src/main/java/com/example/pfe/dto/ActivationRequestDTO.java:27-30 | "Secret1@" matches; "Secret1!" (wrong symbol) and "Secr t1@" (whitespace) do not |
| ActivationService.TokenCheck | src/main/java/com/example/pfe/Service/ActivationService.java:38-72 | a null or blank token throws IllegalArgumentException; a valid activation token without a numeric userId is a 500-class failure (findById(null)); otherwise passes iff the token is valid, of type ACCOUNT_ACTIVATION, its userId names a stored user whose stored token is this one, and the stored expiry has not passed; the result is that user's id |
| ActivationService.UserIdClaim | src/main/java/com/example/pfe/Service/ActivationService.java:46-46 | claims.get("userId", Long.class) is present iff the token is accepted and its userId claim is a number |
| ActivationService.UsernameCheck | src/main/java/com/example/pfe/Service/ActivationService.java:74-92 | passes iff the requested name is the user's own employee code, or is no one's username and no one's employee code |
| ActivationService.ActivationCheck | src/main/java/com/example/pfe/Service/ActivationService.java:32-92 | a password mismatch fails first with "Passwords do not match"; passes iff the passwords match, the token check passes and the username check passes |
| ActivationService.Activated | src/main/java/com/example/pfe/Service/ActivationService.java:94-106 | the activated account has the chosen username, a hash matching the new password, login enabled, first login done, the link withdrawn, and every other column unchanged |
| ActivationService.ActivationIsSingleUse | src/main/java/com/example/pfe/Service/ActivationService.java:60-105 | after an activation, no token passes the token checks for that account at any later time, the used link included, since its stored copy is withdrawn |
| ActivationService.ValidationAgreesWithActivation | src/main/java/com/example/pfe/Service/ActivationService.java:125-153 | validateActivationToken is true iff activation's token checks pass and the stored expiry is present and after now; a link with no expiry or expiring exactly now activates but is reported invalid |
| ActivationService.Relinked | src/main/java/com/example/pfe/Service/ActivationService.java:176-177 | the account gets the new token and an expiry seven days from now, and nothing else changes |
| ActivationService.ResendCheck | src/main/java/com/example/pfe/Service/ActivationService.java:155-161 | passes iff exactly one user has the email and that account is not enabled; the result is that user |
| ActivationService.ResentTokenActivates | src/main/java/com/example/pfe/Service/ActivationService.java:163-177 | the re-sent token passes every token check of activation for its account until its seven days run out |
| ActivationService.ActivationService.ActivateAccount | src/main/java/com/example/pfe/Service/ActivationService.java:32-119 | on a failed check nothing is written and the failure is returned; otherwise only the account is replaced by its activated form and an access token for it is returned |
| ActivationService.ActivationService.ResendActivationEmail | src/main/java/com/example/pfe/Service/ActivationService.java:155-192 | on a failed check nothing is written; otherwise only the account is re-linked with the new token |
| EmployeeCodeGenerator.RolePart | src/main/java/com/example/pfe/Service/EmployeeCodeGenerator.java:35-38 | always two characters: the first two of the job title uppercased, or "XX" when the title is null or shorter than two |
| EmployeeCodeGenerator.DeptPart | src/main/java/com/example/pfe/Service/EmployeeCodeGenerator.java:40-43 | "XX" without a department, the first two letters of its name uppercased otherwise; fails exactly for a name shorter than two |
| EmployeeCodeGenerator.YearPart | src/main/java/com/example/pfe/Service/EmployeeCodeGenerator.java:45-46 | a four-digit year gives two characters |
| EmployeeCodeGenerator.FourDigitYear | src/main/java/com/example/pfe/Service/EmployeeCodeGenerator.java:46 | a four-digit year prints as four digits whose last two denote the year modulo 100 |
| EmployeeCodeGenerator.GenerateEmployeeCode | src/main/java/com/example/pfe/Service/EmployeeCodeGenerator.java:34-52 | for a four-digit year: succeeds iff the department part does; the code is 10 characters: role part, department part, two digits denoting year % 100, and the UUID's first four characters uppercased |
| EmployeeCodeGenerator.GenerateEmployeeCodeForUser | src/main/java/com/example/pfe/Service/EmployeeCodeGenerator.java:13-31 | the user overload, written out separately over the user's job title and department, gives the same code, or the same failure, as the (job title, department) overload, so it has that overload's 10-character layout |
| EmployeeCodeGenerator.CodeWithoutTitleOrDepartment | src/main/java/com/example/pfe/Service/EmployeeCodeGenerator.java:34-52 | with neither job title nor department, a 2026 code is "XXXX26" followed by the UUID's first four characters uppercased |
| EvaluationScore.GetValue | src/main/java/com/example/pfe/enums/EvaluationScore.java:4-19 | every grade stands for a number in 1..5; EXCELLENT is 5, NEEDS_IMPROVEMENT is 1 |
| EvaluationScore.ValuesDistinctAndDecreasing | src/main/java/com/example/pfe/enums/EvaluationScore.java:5-9 | values() lists every grade once, no two grades share a value, and the values strictly decrease in declaration order |
| TokenBlacklistService.AfterBlacklistingContents | src/main/java/com/example/pfe/Service/TokenBlacklistService.java:9-14 | after any sequence of calls a token is revoked iff it was revoked before or was passed to a call: nothing is ever removed |
| TokenBlacklistService.BlacklistMonotoneAndIdempotent | src/main/java/com/example/pfe/Service/TokenBlacklistService.java:11-14 | the set only grows; blacklisting twice equals blacklisting once; replaying the same calls changes nothing |
| TokenBlacklistService.TokenBlacklistService.Blacklist | src/main/java/com/example/pfe/Service/TokenBlacklistService.java:11-14 | the token is added, and a token shorter than ten characters then fails on the log line's substring, after the add, with the message naming the token's length |
| TokenBlacklistService.TokenBlacklistService.IsBlacklisted | src/main/java/com/example/pfe/Service/TokenBlacklistService.java:16-18 | true iff the token is in the set |
| CustomUserDetailsService.FoundOrElse | src/main/java/com/example/pfe/Service/CustomUserDetailsService.java:28-32 | a single match is taken; no match falls through to the next finder |
| CustomUserDetailsService.ResolveIdentifier | src/main/java/com/example/pfe/Service/CustomUserDetailsService.java:27-32 | a resolved account has the identifier as its username, email or employee code; UsernameNotFound iff no account has it in any of the three |
| CustomUserDetailsService.UsernameThenEmailThenCode | src/main/java/com/example/pfe/Service/CustomUserDetailsService.java:27-32 | a unique username match wins; failing that a unique email match; failing both a unique employee-code match |
| CustomUserDetailsService.RoleNameAuthorities | src/main/java/com/example/pfe/Service/CustomUserDetailsService.java:41-43 | the authority set holds a role's bare name iff the user has that role, each name once, so never more than there are roles |
| CustomUserDetailsService.LoadUserByUsername | src/main/java/com/example/pfe/Service/CustomUserDetailsService.java:26-54 | a principal is built only for an enabled resolved account and carries its username, password hash, flags and the set of its role names; a disabled account fails with "User account is disabled: "; a resolution failure is passed on |
| CustomUserDetailsService.PrincipalIsNamedByUsername | src/main/java/com/example/pfe/Service/CustomUserDetailsService.java:45-53 | signing in by email yields a principal named by the account's username, never by the email given |
| AuthenticationService.ValidateEmployeeCreation | src/main/java/com/example/pfe/Service/AuthenticationService.java:78-82 | passes iff no account has the email; otherwise BusinessError "A user with this email already exists" |
| AuthenticationService.AlphabetLayout | src/main/java/com/example/pfe/Service/AuthenticationService.java:91-95 | the full alphabet is the 26 upper-case letters, the 26 lower-case letters, the 10 digits and "!@#$%", in that order (67 characters) |
| AuthenticationService.Appended | src/main/java/com/example/pfe/Service/AuthenticationService.java:100-109 | twelve characters are appended |
| AuthenticationService.AppendedClasses | src/main/java/com/example/pfe/Service/AuthenticationService.java:100-109 | the appended characters open with an upper-case letter, a lower-case letter, a digit and a special character, and all come from the alphabet |
| AuthenticationService.SwapPermutes | src/main/java/com/example/pfe/Service/AuthenticationService.java:114-117 | one exchange keeps the length and the multiset of characters |
| AuthenticationService.ShufflePermutes | src/main/java/com/example/pfe/Service/AuthenticationService.java:112-118 | the whole shuffle keeps the length and the multiset of characters |
| AuthenticationService.SecurePasswordProperties | src/main/java/com/example/pfe/Service/AuthenticationService.java:90-121 | a generated password has twelve characters of the alphabet, is a permutation of those appended, and contains an upper-case letter, a lower-case letter, a digit and one of "!@#$%" |
| AuthenticationService.Shuffle | src/main/java/com/example/pfe/Service/AuthenticationService.java:112-118 | the array ends as the shuffle of its old contents by the drawn partners, from the last position down to 1 |
| AuthenticationService.Candidates | src/main/java/com/example/pfe/Service/AuthenticationService.java:124-133 | ten candidates, the k-th generated from the form's job title and department with the k-th UUID |
| AuthenticationService.CodeSearchFindsFreeCode | src/main/java/com/example/pfe/Service/AuthenticationService.java:129-140 | a code found belongs to no account and is one of the candidates other than the tenth |
| AuthenticationService.TenthCandidateNeverChecked | src/main/java/com/example/pfe/Service/AuthenticationService.java:132-138 | when the first nine candidates are taken the search fails with "Could not generate unique employee code", whatever the tenth one is: the limit check comes before the lookup |
| AuthenticationService.BuildEmployee | src/main/java/com/example/pfe/Service/AuthenticationService.java:143-179 | the code is both employee code and username, the hash matches the temporary password, login is disabled with first login pending, the three account flags are true, `active` defaults to true, and the email is the form's |
| AuthenticationService.UserFromRequest | src/main/java/com/example/pfe/Service/AuthenticationService.java:84-88 | succeeds iff the code search does, and then is the entity built around the code found |
| AuthenticationService.AssignDefaultRole | src/main/java/com/example/pfe/Service/AuthenticationService.java:181-185 | succeeds iff the roles table has EMPLOYEE, and then the role list is exactly [EMPLOYEE] |
| AuthenticationService.SetupClaims | src/main/java/com/example/pfe/Service/AuthenticationService.java:202-205 | the claims are exactly userId (the saved id) and type ACCOUNT_ACTIVATION |
| AuthenticationService.WithActivationLink | src/main/java/com/example/pfe/Service/AuthenticationService.java:201-214 | the account gets the signed link and an expiry seven days from now; nothing else changes |
| AuthenticationService.ActivationLinkLayout | src/main/java/com/example/pfe/Service/AuthenticationService.java:201-211 | the link verifies to the account's id, the activation type and the email as subject, and is valid exactly until its seven days (to the second) plus the clock skew have passed |
| AuthenticationService.EmployeeCreationState | src/main/java/com/example/pfe/Service/AuthenticationService.java:44-64 | a created employee had a new email, has a free employee code as code and username, signs in with the temporary password, holds only EMPLOYEE, cannot log in yet, and carries a seven-day link naming its own id |
| AuthenticationService.ValidateLoginCredentials | src/main/java/com/example/pfe/Service/AuthenticationService.java:253-262 | succeeds iff exactly one account has the identifier as username or email and the password matches its hash; an unknown identifier and a wrong password both give "Invalid credentials" |
| AuthenticationService.ValidateAccountStatus | src/main/java/com/example/pfe/Service/AuthenticationService.java:264-272 | passes iff the account is enabled and past its first login; each failure has its own message, the disabled one first |
| AuthenticationService.Authenticate | src/main/java/com/example/pfe/Service/AuthenticationService.java:66-74 | succeeds iff both checks pass, and then answers an access token for the account, "Login successful" and the account's profile |
| AuthenticationService.LoginIgnoresActiveAndLock | src/main/java/com/example/pfe/Service/AuthenticationService.java:253-272 | changing `active` or `accountNonLocked` changes neither whether a login succeeds nor the token it issues |
| AuthenticationService.NotYetActivated | src/main/java/com/example/pfe/Service/AuthenticationService.java:288-293 | passes iff the account exists and is not enabled |
| AuthenticationService.ResendLink | src/main/java/com/example/pfe/Service/AuthenticationService.java:287-299 | succeeds iff the account exists, is not enabled and has a stored expiry; a link whose expiry has passed is replaced, any other is kept |
| AuthenticationService.AuthenticationService.GenerateSecureRandomPassword | src/main/java/com/example/pfe/Service/AuthenticationService.java:90-121 | the password is the shuffled appended characters, so it has every property of SecurePasswordProperties |
| AuthenticationService.AuthenticationService.GenerateUniqueEmployeeCode | src/main/java/com/example/pfe/Service/AuthenticationService.java:123-141 | the do-while loop gives the result of the candidate search |
| AuthenticationService.AuthenticationService.CreateEmployee | src/main/java/com/example/pfe/Service/AuthenticationService.java:44-64 | on a failure nothing is written; otherwise exactly the new employee row is added, under the next id, and its profile returned |
| AuthenticationService.AuthenticationService.SaveAndLink | src/main/java/com/example/pfe/Service/AuthenticationService.java:55-59 | the row ends up saved under the next id with its activation link |
| AuthenticationService.AuthenticationService.CreateUserFromRequest | src/main/java/com/example/pfe/Service/AuthenticationService.java:84-88 | answers what UserFromRequest describes |
| AuthenticationService.AuthenticationService.SetupAccountActivation | src/main/java/com/example/pfe/Service/AuthenticationService.java:201-214 | only that row changes, to its form with a new seven-day link |
| AuthenticationService.AuthenticationService.ResendActivationEmail | src/main/java/com/example/pfe/Service/AuthenticationService.java:287-313 | on a failed guard nothing is written; otherwise only the account changes, to what ResendLink describes |
| AuthenticationService.AuthenticationService.ResetTemporaryPassword | src/main/java/com/example/pfe/Service/AuthenticationService.java:316-338 | succeeds iff the account exists and is not enabled; then its hash matches the new password, it always gets a new link, and the password is returned |
| JwtService.DefaultSettings | src/main/java/com/example/pfe/Service/JwtService.java:24-34 | the default access-token life is one hour and the activation-token life seven days |
| JwtService.SelectSigningKey | src/main/java/com/example/pfe/Service/JwtService.java:40-67 | the configured secret becomes the key iff it is present, not blank, Base64-decodable and at least 256 bits once decoded, and then the key is its decoded bytes; a secret the decoder rejects gets a random key, since the decoder's exception is a JwtException that the outer catch handles before the UTF-8 fallback |
| JwtService.NonBase64SecretGivesRandomKey | src/main/java/com/example/pfe/Service/JwtService.java:50-55 | a secret that is not Base64 always leads to a random key: the UTF-8 fallback is never taken |
| JwtService.ShortSecretGivesRandomKey | src/main/java/com/example/pfe/Service/JwtService.java:47-58 | a secret of fewer than 43 characters decodes to fewer than 32 bytes and always leads to a random key |
| JwtService.DefaultSecretGivesRandomKey | src/main/java/com/example/pfe/Service/JwtService.java:24-25 | the default secret "defaultsecretchangeme" always leads to a random key |
| JwtService.ParseClaims | src/main/java/com/example/pfe/Service/JwtService.java:208-215 | a null or blank token throws IllegalArgumentException; otherwise claims are returned iff the signature verifies and exp is not before now minus the allowed skew, and a JwtException is the empty answer |
| JwtService.IsTokenValid | src/main/java/com/example/pfe/Service/JwtService.java:143-159 | a blank token throws IllegalArgumentException, which the JwtException catches do not stop; any other token gives a boolean |
| JwtService.IsTokenValidMeaning | src/main/java/com/example/pfe/Service/JwtService.java:143-159 | for a non-blank token, isTokenValid holds iff the signature verifies and exp is absent or no earlier than now minus the skew; the second expiry test never decides |
| JwtService.ExpiryBoundary | src/main/java/com/example/pfe/Service/JwtService.java:147 | exp exactly at now minus the skew is accepted; one millisecond earlier is rejected |
| JwtService.ClaimText | src/main/java/com/example/pfe/Service/JwtService.java:123 | a string claim prints as itself, a number as its decimal digits, a list starting with '[' |
| JwtService.ClaimTextOfNonString | src/main/java/com/example/pfe/Service/JwtService.java:118-141 | only a string claim can read as "access" in any case or as "ACCOUNT_ACTIVATION" |
| JwtService.ClaimTextOfNonStringAll | src/main/java/com/example/pfe/Service/JwtService.java:118-141 | the same for every claim value |
| JwtService.ExtractUsername | src/main/java/com/example/pfe/Service/JwtService.java:71-83 | a blank token throws; otherwise the subject of a valid token, and nothing for an invalid one |
| JwtService.GetTokenType | src/main/java/com/example/pfe/Service/JwtService.java:248-257 | a blank token throws; otherwise a type is answered only for a valid token that has a type claim |
| JwtService.ExtractLongClaim | src/main/java/com/example/pfe/Service/JwtService.java:86-94 | a blank token throws; otherwise a value iff the token is valid and the claim is present and numeric, and then that number |
| JwtService.ExtractStringClaim | src/main/java/com/example/pfe/Service/JwtService.java:86-94 | a blank token throws; otherwise a value iff the token is valid and the claim is present and a string, and then that string |
| JwtService.IsAccessToken | src/main/java/com/example/pfe/Service/JwtService.java:118-128 | a blank token throws; otherwise true iff the token is valid and its type claim is a string equal to "access" ignoring case |
| JwtService.IsActivationToken | src/main/java/com/example/pfe/Service/JwtService.java:130-141 | a blank token throws; otherwise true iff the token is valid and its type claim is exactly the string "ACCOUNT_ACTIVATION" |
| JwtService.IsTokenValidFor | src/main/java/com/example/pfe/Service/JwtService.java:161-206 | true iff the token is non-blank and valid, its subject equals the username, and its type claim is absent or "access" in any case or exactly "ACCOUNT_ACTIVATION"; a blank token gives false, since this method catches every exception |
| JwtService.ExtractUserId | src/main/java/com/example/pfe/Service/JwtService.java:219-246 | a blank token throws; nothing for an invalid token; otherwise a numeric userId as is, another userId parsed from its text, and without userId the subject parsed as a long |
| JwtService.ExtractUserIdFromText | src/main/java/com/example/pfe/Service/JwtService.java:235-236 | a userId claim holding a number's decimal text reads back as that number |
| JwtService.GetRemainingTime | src/main/java/com/example/pfe/Service/JwtService.java:263-273 | a blank token throws; otherwise never negative, and positive exactly when a valid token's exp lies after now, and then exp minus now |
| JwtService.RemainingTimeImpliesValid | src/main/java/com/example/pfe/Service/JwtService.java:143-159 | with a non-negative skew, a token with time left is valid |
| JwtService.NumericDate | src/main/java/com/example/pfe/Service/JwtService.java:98-99 | a date is kept to the second, truncated |
| JwtService.Put | src/main/java/com/example/pfe/Service/JwtService.java:111-114 | a non-null value is stored under its name, a null one is left out, and every other claim is kept |
| JwtService.ClaimsWithExpiration | src/main/java/com/example/pfe/Service/JwtService.java:96-108 | the claims and subject given, issued now and expiring the given milliseconds later, both to the second |
| JwtService.TokenWithExpirationLayout | src/main/java/com/example/pfe/Service/JwtService.java:96-108 | such a token reads back with exactly those claims and is valid until its expiry plus the skew |
| JwtService.AccessTokenLayout | src/main/java/com/example/pfe/Service/JwtService.java:288-313 | an access token has the employee code as subject, type "access", the user's id when set, "ROLE_" + name for each role in order when the roles are set, and expires the access life after issue |
| JwtService.AccessTokenAccepted | src/main/java/com/example/pfe/Service/JwtService.java:118-159 | within its life plus the skew an access token is valid, is an access token and not an activation token, names the employee code, and yields the user's id |
| JwtService.AccessTokenUserIsEmployeeCode | src/main/java/com/example/pfe/Service/JwtService.java:161-206 | an access token passes the per-user check exactly for the username equal to the employee code |
| JwtService.ActivationTokenKind | src/main/java/com/example/pfe/Service/JwtService.java:110-141 | an activation token is never an access token, never passes the per-user check (it has no subject), and its userId is the user's id |
| JwtService.TypeChecksCaseHandling | src/main/java/com/example/pfe/Service/JwtService.java:123-134 | "ACCESS" is an access type, while "account_activation" is not an activation type |
| JwtAuthenticationFilter.DoFilterInternal | src/main/java/com/example/pfe/config/JwtAuthenticationFilter.java:32-166 | a skipped request (OPTIONS or a public path) passes through; 401 "Token revoked" iff a bearer token is blacklisted; a principal is set only for a non-revoked, valid access token whose subject loads an account that the per-user check accepts while the context is empty; an exception escapes only for a blank token or a failed account load |
| JwtAuthenticationFilter.NoBearerPassesThrough | src/main/java/com/example/pfe/config/JwtAuthenticationFilter.java:84-99 | without an Authorization header, or with a non-Bearer one, the request always passes through |
| JwtAuthenticationFilter.PublicExamples | src/main/java/com/example/pfe/config/JwtAuthenticationFilter.java:32-56 | a path under /api/auth/login and an "options" request in lower case are both skipped |
| JwtAuthenticationFilter.AccessTokenAuthenticatesItsAccount | src/main/java/com/example/pfe/config/JwtAuthenticationFilter.java:101-160 | an unrevoked access token within its life authenticates its account, named by the employee code, when the username is that code and no other account uses it |
| JwtAuthenticationFilter.AccessTokenRejectedWhenUsernameDiffers | src/main/java/com/example/pfe/config/JwtAuthenticationFilter.java:132-147 | an account whose username differs from its employee code is never authenticated by its own access token |
| UserService.ApproveCheck | src/main/java/com/example/pfe/Service/UserService.java:343-345 | approval is refused with "User is already approved" exactly when the account is enabled |
| UserService.Approved | src/main/java/com/example/pfe/Service/UserService.java:346-352 | approval makes the account enabled, active, not pending and unlocked, withdraws the activation token and its expiry, and changes nothing else |
| UserService.ApprovalBlocksActivation | src/main/java/com/example/pfe/Service/UserService.java:346-352 | once an account is approved, no token passes activation's token checks for it, in particular a link whose userId names it |
| UserService.RejectCheck | src/main/java/com/example/pfe/Service/UserService.java:372-374 | rejection is refused with "Cannot reject an approved user" exactly when the account is enabled |
| UserService.DisableCheck | src/main/java/com/example/pfe/Service/UserService.java:321-323 | disabling passes exactly when active is true; an already inactive account gets "User is already disabled"; a null active throws on unboxing |
| UserService.Disabled | src/main/java/com/example/pfe/Service/UserService.java:324-325 | disabling sets active to false and leaves enabled, registrationPending, the lock, first-login, password and token unchanged |
| UserService.EnableCheck | src/main/java/com/example/pfe/Service/UserService.java:429-435 | enabling passes exactly when the account is enabled and inactive; a never-approved account and an already active one get their own messages |
| UserService.Enabled | src/main/java/com/example/pfe/Service/UserService.java:436-437 | enabling sets active to true and changes no other flag |
| UserService.Reactivated | src/main/java/com/example/pfe/Service/UserService.java:145-149 | reactivation sets active and enabled to true without any guard and keeps the pending flag and the token |
| UserService.WithTemporaryPassword | src/main/java/com/example/pfe/Service/UserService.java:156-162 | a password reset stores the hash of the temporary password and sets firstLogin, leaving every status flag unchanged |
| UserService.Fixed | src/main/java/com/example/pfe/Service/UserService.java:449-460 | one repaired account is unlocked, active exactly when enabled and pending exactly when not enabled, with enabled itself unchanged |
| UserService.FixAll | src/main/java/com/example/pfe/Service/UserService.java:446-462 | the repair keeps the set of accounts |
| UserService.ApprovalIsFinal | src/main/java/com/example/pfe/Service/UserService.java:343-352 | an approved account is ACTIVE and neither PENDING, LOCKED nor DISABLED, and can be neither approved again nor rejected |
| UserService.DisableEnableRoundTrip | src/main/java/com/example/pfe/Service/UserService.java:317-438 | on an enabled active account, disabling then enabling restores it exactly; neither can run twice; the disabled account is neither ACTIVE nor DISABLED for the status queries |
| UserService.ReactivateBypassesEnableGuard | src/main/java/com/example/pfe/Service/UserService.java:145-149 | an account that enableUser refuses as never approved is made enabled and active by reactivateUser, still pending and still holding its token |
| UserService.FixAllRepairsEveryAccount | src/main/java/com/example/pfe/Service/UserService.java:446-464 | after the repair every account is unlocked, active iff enabled and pending iff not enabled; none is LOCKED; ACTIVE and DISABLED partition the accounts; repeating the repair changes nothing |
| UserService.ChangePasswordCheck | src/main/java/com/example/pfe/Service/UserService.java:480-498 | a new password differing from its confirmation fails with "Passwords do not match" before any lookup; success names the account with that email |
| UserService.WithNewPassword | src/main/java/com/example/pfe/Service/UserService.java:500-502 | the new password is stored (it matches the hash) and firstLogin becomes false; no status flag changes |
| UserService.ChangePasswordMeaning | src/main/java/com/example/pfe/Service/UserService.java:480-506 | a change succeeds iff the confirmation agrees, the email names one account, the current password matches and the new one differs; afterwards the new password matches and the current one no longer does |
| UserService.TemporaryPassword | src/main/java/com/example/pfe/Service/UserService.java:211-217 | the temporary password has 12 characters, each drawn from the 67-character alphabet |
| UserService.TemporaryPasswordNeedNotMeetPolicy | src/main/java/com/example/pfe/Service/UserService.java:211-217 | a temporary password can miss the activation form's password policy: twelve draws of index 0 give "AAAAAAAAAAAA" |
| UserService.ValidateUserCreation | src/main/java/com/example/pfe/Service/UserService.java:202-209 | creation passes iff neither the email nor the national id is already stored; an existing email fails with "Email already exists" |
| UserService.MissingNationalIdCollides | src/main/java/com/example/pfe/Service/UserService.java:206-208 | a form without national id is refused as soon as one stored account also has none, even with a new email |
| UserService.BuildUserEntity | src/main/java/com/example/pfe/Service/UserService.java:219-231 | the built account signs in by email with the temporary password, is not enabled, inactive, pending, first-login and unlocked, and has no id or token yet |
| UserService.ResolveRoleName | src/main/java/com/example/pfe/Service/UserService.java:239-243 | a requested name resolves iff its upper-cased text is a role constant present in the roles table, and then to that constant |
| UserService.Resolutions | src/main/java/com/example/pfe/Service/UserService.java:239-244 | every requested name is resolved on its own, in request order |
| UserService.CollectMeaning | src/main/java/com/example/pfe/Service/UserService.java:238-244 | the role loop succeeds exactly when every name resolves, and then keeps each resolved role at its position |
| UserService.FirstFailureDecides | src/main/java/com/example/pfe/Service/UserService.java:238-244 | the first name that fails to resolve decides the failure of the whole loop |
| UserService.ResolveRoleNamesMeaning | src/main/java/com/example/pfe/Service/UserService.java:238-244 | a non-empty list of names resolves iff every name does, to their roles in the same order |
| UserService.ResolveRoles | src/main/java/com/example/pfe/Service/UserService.java:234-259 | an absent or empty list gives exactly [EMPLOYEE] (or not-found without that role); otherwise the resolved names in order |
| UserService.SetUserRelations | src/main/java/com/example/pfe/Service/UserService.java:262-274 | each manager id given must name a stored account, and then becomes the relation; absent ids leave the relation as it was |
| UserService.NewAccountState | src/main/java/com/example/pfe/Service/UserService.java:57-93 | a created account has a new email, is disabled, inactive, pending and first-login, signs in by email with the temporary password, holds the resolved roles, and carries an activation token valid seven days whose subject is the email and which has no userId claim |
| UserService.ValidatePhoto | src/main/java/com/example/pfe/Service/UserService.java:514-529 | an upload passes iff the user exists, the content type is JPEG, PNG or WebP and the size is at most 5 MiB |
| UserService.GetFileExtension | src/main/java/com/example/pfe/Service/UserService.java:569-572 | a missing name or one without a dot gives "jpg"; otherwise a dot-free suffix shorter than the name |
| UserService.FileExtensionOfName | src/main/java/com/example/pfe/Service/UserService.java:569-572 | a name ending in "." and a dot-free extension gives that extension lower-cased |
| UserService.UserService.ApproveUser | src/main/java/com/example/pfe/Service/UserService.java:339-362 | an unknown id fails with not-found; otherwise the guard's result, and on success only that account is replaced by its approved form |
| UserService.UserService.RejectUser | src/main/java/com/example/pfe/Service/UserService.java:367-380 | an unknown id fails with not-found; a non-enabled account is deleted from the store; a refusal writes nothing |
| UserService.UserService.DisableUser | src/main/java/com/example/pfe/Service/UserService.java:317-335 | an unknown id fails with not-found; otherwise the guard's result, and on success only that account is replaced by its disabled form |
| UserService.UserService.EnableUser | src/main/java/com/example/pfe/Service/UserService.java:425-440 | an unknown id fails with not-found; otherwise the guard's result, and on success only that account is replaced by its enabled form |
| UserService.UserService.ReactivateUser | src/main/java/com/example/pfe/Service/UserService.java:145-151 | succeeds iff the id is stored, and then only that account is reactivated |
| UserService.UserService.ResetUserPassword | src/main/java/com/example/pfe/Service/UserService.java:156-172 | succeeds iff the id is stored, and then only that account gets the temporary password built from the draws |
| UserService.UserService.FixAllUserStatus | src/main/java/com/example/pfe/Service/UserService.java:446-464 | the loop over all accounts leaves the store equal to every account repaired |
| UserService.UserService.ChangePassword | src/main/java/com/example/pfe/Service/UserService.java:480-506 | a failing check is reported and writes nothing; otherwise only the checked account gets the new password |
| UserService.UserService.AssignRoles | src/main/java/com/example/pfe/Service/UserService.java:234-260 | the account's role list is replaced by the resolved roles, or the first resolution failure is reported |
| UserService.UserService.CreateUser | src/main/java/com/example/pfe/Service/UserService.java:57-93 | nothing is written unless every step succeeds; then exactly the new account is added under a fresh id and its view is returned |
| Entities.RoleNameValueOf | src/main/java/com/example/pfe/Service/UserService.java:240-240 | RoleName.valueOf yields the constant whose name is exactly the text, and nothing (the IllegalArgumentException) when no constant has that name |
| Entities.RoleAuthorities | src/main/java/com/example/pfe/mapper/UserMapper.java:160-164 | one authority per role, in role order, each "ROLE_" followed by the role's name |
| Entities.BlankUser | src/main/java/com/example/pfe/entities/User.java:90-95 | a user built with nothing set has an empty role list, no children, no id, a null active and every primitive flag false |
| UserRepository.RowsWhere | src/main/java/com/example/pfe/Repository/UserRepository.java:17-25 | a derived finder selects exactly the rows whose column equals the argument, a null argument selecting the rows where the column is null |
| UserRepository.Single | src/main/java/com/example/pfe/Repository/UserRepository.java:17-19 | an Optional finder answers nothing for no row, that row for one row, and an error for several |
| UserRepository.FindById | src/main/java/com/example/pfe/Service/UserServiceImpl.java:89-95 | findById finds a row iff the id is non-null and stored; a null id is the data-access exception Spring raises for it (a 500), a missing one the caller's not-found |
| UserRepository.FindBy | src/main/java/com/example/pfe/Repository/UserRepository.java:17-25 | a found row is the only one whose column holds the value; nothing is found iff no row holds it |
| UserRepository.FindByUsernameOrEmail | src/main/java/com/example/pfe/Repository/UserRepository.java:19-19 | a found row has the text as username or email; nothing is found iff no row has it as either |
| UserRepository.RowsWithUsernameOrEmail | src/main/java/com/example/pfe/Repository/UserRepository.java:19-19 | the rows whose username or email is the text |
| UserRepository.FindersIgnoreOtherColumns | src/main/java/com/example/pfe/Repository/UserRepository.java:17-25 | replacing a row by one with the same looked-up columns changes the answer of no finder |
| UserRepository.FindByStatus | src/main/java/com/example/pfe/Repository/UserRepository.java:87-93 | a null status selects every row; otherwise a row is selected iff it belongs to the named class (PENDING, ACTIVE, DISABLED or LOCKED) |
| UserRepository.StatusFilterMatchesCounts | src/main/java/com/example/pfe/Repository/UserRepository.java:75-92 | each status filter selects as many rows as the matching count query counts |
| UserRepository.StatusClassRelations | src/main/java/com/example/pfe/Repository/UserRepository.java:75-92 | an ACTIVE row is neither PENDING, DISABLED nor LOCKED; an enabled row is neither DISABLED nor PENDING; an inactive row is both PENDING and DISABLED iff it is not enabled and holds a token |
| UserRepository.SearchUsers | src/main/java/com/example/pfe/Repository/UserRepository.java:31-53 | a row is selected iff its first name, last name or email is LIKE '%' + keyword + '%' ignoring case (the keyword's '%' and '_' being wildcards), and the department and active filters agree; a null filter constrains nothing |
| UserRepository.SearchByKeyword | src/main/java/com/example/pfe/Repository/UserRepository.java:94-100 | a row is selected iff its first name, last name, email or department is LIKE '%' + keyword + '%' ignoring case; a null keyword selects every row |
| UserRepository.LikeIgnoringCaseFacts | src/main/java/com/example/pfe/Repository/UserRepository.java:94-100 | the keyword's case never matters, and a keyword without '%' or '_' matches exactly the columns that contain it ignoring case |
| UserRepository.EmptyAndUnderscoreKeywords | src/main/java/com/example/pfe/Repository/UserRepository.java:94-100 | the empty keyword matches every non-null column, and the keyword "_" matches every non-empty one rather than only those holding an underscore |
| UserRepository.LowerPattern | src/main/java/com/example/pfe/Repository/UserRepository.java:94-100 | LOWER of the pattern is the pattern of the lowered keyword, and lowering neither adds nor removes a wildcard |
| SqlLike.ContainsPattern | src/main/java/com/example/pfe/Repository/UserRepository.java:33-35 | CONCAT('%', keyword, '%') is the keyword between two '%' |
| SqlLike.PercentMatchesAll | src/main/java/com/example/pfe/Repository/UserRepository.java:33-35 | a lone '%' matches every string |
| SqlLike.LiteralThenPercent | src/main/java/com/example/pfe/Repository/UserRepository.java:33-35 | a wildcard-free text followed by '%' matches exactly the strings starting with that text |
| SqlLike.PercentThen | src/main/java/com/example/pfe/Repository/UserRepository.java:33-35 | '%' followed by a pattern matches iff some suffix matches that pattern |
| SqlLike.LiteralKeywordMeansContains | src/main/java/com/example/pfe/Repository/UserRepository.java:33-35 | for a keyword without wildcards, '%' + keyword + '%' matches iff the string contains the keyword |
| SqlLike.UnderscoreMatchesAnyCharacter | src/main/java/com/example/pfe/Repository/UserRepository.java:33-35 | '%_%' matches every non-empty string |
| UserRepository.UserStore.Insert | src/main/java/com/example/pfe/Repository/UserRepository.java:16-16 | saving a new user stores it under the next unused id, which it records in the row |
| UserRepository.UserStore.Update | src/main/java/com/example/pfe/Repository/UserRepository.java:16-16 | saving a stored user replaces that row only |
| UserRepository.UserStore.SaveAll | src/main/java/com/example/pfe/Repository/UserRepository.java:16-16 | saveAll replaces the given rows and keeps every other row |
| UserRepository.UserStore.Delete | src/main/java/com/example/pfe/Repository/UserRepository.java:16-16 | deleting removes that row only |
| UserMapper.Overwrite | src/main/java/com/example/pfe/mapper/UserMapper.java:76-98 | a non-null form value replaces the current one; a null one keeps it |
| UserMapper.ToEntity | src/main/java/com/example/pfe/mapper/UserMapper.java:17-73 | the entity holds every form column as given (names, birth date, gender, ids, contact, job, department, service, contract, pay, score, social security number, description), active defaulting to true and childrenCount to 0, with no id, code, username, password, managers, evaluation date, last login, token, and every flag false |
| UserMapper.UpdateEntityFromForm | src/main/java/com/example/pfe/mapper/UserMapper.java:75-125 | for each of the 22 form columns other than email, a non-null value replaces the user's and a null one keeps it; email, evaluation date, id, code, username, password, roles, managers, every flag, the link and last login never change |
| UserMapper.UpdateProperties | src/main/java/com/example/pfe/mapper/UserMapper.java:75-125 | the partial update is idempotent, a form of nulls changes nothing, and updating the entity a form builds with that same form changes nothing |
| UserMapper.ToResponseDTO | src/main/java/com/example/pfe/mapper/UserMapper.java:127-173 | a null user gives a null view; every column the view shows is the stored one; roles are "ROLE_" + name in order, or null when the user's roles are null; each manager id is null exactly when that relation is absent; creation time and avatar stay null |
| UserMapper.SameViewDiffersOnlyInHiddenColumns | src/main/java/com/example/pfe/mapper/UserMapper.java:127-173 | two users with the same view differ at most in the password hash, the activation link and its expiry, the employee code and the expiry and first-login flags |
| RegisterRequestDTO.BuilderForm | src/main/java/com/example/pfe/dto/RegisterRequestDTO.java:97-98 | a form from the builder has an empty role-name list and a null active |
| RegisterRequestDTO.NoArgsForm | src/main/java/com/example/pfe/dto/RegisterRequestDTO.java:82-98 | a form from the no-argument constructor has active true and an empty role-name list, and is otherwise the builder's form |
| RegisterRequestDTO.Violations | src/main/java/com/example/pfe/dto/RegisterRequestDTO.java:20-92 | a declared constraint is reported exactly when the form breaks it |
| RegisterRequestDTO.DigitPatterns | src/main/java/com/example/pfe/dto/RegisterRequestDTO.java:36-85 | national id and phone need exactly 8 digits, the social security number 10 digits when present |
| RegisterRequestDTO.RangeConstraints | src/main/java/com/example/pfe/dto/RegisterRequestDTO.java:78-92 | the score is refused iff present and outside 0..5; the children count iff present and negative |
| RegisterRequestDTO.Validate | src/main/java/com/example/pfe/dto/RegisterRequestDTO.java:100-112 | validate passes iff the hire date is not after today, the birth date is strictly before today minus 16 years, and the contract does not end before the hire date, a missing date skipping its rule; the hire-date failure comes first; every failure is an IllegalArgumentException |
| RegisterRequestDTO.ValidateBoundaries | src/main/java/com/example/pfe/dto/RegisterRequestDTO.java:100-112 | someone turning 16 today is refused; a hire date of today and a contract ending on the hire date pass |
| UserServiceImpl.IsPresent | src/main/java/com/example/pfe/Service/UserServiceImpl.java:53-53 | isPresent answers whether one row was found, and fails when several rows match |
| UserServiceImpl.CheckNotTaken | src/main/java/com/example/pfe/Service/UserServiceImpl.java:52-61 | a uniqueness rule passes iff no row holds the value, and a single holder gives the rule's IllegalArgumentException |
| UserServiceImpl.CheckBirthDateAndSalary | src/main/java/com/example/pfe/Service/UserServiceImpl.java:70-78 | passes iff the birth date is not after today and the salary is not negative; a future birth date is reported first; failures are IllegalArgumentExceptions |
| UserServiceImpl.CheckCreate | src/main/java/com/example/pfe/Service/UserServiceImpl.java:51-79 | creation passes iff the email is unused, a given national id is unused, a CDD contract has an end date, the birth date is not in the future and the salary not negative; each failure carries its own message |
| UserServiceImpl.CheckUpdate | src/main/java/com/example/pfe/Service/UserServiceImpl.java:117-159 | an update passes iff a changed email or national id is unused, a move to CDD without an end date keeps an existing CDD end date, birth date and salary pass, and a given score lies in 1..5 |
| UserServiceImpl.CreateRulesImplyUpdateRules | src/main/java/com/example/pfe/Service/UserServiceImpl.java:51-159 | a form that passes the creation rules, with a score in 1..5, passes the update rules against any user |
| UserServiceImpl.OwnValuesPassUniqueness | src/main/java/com/example/pfe/Service/UserServiceImpl.java:119-132 | resubmitting one's own email and national id never trips the uniqueness rules |
| UserServiceImpl.UpdatedFromRequest | src/main/java/com/example/pfe/Service/UserServiceImpl.java:161-207 | for each of the 21 profile columns and the email, a non-null value replaces the stored one and a null one keeps it; evaluationDate becomes today iff a score is given; description, id, code, username, password, roles, managers, every flag (registrationPending and firstLogin included), the link and last login are kept |
| UserServiceImpl.ServiceUpdateAgreesWithMapper | src/main/java/com/example/pfe/Service/UserServiceImpl.java:161-207 | the service's own field copy equals the mapper's partial update, except that it also copies the email and stamps the evaluation date |
| UserServiceImpl.UpdateKeepsEmailsUnique | src/main/java/com/example/pfe/Service/UserServiceImpl.java:97-115 | an update that passes the rules keeps every email unique |
| UserServiceImpl.CreateKeepsEmailsUnique | src/main/java/com/example/pfe/Service/UserServiceImpl.java:28-79 | a creation that passes the rules keeps every email unique, whatever id the new row gets |
| UserServiceImpl.NewUser | src/main/java/com/example/pfe/Service/UserServiceImpl.java:28-49 | a failing rule is reported; otherwise the mapped form with its generated employee code |
| UserServiceImpl.UserServiceImpl.CreateUser | src/main/java/com/example/pfe/Service/UserServiceImpl.java:28-49 | nothing is written on failure; on success exactly the new user is added under a fresh id, its view is returned, and unique emails stay unique |
| UserServiceImpl.UserServiceImpl.GetUserById | src/main/java/com/example/pfe/Service/UserServiceImpl.java:89-95 | a stored id gives its view; a null id is a 500-class failure and a missing id "User not found with id: " + id |
| UserServiceImpl.UserServiceImpl.GetAllUsers | src/main/java/com/example/pfe/Service/UserServiceImpl.java:81-87 | one view per stored user, keyed by id |
| UserServiceImpl.UserServiceImpl.UpdateUser | src/main/java/com/example/pfe/Service/UserServiceImpl.java:97-115 | succeeds iff the id is stored and the update rules pass; nothing is written on failure; on success only that row changes, to the updated form, and unique emails stay unique |
| UserServiceImpl.UserServiceImpl.DeleteUser | src/main/java/com/example/pfe/Service/UserServiceImpl.java:209-217 | a null id is a 500-class failure, a missing id not-found; otherwise that row alone is removed |
| ProjectRepository.StatusesPartition | src/main/java/com/example/pfe/Repository/ProjectRepository.java:39-56 | every project status is in exactly one of the active and inactive lists |
| ProjectRepository.FindByStatuses | src/main/java/com/example/pfe/Repository/ProjectRepository.java:36-37 | a project is selected iff it has a status and that status is in the list |
| ProjectRepository.ActiveAndInactivePartition | src/main/java/com/example/pfe/Repository/ProjectRepository.java:39-56 | active projects are exactly those PLANNED, IN_PROGRESS or ON_HOLD, inactive ones exactly those COMPLETED or CANCELLED; the two are disjoint and together cover every project that has a status |
| ProjectRepository.FindOverdueProjects | src/main/java/com/example/pfe/Repository/ProjectRepository.java:68-75 | a project is overdue iff its end date is before today and its status is neither COMPLETED nor CANCELLED |
| ProjectRepository.FindUpcomingProjects | src/main/java/com/example/pfe/Repository/ProjectRepository.java:77-83 | a project is upcoming iff it is PLANNED and starts after today |
| ProjectRepository.OverdueAndUpcomingAreActive | src/main/java/com/example/pfe/Repository/ProjectRepository.java:39-83 | overdue and upcoming projects are all among the active ones |
| ProjectRepository.FindUnassignedProjects | src/main/java/com/example/pfe/Repository/ProjectRepository.java:65-66 | a project is unassigned iff it has no manager |
| ProjectRepository.SearchProjects | src/main/java/com/example/pfe/Repository/ProjectRepository.java:29-33 | a project is found iff its name, description or code is LIKE '%' + keyword + '%' ignoring case; a null keyword finds nothing |
| ProjectRepository.EmptyKeywordFindsNamedProjects | src/main/java/com/example/pfe/Repository/ProjectRepository.java:29-33 | the empty keyword finds every project that has a name |
| ProjectRepository.FindByProjectManager | src/main/java/com/example/pfe/Repository/ProjectRepository.java:23-23 | the projects whose manager is that user |
| ProjectRepository.CountByProjectManagerZero | src/main/java/com/example/pfe/Repository/ProjectRepository.java:26-26 | a manager counts zero projects iff no project names them |
| ProjectRepository.FindByStatus | src/main/java/com/example/pfe/Repository/ProjectRepository.java:24-24 | the projects whose status equals the argument, a null argument selecting those with none |
| ProjectRepository.StatusQueriesAgree | src/main/java/com/example/pfe/Repository/ProjectRepository.java:24-56 | projects of an active status are active, of an inactive status inactive, and never both |
| ProjectRepository.RowsWithCode | src/main/java/com/example/pfe/Repository/ProjectRepository.java:19-21 | the projects whose code equals the argument |
| ProjectRepository.FindByCode | src/main/java/com/example/pfe/Repository/ProjectRepository.java:19-19 | a found project is the only one with that code; nothing is found iff no project has it |
| ProjectRepository.ProjectStore.Insert | src/main/java/com/example/pfe/Repository/ProjectRepository.java:17-17 | saving a new project stores it under the next unused id, which it records in the row |
| ProjectRepository.ProjectStore.Update | src/main/java/com/example/pfe/Repository/ProjectRepository.java:17-17 | saving a stored project replaces that row only |
| ProjectRepository.ProjectStore.Delete | src/main/java/com/example/pfe/Repository/ProjectRepository.java:17-17 | deleting removes that row only |
| ProjectMapper.BlankProject | src/main/java/com/example/pfe/mapper/ProjectMapper.java:16-16 | a new project has no id, code or manager |
| ProjectMapper.ToEntity | src/main/java/com/example/pfe/mapper/ProjectMapper.java:11-24 | a null form gives null; otherwise the project holds the form's name, description, status and dates, with no code, id, manager or assignment date |
| ProjectMapper.ToDTO | src/main/java/com/example/pfe/mapper/ProjectMapper.java:30-57 | a null project gives null; otherwise its id, code, name, description, status, start and end dates, assignment date and both timestamps, and the manager's "first last" name and email exactly when a manager is set |
| ProjectMapper.UpdateEntityFromDto | src/main/java/com/example/pfe/mapper/ProjectMapper.java:59-80 | each non-null form field replaces the project's and each null one keeps it; code, id, manager and timestamps never change; a null form or project changes nothing |
| ProjectMapper.UpdateFromDtoProperties | src/main/java/com/example/pfe/mapper/ProjectMapper.java:59-80 | the partial update is idempotent, and a complete form turns any project into what toEntity builds from it, apart from the columns toEntity leaves empty |
| GlobalExceptionHandler.MessageValue | src/main/java/com/example/pfe/exception/GlobalExceptionHandler.java:49-49 | the message is put in the body as text when present and as null otherwise |
| GlobalExceptionHandler.FieldErrorMap | src/main/java/com/example/pfe/exception/GlobalExceptionHandler.java:30-32 | the field map has one key per field with an error |
| GlobalExceptionHandler.LastErrorWins | src/main/java/com/example/pfe/exception/GlobalExceptionHandler.java:30-32 | for each field the map holds the message of the last error reported for it |
| GlobalExceptionHandler.Handle | src/main/java/com/example/pfe/exception/GlobalExceptionHandler.java:21-82 | validation failures give 400 "Validation Failed" with the field map, IllegalArgumentException 400 "Business Rule Violation" with its message, ResourceNotFoundException 404 with its message, anything else 500 with the fixed message; every body has timestamp, status and error |
| GlobalExceptionHandler.InternalDetailIsHidden | src/main/java/com/example/pfe/exception/GlobalExceptionHandler.java:71-82 | two unexpected exceptions give the same response whatever their messages, while 400 and 404 responses differ exactly when the messages do |
| GlobalExceptionHandler.StatusClassifiesException | src/main/java/com/example/pfe/exception/GlobalExceptionHandler.java:21-82 | the status alone tells client errors, missing resources and server errors apart |
| GlobalExceptionHandler.ExceptionOf | src/main/java/com/example/pfe/exception/GlobalExceptionHandler.java:41-82 | not-found failures reach the 404 handler, illegal-argument failures the 400 handler, unexpected failures the 500 handler |
| ProjectAssignmentService.FindEmployeeByCode | src/main/java/com/example/pfe/Service/ProjectAssignmentService.java:75-77 | an employee is found iff exactly one user has that code, and then it is that user; a code nobody has gives not-found |
| ProjectAssignmentService.ValidateAssignment | src/main/java/com/example/pfe/Service/ProjectAssignmentService.java:91-108 | an assignment passes iff the employee does not already manage the project, is enabled with active TRUE, and holds the EMPLOYEE role; each refusal has its own message, in that order |
| ProjectAssignmentService.AssignCheck | src/main/java/com/example/pfe/Service/ProjectAssignmentService.java:70-79 | a missing project is reported first as not-found; a passing check names the stored project and the employee with the given code, who passed validateAssignment |
| ProjectAssignmentService.WithProjectManagerRole | src/main/java/com/example/pfe/Service/ProjectAssignmentService.java:110-123 | PROJECT_MANAGER is appended only when the employee lacks it and the roles table holds it; nothing else about the user changes |
| ProjectAssignmentService.RemoveAll | src/main/java/com/example/pfe/Service/ProjectAssignmentService.java:130-131 | every PROJECT_MANAGER entry goes and every other role stays with its multiplicity; a list without it is unchanged |
| ProjectAssignmentService.Assigned | src/main/java/com/example/pfe/Service/ProjectAssignmentService.java:82-84 | the assigned project's manager is the employee and its assignment and update times are now; nothing else changes |
| ProjectAssignmentService.Unassigned | src/main/java/com/example/pfe/Service/ProjectAssignmentService.java:60-61 | the project loses its manager and is stamped now; the assignment date stays |
| ProjectAssignmentService.RemoveCheck | src/main/java/com/example/pfe/Service/ProjectAssignmentService.java:49-58 | removal passes iff both rows exist and the employee is the project's manager; a missing project or employee is not-found, a non-manager a business error |
| ProjectAssignmentService.AfterRoleRemoval | src/main/java/com/example/pfe/Service/ProjectAssignmentService.java:125-139 | the role is stripped exactly when the employee manages no project any more; otherwise the user is unchanged |
| ProjectAssignmentService.ProjectManagerRoleGrantedOnce | src/main/java/com/example/pfe/Service/ProjectAssignmentService.java:110-123 | granting the role twice is granting it once, it occurs at most once afterwards, and it is present when the roles table has it |
| ProjectAssignmentService.AssignmentMovesManagement | src/main/java/com/example/pfe/Service/ProjectAssignmentService.java:70-89 | after an assignment the employee manages the project and the previous manager no longer does, while keeping their own roles |
| ProjectAssignmentService.RemovalWithdrawsRoleOnlyFromIdleManagers | src/main/java/com/example/pfe/Service/ProjectAssignmentService.java:46-65 | removing the only project of a manager withdraws the role; one who still manages another project keeps it |
| ProjectAssignmentService.AssignThenRemoveRestoresRoles | src/main/java/com/example/pfe/Service/ProjectAssignmentService.java:46-123 | for an employee who had no PROJECT_MANAGER role and managed nothing, assignment followed by removal gives back their role list exactly |
| ProjectAssignmentService.RemoveAppended | src/main/java/com/example/pfe/Service/ProjectAssignmentService.java:117-131 | removing every PROJECT_MANAGER from a list that had none, with one appended, gives the list back |
| ProjectAssignmentService.ProjectAssignmentService.AssignProjectToEmployee | src/main/java/com/example/pfe/Service/ProjectAssignmentService.java:35-89 | nothing is written when the check fails; on success the project is assigned to the employee and the employee holds the role when the roles table has it |
| ProjectAssignmentService.ProjectAssignmentService.RemoveFromProject | src/main/java/com/example/pfe/Service/ProjectAssignmentService.java:46-68 | nothing is written when the check fails; on success the project has no manager and the employee has passed through the role removal |
| ProjectService.CheckDates | src/main/java/com/example/pfe/Service/ProjectServiceImpl.java:44-48 | only an end date strictly before the start date is refused, with "End date cannot be before start date"; equal or missing dates pass |
| ProjectService.SameDayProjectPasses | src/main/java/com/example/pfe/Service/ProjectServiceImpl.java:44-48 | a project ending on the day it starts passes the date guard |
| ProjectService.DigitChar | src/main/java/com/example/pfe/Service/ProjectServiceImpl.java:281-281 | the character is the decimal digit denoting the number |
| ProjectService.ThreeDigits | src/main/java/com/example/pfe/Service/ProjectServiceImpl.java:281-281 | the zero-padded text has three digits and denotes the number |
| ProjectService.NamePart | src/main/java/com/example/pfe/Service/ProjectServiceImpl.java:284-286 | the first three characters of the name upper-cased, or the whole name upper-cased when shorter |
| ProjectService.GenerateProjectCode | src/main/java/com/example/pfe/Service/ProjectServiceImpl.java:278-289 | in a four-digit year a code is produced iff the name is present, and it is "PRJ" + the year's last two digits + the name part + three digits |
| ProjectService.ProjectCodeLayout | src/main/java/com/example/pfe/Service/ProjectServiceImpl.java:278-289 | a generated code reads back as "PRJ", two digits for the year modulo 100, the name part, and three digits denoting the draw |
| ProjectService.WithCollisionSuffix | src/main/java/com/example/pfe/Service/ProjectServiceImpl.java:53-56 | an unused code is kept; a used one gets "-" and the milliseconds modulo 1000 appended, once |
| ProjectService.SuffixedCodeCanClash | src/main/java/com/example/pfe/Service/ProjectServiceImpl.java:53-56 | since the suffixed code is not checked again, a new project can receive a code another project already has |
| ProjectService.MapToEntity | src/main/java/com/example/pfe/Service/ProjectServiceImpl.java:291-298 | the form's name, description and dates, the status defaulting to PLANNED, and no id, code or manager |
| ProjectService.NewProject | src/main/java/com/example/pfe/Service/ProjectServiceImpl.java:40-76 | the date guard fails first; a passing form with a name in a four-digit year yields the mapped project with the generated (possibly suffixed) code, its creation times and the named manager, which must exist |
| ProjectService.CreatedProjectHasNoAssignmentDate | src/main/java/com/example/pfe/Service/ProjectServiceImpl.java:59-70 | a created project has a status but no assignment date, even when created with a manager |
| ProjectService.WithManagerFromRequest | src/main/java/com/example/pfe/Service/ProjectServiceImpl.java:101-113 | a different manager id must name a user and sets the manager and the assignment date; no id clears both when a manager was set; the same id changes nothing |
| ProjectService.UpdatedProject | src/main/java/com/example/pfe/Service/ProjectServiceImpl.java:86-113 | the date guard fails first; otherwise every form field replaces the project's, null ones included, the project is stamped now, and the manager branch applies |
| ProjectService.UpdateIsIdempotentUpToClock | src/main/java/com/example/pfe/Service/ProjectServiceImpl.java:79-119 | submitting the same form again later changes only the modification time |
| ProjectService.ActiveProjectsOf | src/main/java/com/example/pfe/Service/ProjectServiceImpl.java:264-270 | exactly the projects of the active records among the rows |
| ProjectService.Distinct | src/main/java/com/example/pfe/Service/ProjectServiceImpl.java:271-271 | distinct keeps each element once, loses none, never lengthens the list, and orders the kept elements by first appearance |
| ProjectService.DistinctOfDistinct | src/main/java/com/example/pfe/Service/ProjectServiceImpl.java:271-271 | a list without repeats is its own distinct list |
| ProjectService.ProjectServiceImpl.CreateProject | src/main/java/com/example/pfe/Service/ProjectServiceImpl.java:40-76 | nothing is written on failure; on success the project is saved under a fresh id and its view returned |
| ProjectService.ProjectServiceImpl.UpdateProject | src/main/java/com/example/pfe/Service/ProjectServiceImpl.java:79-119 | an unknown id is not-found; nothing is written on failure; on success only that row changes, to the updated project |
| ProjectService.ProjectServiceImpl.UpdateProjectStatus | src/main/java/com/example/pfe/Service/ProjectServiceImpl.java:177-189 | succeeds iff the project exists; then only its status (null included) and modification time change |
| ProjectService.ProjectServiceImpl.DeleteProject | src/main/java/com/example/pfe/Service/ProjectServiceImpl.java:157-172 | succeeds iff the project exists and no team record, active or not, points at it; then that row alone goes and no team record is left dangling |
| ProjectService.ProjectServiceImpl.GetProjectById | src/main/java/com/example/pfe/Service/ProjectServiceImpl.java:123-128 | a stored id gives the project's view; a missing id "Project not found: " + id |
| ProjectService.ProjectServiceImpl.GetProjectByCode | src/main/java/com/example/pfe/Service/ProjectServiceImpl.java:391-398 | succeeds iff exactly one project has the code, and its view carries that code |
| ProjectService.ProjectServiceImpl.GetProjectWithTeam | src/main/java/com/example/pfe/Service/ProjectServiceImpl.java:132-140 | succeeds iff the project exists, with its view and the ids of its active team records |
| ProjectService.ProjectServiceImpl.GetProjectTeamMembers | src/main/java/com/example/pfe/Service/ProjectServiceImpl.java:247-254 | exactly the active team records of the project; a null id gives none |
| ProjectService.ProjectServiceImpl.GetProjectsByManager | src/main/java/com/example/pfe/Service/ProjectServiceImpl.java:201-209 | succeeds iff the manager exists, with exactly the projects that user manages |
| ProjectService.ProjectServiceImpl.GetEmployeeProjects | src/main/java/com/example/pfe/Service/ProjectServiceImpl.java:258-274 | succeeds iff the employee exists, with the distinct projects of their active records in the order the records are listed, each once |
| TeamAssignmentService.FindByProjectId | src/main/java/com/example/pfe/Repository/TeamAssignmentRepository.java:15-15 | exactly the records of that project |
| TeamAssignmentService.FindByProjectAndActiveTrue | src/main/java/com/example/pfe/Service/TeamAssignmentService.java:97-97 | exactly the project's records whose active flag is TRUE, a subset of all its records |
| TeamAssignmentService.FindByEmployeeAndActiveTrue | src/main/java/com/example/pfe/Service/TeamAssignmentService.java:109-109 | exactly the employee's records whose active flag is TRUE |
| TeamAssignmentService.FindProject | src/main/java/com/example/pfe/Service/TeamAssignmentService.java:39-41 | a project is found iff the id is present and stored; a null id is a 500-class failure, a missing one the caller's not-found |
| TeamAssignmentService.AssignmentCheck | src/main/java/com/example/pfe/Service/TeamAssignmentService.java:39-57 | an assignment passes iff the project, the employee and the assigning manager exist and no record, active or not, already links the employee to the project; the missing project is reported first |
| TeamAssignmentService.NewAssignment | src/main/java/com/example/pfe/Service/TeamAssignmentService.java:60-66 | the new record is active, added today, has no id yet and links the given project, employee and assigning manager |
| TeamAssignmentService.Deactivated | src/main/java/com/example/pfe/Service/TeamAssignmentService.java:82-82 | removal only sets the record's active flag to false |
| TeamAssignmentService.RemovalIsSoftAndFinal | src/main/java/com/example/pfe/Service/TeamAssignmentService.java:52-83 | a removed member leaves the project's active team, but the kept record blocks assigning them to it again |
| TeamAssignmentService.AssignedMemberIsListed | src/main/java/com/example/pfe/Service/TeamAssignmentService.java:60-109 | a new record appears in the project's active team and in the employee's active assignments |
| TeamAssignmentService.TeamAssignmentStore.Insert | src/main/java/com/example/pfe/Repository/TeamAssignmentRepository.java:12-12 | saving a new record stores it under the next unused id, which it records in the row |
| TeamAssignmentService.TeamAssignmentStore.Update | src/main/java/com/example/pfe/Repository/TeamAssignmentRepository.java:12-12 | saving a stored record replaces that row only |
| TeamAssignmentService.TeamAssignmentService.AssignEmployeeToProject | src/main/java/com/example/pfe/Service/TeamAssignmentService.java:35-72 | when every check passes exactly one new active record is added and returned; otherwise the failure is reported and nothing is written |
| TeamAssignmentService.TeamAssignmentService.RemoveEmployeeFromProject | src/main/java/com/example/pfe/Service/TeamAssignmentService.java:77-86 | succeeds iff the record exists, and then only its active flag becomes false; a null id is a 500-class failure and an unknown id not-found, and neither writes anything |
| TeamAssignmentService.TeamAssignmentService.GetProjectTeam | src/main/java/com/example/pfe/Service/TeamAssignmentService.java:92-98 | succeeds iff the project exists, with exactly its active records |
| TeamAssignmentService.TeamAssignmentService.GetEmployeeAssignments | src/main/java/com/example/pfe/Service/TeamAssignmentService.java:104-110 | succeeds iff the employee exists, with exactly their active records |

## Left out

- **E-mail.** Sending is left out: activation, approval, reset, assignment and removal e-mails (EmailService), all asynchronous and catching their own failures. Each send is a no-op, so the welcome-mail fallback in AuthenticationService is not modelled.
- **Cryptography.** The following are left out:
  - HMAC signing, JWS parsing and Base64 key decoding (jjwt);
  - BCrypt hashing with its random salt;
  - the random key generated when the configured secret is too short or not Base64.
  
  Signing and verification are an abstract codec, a hash is an injective wrapper, and the random key is a parameter.
- **Randomness and the clock.** `Random`, `SecureRandom`, `Math.random`, `UUID.randomUUID`, `System.currentTimeMillis`, `LocalDateTime.now` and `Year.now` are parameters. Where the source reads the clock twice in one operation, the model uses one instant.
- **Photo upload.** The file-system part of `uploadUserPhoto` is left out: creating the directory, deleting the old file, copying and building the URL. Only its checks and `getFileExtension` are modelled.
- **Framework code.** These are outside the model:
  - controllers, CORS configuration and the commented-out data initializer;
  - Spring Security's context;
  - logging;
  - pagination. `getAllUsers`, `getUsersByStatus`, `searchUsers(keyword, pageable)` and `getAllProjects` return the whole result set as a set or map of ids.
- **Concurrency.** The blacklist's concurrent key set is a plain set.
- **Floating point.** The salary and allowance are `Double` in the source and integers here; only their sign is ever checked.
- **Case conversion.** `toUpperCase` and `toLowerCase`, and SQL's LOWER, are modelled on ASCII letters only; other characters are left unchanged. The database collation is not modelled: LIKE compares characters exactly.
- **Principal authorities.** Spring's `User` keeps its authorities in a sorted set. The model keeps the set and not its order.
- **Operations not modelled.**
  - UserService.updateUser, getUserById, getAllUsers, getAvailableManagers and getUserStats: these are reads or a field copy outside the account lifecycle. The counts behind getUserStats are the `UserRepository.Count*` functions.
  - UserService.shouldRegenerateEmployeeCode: it is never called.
- **Project query delegations.** These ProjectServiceImpl methods only pass a repository query's rows through the mapper: getProjectsByStatus, searchProjects, getActiveProjects, getInactiveProjects, countProjectsByStatus and existsByCode. The queries themselves are modelled in `ProjectRepository`.
- **User query delegations.** UserService.searchUsers(keyword, department, active) only passes `searchUsersWithStringDepartment`'s rows through the mapper. The query is modelled as `UserRepository.SearchUsers`.
- **Team delegations.** assignTeamMember and removeTeamMember forward to TeamAssignmentService, which is modelled.
- **Team member views.** The TeamMemberDTO built for team listings is left out; team queries return record ids.
- **Mappers and updates.** The mapper updates and the field-by-field updates return the updated value, which the caller saves, rather than mutating a shared object. No two services hold the same row object here, so no aliasing is lost.
- **DTO constraints.** The bean-validation constraints of UserRequestDTO and ChangePasswordRequestDTO repeat those of RegisterRequestDTO and ActivationRequestDTO. One form type, `UserForm`, serves both user request DTOs; it has a `description` field that UserRequestDTO lacks, which the service path leaves null.
- **Email syntax.** The `@Email` check is a parameter predicate.
