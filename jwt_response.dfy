/** The body returned after a login or an account activation. */
module JwtResponseDTO {
  import opened Wrappers
  import opened UserMapper

  /** tokenType defaults to "Bearer"; the fields a builder does not set stay null. */
  datatype JwtResponse = JwtResponse(
    token: Option<string>,
    tokenType: string,
    expiresIn: Option<int>,
    message: Option<string>,
    user: Option<UserResponse>)

  const BEARER: string := "Bearer"
}
