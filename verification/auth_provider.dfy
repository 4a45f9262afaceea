/**
 * The identity provider's values as the core sees them. The provider's calls are
 * not modelled: each one is represented by the answer it gave.
 */
module AuthProvider {
  import opened Wrappers

  datatype User = User(id: string, email: Option<string>)

  /** A session read from the cookies, not yet validated. `None` is a missing token. */
  datatype Session = Session(accessToken: Option<string>, refreshToken: string)

  /** The answer of `auth.getUser()`: `{ data: { user }, error }`. */
  datatype UserResponse = UserResponse(user: Option<User>, error: Option<string>)
}
