/** The response bodies and the pagination parameters. */
module Responses {
  import opened Wrappers
  import opened Models

  /** What the service reveals about a user: no password hash. */
  datatype UserResponse = UserResponse(id: Uuid, email: string, username: string, createdAt: int)

  datatype AuthResponse = AuthResponse(token: string, user: UserResponse)

  /** `From<User> for UserResponse`. */
  function FromUser(u: User): (r: UserResponse)
    ensures r.id == u.id && r.email == u.email && r.username == u.username && r.createdAt == u.createdAt
  {
    UserResponse(u.id, u.email, u.username, u.createdAt)
  }

  /** The projection does not depend on the password hash, so no response
      built from it can reveal the hash. */
  lemma HashNeverExposed(u: User, otherHash: string)
    ensures FromUser(u) == FromUser(u.(hashedPassword := otherHash))
  {
  }

  const DefaultPage: nat := 1
  const DefaultLimit: nat := 10

  datatype PaginationParams = PaginationParams(page: nat, limit: nat)

  /** The query parameters, each taking its default when absent. */
  function ParamsFromQuery(page: Option<nat>, limit: Option<nat>): (r: PaginationParams)
    ensures page.None? ==> r.page == 1
    ensures limit.None? ==> r.limit == 10
    ensures page.Some? ==> r.page == page.value
    ensures limit.Some? ==> r.limit == limit.value
  {
    PaginationParams(
      match page case Some(p) => p case None => DefaultPage,
      match limit case Some(l) => l case None => DefaultLimit)
  }

  /** One page of a listing, echoing the parameters it was asked with. */
  datatype PaginatedResponse<T> = PaginatedResponse(data: seq<T>, page: nat, limit: nat, total: nat)
}
