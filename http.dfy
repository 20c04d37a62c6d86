/** What a route handler receives from the identity verifier and what it answers. */
module Http {

  /** The outcome of verifying the bearer token: a verified uid, or a failure
      (which the handlers turn into 401). */
  datatype Caller = Anonymous | SignedIn(uid: string)

  /** A handler's JSON response, by status. */
  datatype Response<T> =
    | Ok(body: T)
    | Created(body: T)
    | BadRequest(error: string)
    | Unauthorized
}
