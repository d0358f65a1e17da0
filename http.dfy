/** What a route handler answers: an HTTP status code and a JSON payload,
    the payload reduced to the fields the handlers decide on. */
module Http {
  import opened Common
  import opened AdminToken
  import opened Tables

  /** The `user` object of a successful login. */
  datatype UserSummary = UserSummary(id: nat, fullname: string, email: string, role: Role)

  datatype Body =
    | Error(error: string)
    | Message(message: string)
    | LoggedIn(user: UserSummary, adminToken: Option<TokenData>)
    | Submitted(id: nat, status: Status)
    | Listing(items: seq<Product>)
    | Item(product: Product)
    | StatusSet(id: nat, status: Status)

  datatype Response = Response(code: int, body: Body)

  function Fail(code: int, error: string): Response {
    Response(code, Error(error))
  }
}
