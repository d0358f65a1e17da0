/** Shared vocabulary of the marketplace backend: optional values, the closed
    sets of account roles and moderation statuses, and their wire names. */
module Common {

  datatype Option<+T> = None | Some(value: T) {
    function GetOr(default: T): T {
      match this
      case Some(v) => v
      case None => default
    }
  }

  datatype Result<+R, +E> = Ok(value: R) | Err(error: E)

  /** Python's `s.startswith(prefix)`. */
  predicate StartsWith(s: string, prefix: string) {
    |prefix| <= |s| && s[..|prefix|] == prefix
  }

  /** Account role, stored as the strings "buyer", "seller" and "admin". */
  datatype Role = Buyer | Seller | Admin

  function RoleName(r: Role): (n: string)
  {
    match r
    case Buyer => "buyer"
    case Seller => "seller"
    case Admin => "admin"
  }

  /** The stored name identifies the role: no two roles share a name. */
  lemma RoleNameInjective(r1: Role, r2: Role)
    requires RoleName(r1) == RoleName(r2)
    ensures r1 == r2
  {
  }

  /** Moderation status of a listing, stored as "pending", "approved", "rejected". */
  datatype Status = Pending | Approved | Rejected

  /** Membership test `s in {'pending', 'approved', 'rejected'}` of the handlers,
      returning the status it names. */
  function ParseStatus(s: string): (r: Option<Status>)
    ensures r.Some? <==> (s == "pending" || s == "approved" || s == "rejected")
  {
    if s == "pending" then Some(Pending)
    else if s == "approved" then Some(Approved)
    else if s == "rejected" then Some(Rejected)
    else None
  }

  function StatusName(st: Status): (n: string)
    ensures ParseStatus(n) == Some(st)
  {
    match st
    case Pending => "pending"
    case Approved => "approved"
    case Rejected => "rejected"
  }

  /** Python truthiness of an optional query or header value: absent and "" are false. */
  predicate Truthy(v: Option<string>) {
    v.Some? && v.value != ""
  }
}
