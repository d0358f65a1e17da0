/** The two tables, `users` and `products`, and the queries the handlers run
    against them: `filter_by(...).first()`, `query.get(id)`, and
    `filter_by(...).order_by(created_at.desc()).all()`.

    Rows are kept in insertion order. Creation timestamps are taken from a
    clock that strictly increases from one insert to the next, so "newest
    first" is the reverse of insertion order. */
module Tables {
  import opened Common
  import opened Credentials

  /** A row of `users`. `phone`, `address`, `govtIdPath` and `paymentDetails`
      are nullable columns. */
  datatype User = User(
    id: nat,
    fullname: string,
    email: string,
    phone: Option<string>,
    address: Option<string>,
    role: Role,
    passwordHash: PasswordHash,
    govtIdPath: Option<string>,
    paymentDetails: Option<string>,
    createdAt: nat)

  /** A row of `products`. The price is kept as the text that `float()`
      accepted; its floating-point value is not modelled. */
  datatype Product = Product(
    id: nat,
    sellerId: nat,
    sellerName: string,
    name: string,
    price: string,
    description: string,
    imagePath: string,
    category: string,
    status: Status,
    createdAt: nat)

  // ---------------------------------------------------------------------------
  // Point lookups
  // ---------------------------------------------------------------------------

  /** `User.query.filter_by(email=email).first()`, or, with a role, also
      `role=role`: the first matching row in table order. */
  function FindUser(users: seq<User>, email: string, role: Option<Role>): (r: Option<nat>)
    ensures r.Some? ==> r.value < |users| && users[r.value].email == email
                        && (role.Some? ==> users[r.value].role == role.value)
    ensures r.Some? ==> forall j :: 0 <= j < r.value ==>
                          !(users[j].email == email && (role.Some? ==> users[j].role == role.value))
    ensures r.None? <==> forall j :: 0 <= j < |users| ==>
                          !(users[j].email == email && (role.Some? ==> users[j].role == role.value))
  {
    if |users| == 0 then None
    else if users[0].email == email && (role.Some? ==> users[0].role == role.value) then Some(0)
    else
      match FindUser(users[1..], email, role)
      case None => None
      case Some(k) => Some(k + 1)
  }

  predicate EmailTaken(users: seq<User>, email: string) {
    exists j :: 0 <= j < |users| && users[j].email == email
  }

  /** `Product.query.get(id)`: the row with that primary key. */
  function FindProduct(products: seq<Product>, id: int): (r: Option<nat>)
    ensures r.Some? ==> r.value < |products| && products[r.value].id == id
                        && forall j :: 0 <= j < r.value ==> products[j].id != id
    ensures r.None? <==> forall j :: 0 <= j < |products| ==> products[j].id != id
  {
    if |products| == 0 then None
    else if products[0].id == id then Some(0)
    else
      match FindProduct(products[1..], id)
      case None => None
      case Some(k) => Some(k + 1)
  }

  // ---------------------------------------------------------------------------
  // Listing queries
  // ---------------------------------------------------------------------------

  /** The `filter_by` clauses of a listing query; None means "not filtered". */
  datatype Query = Query(status: Option<Status>, category: Option<string>, sellerId: Option<nat>)

  predicate Matches(p: Product, q: Query) {
    (q.status.Some? ==> p.status == q.status.value)
    && (q.category.Some? ==> p.category == q.category.value)
    && (q.sellerId.Some? ==> p.sellerId == q.sellerId.value)
  }

  /** Rows in strictly increasing creation time, as they are inserted. */
  predicate OldestFirst(ps: seq<Product>) {
    forall i, j :: 0 <= i < j < |ps| ==> ps[i].createdAt < ps[j].createdAt
  }

  /** Rows in strictly decreasing creation time. */
  predicate NewestFirstOrder(ps: seq<Product>) {
    forall i, j :: 0 <= i < j < |ps| ==> ps[i].createdAt > ps[j].createdAt
  }

  /** `query.filter_by(...).order_by(Product.created_at.desc()).all()`:
      exactly the matching rows, newest first. */
  function NewestFirst(ps: seq<Product>, q: Query): (r: seq<Product>)
    ensures forall x :: x in r <==> x in ps && Matches(x, q)
    ensures OldestFirst(ps) ==> NewestFirstOrder(r)
    decreases |ps|
  {
    if |ps| == 0 then []
    else
      var last := ps[|ps| - 1];
      var older := ps[..|ps| - 1];
      var rest := NewestFirst(older, q);
      assert forall x :: x in ps <==> x in older || x == last;
      if Matches(last, q) then
        assert OldestFirst(ps) ==> forall k :: 0 <= k < |rest| ==> rest[k].createdAt < last.createdAt by {
          if OldestFirst(ps) {
            forall k | 0 <= k < |rest| ensures rest[k].createdAt < last.createdAt {
              assert rest[k] in older;
              var m :| 0 <= m < |older| && older[m] == rest[k];
              assert ps[m] == rest[k];
            }
          }
        }
        [last] + rest
      else rest
  }

  // ---------------------------------------------------------------------------
  // Status change
  // ---------------------------------------------------------------------------

  /** The products table after `product.status = new_status` on the row with
      primary key `id`: that row's status is replaced, nothing else changes. */
  function WithStatus(ps: seq<Product>, id: int, st: Status): (r: seq<Product>)
    ensures |r| == |ps|
    ensures forall j :: 0 <= j < |ps| && ps[j].id == id ==> r[j] == ps[j].(status := st)
    ensures forall j :: 0 <= j < |ps| && ps[j].id != id ==> r[j] == ps[j]
  {
    seq(|ps|, j requires 0 <= j < |ps| => if ps[j].id == id then ps[j].(status := st) else ps[j])
  }

  /** Setting the same status twice leaves the table as setting it once. */
  lemma StatusChangeIdempotent(ps: seq<Product>, id: int, st: Status)
    ensures WithStatus(WithStatus(ps, id, st), id, st) == WithStatus(ps, id, st)
  {
  }

  /** A status change keeps ids, owners and creation times, so the table stays
      in creation order. */
  lemma StatusChangeKeepsOrder(ps: seq<Product>, id: int, st: Status)
    requires OldestFirst(ps)
    ensures OldestFirst(WithStatus(ps, id, st))
  {
  }
}
