/** The read-only product routes: `GET /api/products` (the listing with its
    visibility rule), `GET /api/products/<id>` and `GET /api/my-products`.
    Each is a function of the current tables and of the request. */
module Catalog {
  import opened Common
  import opened AdminToken
  import opened Tables
  import opened Http

  /** The status filter `list_products` applies: the `status` query value
      when it is one of the three statuses, and no filter at all when it is
      absent or anything else. */
  function StatusFilter(status: Option<string>): (f: Option<Status>)
    ensures f.Some? <==> status.Some? && ParseStatus(status.value).Some?
    ensures f.Some? ==> StatusName(f.value) == status.value
  {
    if status.Some? then ParseStatus(status.value) else None
  }

  /** `if category:` — an empty category value filters nothing. */
  function CategoryFilter(category: Option<string>): Option<string> {
    if Truthy(category) then category else None
  }

  /** Whether the requested listing needs an admin token: a status filter of
      pending or rejected. */
  predicate NeedsAdmin(status: Option<string>) {
    StatusFilter(status) == Some(Pending) || StatusFilter(status) == Some(Rejected)
  }

  /** `list_products()`. */
  function ListProducts(products: seq<Product>, status: Option<string>, category: Option<string>,
                        h: Headers, now: int, unsign: string -> TokenData): (r: Response)
    ensures r.code == 401 <==> NeedsAdmin(status) && !IsAuthorizedAdmin(h, now, unsign)
    ensures r.code == 401 ==> r == Fail(401, "Admin authorization required")
    ensures r.code != 401 ==> r.code == 200 && r.body.Listing?
    ensures r.code == 200 ==>
              forall p :: p in r.body.items <==>
                p in products
                && (StatusFilter(status).Some? ==> p.status == StatusFilter(status).value)
                && (Truthy(category) ==> p.category == category.value)
    ensures r.code == 200 && OldestFirst(products) ==> NewestFirstOrder(r.body.items)
  {
    if NeedsAdmin(status) && !IsAuthorizedAdmin(h, now, unsign) then
      Fail(401, "Admin authorization required")
    else
      Response(200, Listing(NewestFirst(products, Query(StatusFilter(status), CategoryFilter(category), None))))
  }

  /** Approved listings are public: no token is consulted. */
  lemma ApprovedListingIsPublic(products: seq<Product>, category: Option<string>,
                                h: Headers, now: int, unsign: string -> TokenData)
    ensures ListProducts(products, Some("approved"), category, h, now, unsign).code == 200
  {
  }

  /** With an accepted admin token, the pending listing is exactly the
      pending products (in the given category, if one is given). */
  lemma AdminSeesPending(products: seq<Product>, h: Headers, now: int, unsign: string -> TokenData, p: Product)
    requires IsAuthorizedAdmin(h, now, unsign)
    requires p in products
    ensures var r := ListProducts(products, Some("pending"), None, h, now, unsign);
      r.code == 200 && (p in r.body.items <==> p.status == Pending)
  {
  }

  /** Without a status filter, or with an unrecognised one, nothing is
      filtered by status: pending and rejected products are listed to anyone. */
  lemma UnfilteredListingShowsEveryStatus(products: seq<Product>, status: Option<string>,
                                          h: Headers, now: int, unsign: string -> TokenData, p: Product)
    requires status.None? || ParseStatus(status.value).None?
    requires p in products
    ensures var r := ListProducts(products, status, None, h, now, unsign);
      r.code == 200 && p in r.body.items
  {
  }

  /** Hence the default listing is not the approved listing as soon as some
      product is still pending. */
  lemma DefaultListingIsNotApprovedListing(products: seq<Product>, h: Headers, now: int,
                                           unsign: string -> TokenData, p: Product)
    requires p in products && p.status == Pending
    ensures ListProducts(products, None, None, h, now, unsign)
         != ListProducts(products, Some("approved"), None, h, now, unsign)
  {
  }

  /** `get_product(product_id)`: any product, whatever its status. */
  function GetProduct(products: seq<Product>, id: int): (r: Response)
    ensures r.code == 404 <==> forall j :: 0 <= j < |products| ==> products[j].id != id
    ensures r.code == 404 ==> r == Fail(404, "Product not found")
    ensures r.code != 404 ==> r.code == 200 && r.body.Item? && r.body.product in products
                              && r.body.product.id == id
  {
    match FindProduct(products, id)
    case None => Fail(404, "Product not found")
    case Some(k) => Response(200, Item(products[k]))
  }

  predicate UniqueProductIds(products: seq<Product>) {
    forall i, j :: 0 <= i < j < |products| ==> products[i].id != products[j].id
  }

  /** Every product, pending and rejected ones included, can be fetched by
      its id with no token. */
  lemma GetIgnoresStatus(products: seq<Product>, k: nat)
    requires UniqueProductIds(products) && k < |products|
    ensures GetProduct(products, products[k].id) == Response(200, Item(products[k]))
  {
  }

  /** `my_products()`: every product of the seller with that email, in any
      status, newest first. */
  function MyProducts(users: seq<User>, products: seq<Product>, sellerEmail: Option<string>): (r: Response)
    ensures r.code == 400 <==> !Truthy(sellerEmail)
    ensures r.code == 400 ==> r == Fail(400, "seller_email is required")
    ensures r.code == 404 <==> Truthy(sellerEmail) && FindUser(users, sellerEmail.value, Some(Seller)).None?
    ensures r.code == 404 ==> r == Fail(404, "Seller not found")
    ensures r.code != 400 && r.code != 404 ==>
              r.code == 200 && r.body.Listing?
              && var s := users[FindUser(users, sellerEmail.value, Some(Seller)).value];
                 s.role == Seller && s.email == sellerEmail.value
                 && forall p :: p in r.body.items <==> p in products && p.sellerId == s.id
    ensures r.code == 200 && OldestFirst(products) ==> NewestFirstOrder(r.body.items)
  {
    if !Truthy(sellerEmail) then Fail(400, "seller_email is required")
    else
      match FindUser(users, sellerEmail.value, Some(Seller))
      case None => Fail(404, "Seller not found")
      case Some(k) => Response(200, Listing(NewestFirst(products, Query(None, None, Some(users[k].id)))))
  }
}
