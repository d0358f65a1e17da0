/** The state-changing handlers of the backend: buyer and seller
    registration, the `create-admin` command, product submission and the
    admin status change. The database is an object `Store` whose tables the
    handlers extend or update in place.

    The primary keys the database assigns (1, 2, 3, ... since rows are never
    deleted) come from two counters, and `created_at` from a clock that
    advances with every insert. `files` records the paths of the uploads
    written to the static directory, so that files left behind by a failed
    request stay visible. */
module Marketplace {
  import opened Common
  import opened Credentials
  import opened AdminToken
  import opened Uploads
  import opened Forms
  import opened Tables
  import opened Http
  import Accounts
  import Catalog

  /** Every product belongs to a seller account. */
  predicate OwnedBySeller(users: seq<User>, p: Product) {
    exists j :: 0 <= j < |users| && users[j].id == p.sellerId && users[j].role == Seller
  }

  /** The users table: emails pairwise distinct, ids assigned in increasing
      order below the next id. */
  predicate UsersValid(users: seq<User>, nextUserId: nat) {
    Accounts.UniqueEmails(users)
    && 1 <= nextUserId
    && (forall i :: 0 <= i < |users| ==> 1 <= users[i].id < nextUserId)
    && (forall i, j :: 0 <= i < j < |users| ==> users[i].id < users[j].id)
  }

  /** The products table: ids assigned in increasing order below the next id,
      rows in creation order before the clock, every row owned by a seller. */
  predicate ProductsValid(users: seq<User>, products: seq<Product>, nextProductId: nat, clock: nat) {
    1 <= nextProductId
    && (forall i :: 0 <= i < |products| ==> 1 <= products[i].id < nextProductId)
    && (forall i, j :: 0 <= i < j < |products| ==> products[i].id < products[j].id)
    && (forall i :: 0 <= i < |products| ==> products[i].createdAt < clock)
    && OldestFirst(products)
    && (forall i :: 0 <= i < |products| ==> OwnedBySeller(users, products[i]))
  }

  /** Every product image and every seller's government ID is a stored file. */
  predicate FilesStored(users: seq<User>, products: seq<Product>, files: seq<string>) {
    (forall i :: 0 <= i < |products| ==> products[i].imagePath in files)
    && (forall i :: 0 <= i < |users| && users[i].role == Seller ==>
          users[i].govtIdPath.Some? && users[i].govtIdPath.value in files)
  }

  /** Adding a user with an unused email and the next id keeps the tables
      valid; a seller's ID document must already be stored. */
  lemma AddUserKeepsValid(users: seq<User>, products: seq<Product>, files: seq<string>,
                          nextUserId: nat, nextProductId: nat, clock: nat, u: User)
    requires UsersValid(users, nextUserId) && ProductsValid(users, products, nextProductId, clock)
    requires FilesStored(users, products, files)
    requires !EmailTaken(users, u.email) && u.id == nextUserId
    requires u.role == Seller ==> u.govtIdPath.Some? && u.govtIdPath.value in files
    ensures UsersValid(users + [u], nextUserId + 1)
    ensures ProductsValid(users + [u], products, nextProductId, clock + 1)
    ensures FilesStored(users + [u], products, files)
  {
    var all := users + [u];
    Accounts.FreshEmailKeepsUnique(users, u);
    forall i | 0 <= i < |products| ensures OwnedBySeller(all, products[i]) {
      assert OwnedBySeller(users, products[i]);
      var j :| 0 <= j < |users| && users[j].id == products[i].sellerId && users[j].role == Seller;
      assert all[j] == users[j];
    }
    forall i | 0 <= i < |all| && all[i].role == Seller
      ensures all[i].govtIdPath.Some? && all[i].govtIdPath.value in files
    {
      if i < |users| { assert all[i] == users[i]; }
    }
  }

  /** Adding a product owned by a seller, with a stored image, the next id
      and the current time keeps the tables valid. */
  lemma AddProductKeepsValid(users: seq<User>, products: seq<Product>, files: seq<string>,
                             nextProductId: nat, clock: nat, p: Product, sellerIndex: nat)
    requires ProductsValid(users, products, nextProductId, clock) && FilesStored(users, products, files)
    requires p.id == nextProductId && p.createdAt == clock && p.imagePath in files
    requires sellerIndex < |users| && users[sellerIndex].id == p.sellerId && users[sellerIndex].role == Seller
    ensures ProductsValid(users, products + [p], nextProductId + 1, clock + 1)
    ensures FilesStored(users, products + [p], files)
  {
  }

  /** Changing a product's status keeps the tables valid. */
  lemma StatusChangeKeepsValid(users: seq<User>, products: seq<Product>, files: seq<string>,
                               nextProductId: nat, clock: nat, id: int, st: Status)
    requires ProductsValid(users, products, nextProductId, clock) && FilesStored(users, products, files)
    ensures ProductsValid(users, WithStatus(products, id, st), nextProductId, clock)
    ensures FilesStored(users, WithStatus(products, id, st), files)
  {
  }

  /** Ids assigned in increasing order are unique, so every product of a
      valid table can be fetched by its id. */
  lemma ValidProductIdsUnique(users: seq<User>, products: seq<Product>, nextProductId: nat, clock: nat)
    requires ProductsValid(users, products, nextProductId, clock)
    ensures Catalog.UniqueProductIds(products)
  {
  }

  class Store {
    var users: seq<User>
    var products: seq<Product>
    var files: seq<string>
    var nextUserId: nat
    var nextProductId: nat
    var clock: nat

    /** The invariants of the two tables and the upload directory. */
    ghost predicate Valid()
      reads this
    {
      UsersValid(users, nextUserId)
      && ProductsValid(users, products, nextProductId, clock)
      && FilesStored(users, products, files)
    }

    /** `db.create_all()` on an empty database. */
    constructor ()
      ensures Valid()
      ensures users == [] && products == [] && files == []
      ensures nextUserId == 1 && nextProductId == 1 && clock == 0
    {
      users, products, files := [], [], [];
      nextUserId, nextProductId, clock := 1, 1, 0;
    }

    /** Appends a user row; it gets the next id and the current time. */
    method InsertUser(u: User)
      requires Valid()
      requires !EmailTaken(users, u.email)
      requires u.id == nextUserId
      requires u.role == Seller ==> u.govtIdPath.Some? && u.govtIdPath.value in files
      modifies this
      ensures Valid()
      ensures users == old(users) + [u] && products == old(products) && files == old(files)
      ensures nextUserId == old(nextUserId) + 1 && nextProductId == old(nextProductId)
      ensures clock == old(clock) + 1
    {
      AddUserKeepsValid(users, products, files, nextUserId, nextProductId, clock, u);
      users := users + [u];
      nextUserId := nextUserId + 1;
      clock := clock + 1;
    }

    /** Appends a product row; it gets the next id and the current time. */
    method InsertProduct(p: Product, sellerIndex: nat)
      requires Valid()
      requires p.id == nextProductId && p.createdAt == clock
      requires sellerIndex < |users| && users[sellerIndex].id == p.sellerId && users[sellerIndex].role == Seller
      requires p.imagePath in files
      modifies this
      ensures Valid()
      ensures products == old(products) + [p] && users == old(users) && files == old(files)
      ensures nextProductId == old(nextProductId) + 1 && nextUserId == old(nextUserId)
      ensures clock == old(clock) + 1
    {
      AddProductKeepsValid(users, products, files, nextProductId, clock, p, sellerIndex);
      products := products + [p];
      nextProductId := nextProductId + 1;
      clock := clock + 1;
    }

    /** Records an upload written to the static directory. */
    method StoreFile(path: string)
      requires Valid()
      modifies this`files
      ensures Valid()
      ensures files == old(files) + [path]
    {
      files := files + [path];
    }

    /** `product.status = new_status` on the row at index `k`, the one
        with that id. */
    method SetStatus(id: int, st: Status, k: nat)
      requires Valid()
      requires FindProduct(products, id) == Some(k)
      modifies this`products
      ensures Valid()
      ensures products == WithStatus(old(products), id, st)
    {
      StatusChangeKeepsValid(users, products, files, nextProductId, clock, id, st);
      assert products[k := products[k].(status := st)] == WithStatus(products, id, st);
      products := products[k := products[k].(status := st)];
    }

    /** `register_buyer()`. */
    method RegisterBuyer(form: Form, salt: nat) returns (r: Response)
      requires Valid()
      modifies this
      ensures Valid()
      ensures FirstBlank(form, BuyerFields).Some? ==>
                r == Fail(400, "Missing field: " + FirstBlank(form, BuyerFields).value) && unchanged(this)
      ensures FirstBlank(form, BuyerFields).None? && EmailTaken(old(users), Get(form, "email")) ==>
                r == Fail(409, "Email already registered") && unchanged(this)
      ensures FirstBlank(form, BuyerFields).None? && !EmailTaken(old(users), Get(form, "email")) ==>
                r == Response(201, Message("Buyer registered successfully"))
                && users == old(users) + [User(old(nextUserId), Get(form, "fullname"), Get(form, "email"),
                                               Some(Get(form, "phone")), Some(Get(form, "address")), Buyer,
                                               HashPassword(Get(form, "password"), salt), None, None, old(clock))]
                && products == old(products) && files == old(files)
                && nextUserId == old(nextUserId) + 1 && nextProductId == old(nextProductId) && clock == old(clock) + 1
    {
      var missing := FirstMissingField(form, BuyerFields);
      if missing.Some? {
        return Fail(400, "Missing field: " + missing.value);
      }
      if FindUser(users, Get(form, "email"), None).Some? {
        return Fail(409, "Email already registered");
      }
      var user := User(nextUserId, Get(form, "fullname"), Get(form, "email"), Some(Get(form, "phone")), Some(Get(form, "address")),
                       Buyer, HashPassword(Get(form, "password"), salt), None, None, clock);
      InsertUser(user);
      r := Response(201, Message("Buyer registered successfully"));
    }

    /** `register_seller()`; `govtId` is the `govt_id` file part, if sent. */
    method RegisterSeller(form: Form, govtId: Option<FileUpload>, salt: nat) returns (r: Response)
      requires Valid()
      modifies this
      ensures Valid()
      ensures FirstBlank(form, SellerFields).Some? ==>
                r == Fail(400, "Missing field: " + FirstBlank(form, SellerFields).value) && unchanged(this)
      ensures FirstBlank(form, SellerFields).None? && govtId.None? ==>
                r == Fail(400, "Government ID is required") && unchanged(this)
      ensures FirstBlank(form, SellerFields).None? && govtId.Some? && EmailTaken(old(users), Get(form, "email")) ==>
                r == Fail(409, "Email already registered") && unchanged(this)
      ensures FirstBlank(form, SellerFields).None? && govtId.Some? && !EmailTaken(old(users), Get(form, "email"))
              && SaveFile(govtId.value, GovtIdDir).Err? ==>
                r == Fail(400, "Govt ID upload failed: " + SaveFile(govtId.value, GovtIdDir).error)
                && unchanged(this)
      ensures FirstBlank(form, SellerFields).None? && govtId.Some? && !EmailTaken(old(users), Get(form, "email"))
              && SaveFile(govtId.value, GovtIdDir).Ok? ==>
                var path := SaveFile(govtId.value, GovtIdDir).value;
                r == Response(201, Message("Seller registered successfully"))
                && files == old(files) + [path]
                && users == old(users) + [User(old(nextUserId), Get(form, "fullname"), Get(form, "email"),
                                               Some(Get(form, "phone")), Some(Get(form, "address_location")), Seller,
                                               HashPassword(Get(form, "password"), salt), Some(path),
                                               Some(Get(form, "payment_details")), old(clock))]
                && products == old(products)
                && nextUserId == old(nextUserId) + 1 && nextProductId == old(nextProductId) && clock == old(clock) + 1
    {
      var missing := FirstMissingField(form, SellerFields);
      if missing.Some? {
        return Fail(400, "Missing field: " + missing.value);
      }
      if govtId.None? {
        return Fail(400, "Government ID is required");
      }
      if FindUser(users, Get(form, "email"), None).Some? {
        return Fail(409, "Email already registered");
      }
      var saved := SaveFile(govtId.value, GovtIdDir);
      if saved.Err? {
        return Fail(400, "Govt ID upload failed: " + saved.error);
      }
      StoreFile(saved.value);
      var user := User(nextUserId, Get(form, "fullname"), Get(form, "email"), Some(Get(form, "phone")),
                       Some(Get(form, "address_location")), Seller, HashPassword(Get(form, "password"), salt),
                       Some(saved.value), Some(Get(form, "payment_details")), clock);
      InsertUser(user);
      r := Response(201, Message("Seller registered successfully"));
    }

    /** The `create-admin` command; returns the line it echoes. The only way
        an admin account comes to exist. */
    method CreateAdmin(fullname: string, email: string, password: string, salt: nat) returns (message: string)
      requires Valid()
      modifies this
      ensures Valid()
      ensures EmailTaken(old(users), email) ==>
                message == "User with this email already exists" && unchanged(this)
      ensures !EmailTaken(old(users), email) ==>
                message == "Admin created: " + email
                && users == old(users) + [User(old(nextUserId), fullname, email, None, None, Admin,
                                               HashPassword(password, salt), None, None, old(clock))]
                && products == old(products) && files == old(files)
                && nextUserId == old(nextUserId) + 1 && nextProductId == old(nextProductId) && clock == old(clock) + 1
    {
      if FindUser(users, email, None).Some? {
        return "User with this email already exists";
      }
      InsertUser(User(nextUserId, fullname, email, None, None, Admin, HashPassword(password, salt), None, None, clock));
      message := "Admin created: " + email;
    }

    /** `create_product()`; `image` is the `product_image` file part, if sent,
        and `parsesAsFloat` tells which strings Python's `float()` accepts. */
    method CreateProduct(form: Form, image: Option<FileUpload>, parsesAsFloat: string -> bool) returns (r: Response)
      requires Valid()
      modifies this
      ensures Valid()
      ensures users == old(users)
      ensures FirstBlank(form, ProductFields).Some? ==>
                r == Fail(400, "Missing field: " + FirstBlank(form, ProductFields).value) && unchanged(this)
      ensures FirstBlank(form, ProductFields).None? && FindUser(users, Get(form, "seller_email"), Some(Seller)).None? ==>
                r == Fail(404, "Seller not found") && unchanged(this)
      ensures FirstBlank(form, ProductFields).None? && FindUser(users, Get(form, "seller_email"), Some(Seller)).Some?
              && image.None? ==>
                r == Fail(400, "Product image is required") && unchanged(this)
      ensures FirstBlank(form, ProductFields).None? && FindUser(users, Get(form, "seller_email"), Some(Seller)).Some?
              && image.Some? && SaveFile(image.value, ProductDir).Err? ==>
                r == Fail(400, "Image upload failed: " + SaveFile(image.value, ProductDir).error)
                && unchanged(this)
      ensures FirstBlank(form, ProductFields).None? && FindUser(users, Get(form, "seller_email"), Some(Seller)).Some?
              && image.Some? && SaveFile(image.value, ProductDir).Ok? && !parsesAsFloat(Get(form, "price")) ==>
                r == Fail(400, "Invalid price")
                && files == old(files) + [SaveFile(image.value, ProductDir).value]
                && products == old(products)
                && nextUserId == old(nextUserId) && nextProductId == old(nextProductId) && clock == old(clock)
      ensures FirstBlank(form, ProductFields).None? && FindUser(users, Get(form, "seller_email"), Some(Seller)).Some?
              && image.Some? && SaveFile(image.value, ProductDir).Ok? && parsesAsFloat(Get(form, "price")) ==>
                var seller := users[FindUser(users, Get(form, "seller_email"), Some(Seller)).value];
                var path := SaveFile(image.value, ProductDir).value;
                r == Response(201, Submitted(old(nextProductId), Pending))
                && files == old(files) + [path]
                && products == old(products) + [Product(old(nextProductId), seller.id, Get(form, "seller_name"),
                                                        Get(form, "product_name"), Get(form, "price"),
                                                        Get(form, "description"), path, Get(form, "category"),
                                                        Pending, old(clock))]
                && nextProductId == old(nextProductId) + 1 && nextUserId == old(nextUserId) && clock == old(clock) + 1
    {
      var missing := FirstMissingField(form, ProductFields);
      if missing.Some? {
        return Fail(400, "Missing field: " + missing.value);
      }
      var found := FindUser(users, Get(form, "seller_email"), Some(Seller));
      if found.None? {
        return Fail(404, "Seller not found");
      }
      var seller := users[found.value];
      if image.None? {
        return Fail(400, "Product image is required");
      }
      var saved := SaveFile(image.value, ProductDir);
      if saved.Err? {
        return Fail(400, "Image upload failed: " + saved.error);
      }
      StoreFile(saved.value);
      if !parsesAsFloat(Get(form, "price")) {
        return Fail(400, "Invalid price");
      }
      var product := Product(nextProductId, seller.id, Get(form, "seller_name"), Get(form, "product_name"), Get(form, "price"),
                             Get(form, "description"), saved.value, Get(form, "category"), Pending, clock);
      InsertProduct(product, found.value);
      r := Response(201, Submitted(product.id, product.status));
    }

    /** `update_product_status(product_id)`; `newStatus` is the `status`
        member of the JSON body, if it holds a string. */
    method UpdateProductStatus(productId: int, h: Headers, newStatus: Option<string>,
                               now: int, unsign: string -> TokenData) returns (r: Response)
      requires Valid()
      modifies this
      ensures Valid()
      ensures users == old(users) && files == old(files)
      ensures !IsAuthorizedAdmin(h, now, unsign) ==>
                r == Fail(401, "Admin authorization required") && unchanged(this)
      ensures IsAuthorizedAdmin(h, now, unsign) && (newStatus.None? || ParseStatus(newStatus.value).None?) ==>
                r == Fail(400, "Invalid status") && unchanged(this)
      ensures IsAuthorizedAdmin(h, now, unsign) && newStatus.Some? && ParseStatus(newStatus.value).Some?
              && FindProduct(old(products), productId).None? ==>
                r == Fail(404, "Product not found") && unchanged(this)
      ensures IsAuthorizedAdmin(h, now, unsign) && newStatus.Some? && ParseStatus(newStatus.value).Some?
              && FindProduct(old(products), productId).Some? ==>
                r == Response(200, StatusSet(productId, ParseStatus(newStatus.value).value))
                && products == WithStatus(old(products), productId, ParseStatus(newStatus.value).value)
                && nextUserId == old(nextUserId) && nextProductId == old(nextProductId) && clock == old(clock)
    {
      if !IsAuthorizedAdmin(h, now, unsign) {
        return Fail(401, "Admin authorization required");
      }
      if newStatus.None? || ParseStatus(newStatus.value).None? {
        return Fail(400, "Invalid status");
      }
      var st := ParseStatus(newStatus.value).value;
      var found := FindProduct(products, productId);
      if found.None? {
        return Fail(404, "Product not found");
      }
      SetStatus(productId, st, found.value);
      r := Response(200, StatusSet(productId, st));
    }
  }
}
