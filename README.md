# CraftChain marketplace backend — Dafny model

This project models the request-time behaviour of the CraftChain marketplace
backend (`backend/app.py`): buyers and sellers register, users log in, sellers
submit products that start out `pending`, and an administrator holding a
signed, eight-hour admin token moves products between `pending`, `approved`
and `rejected`. The public listing, the by-id lookup and a seller's own
listing read the same products table under different visibility rules.

Modules, leaves first:

- `Common`: `Option`, `Result`, the closed role and status sets and their
  wire names (`ParseStatus` is the `in {'pending', 'approved', 'rejected'}` test).
- `Credentials`: `hash_password` / `check_password`, with bcrypt represented
  symbolically (the salt is a parameter).
- `AdminToken`: token payload `TokenData {uid, role, issuedAt, signatureOk}`,
  `generate_admin_token`, `verify_admin_token` with its 60*60*8 second window,
  and the extraction of the token from the `Authorization` / `X-Admin-Token`
  headers, including Python's `replace('Bearer ', '')`, which deletes every
  occurrence of `Bearer `.
- `Uploads`: `save_file` — empty cleaned name gives `Invalid file`, a failing
  write gives its error, otherwise `/static/<dir>/<uuid hex><extension>`.
- `Forms`: the required-field loop each handler starts with; an absent or
  empty field is missing.
- `Tables`: the `users` and `products` rows and the queries run on them
  (`filter_by(...).first()`, `query.get(id)`, `order_by(created_at.desc())`),
  and the status change of one row.
- `Http`: status code plus payload.
- `Accounts`: `login`, a function of the users table.
- `Catalog`: `list_products`, `get_product`, `my_products`, functions of the tables.
- `Marketplace`: class `Store` holding `users`, `products`, the stored upload
  paths, the two id counters and the clock, with the handlers that change
  them: `register_buyer`, `register_seller`, the `create-admin` command,
  `create_product`, `update_product_status`. `Store.Valid()` is kept by all of
  them: emails pairwise distinct, ids increasing, products in creation order,
  every product owned by a seller account, every product image and seller ID
  document among the stored files.

Foreign pieces are parameters: the bcrypt salt, an `unsign` oracle that turns
a presented token string into its `TokenData`, a `parsesAsFloat` predicate for
Python's `float()`, and, with each uploaded file, the name `secure_filename`
produced, the `uuid4().hex` drawn and the write's error, if any. The request
time `now` is a parameter of the routes that check tokens.

Places where the code's behaviour is easy to misread, each modelled as the
code does it:

- `GET /api/products` with no `status` (or an unrecognised one) applies no
  status filter and returns pending and rejected products too; it is not the
  same as `status=approved` (`Catalog.DefaultListingIsNotApprovedListing`).
- Only a price that `float()` refuses is rejected; `-5` is accepted.
- `register_seller` checks the government-ID part before the duplicate email;
  `create_product` checks the seller before the image and the price last,
  after the image has been stored, so a refused price leaves the stored
  image behind (`Store.CreateProduct`, `files` grows, `products` does not).
- `get_product` returns a product whatever its status.
- A token whose uid is 0 is refused (`if not admin_id`).
- A product's `seller_name` is the `seller_name` form field, not the
  account's full name.
- `verify_admin_token` also refuses a token whose timestamp lies in the
  future; this rule belongs to itsdangerous's `max_age` check, not to
  `backend/app.py`.

## Model

| member | source | states |
|---|---|---|
| `Common.ParseStatus` | backend/app.py:361 | a status is recognised exactly when the value is one of "pending", "approved", "rejected" |
| `Common.StatusName` | backend/app.py:67 | every status's stored name is recognised back as that status |
| `Common.RoleNameInjective` | backend/app.py:48 | two roles with the same stored name are the same role, so the role check compares roles |
| `Credentials.HashPassword` | backend/app.py:75-80 | a hash accepts the password it was made from and rejects every other password |
| `Credentials.SaltIrrelevant` | backend/app.py:76 | the salt drawn does not change which passwords a hash accepts |
| `AdminToken.GenerateAdminToken` | backend/app.py:100-102 | a minted token verifies to its uid at every time up to eight hours after issue |
| `AdminToken.VerifyAcceptsExactly` | backend/app.py:105-113 | a token verifies iff the signature is good, its age is between 0 and 8 hours, role is "admin" and a uid is present; it then yields that uid, otherwise None |
| `AdminToken.ExpiredTokenRejected` | backend/app.py:108 | a token older than 60*60*8 seconds is refused however well-formed |
| `AdminToken.ReplaceAll` | backend/app.py:306 | deleting occurrences never lengthens the header value |
| `AdminToken.ReplaceAllNoOccurrence` | backend/app.py:306 | a value without "Bearer " in it is presented unchanged |
| `AdminToken.ReplaceAllDropsPrefix` | backend/app.py:306 | a leading "Bearer " is removed and the rest is processed the same way |
| `AdminToken.ReplaceAllSkipsHead` | backend/app.py:306 | a leading part in which no occurrence of the pattern starts is kept as it is, and the deletion carries on after it |
| `AdminToken.BearerHeaderPresents` | backend/app.py:306 | the header "Bearer <t>" reduces to `t` when `t` does not contain "Bearer " |
| `AdminToken.ExtractToken` | backend/app.py:305-306 | a header "Bearer <t>" presents the token `t` (for `t` free of "Bearer "); an Authorization value not starting with "Bearer " falls back to the X-Admin-Token header |
| `AdminToken.AdminId` | backend/app.py:307 | a uid comes back only when a non-empty token was presented, and a non-empty token always yields exactly its verification result |
| `AdminToken.AuthorizedMeansValidToken` | backend/app.py:307-309 | an admin caller presented a non-empty token with good signature, age within 8 hours, role "admin" and a non-zero uid |
| `AdminToken.ValidTokenAuthorizes` | backend/app.py:305-309 | a header "Bearer <t>" whose `t` decodes to a well-signed admin payload, at most eight hours old, with a non-zero uid, authorises the caller |
| `AdminToken.ZeroUidRefused` | backend/app.py:355-357 | a token carrying uid 0 is refused by the product routes |
| `AdminToken.BearerRemovedEverywhere` | backend/app.py:353-354 | the header "Bearer xBearer y" presents the token "xy": inner occurrences are deleted too |
| `AdminToken.InnerBearerDeleted` | backend/app.py:305-306 | for any `a` and `b` free of "Bearer ", the header "Bearer " + a + "Bearer " + b presents a + b: the inner "Bearer " is deleted too |
| `Uploads.LastDot` | backend/app.py:87 | the index found holds the last '.' of the name, or the name has no '.' |
| `Uploads.Extension` | backend/app.py:87 | the kept extension is a suffix of the name, empty or one '.' followed by no other '.', empty exactly when splitext finds none |
| `Uploads.SaveFile` | backend/app.py:83-93 | storing succeeds iff the cleaned name is non-empty and the write succeeds; an empty name is "Invalid file"; the stored path starts with "/static/<directory>/" and ends with the name's extension |
| `Uploads.OnlyExtensionKept` | backend/app.py:87-88 | nothing of the client's file name but its extension reaches the stored path |
| `Uploads.IdDocumentsApartFromImages` | backend/app.py:20-24 | a stored government ID and a stored product image never share a path: they lie in different directories |
| `Uploads.DistinctUuidsDistinctPaths` | backend/app.py:88-93 | uploads with different 32-digit uuids are stored at different paths |
| `Forms.CheckedFieldRead` | backend/app.py:167-181 | once the required-field check finds nothing missing, every required field is in the form and is read as its submitted non-empty value |
| `Forms.FirstBlank` | backend/app.py:167-170 | none is returned iff every required field is present and non-empty; otherwise the first field, in list order, that is absent or empty |
| `Forms.FirstMissingField` | backend/app.py:168-170 | the loop stops at exactly that first missing field, or finds none |
| `Tables.FindUser` | backend/app.py:172 | the first row with that email (and role, when given), or none iff no row has them |
| `Tables.FindProduct` | backend/app.py:333 | the row with that primary key, or none iff no row has it |
| `Tables.NewestFirst` | backend/app.py:310-313 | a product is listed iff it is in the table and matches every filter; rows inserted in creation order come out strictly newest first |
| `Tables.WithStatus` | backend/app.py:368 | the row with that id gets the new status, every other row and every other field is unchanged |
| `Tables.StatusChangeIdempotent` | backend/app.py:368 | setting the same status twice gives the same table as setting it once |
| `Tables.StatusChangeKeepsOrder` | backend/app.py:368-369 | a status change keeps the table in creation order |
| `Accounts.AccountFor` | backend/app.py:232 | the account found has the login email and is in the table |
| `Accounts.Login` | backend/app.py:222-250 | 400 iff email or password is missing; 401 "Invalid credentials" iff the email is unknown or the password wrong; 403 iff the credentials pass and a non-empty role differs from the stored one; on 200 the payload is the account found, and it carries an admin token iff the account is an admin, a token that verifies to that account's id |
| `Accounts.NoAccountEnumeration` | backend/app.py:232-234 | an unknown email and a wrong password get the identical response |
| `Accounts.RoleCheckedAfterCredentials` | backend/app.py:233-237 | with bad credentials the answer is 401 whatever role is requested |
| `Accounts.FreshEmailKeepsUnique` | backend/app.py:45 | adding an account whose email is unused keeps emails pairwise distinct |
| `Accounts.LoginAfterRegistration` | backend/app.py:229-250 | after an account with a fresh email is added, logging in with its email and password succeeds for that account, with a token iff it is an admin |
| `Catalog.StatusFilter` | backend/app.py:302 | a status filter applies iff the query value is one of the three statuses, and it is that status |
| `Catalog.ListProducts` | backend/app.py:297-313 | 401 iff status is pending or rejected and no token yields a truthy admin uid; otherwise 200 with exactly the products of that status (when one is recognised) and category (when non-empty), newest first |
| `Catalog.ApprovedListingIsPublic` | backend/app.py:302-304 | the approved listing needs no token |
| `Catalog.AdminSeesPending` | backend/app.py:302-310 | with an accepted admin token the pending listing holds exactly the pending products |
| `Catalog.UnfilteredListingShowsEveryStatus` | backend/app.py:302-310 | with no or an unrecognised status, every product of every status is listed to anyone |
| `Catalog.DefaultListingIsNotApprovedListing` | backend/app.py:302-313 | as soon as one product is pending, the default listing differs from the approved listing |
| `Catalog.GetProduct` | backend/app.py:331-347 | 404 iff no product has the id; otherwise 200 with the product of that id, whatever its status |
| `Catalog.GetIgnoresStatus` | backend/app.py:333-335 | every product, pending and rejected included, is returned by its id |
| `Catalog.MyProducts` | backend/app.py:373-381 | 400 iff no seller_email; 404 iff no seller account has it; otherwise exactly that seller's products in every status, newest first |
| `Marketplace.AddUserKeepsValid` | backend/app.py:45-50 | adding a user with an unused email and the next id keeps emails distinct, ids increasing, every product owned by a seller and every seller's ID document stored |
| `Marketplace.AddProductKeepsValid` | backend/app.py:57-68 | adding a product owned by a seller, with a stored image, the next id and the current time keeps ids increasing, rows in creation order and ownership |
| `Marketplace.ValidProductIdsUnique` | backend/app.py:58 | in a valid products table no two rows share an id, so every row can be fetched by its id |
| `Marketplace.StatusChangeKeepsValid` | backend/app.py:368-369 | a status change keeps the products table valid |
| `Marketplace.Store.StoreFile` | backend/app.py:90 | a written upload is recorded among the stored files |
| `Marketplace.Store.constructor` | backend/app.py:133-135 | an empty database satisfies the table invariants, and its first user and first product get id 1 |
| `Marketplace.Store.InsertUser` | backend/app.py:183-184 | adding a row with an unused email and the next id keeps the invariants |
| `Marketplace.Store.InsertProduct` | backend/app.py:291-292 | adding a row owned by a seller, with a stored image and the next id, keeps the invariants |
| `Marketplace.Store.SetStatus` | backend/app.py:368-369 | the row with that id gets the new status and the tables stay valid; nothing else in the store changes |
| `Marketplace.Store.RegisterBuyer` | backend/app.py:164-185 | first missing field 400, then existing email 409, both leaving the store unchanged; otherwise 201 and exactly one new user, role buyer, with the next id and the password's hash; the user counter and the clock advance by one, the product counter is unchanged |
| `Marketplace.Store.RegisterSeller` | backend/app.py:188-219 | missing field 400, no govt_id part 400, existing email 409, upload failure 400, each leaving the store unchanged; otherwise 201, the document stored and exactly one new user, role seller, with its path and payment details; the user counter and the clock advance by one, the product counter is unchanged |
| `Marketplace.Store.CreateAdmin` | backend/app.py:140-158 | an existing email changes nothing; otherwise exactly one new user with role admin, the only path that creates one; the user counter and the clock advance by one |
| `Marketplace.Store.CreateProduct` | backend/app.py:256-294 | missing field 400, no seller with that email 404, no image 400, upload failure 400 leave everything unchanged; a price float() refuses is 400 with the image stored, no product and the counters and clock unchanged; otherwise 201 and exactly one new product, pending, owned by that seller, with the next id; the product counter and the clock advance by one, the user counter is unchanged |
| `Marketplace.Store.UpdateProductStatus` | backend/app.py:350-370 | no valid admin token 401, status not one of the three 400, unknown id 404, each unchanged; otherwise 200 and only that product's status changes, to the new status, with the counters and clock unchanged |

## Left out

- Flask, CORS, the JSON encoding of payloads (field names, `isoformat` dates; `my_products` leaves out `category`), the page and static-asset routes, `init-db`'s message and `ensure_category_column`: framework glue and a schema migration.
- bcrypt: the hash is a symbolic value that records the password it was made from; secrecy, the cost factor and bcrypt's 72-byte password limit are not modelled.
- itsdangerous: the token string, its encoding and HMAC are the `unsign` oracle; `TokenData` is what it yields. A payload that is not a JSON object, or a uid that `int()` refuses, is not modelled. `signatureOk` is a fact about the token, not about who made it: the signing secret is always the constant `'dev-secret-change-me'` (backend/app.py:34, since `SECRET_KEY` is never set before that line), so anyone who reads the source can sign a payload that decodes with `signatureOk == true`. Every admin-authorisation property here holds relative to that.
- `uuid4`, `secure_filename` and the disk write are outcomes supplied with each upload; the 16 MiB request limit is enforced by the transport and not modelled.
- `float()`: a predicate parameter; the price is stored as the accepted text, not as a floating-point value.
- `login` reads `request.form or request.get_json(...)`: the model receives the resulting field map; non-string JSON values are not modelled. In the status-change body, a `status` that is null, a number or a boolean gives 400, and the model's absent `newStatus` covers these; a list or object value raises a TypeError at the set-membership test (backend/app.py:361) and a JSON body that is a non-empty array or string, a non-zero number, or `true` raises an AttributeError at `data.get` (backend/app.py:360, and backend/app.py:225 in `login`); those 500 responses are not represented. A falsy JSON body (`[]`, `""`, `0`, `false`) falls back to `{}` (backend/app.py:359, 224), so its fields are absent, which the model covers (400 in both routes).
- `created_at` uses a clock that strictly increases with each insert; `datetime.utcnow` may give equal times to two inserts, whose relative order the database then leaves open.
- Concurrent requests and the database's unique-email constraint as a race guard; handlers run one at a time, and database errors (500 responses) are not modelled.
- The interactive prompts and password confirmation of `create-admin`.
