/** Login (`POST /api/login`). It only reads the users table: it checks the
    credentials, the optional expected role, and issues an admin session
    token to admin accounts. */
module Accounts {
  import opened Common
  import opened Credentials
  import opened AdminToken
  import opened Forms
  import opened Tables
  import opened Http

  /** The account `User.query.filter_by(email=email).first()` finds exists and
      the password checks against its hash. */
  predicate CredentialsMatch(users: seq<User>, email: string, password: string) {
    var k := FindUser(users, email, None);
    k.Some? && CheckPassword(password, users[k.value].passwordHash)
  }

  /** The account a login with that email is about (it exists when the
      credentials match). */
  function AccountFor(users: seq<User>, email: string): (u: User)
    requires FindUser(users, email, None).Some?
    ensures u in users && u.email == email
  {
    users[FindUser(users, email, None).value]
  }

  function Summary(u: User): UserSummary {
    UserSummary(u.id, u.fullname, u.email, u.role)
  }

  /** `login()` on the submitted data `form` at time `now`. */
  function Login(users: seq<User>, form: Form, now: int): (r: Response)
    ensures r.code in {200, 400, 401, 403}
    ensures r.code == 400 <==> !Present(form, "email") || !Present(form, "password")
    ensures r.code == 400 ==> r == Fail(400, "Email and password are required")
    ensures r.code == 401 <==> Present(form, "email") && Present(form, "password")
                               && !CredentialsMatch(users, form["email"], form["password"])
    ensures r.code == 401 ==> r == Fail(401, "Invalid credentials")
    ensures r.code == 403 <==>
              Present(form, "email") && Present(form, "password")
              && CredentialsMatch(users, form["email"], form["password"])
              && Present(form, "role")
              && form["role"] != RoleName(AccountFor(users, form["email"]).role)
    ensures r.code == 403 ==>
              r == Fail(403, "Please login as " + RoleName(AccountFor(users, form["email"]).role))
    ensures r.code == 200 ==>
              CredentialsMatch(users, form["email"], form["password"])
              && (Present(form, "role") ==> form["role"] == RoleName(AccountFor(users, form["email"]).role))
              && r.body.LoggedIn?
              && r.body.user == Summary(AccountFor(users, form["email"]))
              && (r.body.adminToken.Some? <==> r.body.user.role == Admin)
              && (r.body.adminToken.Some? ==>
                    VerifyAdminToken(r.body.adminToken.value, now) == Some(r.body.user.id))
  {
    if !Present(form, "email") || !Present(form, "password") then
      Fail(400, "Email and password are required")
    else if !CredentialsMatch(users, form["email"], form["password"]) then
      Fail(401, "Invalid credentials")
    else
      var u := AccountFor(users, form["email"]);
      if Present(form, "role") && form["role"] != RoleName(u.role) then
        Fail(403, "Please login as " + RoleName(u.role))
      else
        var token := if u.role == Admin then Some(GenerateAdminToken(u.id, now)) else None;
        Response(200, LoggedIn(Summary(u), token))
  }

  /** An unknown email and a wrong password for a known email get the same
      answer, so a caller cannot tell which accounts exist. */
  lemma {:induction false} NoAccountEnumeration(users: seq<User>, unknown: Form, wrong: Form, now: int)
    requires Present(unknown, "email") && Present(unknown, "password")
    requires !EmailTaken(users, unknown["email"])
    requires Present(wrong, "email") && Present(wrong, "password")
    requires EmailTaken(users, wrong["email"])
    requires !CheckPassword(wrong["password"], AccountFor(users, wrong["email"]).passwordHash)
    ensures Login(users, unknown, now) == Login(users, wrong, now) == Fail(401, "Invalid credentials")
  {
  }

  /** The expected role is compared only after the credentials pass: a wrong
      password is a 401 whatever role is asked for. */
  lemma RoleCheckedAfterCredentials(users: seq<User>, form: Form, now: int)
    requires Present(form, "email") && Present(form, "password")
    requires !CredentialsMatch(users, form["email"], form["password"])
    ensures Login(users, form, now).code == 401
  {
  }

  /** Emails are pairwise distinct across the table. */
  predicate UniqueEmails(users: seq<User>) {
    forall i, j :: 0 <= i < j < |users| ==> users[i].email != users[j].email
  }

  /** Every registration path inserts only after finding the email unused,
      which keeps emails pairwise distinct. */
  lemma FreshEmailKeepsUnique(users: seq<User>, u: User)
    requires UniqueEmails(users) && !EmailTaken(users, u.email)
    ensures UniqueEmails(users + [u])
  {
  }

  /** After an account with a fresh email and the hash of `password` is
      added, logging in with that email and password succeeds, yields that
      account, and carries a token exactly when the account is an admin. */
  lemma {:induction false} LoginAfterRegistration(users: seq<User>, u: User, password: string, salt: nat, now: int)
    requires !EmailTaken(users, u.email) && u.email != "" && password != ""
    requires u.passwordHash == HashPassword(password, salt)
    ensures var r := Login(users + [u], map["email" := u.email, "password" := password], now);
      r.code == 200 && r.body.user == Summary(u)
      && (r.body.adminToken.Some? <==> u.role == Admin)
  {
    var all := users + [u];
    var form: Form := map["email" := u.email, "password" := password];
    assert all[|users|] == u;
    var k := FindUser(all, u.email, None);
    assert k == Some(|users|) by {
      assert k.Some?;
    }
    assert !Present(form, "role");
  }
}
