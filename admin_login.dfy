/** `POST /api/admin/login` (backend/routes/adminLogin.js): an admin stored in
    the database logs in with the password its bcrypt hash accepts; when no
    such admin exists, two built-in username/password pairs are accepted.
    A successful login sets the session token as an HTTP-only cookie. */
module AdminLogin {
  import opened Common

  /** A row of the `admin` table. */
  datatype Admin = Admin(id: string, username: string, passwordHash: string)

  datatype Credentials = Credentials(username: string, password: string)

  /** The built-in fallback admins. */
  const DefaultAdmins: seq<Credentials> := [
    Credentials("ice_dep", "ice_dep12"),
    Credentials("noor", "noorabdullah")
  ]

  /** What the signed session token carries. */
  datatype TokenPayload =
    | StoredAdmin(id: string, username: string)
    | BuiltInAdmin(username: string)

  datatype Cookie = Cookie(httpOnly: bool, secure: bool, sameSite: string, maxAgeMs: nat)

  const WeekMs := 7 * 24 * 60 * 60 * 1000

  datatype LoginReply =
    | LoggedIn(payload: TokenPayload, cookie: Cookie)
    | Refused(status: nat, error: string)

  /** The cookie options of both success paths; `secure` only in production. */
  function SessionCookie(production: bool): (c: Cookie)
    ensures c.httpOnly && c.sameSite == "lax" && c.maxAgeMs == 604800000
    ensures c.secure <==> production
  {
    Cookie(true, production, "lax", WeekMs)
  }

  /** `defaultAdmins.find(...)`: an exact match of both fields. */
  predicate IsDefaultAdmin(username: string, password: string) {
    exists i | 0 <= i < |DefaultAdmins| :: DefaultAdmins[i] == Credentials(username, password)
  }

  /** The handler. `admins` is the admin table keyed by username,
      `passwordMatches(password, hash)` is bcrypt's comparison, `storeUp`
      whether the database answers. */
  function Login(username: Option<string>, password: Option<string>,
                 admins: map<string, Admin>, passwordMatches: (string, string) -> bool,
                 storeUp: bool, production: bool): LoginReply
  {
    if username.None? || username.value == "" || password.None? || password.value == "" then
      Refused(400, "Username and password required")
    else if !storeUp then
      Refused(500, "Login failed")
    else if username.value in admins then
      var admin := admins[username.value];
      if !passwordMatches(password.value, admin.passwordHash) then Refused(401, "Invalid credentials")
      else LoggedIn(StoredAdmin(admin.id, admin.username), SessionCookie(production))
    else if IsDefaultAdmin(username.value, password.value) then
      LoggedIn(BuiltInAdmin(username.value), SessionCookie(production))
    else
      Refused(401, "Invalid credentials")
  }

  /** A missing or empty username or password is a 400, before any lookup. */
  lemma LoginNeedsBothFields(username: Option<string>, password: Option<string>,
                             admins: map<string, Admin>, passwordMatches: (string, string) -> bool,
                             storeUp: bool, production: bool)
    requires username.None? || username == Some("") || password.None? || password == Some("")
    ensures Login(username, password, admins, passwordMatches, storeUp, production) ==
            Refused(400, "Username and password required")
  {
  }

  /** With both fields present, a database that does not answer gives 500
      whatever the credentials, built-in pairs included. */
  lemma StoreDownFails(username: Option<string>, password: Option<string>,
                       admins: map<string, Admin>, passwordMatches: (string, string) -> bool,
                       production: bool)
    requires username.Some? && username.value != "" && password.Some? && password.value != ""
    ensures Login(username, password, admins, passwordMatches, false, production) ==
            Refused(500, "Login failed")
  {
  }

  /** With a stored admin of that name, the outcome depends on the hash
      comparison alone: a built-in pair is no way in. */
  lemma StoredAdminDecides(user: string, pass: string, admins: map<string, Admin>,
                           passwordMatches: (string, string) -> bool, production: bool)
    requires user != "" && pass != "" && user in admins
    ensures var r := Login(Some(user), Some(pass), admins, passwordMatches, true, production);
      (r.LoggedIn? <==> passwordMatches(pass, admins[user].passwordHash)) &&
      (r.LoggedIn? ==> r.payload == StoredAdmin(admins[user].id, admins[user].username)) &&
      (r.Refused? ==> r == Refused(401, "Invalid credentials"))
  {
  }

  /** Without a stored admin of that name, login succeeds exactly for the
      two built-in pairs, and the token names only the user. */
  lemma BuiltInAdminsOnly(user: string, pass: string, admins: map<string, Admin>,
                          passwordMatches: (string, string) -> bool, production: bool)
    requires user != "" && pass != "" && user !in admins
    ensures var r := Login(Some(user), Some(pass), admins, passwordMatches, true, production);
      (r.LoggedIn? <==> (user == "ice_dep" && pass == "ice_dep12") || (user == "noor" && pass == "noorabdullah")) &&
      (r.LoggedIn? ==> r.payload == BuiltInAdmin(user)) &&
      (r.Refused? ==> r == Refused(401, "Invalid credentials"))
  {
    if (user == "ice_dep" && pass == "ice_dep12") || (user == "noor" && pass == "noorabdullah") {
      assert DefaultAdmins[0] == Credentials("ice_dep", "ice_dep12");
      assert DefaultAdmins[1] == Credentials("noor", "noorabdullah");
    }
  }

  /** Every successful login sets the same week-long, HTTP-only cookie. */
  lemma LoginCookie(username: Option<string>, password: Option<string>,
                    admins: map<string, Admin>, passwordMatches: (string, string) -> bool,
                    storeUp: bool, production: bool)
    ensures var r := Login(username, password, admins, passwordMatches, storeUp, production);
      r.LoggedIn? ==> r.cookie == Cookie(true, production, "lax", 604800000) && storeUp
  {
  }
}
