/** `MethodRequest.is_admin` and `check_auth`. SHA-512 is the parameter
    `hash`, taken as an arbitrary function from the hashed text to its hex
    digest. */
module Auth {
  import opened Optional
  import opened Json
  import opened Calendar
  import opened Requests

  const Salt := "Otus"
  const AdminLogin := "admin"
  const AdminSalt := "42"

  /** `request.login == ADMIN_LOGIN`: only the string `"admin"` compares equal. */
  predicate IsAdmin(req: Request) {
    Get(req.values, "login") == JStr(AdminLogin)
  }

  /** The digest the token must equal, or `None` where computing it raises:
      `account + login + SALT` is a `TypeError` unless account and login are
      both strings (a missing account is `None`). */
  function ExpectedDigest(req: Request, now: Clock, hash: string -> string): Option<string> {
    if IsAdmin(req) then Some(hash(now.hourStamp + AdminSalt))
    else
      var account := Get(req.values, "account");
      var login := Get(req.values, "login");
      if account.JStr? && login.JStr? then Some(hash(account.s + login.s + Salt)) else None
  }

  /** `check_auth(request)`: `None` where it raises. */
  function CheckAuth(req: Request, now: Clock, hash: string -> string): Option<bool> {
    match ExpectedDigest(req, now, hash)
    case None => None
    case Some(digest) => Some(Get(req.values, "token") == JStr(digest))
  }

  /** Only the exact string `"admin"` as login makes a request an admin
      one; any other string, or a login that is not a string, does not. */
  lemma AdminIsExactLogin(req: Request, login: string)
    ensures Get(req.values, "login") == JStr(login) ==> (IsAdmin(req) <==> login == "admin")
    ensures !Get(req.values, "login").JStr? ==> !IsAdmin(req)
  {
  }

  /** The admin digest depends only on the hour: the account is never read,
      even when it is missing, and every token but the hour's digest fails. */
  lemma AdminAuth(req: Request, now: Clock, hash: string -> string)
    requires IsAdmin(req)
    ensures CheckAuth(req, now, hash) == Some(Get(req.values, "token") == JStr(hash(now.hourStamp + "42")))
  {
  }

  /** Two admin requests with the same token authenticate alike, whatever
      their accounts. */
  lemma AdminIgnoresAccount(req1: Request, req2: Request, now: Clock, hash: string -> string)
    requires IsAdmin(req1) && IsAdmin(req2)
    requires Get(req1.values, "token") == Get(req2.values, "token")
    ensures CheckAuth(req1, now, hash) == CheckAuth(req2, now, hash)
  {
  }

  /** A user with a string account and login authenticates exactly when the
      token is the digest of account, login and the salt `"Otus"`. */
  lemma UserAuth(req: Request, now: Clock, hash: string -> string, account: string, login: string)
    requires !IsAdmin(req)
    requires Get(req.values, "account") == JStr(account) && Get(req.values, "login") == JStr(login)
    ensures CheckAuth(req, now, hash) == Some(Get(req.values, "token") == JStr(hash(account + login + "Otus")))
  {
  }

  /** A user's authentication does not depend on the clock. */
  lemma UserIgnoresClock(req: Request, now1: Clock, now2: Clock, hash: string -> string)
    requires !IsAdmin(req)
    ensures CheckAuth(req, now1, hash) == CheckAuth(req, now2, hash)
  {
  }

  /** `check_auth` raises exactly on a user request whose account or login
      is not a string. */
  lemma AuthRaises(req: Request, now: Clock, hash: string -> string)
    ensures CheckAuth(req, now, hash).None?
            <==> !IsAdmin(req) && !(Get(req.values, "account").JStr? && Get(req.values, "login").JStr?)
  {
  }

  /** A non-admin request with no account raises instead of answering. */
  lemma MissingAccountRaises(req: Request, now: Clock, hash: string -> string)
    requires !IsAdmin(req) && Get(req.values, "account") == JNull
    ensures CheckAuth(req, now, hash).None?
  {
  }
}
