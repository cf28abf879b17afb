/**
 * `verifyAuth` (lib/auth.js). Signature checking and decoding of the JWT is an oracle,
 * `decode`, that yields the user id the token carries or nothing; the function then
 * looks the user up by id (`findUnique`) and refuses a missing token and a token whose user no longer exists.
 */
module Auth {
  import opened Wrappers
  import opened Store

  function VerifyAuth(token: string, decode: string -> Option<nat>, users: seq<User>): (r: Option<nat>)
    ensures token == "" ==> r.None?
    ensures r.Some? ==> decode(token) == r && exists i :: 0 <= i < |users| && users[i].id == r.value
    ensures token != "" && decode(token).Some? && (exists i :: 0 <= i < |users| && users[i].id == decode(token).value)
            ==> r == decode(token)
  {
    if token == "" then None
    else match decode(token)
      case None => None
      case Some(uid) =>
        if exists i :: 0 <= i < |users| && users[i].id == uid then Some(uid) else None
  }

  /** `verifyAuth(cookies.get('token')?.value)`: no cookie means no user. */
  function CookieUser(cookie: Option<string>, decode: string -> Option<nat>, users: seq<User>): (r: Option<nat>)
    ensures cookie.None? ==> r.None?
    ensures cookie.Some? ==> r == VerifyAuth(cookie.value, decode, users)
  {
    if cookie.None? then None else VerifyAuth(cookie.value, decode, users)
  }
}
