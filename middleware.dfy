/**
 * The request gate (middleware.js): exact public routes, the detail-page pattern, static
 * assets, then the protected prefixes, where an unauthenticated request is turned away.
 */
module Middleware {
  import opened Wrappers
  import opened Text
  import opened Store
  import opened Auth

  const PublicRoutes: seq<string> := [
    "/", "/login", "/register", "/tournaments", "/teams",
    "/api/auth/login", "/api/auth/register", "/api/auth/check", "/api/auth/logout",
    "/api/tournaments", "/api/teams", "/api/schools"
  ]

  /** `\w` or '-' */
  predicate WordOrDash(c: char) {
    ('A' <= c <= 'Z') || ('a' <= c <= 'z') || ('0' <= c <= '9') || c == '_' || c == '-'
  }

  /** `path` matches `^<prefix>[\w-]+$` */
  predicate OneSegmentUnder(path: string, prefix: string) {
    StartsWith(path, prefix) && |path| > |prefix| && forall i :: |prefix| <= i < |path| ==> WordOrDash(path[i])
  }

  /** The tournament and team detail pages: `/tournaments/<seg>` and `/teams/<seg>`. */
  predicate DetailPage(path: string) {
    OneSegmentUnder(path, "/tournaments/") || OneSegmentUnder(path, "/teams/")
  }

  predicate StaticAsset(path: string) {
    StartsWith(path, "/_next") || StartsWith(path, "/static") || StartsWith(path, "/images") || Contains(path, '.')
  }

  /** Starts with '/teams/create', '/tournaments/create' or '/profile'. */
  predicate Protected(path: string) {
    StartsWith(path, "/teams/create") || StartsWith(path, "/tournaments/create") || StartsWith(path, "/profile")
  }

  datatype Decision =
    | Next                              // NextResponse.next()
    | Unauthorized                      // 401 JSON 'Non autorisé'
    | RedirectToLogin(redirect: string) // /login?redirect=<pathname>

  function Decide(path: string, cookie: Option<string>, decode: string -> Option<nat>, users: seq<User>): (d: Decision)
    ensures path in PublicRoutes || DetailPage(path) || StaticAsset(path) ==> d == Next
    ensures !Protected(path) || CookieUser(cookie, decode, users).Some? ==> d == Next
    ensures d.RedirectToLogin? ==> d.redirect == path
  {
    if path in PublicRoutes then Next
    else if DetailPage(path) then Next
    else if StaticAsset(path) then Next
    else if Protected(path) then
      if CookieUser(cookie, decode, users).None? then
        if StartsWith(path, "/api") then Unauthorized else RedirectToLogin(path)
      else Next
    else Next
  }

  /**
   * A request is stopped exactly when its path is protected, matched by none of the earlier
   * rules, and the cookie authenticates nobody; it is then sent to the login page with the
   * original path as `redirect`. Every other request goes through.
   */
  lemma OnlyUnauthenticatedProtectedIsStopped(path: string, cookie: Option<string>, decode: string -> Option<nat>,
                                               users: seq<User>)
    ensures Decide(path, cookie, decode, users) != Next <==>
              path !in PublicRoutes && !DetailPage(path) && !StaticAsset(path) && Protected(path)
              && CookieUser(cookie, decode, users).None?
    ensures Decide(path, cookie, decode, users) != Next ==> Decide(path, cookie, decode, users) == RedirectToLogin(path)
  {
    if Protected(path) {
      StartsWithAt(path, "/teams/create", 1);
      StartsWithAt(path, "/tournaments/create", 1);
      StartsWithAt(path, "/profile", 1);
      StartsWithAt(path, "/api", 1);
    }
  }

  /** The JSON 401 branch is dead: no protected prefix starts with '/api'. */
  lemma ApiUnauthorizedUnreachable(path: string, cookie: Option<string>, decode: string -> Option<nat>, users: seq<User>)
    ensures Decide(path, cookie, decode, users) != Unauthorized
  {
    OnlyUnauthenticatedProtectedIsStopped(path, cookie, decode, users);
  }

  /** The public routes, the detail pages and static assets pass whatever the cookie holds. */
  lemma OpenPathsIgnoreAuth(path: string, cookie: Option<string>, decode: string -> Option<nat>, users: seq<User>)
    requires path in PublicRoutes || DetailPage(path) || StaticAsset(path)
    ensures Decide(path, cookie, decode, users) == Next
  {
  }

  /** '/teams/create' and '/tournaments/create' match the detail pattern, so they pass unauthenticated. */
  lemma CreatePagesAreOpen(decode: string -> Option<nat>, users: seq<User>)
    ensures Decide("/teams/create", None, decode, users) == Next
    ensures Decide("/tournaments/create", None, decode, users) == Next
  {
    var p := "/teams/create";
    assert StartsWith(p, "/teams/") by { assert p[..7] == "/teams/"; }
    assert forall i :: 7 <= i < |p| ==> WordOrDash(p[i]);
    var q := "/tournaments/create";
    assert StartsWith(q, "/tournaments/") by { assert q[..13] == "/tournaments/"; }
    assert forall i :: 13 <= i < |q| ==> WordOrDash(q[i]);
  }

  /** '/profile' reaches the protected check and, without a valid cookie, is redirected. */
  lemma ProfileRedirects(decode: string -> Option<nat>, users: seq<User>)
    ensures Decide("/profile", None, decode, users) == RedirectToLogin("/profile")
  {
    var p := "/profile";
    assert p !in PublicRoutes;
    StartsWithAt(p, "/teams/", 1);
    StartsWithAt(p, "/tournaments/", 1);
    assert !DetailPage(p);
    StartsWithAt(p, "/_next", 1);
    StartsWithAt(p, "/static", 1);
    StartsWithAt(p, "/images", 1);
    assert !Contains(p, '.');
    assert !StaticAsset(p);
    assert StartsWith(p, "/profile") by { assert p[..8] == p; }
    StartsWithAt(p, "/api", 1);
  }

  /** A path below '/teams/create' is not a detail page, so it is protected like '/profile'. */
  lemma CreateSubpathRedirects(decode: string -> Option<nat>, users: seq<User>)
    ensures Decide("/teams/create/x", None, decode, users) == RedirectToLogin("/teams/create/x")
  {
    var q := "/teams/create/x";
    assert q !in PublicRoutes by { assert q[1] != "/api/auth/login"[1]; }
    assert !WordOrDash(q[13]);
    StartsWithAt(q, "/tournaments/", 2);
    assert !DetailPage(q);
    StartsWithAt(q, "/_next", 1);
    StartsWithAt(q, "/static", 1);
    StartsWithAt(q, "/images", 1);
    assert !Contains(q, '.');
    assert !StaticAsset(q);
    assert StartsWith(q, "/teams/create") by { assert q[..13] == "/teams/create"; }
    StartsWithAt(q, "/api", 1);
  }
}
