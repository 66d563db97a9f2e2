/** The request gate that runs before every page and API route: the sign-in and
    registration pages and their API routes are public; every other request needs a
    `sors_session` cookie. The cookie's value is not checked here — the API routes
    validate the session themselves. */
module Middleware {
  import opened Text

  const PUBLIC_ROUTES: seq<string> := ["/login", "/register"]
  const PUBLIC_API_ROUTES: seq<string> := ["/api/auth/login", "/api/auth/register"]
  const SESSION_COOKIE := "sors_session"
  const LOGIN_PATH := "/login"
  const UNAUTHORIZED := "Unauthorized"

  /** What the gate does with a request. */
  datatype Decision = Next | Reject(status: int, error: string) | Redirect(location: string)

  predicate IsPublic(pathname: string) {
    pathname in PUBLIC_ROUTES || pathname in PUBLIC_API_ROUTES
  }

  /** The decision for a path, given the names of the request's cookies. */
  function Gate(pathname: string, cookies: set<string>): (r: Decision)
    ensures IsPublic(pathname) ==> r == Next
    ensures !IsPublic(pathname) && SESSION_COOKIE !in cookies && StartsWith(pathname, "/api/") ==> r == Reject(401, UNAUTHORIZED)
    ensures !IsPublic(pathname) && SESSION_COOKIE !in cookies && !StartsWith(pathname, "/api/") ==> r == Redirect(LOGIN_PATH)
    ensures SESSION_COOKIE in cookies ==> r == Next
  {
    if pathname in PUBLIC_ROUTES then Next
    else if pathname in PUBLIC_API_ROUTES then Next
    else if SESSION_COOKIE !in cookies then
      if StartsWith(pathname, "/api/") then Reject(401, UNAUTHORIZED) else Redirect(LOGIN_PATH)
    else Next
  }

  /** A request passes exactly when its path is public or it carries the cookie. */
  lemma GatePassesIff(pathname: string, cookies: set<string>)
    ensures Gate(pathname, cookies) == Next <==> IsPublic(pathname) || SESSION_COOKIE in cookies
  {
  }

  /** The public paths are not API paths except the two auth routes, so an API
      client is never redirected: a refused API request gets the 401. */
  lemma ApiNeverRedirected(pathname: string, cookies: set<string>)
    requires StartsWith(pathname, "/api/")
    ensures !Gate(pathname, cookies).Redirect?
  {
  }

  /** The redirect leads to a page the gate lets through without a cookie, so a
      signed-out browser is not sent round in circles. */
  lemma RedirectTargetPasses(pathname: string, cookies: set<string>, next: set<string>)
    requires Gate(pathname, cookies).Redirect?
    ensures Gate(Gate(pathname, cookies).location, next) == Next
  {
  }
}
