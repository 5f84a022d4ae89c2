/**
 * The request middleware guarding the admin pages: the login page is always
 * served, every other path under the `/admin` prefix needs the
 * `admin_session` cookie set to `authenticated`, and is otherwise redirected
 * to the login page.
 */
module AdminGate {
  import opened Basics
  import opened Text

  datatype Decision = Pass | RedirectTo(path: string)

  const LoginPath: string := "/admin/login"
  const AdminPrefix: string := "/admin"
  const SessionValue: string := "authenticated"

  /** `session?.value === 'authenticated'`; `session` is the `admin_session` cookie's value, if any. */
  predicate SignedIn(session: Option<string>) {
    session == Some(SessionValue)
  }

  /** The middleware's decision for a request to `pathname`. */
  function Gate(pathname: string, session: Option<string>): (d: Decision)
    ensures pathname == LoginPath ==> d == Pass
    ensures !StartsWith(pathname, AdminPrefix) ==> d == Pass
    ensures pathname != LoginPath && StartsWith(pathname, AdminPrefix) ==> (d == Pass <==> SignedIn(session))
    ensures d.RedirectTo? ==> d.path == LoginPath
  {
    if pathname == LoginPath then Pass
    else if StartsWith(pathname, AdminPrefix) && !SignedIn(session) then RedirectTo(LoginPath)
    else Pass
  }

  /** A redirected request lands on a page that passes, whatever the cookie: there is no redirect loop. */
  lemma RedirectTerminates(pathname: string, session: Option<string>, later: Option<string>)
    requires Gate(pathname, session).RedirectTo?
    ensures Gate(Gate(pathname, session).path, later) == Pass
  {
  }

  /** Signing in never turns a passing request into a redirect. */
  lemma SigningInOnlyHelps(pathname: string, session: Option<string>)
    requires Gate(pathname, session) == Pass
    ensures Gate(pathname, Some(SessionValue)) == Pass
  {
  }

  /**
   * The prefix check is on characters, not on path segments: called on
   * `/administrator`, the function redirects too. The deployed route matcher
   * (`/admin/:path*`) never calls it on that path.
   */
  lemma PrefixIsTextual(session: Option<string>)
    requires !SignedIn(session)
    ensures Gate("/administrator", session) == RedirectTo(LoginPath)
  {
    assert "/administrator"[..|AdminPrefix|] == AdminPrefix;
  }
}
