/**
 * The request guard in front of the admin pages: every path under "/admin" except the login
 * page needs the session cookie to equal the session token, and is otherwise sent to the login
 * page with the original path as the `redirect` parameter.
 */
module Middleware {
  import opened Wrappers
  import opened Text
  import opened Auth

  const CookieName: string := "admin_session"
  const AdminPrefix: string := "/admin"
  const LoginPath: string := "/admin/login"

  /** `NextResponse.next()`, or a redirect to `pathname` with `?redirect=` the original path. */
  datatype Decision = Next | Redirect(pathname: string, redirect: string)

  /**
   * `middleware`: `cookie` is the value of the `admin_session` cookie, if any; `envUser` and
   * `envPass` are the variables the session token is computed from.
   */
  function Guard(pathname: string, cookie: Option<string>, envUser: Option<string>, envPass: Option<string>)
    : (d: Decision)
    ensures d.Redirect? ==> d.pathname == LoginPath && d.redirect == pathname
    ensures d.Redirect? ==> StartsWith(pathname, AdminPrefix) && pathname != LoginPath
    ensures d.Next? && StartsWith(pathname, AdminPrefix) && pathname != LoginPath ==> cookie.Some?
  {
    if StartsWith(pathname, AdminPrefix) then
      if pathname == LoginPath then Next
      else
        var expected := SessionToken(envUser, envPass);
        if cookie != Some(expected) then Redirect(LoginPath, pathname) else Next
    else Next
  }

  /** A protected page is shown exactly when the cookie is the session token. */
  lemma ProtectedNeedsToken(pathname: string, cookie: Option<string>, envUser: Option<string>, envPass: Option<string>)
    requires StartsWith(pathname, AdminPrefix) && pathname != LoginPath
    ensures Guard(pathname, cookie, envUser, envPass).Next? <==> cookie == Some(SessionToken(envUser, envPass))
  {
  }

  /**
   * A protected page is shown exactly when the cookie decodes, as Base64 and then as UTF-8, to
   * the configured "username:password".
   */
  lemma ProtectedAdmitsIffCookieDecodesToCredentials(pathname: string, cookie: Option<string>,
                                                     envUser: Option<string>, envPass: Option<string>)
    requires StartsWith(pathname, AdminPrefix) && pathname != LoginPath
    ensures Guard(pathname, cookie, envUser, envPass).Next? <==> (cookie.Some?
      && Base64Decode(cookie.value).Some?
      && DecodeUtf8(Base64Decode(cookie.value).value) == Some(Joined(GetCredentials(envUser, envPass))))
  {
    if cookie.Some? {
      TokenIffDecodesToCredentials(cookie.value, envUser, envPass);
    }
  }

  /** Paths outside "/admin", and the login page itself, always pass. */
  lemma UnprotectedPasses(pathname: string, cookie: Option<string>, envUser: Option<string>, envPass: Option<string>)
    requires !StartsWith(pathname, AdminPrefix) || pathname == LoginPath
    ensures Guard(pathname, cookie, envUser, envPass) == Next
  {
  }

  /** Without a cookie, every protected page is sent to the login page, remembering where it was. */
  lemma MissingCookieRedirects(pathname: string, envUser: Option<string>, envPass: Option<string>)
    requires StartsWith(pathname, AdminPrefix) && pathname != LoginPath
    ensures Guard(pathname, None, envUser, envPass) == Redirect(LoginPath, pathname)
  {
  }

  /** The page a redirect leads to is never redirected itself, so there is no redirect loop. */
  lemma RedirectTargetPasses(pathname: string, cookie: Option<string>, envUser: Option<string>, envPass: Option<string>)
    requires Guard(pathname, cookie, envUser, envPass).Redirect?
    ensures Guard(Guard(pathname, cookie, envUser, envPass).pathname, cookie, envUser, envPass) == Next
  {
  }
}
