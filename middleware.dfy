/** Route gating (src/middleware.ts): the decision taken for each request on
    the path and the two session cookies, and the matcher that decides which
    requests reach it at all. */
module Middleware {
  import opened Common
  import opened Cookies

  /** `NextResponse.next()` or `NextResponse.redirect(to)`. */
  datatype Decision = Pass | Redirect(to: string)

  /** The gate itself. An /admin... path other than the login page needs a
      non-empty `venue_id` cookie; a /platform... path other than its login page
      needs `platform_admin` to be exactly "true". The prefix tests are plain
      string prefixes. */
  function Gate(path: string, cookies: map<string, Cookie>): (d: Decision)
    ensures path == "/admin/login" || path == "/platform/login" ==> d == Pass
    ensures StartsWith(path, "/admin") && path != "/admin/login" ==>
      (d == Redirect("/admin/login") <==> !Truthy(ValueOf(cookies, VenueCookie)))
    ensures StartsWith(path, "/platform") && path != "/platform/login" ==>
      (d == Redirect("/platform/login") <==> !HasPlatformCookie(cookies))
    ensures !StartsWith(path, "/admin") && !StartsWith(path, "/platform") ==> d == Pass
    ensures d.Redirect? ==> d.to == "/admin/login" || d.to == "/platform/login"
  {
    PrefixesDisjoint(path);
    if StartsWith(path, "/admin") && path != "/admin/login" && !Truthy(ValueOf(cookies, VenueCookie)) then
      Redirect("/admin/login")
    else if StartsWith(path, "/platform") && path != "/platform/login" && !HasPlatformCookie(cookies) then
      Redirect("/platform/login")
    else
      Pass
  }

  /** No path lies under both sections: the second characters differ. */
  lemma PrefixesDisjoint(path: string)
    ensures StartsWith(path, "/admin") ==> !StartsWith(path, "/platform")
  {
    if StartsWith(path, "/admin") {
      assert path[1] == "/admin"[1] != "/platform"[1];
    }
  }

  /** The `config.matcher` patterns '/admin/:path*' and '/platform/:path*':
      the section root itself or anything below it. */
  predicate Matched(path: string) {
    path == "/admin" || StartsWith(path, "/admin/") || path == "/platform" || StartsWith(path, "/platform/")
  }

  /** What a request meets: the gate when the matcher selects the path,
      otherwise the request passes untouched. */
  function Route(path: string, cookies: map<string, Cookie>): (d: Decision)
    ensures !Matched(path) ==> d == Pass
    ensures Matched(path) ==> d == Gate(path, cookies)
  {
    if Matched(path) then Gate(path, cookies) else Pass
  }

  /** A venue session never opens the platform area, and a platform session
      never opens the venue area. */
  lemma SessionsDoNotCross(path: string, cookies: map<string, Cookie>)
    ensures StartsWith(path, "/platform") && path != "/platform/login" && !HasPlatformCookie(cookies)
      ==> Gate(path, cookies) == Redirect("/platform/login")
    ensures StartsWith(path, "/admin") && path != "/admin/login" && !Truthy(ValueOf(cookies, VenueCookie))
      ==> Gate(path, cookies) == Redirect("/admin/login")
  {
  }

  /** "/administrator" shares the "/admin" prefix, so the gate alone would send
      it to the login page; the matcher never hands it to the gate. */
  lemma AdministratorOnlyGatedByPrefix()
    ensures Gate("/administrator", map[]) == Redirect("/admin/login")
    ensures Route("/administrator", map[]) == Pass
  {
    assert StartsWith("/administrator", "/admin");
    assert "/administrator"[6] != "/admin/"[6];
    assert "/administrator"[1] != "/platform"[1];
  }
}
