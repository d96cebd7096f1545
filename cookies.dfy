/** The request's cookie jar (`cookies()` in the server actions), modelled as a
    map from cookie name to cookie. Two cookies carry the sessions: `venue_id`
    holds the signed-in venue's id, `platform_admin` holds "true" for the
    platform administrator. */
module Cookies {
  import opened Common
  import opened DateTime

  datatype Cookie = Cookie(value: string, httpOnly: bool, secure: bool, expires: Option<Instant>)

  const VenueCookie: string := "venue_id"
  const PlatformCookie: string := "platform_admin"

  /** Both sign-in actions keep their cookie for one day: 24 * 60 * 60 * 1000 ms. */
  const SessionMs: int := 24 * 60 * 60 * 1000

  /** `cookieStore.get(name)?.value`. */
  function ValueOf(cookies: map<string, Cookie>, name: string): (v: Option<string>)
    ensures v.Some? <==> name in cookies
    ensures v.Some? ==> v.value == cookies[name].value
  {
    if name in cookies then Some(cookies[name].value) else None
  }

  /** `cookieStore.get('platform_admin')?.value === 'true'`. */
  predicate HasPlatformCookie(cookies: map<string, Cookie>) {
    ValueOf(cookies, PlatformCookie) == Some("true")
  }

  /** The session cookie both sign-in actions set: http-only, secure in
      production, expiring one day after `now`. */
  function SessionCookie(value: string, now: Instant, production: bool): (c: Cookie)
    ensures c.value == value && c.httpOnly && c.secure == production
    ensures c.expires == Some(now + 86_400_000)
  {
    Cookie(value, true, production, Some(now + SessionMs))
  }

  class CookieJar {
    var cookies: map<string, Cookie>

    constructor (initial: map<string, Cookie>)
      ensures cookies == initial
    {
      cookies := initial;
    }

    /** `cookieStore.set(name, value, options)`. */
    method Set(name: string, c: Cookie)
      modifies this
      ensures cookies == old(cookies)[name := c]
    {
      cookies := cookies[name := c];
    }

    /** `cookieStore.delete(name)`. */
    method Delete(name: string)
      modifies this
      ensures cookies == old(cookies) - {name}
    {
      cookies := cookies - {name};
    }
  }
}
