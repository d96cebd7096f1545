/** The venue owner's sign-in and sign-out (src/app/actions/auth.ts): the
    `venue_id` cookie is the session. `Date.now()` and the production flag
    are parameters. */
module VenueAuth {
  import opened Common
  import opened DateTime
  import opened Store
  import opened Cookies
  import opened Credentials

  /** `login`. Both fields are required; the cookie is set only for the venue
      holding that owner email, and only when the password matches its stored
      hash. An unknown email and a wrong password give the same answer. */
  method Login(store: RecordStore, jar: CookieJar, email: string, password: string,
               hash: string -> string, now: Instant, production: bool) returns (r: ActionResult)
    requires store.Valid()
    modifies jar
    ensures email == "" || password == "" ==>
      r == Failure("Please enter both email and password") && jar.cookies == old(jar.cookies)
    ensures email != "" && password != "" && !CredentialsAccepted(store.venues, hash, email, password) ==>
      r == Failure("Invalid credentials") && jar.cookies == old(jar.cookies)
    ensures email != "" && password != "" && CredentialsAccepted(store.venues, hash, email, password) ==>
      && VenueByEmail(store.venues, email).Some?
      && r == RedirectTo("/admin/dashboard")
      && jar.cookies == old(jar.cookies)[VenueCookie :=
           SessionCookie(VenueByEmail(store.venues, email).value, now, production)]
  {
    if email == "" || password == "" {
      return Failure("Please enter both email and password");
    }
    AcceptedByTheOwner(store.venues, hash, email, password);
    var venue := VenueByEmail(store.venues, email);
    if venue.Some? && Matches(hash, password, store.venues[venue.value].password) {
      jar.Set(VenueCookie, SessionCookie(venue.value, now, production));
      r := RedirectTo("/admin/dashboard");
    } else {
      r := Failure("Invalid credentials");
    }
  }

  /** `logout`: only the venue session cookie goes. */
  method Logout(jar: CookieJar) returns (r: ActionResult)
    modifies jar
    ensures jar.cookies == old(jar.cookies) - {VenueCookie}
    ensures r == RedirectTo("/")
  {
    jar.Delete(VenueCookie);
    r := RedirectTo("/");
  }
}
