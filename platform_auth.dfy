/** The platform administrator's sign-in and sign-out
    (src/app/actions/platform-auth.ts): one configured account, with the
    session held in the `platform_admin` cookie. `PLATFORM_ADMIN_EMAIL` and
    `PLATFORM_ADMIN_PASSWORD_HASH` are parameters. */
module PlatformAuth {
  import opened Common
  import opened DateTime
  import opened Cookies
  import opened Credentials

  const DefaultAdminEmail: string := "daz@daztaylor.co.uk"
  const DefaultAdminHash: string := "$2b$10$placeholder"

  /** `process.env.X || fallback`. */
  function Configured(env: Option<string>, fallback: string): (v: string)
    ensures Truthy(env) ==> v == env.value
    ensures !Truthy(env) ==> v == fallback
  {
    OrElse(env, Some(fallback)).value
  }

  /** The configured credentials: the given email and the given password hash match. */
  predicate IsPlatformAdmin(email: string, password: string, emailEnv: Option<string>,
                            hashEnv: Option<string>, hash: string -> string) {
    email == Configured(emailEnv, DefaultAdminEmail) && Matches(hash, password, Configured(hashEnv, DefaultAdminHash))
  }

  /** Without a configured hash the fallback placeholder is no bcrypt hash at
      all, so no password opens the platform area. */
  lemma PlaceholderHashAdmitsNoOne(email: string, password: string, emailEnv: Option<string>,
                                   hashEnv: Option<string>, hash: string -> string)
    requires BcryptShaped(hash) && !Truthy(hashEnv)
    ensures !IsPlatformAdmin(email, password, emailEnv, hashEnv, hash)
  {
    MalformedHashMatchesNothing(hash, DefaultAdminHash, password);
  }

  /** `platformLogin`. Both fields are required; the cookie `platform_admin`
      = "true" is set only for the configured account. */
  method PlatformLogin(jar: CookieJar, email: string, password: string, emailEnv: Option<string>,
                       hashEnv: Option<string>, hash: string -> string, now: Instant, production: bool)
      returns (r: ActionResult)
    modifies jar
    ensures email == "" || password == "" ==>
      r == Failure("Please enter both email and password") && jar.cookies == old(jar.cookies)
    ensures email != "" && password != "" && !IsPlatformAdmin(email, password, emailEnv, hashEnv, hash) ==>
      r == Failure("Invalid credentials") && jar.cookies == old(jar.cookies)
    ensures email != "" && password != "" && IsPlatformAdmin(email, password, emailEnv, hashEnv, hash) ==>
      r == RedirectTo("/platform/dashboard") &&
      jar.cookies == old(jar.cookies)[PlatformCookie := SessionCookie("true", now, production)]
  {
    if email == "" || password == "" {
      return Failure("Please enter both email and password");
    }
    if IsPlatformAdmin(email, password, emailEnv, hashEnv, hash) {
      jar.Set(PlatformCookie, SessionCookie("true", now, production));
      r := RedirectTo("/platform/dashboard");
    } else {
      r := Failure("Invalid credentials");
    }
  }

  /** A successful sign-in is what the gate asks of the platform area. */
  lemma SignInOpensPlatform(cookies: map<string, Cookie>, now: Instant, production: bool)
    ensures HasPlatformCookie(cookies[PlatformCookie := SessionCookie("true", now, production)])
  {
  }

  /** `platformLogout`: only the platform session cookie goes. */
  method PlatformLogout(jar: CookieJar) returns (r: ActionResult)
    modifies jar
    ensures jar.cookies == old(jar.cookies) - {PlatformCookie}
    ensures r == RedirectTo("/platform/login")
  {
    jar.Delete(PlatformCookie);
    r := RedirectTo("/platform/login");
  }
}
