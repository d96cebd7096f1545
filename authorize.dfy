/** The credentials provider's decision (src/auth.ts) and the session
    callbacks that carry its result (src/auth.config.ts). `MASTER_ADMIN_PASSWORD`
    is a parameter and zod's email check is the predicate `isEmail`. */
module Authorize {
  import opened Common
  import opened Store
  import opened Credentials

  /** What `authorize` returns for a signed-in user. */
  datatype User = User(id: string, name: string, email: string, role: string, venueId: Option<string>)

  /** The submitted credentials; an absent field is none. */
  datatype Submitted = Submitted(email: Option<string>, password: Option<string>, isAdmin: Option<string>)

  /** A user, `null`, or the configuration error thrown when the master
      password is not set. */
  datatype Decision = Accepted(user: User) | Rejected | ConfigurationError

  const AdminUser: User := User("admin", "Platform Admin", "admin@platform.com", "admin", None)

  /** The shortest password the venue path accepts. */
  const MinPasswordLength: nat := 6

  /** The zod schema of the venue path: a valid email and a password of at
      least six characters, counted in UTF-16 code units as zod's `min` does. */
  predicate WellFormed(c: Submitted, isEmail: string -> bool) {
    c.email.Some? && isEmail(c.email.value) && c.password.Some? && Utf16Length(c.password.value) >= MinPasswordLength
  }

  /** The user a venue signs in as. */
  function VenueUser(v: Venue): (u: User)
    ensures u.id == v.id && u.venueId == Some(v.id) && u.email == v.ownerEmail && u.name == v.name
    ensures u.role == "venue"
  {
    User(v.id, v.name, v.ownerEmail, "venue", Some(v.id))
  }

  /** `authorize`. With the hidden admin flag set, no venue is looked up: a
      missing master password is a configuration error, and otherwise the
      administrator is accepted exactly when the password equals the master
      password. Without the flag the credentials must be well formed, name a
      venue by owner email and match its stored hash. */
  function Authorize(c: Submitted, masterPassword: Option<string>, venues: map<Id, Venue>,
                     hash: string -> string, isEmail: string -> bool): (d: Decision)
    requires UniqueOwnerEmails(venues)
    ensures d.ConfigurationError? <==> c.isAdmin == Some("true") && !Truthy(masterPassword)
    ensures c.isAdmin == Some("true") && Truthy(masterPassword) ==>
      (d == Accepted(AdminUser) <==> c.password == masterPassword) &&
      (d == Rejected <==> c.password != masterPassword)
    ensures c.isAdmin != Some("true") ==>
      (d.Accepted? <==> WellFormed(c, isEmail) && CredentialsAccepted(venues, hash, c.email.value, c.password.value))
    ensures c.isAdmin != Some("true") && d.Accepted? ==>
      exists id :: id in venues && venues[id].ownerEmail == c.email.value && d.user == VenueUser(venues[id])
  {
    if c.isAdmin == Some("true") then
      if !Truthy(masterPassword) then ConfigurationError
      else if c.password == masterPassword then Accepted(AdminUser)
      else Rejected
    else if WellFormed(c, isEmail) then
      AcceptedByTheOwner(venues, hash, c.email.value, c.password.value);
      var venue := VenueByEmail(venues, c.email.value);
      if venue.Some? && Matches(hash, c.password.value, venues[venue.value].password) then
        Accepted(VenueUser(venues[venue.value]))
      else Rejected
    else Rejected
  }

  /** The administrator's role comes only from the flagged path, and a venue
      user is always tied to its own venue. */
  lemma RolesSeparated(c: Submitted, masterPassword: Option<string>, venues: map<Id, Venue>,
                       hash: string -> string, isEmail: string -> bool)
    requires UniqueOwnerEmails(venues) && forall id :: id in venues ==> venues[id].id == id
    ensures var d := Authorize(c, masterPassword, venues, hash, isEmail);
      d.Accepted? ==>
        (d.user.role == "admin" <==> c.isAdmin == Some("true")) &&
        (d.user.role == "venue" ==> d.user.venueId == Some(d.user.id) && d.user.id in venues)
  {
    var d := Authorize(c, masterPassword, venues, hash, isEmail);
    if d.Accepted? && c.isAdmin != Some("true") {
      var id :| id in venues && venues[id].ownerEmail == c.email.value && d.user == VenueUser(venues[id]);
      assert d.user.role == "venue" && venues[id].id == id;
    }
  }

  /** The JWT the session is kept in; `claims` stands for its other fields. */
  class Token {
    var role: Option<string>
    var venueId: Option<string>
    var claims: map<string, string>

    constructor (claims: map<string, string>)
      ensures this.claims == claims && role.None? && venueId.None?
    {
      this.claims := claims;
      role, venueId := None, None;
    }
  }

  /** `session.user`. */
  class SessionUser {
    var name: Option<string>
    var email: Option<string>
    var role: Option<string>
    var venueId: Option<string>

    constructor (name: Option<string>, email: Option<string>)
      ensures this.name == name && this.email == email && role.None? && venueId.None?
    {
      this.name, this.email := name, email;
      role, venueId := None, None;
    }
  }

  class Session {
    var user: SessionUser?

    constructor (user: SessionUser?)
      ensures this.user == user
    {
      this.user := user;
    }
  }

  /** The `jwt` callback: at sign-in it copies the user's role and venue onto
      the token, in place; otherwise the token is returned untouched. */
  method Jwt(token: Token, user: Option<User>) returns (t: Token)
    modifies token
    ensures t == token
    ensures user.Some? ==> token.role == Some(user.value.role) && token.venueId == user.value.venueId
    ensures user.None? ==> token.role == old(token.role) && token.venueId == old(token.venueId)
    ensures token.claims == old(token.claims)
  {
    if user.Some? {
      token.role := Some(user.value.role);
      token.venueId := user.value.venueId;
    }
    t := token;
  }

  /** The `session` callback: with a token and a session user, the token's
      role and venue are copied onto the user, in place; nothing else moves. */
  method SessionCallback(session: Session, token: Token?) returns (s: Session)
    modifies session.user
    ensures s == session && session.user == old(session.user)
    ensures token != null && session.user != null ==>
      session.user.role == token.role && session.user.venueId == token.venueId
    ensures token == null && session.user != null ==>
      session.user.role == old(session.user.role) && session.user.venueId == old(session.user.venueId)
    ensures session.user != null ==> session.user.name == old(session.user.name) && session.user.email == old(session.user.email)
  {
    var u := session.user;
    if token != null && u != null {
      u.role := token.role;
      u.venueId := token.venueId;
    }
    s := session;
  }

  /** Sign-in, token and session together: the session carries the role and
      venue `authorize` decided on, through the token. */
  method SignInSession(decision: Decision, token: Token, session: Session) returns (s: Session)
    requires decision.Accepted? && session.user != null
    modifies token, session.user
    ensures s.user != null && s.user.role == Some(decision.user.role) && s.user.venueId == decision.user.venueId
  {
    var t := Jwt(token, Some(decision.user));
    s := SessionCallback(session, t);
  }
}
