/** Password checks shared by the sign-in and password actions. bcrypt's
    `hash(p, 10)` is an uninterpreted function `hash` handed to each action,
    and `bcrypt.compare(p, h)` holds exactly when `hash(p) == h`. */
module Credentials {
  import opened Common
  import opened Store

  /** `bcrypt.compare(password, stored)`. */
  predicate Matches(hash: string -> string, password: string, stored: string) {
    hash(password) == stored
  }

  /** Every bcrypt hash is a 60-character string. */
  const BcryptLength: nat := 60

  ghost predicate BcryptShaped(hash: string -> string) {
    forall p :: |hash(p)| == BcryptLength
  }

  /** A stored value that is not 60 characters long matches no password. */
  lemma MalformedHashMatchesNothing(hash: string -> string, stored: string, password: string)
    requires BcryptShaped(hash) && |stored| != BcryptLength
    ensures !Matches(hash, password, stored)
  {
    assert |hash(password)| == BcryptLength;
  }

  /** Some venue holds this owner email and its stored password matches. */
  ghost predicate CredentialsAccepted(venues: map<Id, Venue>, hash: string -> string, email: string, password: string) {
    exists id :: id in venues && venues[id].ownerEmail == email && Matches(hash, password, venues[id].password)
  }

  /** With unique owner emails the accepting venue is the one `findUnique`
      returns. */
  lemma AcceptedByTheOwner(venues: map<Id, Venue>, hash: string -> string, email: string, password: string)
    requires UniqueOwnerEmails(venues)
    ensures CredentialsAccepted(venues, hash, email, password) <==>
      VenueByEmail(venues, email).Some? && Matches(hash, password, venues[VenueByEmail(venues, email).value].password)
  {
    if CredentialsAccepted(venues, hash, email, password) {
      var id :| id in venues && venues[id].ownerEmail == email && Matches(hash, password, venues[id].password);
      assert VenueByEmail(venues, email) == Some(id);
    }
  }
}
