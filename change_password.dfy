/** A venue owner changing their own password (src/app/actions/change-password.ts):
    the input is checked first, then the session, then the current password. */
module ChangePassword {
  import opened Common
  import opened Store
  import opened Cookies
  import opened Credentials

  const MinLength: nat := 8

  /** The input checks, in order; none when the form is well formed. The
      length is JavaScript's `length`, in UTF-16 code units. */
  function InputError(current: string, next: string, confirm: string): (e: Option<string>)
    ensures e.None? <==> current != "" && next != "" && next == confirm && Utf16Length(next) >= MinLength
    ensures current == "" || next == "" || confirm == "" ==> e == Some("All fields are required")
    ensures current != "" && next != "" && confirm != "" && next != confirm ==> e == Some("New passwords do not match")
    ensures current != "" && next != "" && next == confirm && Utf16Length(next) < MinLength ==>
      e == Some("Password must be at least 8 characters")
  {
    if current == "" || next == "" || confirm == "" then Some("All fields are required")
    else if next != confirm then Some("New passwords do not match")
    else if Utf16Length(next) < MinLength then Some("Password must be at least 8 characters")
    else None
  }

  /** Four emoji are eight UTF-16 code units, so they are long enough,
      although they are only four characters. */
  lemma AstralPasswordLongEnough()
    ensures |"\U{1F600}\U{1F600}\U{1F600}\U{1F600}"| == 4
    ensures InputError("current", "\U{1F600}\U{1F600}\U{1F600}\U{1F600}", "\U{1F600}\U{1F600}\U{1F600}\U{1F600}").None?
  {
    var p := "\U{1F600}\U{1F600}\U{1F600}\U{1F600}";
    assert p[..3][..2][..1][..0] == [];
    assert Utf16Length(p[..1]) == 2;
    assert Utf16Length(p[..2]) == 4 by { assert p[..2][..1] == p[..1]; }
    assert Utf16Length(p[..3]) == 6 by { assert p[..3][..2] == p[..2]; }
    assert Utf16Length(p) == 8 by { assert p[..3] == p[..|p| - 1]; }
  }

  /** `changePassword`. A malformed form is refused before the session is
      looked at; then a missing `venue_id` cookie, an unknown venue and a
      wrong current password are refused in that order. Every refusal leaves
      the venues as they were; success replaces only that venue's password,
      by the hash of the new one. */
  method ChangePassword(store: RecordStore, cookies: map<string, Cookie>, current: string, next: string,
                        confirm: string, hash: string -> string) returns (r: ActionResult)
    requires store.Valid()
    modifies store`venues
    ensures store.Valid()
    ensures InputError(current, next, confirm).Some? ==> r == Failure(InputError(current, next, confirm).value)
    ensures InputError(current, next, confirm).None? && !Truthy(ValueOf(cookies, VenueCookie)) ==>
      r == Failure("Not authenticated")
    ensures InputError(current, next, confirm).None? && Truthy(ValueOf(cookies, VenueCookie)) ==>
      var id := ValueOf(cookies, VenueCookie).value;
      && (id !in old(store.venues) ==> r == Failure("Venue not found"))
      && (id in old(store.venues) && !Matches(hash, current, old(store.venues)[id].password) ==>
            r == Failure("Current password is incorrect"))
      && (id in old(store.venues) && Matches(hash, current, old(store.venues)[id].password) ==>
            r == Done("Password changed successfully") &&
            store.venues == old(store.venues)[id := old(store.venues)[id].(password := hash(next))])
    ensures r.Failure? ==> store.venues == old(store.venues)
    ensures r.Failure? || r == Done("Password changed successfully")
  {
    var problem := InputError(current, next, confirm);
    if problem.Some? {
      return Failure(problem.value);
    }
    var venueId := ValueOf(cookies, VenueCookie);
    if !Truthy(venueId) {
      return Failure("Not authenticated");
    }
    if venueId.value !in store.venues {
      return Failure("Venue not found");
    }
    if !Matches(hash, current, store.venues[venueId.value].password) {
      return Failure("Current password is incorrect");
    }
    var ok := store.SetVenuePassword(venueId.value, hash(next));
    r := Done("Password changed successfully");
  }

  /** After a change the old password, unless it hashes the same, no longer
      signs in, and the new one does. */
  lemma ChangeSwapsSignIn(venues: map<Id, Venue>, id: Id, current: string, next: string, hash: string -> string)
    requires id in venues && UniqueOwnerEmails(venues) && hash(current) != hash(next)
    ensures var after := venues[id := venues[id].(password := hash(next))];
      && CredentialsAccepted(after, hash, venues[id].ownerEmail, next)
      && !CredentialsAccepted(after, hash, venues[id].ownerEmail, current)
  {
    var after := venues[id := venues[id].(password := hash(next))];
    assert after[id].ownerEmail == venues[id].ownerEmail && Matches(hash, next, after[id].password);
    forall o | o in after && after[o].ownerEmail == venues[id].ownerEmail
      ensures !Matches(hash, current, after[o].password)
    {
      assert o in venues && venues[o].ownerEmail == venues[id].ownerEmail;
    }
  }
}
