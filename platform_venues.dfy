/** The platform administrator's venue actions
    (src/app/actions/platform-venues.ts): registering a venue, removing it
    with its events, editing it, and resetting its password. Administrator
    rights are the `platform_admin` cookie; `bcrypt.hash` is the parameter
    `hash`. */
module PlatformVenues {
  import opened Common
  import opened Store
  import opened Cookies
  import opened Credentials

  /** The shortest password `resetVenuePassword` accepts. */
  const MinResetLength: nat := 8

  /** `createVenue`. Name, owner email and password are required; an owner
      email already held is refused before any write; otherwise one venue is
      added holding the hash of the password. The action asks for no
      administrator session. The store's own refusal of a taken email cannot
      arise after the lookup, since each action runs alone. */
  method CreateVenue(store: RecordStore, name: string, location: string, kind: string,
                     ownerEmail: string, password: string, hash: string -> string)
      returns (r: ActionResult, created: Option<Id>)
    requires store.Valid()
    modifies store`venues, store`clock
    ensures store.Valid()
    ensures name == "" || ownerEmail == "" || password == "" ==>
      r == Failure("Missing Required Fields") && created.None?
    ensures name != "" && ownerEmail != "" && password != "" && EmailTaken(old(store.venues), ownerEmail) ==>
      r == Failure("Email already in use") && created.None?
    ensures created.None? ==> store.venues == old(store.venues)
    ensures r == Success <==> created.Some?
    ensures created.Some? ==>
      && name != "" && ownerEmail != "" && password != "" && !EmailTaken(old(store.venues), ownerEmail)
      && created.value !in old(store.venues)
      && store.venues == old(store.venues)[created.value :=
           Venue(created.value, name, location, kind, ownerEmail, hash(password), old(store.clock))]
  {
    if name == "" || ownerEmail == "" || password == "" {
      return Failure("Missing Required Fields"), None;
    }
    if VenueByEmail(store.venues, ownerEmail).Some? {
      return Failure("Email already in use"), None;
    }
    created := store.CreateVenue(name, location, kind, ownerEmail, hash(password));
    r := Success;
  }

  /** The events that survive removing venue `id`. */
  function WithoutVenue(events: map<Id, Event>, id: Id): (rest: map<Id, Event>)
    ensures forall e :: e in rest <==> e in events && events[e].venueId != id
    ensures forall e :: e in rest ==> rest[e] == events[e]
  {
    map e | e in events && events[e].venueId != id :: events[e]
  }

  /** The events of one venue. */
  function EventsOf(events: map<Id, Event>, venue: Id): set<Id> {
    set e | e in events && events[e].venueId == venue
  }

  /** The cascade empties the removed venue and leaves every other venue's
      events as they were. */
  lemma CascadeIsolated(events: map<Id, Event>, id: Id, other: Id)
    requires other != id
    ensures EventsOf(WithoutVenue(events, id), id) == {}
    ensures EventsOf(WithoutVenue(events, id), other) == EventsOf(events, other)
  {
    var rest := WithoutVenue(events, id);
    assert forall e :: e in EventsOf(rest, id) ==> false;
    assert forall e :: e in EventsOf(events, other) ==> e in rest && rest[e] == events[e];
  }

  /** When no event refers to the venue there is nothing to cascade. */
  lemma NothingToCascade(venues: map<Id, Venue>, events: map<Id, Event>, id: Id)
    requires EventsHaveVenues(venues, events) && id !in venues
    ensures WithoutVenue(events, id) == events
  {
    var rest := WithoutVenue(events, id);
    assert forall e :: e in events ==> events[e].venueId in venues;
    assert rest.Keys == events.Keys;
  }

  /** `deleteVenue`. Only the administrator may; it first deletes the venue's
      events and then the venue, and reports failure when there is no such
      venue (by then nothing was removed, because every event names an
      existing venue). */
  method DeleteVenue(store: RecordStore, cookies: map<string, Cookie>, id: Id) returns (r: ActionResult)
    requires store.Valid()
    modifies store`venues, store`events
    ensures store.Valid()
    ensures !HasPlatformCookie(cookies) ==>
      r == Failure("Unauthorized") && store.venues == old(store.venues) && store.events == old(store.events)
    ensures HasPlatformCookie(cookies) && id !in old(store.venues) ==>
      r == Failure("Failed to delete venue") && store.venues == old(store.venues) && store.events == old(store.events)
    ensures HasPlatformCookie(cookies) && id in old(store.venues) ==>
      r == Success && store.venues == old(store.venues) - {id} && store.events == WithoutVenue(old(store.events), id)
  {
    if !HasPlatformCookie(cookies) {
      return Failure("Unauthorized");
    }
    if id !in store.venues {
      NothingToCascade(store.venues, store.events, id);
    }
    ghost var before := store.events;
    var doomed := (ev: Event) => ev.venueId == id;
    store.DeleteEventsWhere(doomed);
    DoomedAreTheVenues(before, doomed, id);
    var ok := store.DeleteVenue(id);
    r := if ok then Success else Failure("Failed to delete venue");
  }

  /** Deleting the events a predicate dooms is the cascade when the predicate
      picks exactly the venue's events. */
  lemma DoomedAreTheVenues(events: map<Id, Event>, doomed: Event -> bool, id: Id)
    requires forall ev :: doomed(ev) <==> ev.venueId == id
    ensures (map e | e in events && !doomed(events[e]) :: events[e]) == WithoutVenue(events, id)
  {
  }

  /** The venue row `updateVenue` writes, with the password column as given. */
  function Edited(v: Venue, name: string, location: string, kind: string, ownerEmail: string,
                  password: string): (w: Venue)
    ensures w.id == v.id && w.created == v.created
    ensures w.name == name && w.location == location && w.kind == kind
    ensures w.ownerEmail == ownerEmail && w.password == password
  {
    v.(name := name, location := location, kind := kind, ownerEmail := ownerEmail, password := password)
  }

  /** `updateVenue` as written. Only the administrator may; the five columns
      are overwritten, and the store refuses a missing venue or an owner email
      held by another venue. The password column receives the submitted
      password itself, not its hash. */
  method UpdateVenue(store: RecordStore, cookies: map<string, Cookie>, id: Id, name: string,
                     location: string, kind: string, ownerEmail: string, password: string)
      returns (r: ActionResult)
    requires store.Valid()
    modifies store`venues
    ensures store.Valid()
    ensures !HasPlatformCookie(cookies) ==> r == Failure("Unauthorized") && store.venues == old(store.venues)
    ensures r == Failure("Failed to update venue") ==> store.venues == old(store.venues)
    ensures HasPlatformCookie(cookies) ==>
      (r == Success <==> id in old(store.venues) && !EmailHeldByOther(old(store.venues), id, ownerEmail))
    ensures r == Success ==>
      store.venues == old(store.venues)[id := Edited(old(store.venues)[id], name, location, kind, ownerEmail, password)]
    ensures r == Success || r == Failure("Unauthorized") || r == Failure("Failed to update venue")
  {
    if !HasPlatformCookie(cookies) {
      return Failure("Unauthorized");
    }
    var ok := store.UpdateVenue(id, name, location, kind, ownerEmail, password);
    r := if ok then Success else Failure("Failed to update venue");
  }

  /** Some venue other than `id` holds this owner email. */
  predicate EmailHeldByOther(venues: map<Id, Venue>, id: Id, email: string) {
    exists o :: o in venues && o != id && venues[o].ownerEmail == email
  }

  /** After `updateVenue` with a password shorter than a bcrypt hash, that
      password no longer signs the venue in: sign-in compares the hash of
      the password with the stored column, which now holds the password. */
  lemma PlainPasswordLocksOut(venues: map<Id, Venue>, id: Id, name: string, location: string, kind: string,
                              ownerEmail: string, password: string, hash: string -> string)
    requires id in venues && !EmailHeldByOther(venues, id, ownerEmail)
    requires BcryptShaped(hash) && |password| < BcryptLength
    ensures !CredentialsAccepted(venues[id := Edited(venues[id], name, location, kind, ownerEmail, password)],
                                 hash, ownerEmail, password)
  {
    var after := venues[id := Edited(venues[id], name, location, kind, ownerEmail, password)];
    forall o | o in after && after[o].ownerEmail == ownerEmail
      ensures !Matches(hash, password, after[o].password)
    {
      assert o == id;
      MalformedHashMatchesNothing(hash, password, password);
    }
  }

  /** `updateVenue` as evidently intended. The edit form is prefilled with the
      stored column, so a password left as it was is kept; a password that
      was typed in is hashed as `createVenue` and `resetVenuePassword` do. */
  method UpdateVenueHashed(store: RecordStore, cookies: map<string, Cookie>, id: Id, name: string,
                           location: string, kind: string, ownerEmail: string, password: string,
                           hash: string -> string) returns (r: ActionResult)
    requires store.Valid()
    modifies store`venues
    ensures store.Valid()
    ensures !HasPlatformCookie(cookies) ==> r == Failure("Unauthorized") && store.venues == old(store.venues)
    ensures r == Failure("Failed to update venue") ==> store.venues == old(store.venues)
    ensures HasPlatformCookie(cookies) ==>
      (r == Success <==> id in old(store.venues) && !EmailHeldByOther(old(store.venues), id, ownerEmail))
    ensures r == Success ==>
      store.venues == old(store.venues)[id := Edited(old(store.venues)[id], name, location, kind, ownerEmail,
                                                     if password == old(store.venues)[id].password then password
                                                     else hash(password))]
    ensures r == Success && password != old(store.venues)[id].password ==>
      CredentialsAccepted(store.venues, hash, ownerEmail, password)
    ensures r == Success && password == old(store.venues)[id].password ==>
      forall p :: Matches(hash, p, old(store.venues)[id].password) ==> CredentialsAccepted(store.venues, hash, ownerEmail, p)
  {
    if !HasPlatformCookie(cookies) {
      return Failure("Unauthorized");
    }
    var column := if id in store.venues && password == store.venues[id].password then password else hash(password);
    ghost var before := store.venues;
    var ok := store.UpdateVenue(id, name, location, kind, ownerEmail, column);
    r := if ok then Success else Failure("Failed to update venue");
    if ok {
      assert store.venues[id].ownerEmail == ownerEmail && store.venues[id].password == column;
      if password != before[id].password {
        assert Matches(hash, password, store.venues[id].password);
      } else {
        forall p | Matches(hash, p, before[id].password)
          ensures CredentialsAccepted(store.venues, hash, ownerEmail, p)
        {
          assert Matches(hash, p, store.venues[id].password);
        }
      }
    }
  }

  /** `resetVenuePassword`. A caller without the administrator cookie, a
      password shorter than eight UTF-16 code units, and a missing venue all throw;
      otherwise only that venue's password column changes, to the hash. */
  method ResetVenuePassword(store: RecordStore, cookies: map<string, Cookie>, venueId: Id, newPassword: string,
                            hash: string -> string) returns (r: ActionResult)
    requires store.Valid()
    modifies store`venues
    ensures store.Valid()
    ensures r.Thrown? <==> !HasPlatformCookie(cookies) || Utf16Length(newPassword) < MinResetLength || venueId !in old(store.venues)
    ensures r.Thrown? ==> store.venues == old(store.venues)
    ensures !r.Thrown? ==>
      r == Success && store.venues == old(store.venues)[venueId := old(store.venues)[venueId].(password := hash(newPassword))]
  {
    if !HasPlatformCookie(cookies) {
      return Thrown;
    }
    if newPassword == "" || Utf16Length(newPassword) < MinResetLength {
      return Thrown;
    }
    var ok := store.SetVenuePassword(venueId, hash(newPassword));
    r := if ok then Success else Thrown;
  }

  /** After a reset the new password signs the venue in. */
  lemma ResetOpensSignIn(venues: map<Id, Venue>, venueId: Id, newPassword: string, hash: string -> string)
    requires venueId in venues
    ensures CredentialsAccepted(venues[venueId := venues[venueId].(password := hash(newPassword))],
                                hash, venues[venueId].ownerEmail, newPassword)
  {
    var after := venues[venueId := venues[venueId].(password := hash(newPassword))];
    assert after[venueId].ownerEmail == venues[venueId].ownerEmail && Matches(hash, newPassword, after[venueId].password);
  }
}
